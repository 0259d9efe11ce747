/**
 Whole runs of the expression builder followed by the encryption pass (internal/expr/builder.go,
 internal/encryption/update_expression.go), in terms of the calls that were made.
 */
module SealedRuns {
  import opened Text
  import opened Attributes
  import opened BuilderRuns
  import opened ConditionMeaning
  import opened ExprBuilder
  import opened Placeholders
  import opened UpdateClauses
  import opened UpdateMeaning
  import opened UpdateSealing
  import UE = UpdateEncryption
  import UT = UpdateText

  /** An update call that is accepted. */
  predicate Counts(p: Policy, c: Call) {
    IsUpdate(c) && DoneBy(p, c) != []
  }

  /** What the caller can check before the call: an encrypted attribute is only assigned whole, or reached inside. */
  predicate Permitted(c: Call, encrypted: set<string>)
    requires IsUpdate(c)
  {
    match c
    case Set(field, _) =>
      Head(ElementOf(field).0) in encrypted ==> '.' !in ElementOf(field).0 && ElementOf(field).1.None?
    case Function(field, fn, _) => Head(field) in encrypted ==> '.' !in field && fn == "if_not_exists"
    case Add(field, _) => Head(field) in encrypted ==> '.' in field
    case Delete(field, _) => Head(field) in encrypted ==> '.' in field
    case Remove(_) => true
  }

  /** The calls the pass lets reach an encrypted attribute without encrypting anything. */
  predicate Evades(c: Call, encrypted: set<string>)
    requires IsUpdate(c)
  {
    match c
    case Add(field, _) => '.' in field && Head(field) in encrypted
    case Delete(field, _) => '.' in field && Head(field) in encrypted
    case Remove(field) => Head(ElementOf(field).0) in encrypted
    case _ => false
  }

  lemma FieldHead(field: string, encrypted: set<string>)
    ensures IsEncrypted(FieldPath(field), encrypted) <==> Head(field) in encrypted
    ensures TopLevel(FieldPath(field)) <==> '.' !in field
  {
    SplitHead(field);
    assert Steps(Split(field, '.'))[0] == FieldStep(Split(field, '.')[0]);
  }

  lemma PermittedExactly(p: Policy, c: Call, encrypted: set<string>)
    requires Counts(p, c)
    ensures Permitted(c, encrypted) <==> Allowed(DoneBy(p, c)[0], encrypted)
    ensures Permitted(c, encrypted) ==> (Evades(c, encrypted) <==> Exposed(DoneBy(p, c)[0], encrypted))
  {
    FieldHead(Subject(c), encrypted);
  }

  /** An effect that reaches an encrypted attribute, other than by assigning it. */
  predicate Exposed(e: Effect, encrypted: set<string>) {
    !e.SetTo? && IsEncrypted(Reached(e), encrypted)
  }

  predicate Every(es: seq<Effect>, q: Effect -> bool) {
    forall i :: 0 <= i < |es| ==> q(es[i])
  }

  predicate EveryCall(p: Policy, calls: seq<Call>, q: Effect -> bool) {
    forall j :: 0 <= j < |calls| && Counts(p, calls[j]) ==> q(DoneBy(p, calls[j])[0])
  }

  /** A property of every effect of a run is a property of every accepted update call. */
  lemma {:induction false} EveryEffect(p: Policy, calls: seq<Call>, q: Effect -> bool)
    ensures Every(EffectsSaid(p, calls), q) <==> EveryCall(p, calls, q)
  {
    if calls != [] {
      var k := |calls| - 1;
      EveryEffect(p, calls[..k], q);
      EffectsNext(p, calls);
      EveryCallNext(p, calls, q);
      if Counts(p, calls[k]) {
        EveryOf(EffectsSaid(p, calls[..k]), DoneBy(p, calls[k])[0], q);
      } else {
        assert EffectsSaid(p, calls) == EffectsSaid(p, calls[..k]);
      }
    }
  }

  lemma EveryCallNext(p: Policy, calls: seq<Call>, q: Effect -> bool)
    requires calls != []
    ensures var k := |calls| - 1;
            EveryCall(p, calls, q) <==>
            EveryCall(p, calls[..k], q) && (Counts(p, calls[k]) ==> q(DoneBy(p, calls[k])[0]))
  {
    var k := |calls| - 1;
    assert forall j :: 0 <= j < k ==> calls[..k][j] == calls[j];
  }

  lemma EffectsNext(p: Policy, calls: seq<Call>)
    requires calls != []
    ensures var k := |calls| - 1;
            EffectsSaid(p, calls) ==
            EffectsSaid(p, calls[..k]) + if Counts(p, calls[k]) then [DoneBy(p, calls[k])[0]] else []
  {
  }

  lemma EveryOf(es: seq<Effect>, e: Effect, q: Effect -> bool)
    ensures Every(es + [e], q) <==> Every(es, q) && q(e)
  {
    if Every(es + [e], q) {
      assert forall i :: 0 <= i < |es| ==> es[i] == (es + [e])[i];
      assert (es + [e])[|es|] == e;
    }
  }

  /** Every accepted update call of the run is one the pass lets through. */
  ghost predicate AllPermitted(p: Policy, calls: seq<Call>, encrypted: set<string>) {
    forall j :: 0 <= j < |calls| && Counts(p, calls[j]) ==> Permitted(calls[j], encrypted)
  }

  lemma AllowedCalls(p: Policy, calls: seq<Call>, encrypted: set<string>)
    ensures AllAllowed(EffectsSaid(p, calls), encrypted) <==> AllPermitted(p, calls, encrypted)
  {
    EveryEffect(p, calls, e => Allowed(e, encrypted));
    forall j | 0 <= j < |calls| && Counts(p, calls[j])
      ensures Permitted(calls[j], encrypted) <==> Allowed(DoneBy(p, calls[j])[0], encrypted)
    {
      PermittedExactly(p, calls[j], encrypted);
    }
  }

  /**
   ADD, DELETE and REMOVE of an accepted run leave every encrypted attribute untouched if and only if no accepted call
   removes one or adds to or deletes from a path inside one.
   */
  lemma LeftAloneExactly(p: Policy, calls: seq<Call>, encrypted: set<string>)
    requires AllPermitted(p, calls, encrypted)
    ensures (forall i :: 0 <= i < |EffectsSaid(p, calls)| ==> !Exposed(EffectsSaid(p, calls)[i], encrypted)) <==>
            (forall j :: 0 <= j < |calls| && Counts(p, calls[j]) ==> !Evades(calls[j], encrypted))
  {
    EveryEffect(p, calls, e => !Exposed(e, encrypted));
    forall j | 0 <= j < |calls| && Counts(p, calls[j])
      ensures Evades(calls[j], encrypted) <==> Exposed(DoneBy(p, calls[j])[0], encrypted)
    {
      PermittedExactly(p, calls[j], encrypted);
    }
  }

  /** The update that is sent: clauses that do what the calls asked for, with the values that have to be encrypted. */
  ghost predicate SentSealed(
    c: Components, es: seq<Effect>, encrypted: set<string>, seal: UE.Seal, calls: nat, out: UE.State)
  {
    exists cs ::
      && Prints(c.update, cs) && AllDo(cs, c.names, c.values, es)
      && AllSent(cs, es, c.names, encrypted, seal, UE.State(c.values, calls), out)
  }

  lemma BuiltSealed(b: Builder, c: Components, encrypted: set<string>, seal: UE.Seal, calls: nat)
    requires b.Sound() && b.UpdatesSound() && "" !in encrypted
    requires c.names == b.names && c.values == b.values && Prints(c.update, b.added)
    ensures (forall n, a, v :: seal(n, a, v).Ok?) ==>
              (UE.PassText(c.update, c.names, encrypted, seal, UE.State(c.values, calls)).ok <==>
               AllAllowed(b.effects, encrypted))
    ensures UE.PassText(c.update, c.names, encrypted, seal, UE.State(c.values, calls)).ok ==>
              SentSealed(c, b.effects, encrypted, seal, calls,
                         UE.PassText(c.update, c.names, encrypted, seal, UE.State(c.values, calls)).state)
  {
    var naming := Naming(b.names, b.nameCounter);
    assert Changes(b.Contents().update, b.State()) && SoundBindings(b.State());
    assert Working(b.added, b.effects, naming, b.values);
    if forall n, a, v :: seal(n, a, v).Ok? {
      AcceptedExactly(c.update, b.added, b.effects, naming, b.values, encrypted, seal, calls);
    }
    if UE.PassText(c.update, c.names, encrypted, seal, UE.State(c.values, calls)).ok {
      SealedExactly(c.update, b.added, b.marks, b.effects, naming, encrypted, seal, UE.State(c.values, calls));
    }
  }

  method BuildAll(policy: Policy, calls: seq<Call>, ghost words: set<string>) returns (b: Builder, c: Components)
    requires Vocabulary(policy, words) && Proper(policy, words, calls)
    ensures fresh(b) && b.policy == policy && b.Sound() && b.UpdatesSound()
    ensures c.names == b.names && c.values == b.values && Prints(c.update, b.added)
    ensures b.effects == EffectsSaid(policy, calls)
  {
    b := PerformAll(policy, calls, words);
    c := b.Build();
  }

  /**
   For every run of Add calls: with an encryption service that does not fail, the update is let through exactly when
   every accepted update call is permitted; and then every value assigned to an encrypted attribute is sent encrypted
   exactly once under that attribute's name, and everything else is sent as it was asked for.
   */
  method RunSealed(policy: Policy, calls: seq<Call>, encrypted: set<string>, svc: UE.Service, ghost words: set<string>)
    returns (c: Components, ok: bool, sent: Values)
    requires Vocabulary(policy, words) && Proper(policy, words, calls) && "" !in encrypted
    modifies svc
    ensures (forall n, a, v :: svc.seal(n, a, v).Ok?) ==> (ok <==> AllPermitted(policy, calls, encrypted))
    ensures ok ==>
              SentSealed(c, EffectsSaid(policy, calls), encrypted, svc.seal, old(svc.calls), UE.State(sent, svc.calls))
  {
    var b;
    b, c := BuildAll(policy, calls, words);
    var attrs := new UE.ExpressionValues(c.values);
    ok := UE.EncryptUpdateExpressionValues(svc, encrypted, c.update, c.names, attrs);
    sent := attrs.values;
    BuiltSealed(b, c, encrypted, svc.seal, old(svc.calls));
    AllowedCalls(policy, calls, encrypted);
  }
}
