/** UpdateBuilder (pkg/query/update_builder.go): the key it addresses and the condition an update is sent with. */
module UpdateExecute {
  import opened Text
  import opened Attributes
  import opened ConditionGrammar
  import opened ConditionMeaning
  import opened ConditionMerge
  import opened ConditionPrinter
  import opened Placeholders
  import opened ExprBuilder
  import opened QueryCompile
  import opened UpdateClauses
  import opened UpdateMeaning
  import BuilderRuns
  import FilterOrder
  import KeyConditions

  /** A condition of the update builder with the operator it was added with. */
  datatype Guard = Guard(op: Junction, field: string, operator: string, value: GoValue)

  function StoredName(m: Metadata, field: string): string {
    match Lookup(m, field)
    case Some(a) => a.dbName
    case None => field
  }

  function GuardConds(m: Metadata, gs: seq<Guard>): (cs: seq<Cond>)
    ensures |cs| == |gs|
    ensures forall i :: 0 <= i < |gs| ==> cs[i] == Cond(StoredName(m, gs[i].field), gs[i].operator, gs[i].value)
  {
    seq(|gs|, i requires 0 <= i < |gs| => Cond(StoredName(m, gs[i].field), gs[i].operator, gs[i].value))
  }

  /** ExecuteWithResult uses the stored operators; Execute uses AND throughout. */
  function GuardOps(gs: seq<Guard>, stored: bool): (ops: seq<Junction>)
    ensures |ops| == |gs|
  {
    seq(|gs|, i requires 0 <= i < |gs| => if stored then gs[i].op else ConditionMeaning.AND)
  }

  function Behind(own: Filters, ops: seq<Junction>): seq<Junction> {
    if own.ms == [] && ops != [] then own.ops + ops[1..] else own.ops + ops
  }

  ghost function GuardsOf(b: Builder): Filters
    reads b
  {
    Filters(b.conditionMeanings, b.conditionOperators)
  }

  /** The bindings once these conditions have been built, or refused. */
  function BoundBy(p: Policy, b: Bindings, cs: seq<Cond>): Bindings {
    if cs == [] then b
    else
      var c := cs[|cs| - 1];
      BuiltBindings(p, BoundBy(p, b, cs[..|cs| - 1]), c.field, c.operator, c.value)
  }

  lemma BoundNext(p: Policy, b: Bindings, cs: seq<Cond>, i: nat)
    requires i < |cs|
    ensures BoundBy(p, b, cs[..i + 1]) ==
            BuiltBindings(p, BoundBy(p, b, cs[..i]), cs[i].field, cs[i].operator, cs[i].value)
  {
    assert cs[..i + 1][..i] == cs[..i];
  }

  /** A guard or write condition is added with its operator; nothing bound before changes. */
  method ApplyGuard(b: Builder, op: Junction, c: Cond, ghost words: set<string>) returns (ok: bool)
    requires b.Valid()
    modifies b`names, b`values, b`nameCounter, b`valueCounter, b`conditions, b`conditionOperators, b`conditionMeanings
    ensures b.Valid()
    ensures ok <==> AcceptsCond(b.policy, c)
    ensures b.conditionMeanings == old(b.conditionMeanings) + if ok then SaidAll(b.policy, [c]) else []
    ensures ok ==> b.conditionOperators == Behind(old(GuardsOf(b)), [op])
    ensures b.State() == BuiltBindings(b.policy, old(b.State()), c.field, c.operator, c.value)
    ensures old(Speaking(b, words)) && SpokenCond(b.policy, words, c) ==>
              Speaking(b, words) && Extends(old(b.names), b.names) && Extends(old(b.values), b.values)
  {
    ghost var spoken, before := Speaking(b, words) && SpokenCond(b.policy, words, c), b.State();
    ghost var ref;
    if spoken {
      BuilderRuns.SpokenIsClear(b.policy, words, b.names, c.field);
    }
    ok, ref := b.AddConditionExpressionWithOp(op, c.field, c.operator, c.value);
    BuiltAfter(b.policy, before, c.field, c.operator, c.value, b.State(), ref);
    if spoken {
      BuilderRuns.BuiltWithin(b.policy, words, before, c.field, c.operator, c.value, b.State(), ref);
    }
  }

  lemma BehindNext(own: Filters, ops: seq<Junction>, more: seq<Meaning>, op: Junction)
    requires |more| == |ops|
    ensures Behind(Filters(own.ms + more, Behind(own, ops)), [op]) == Behind(own, ops + [op])
  {
    if own.ms == [] && ops != [] {
      assert (ops + [op])[1..] == ops[1..] + [op];
    }
  }

  lemma BehindNone(n: nat)
    ensures Behind(Filters([], []), AllAnd(n)) == KeyOps(n)
  {
    if n > 0 {
      assert AllAnd(n)[1..] == AllAnd(n - 1);
      assert [] + AllAnd(n)[1..] == AllAnd(n)[1..];
    }
  }

  /** What a builder holds once the first `i` conditions are added to it. */
  ghost predicate Guarding(p: Policy, start: Bindings, own: Filters, cs: seq<Cond>, ops: seq<Junction>, i: nat,
      now: Bindings, guards: Filters)
    requires i <= |cs| == |ops|
  {
    && AllAccepted(p, cs[..i]) && guards == Filters(own.ms + SaidAll(p, cs[..i]), Behind(own, ops[..i]))
    && now == BoundBy(p, start, cs[..i])
  }

  lemma OpsNext(own: Filters, cs: seq<Meaning>, ops: seq<Junction>, i: nat, op: Junction)
    requires i < |ops| && |cs| == i && op == ops[i]
    ensures Behind(Filters(own.ms + cs, Behind(own, ops[..i])), [op]) == Behind(own, ops[..i + 1])
  {
    BehindNext(own, ops[..i], cs, op);
    assert ops[..i + 1] == ops[..i] + [op];
  }

  lemma GuardAdded(p: Policy, start: Bindings, own: Filters, cs: seq<Cond>, ops: seq<Junction>, i: nat, now: Bindings,
      guards: Filters)
    requires i < |cs| == |ops| && Guarding(p, start, own, cs, ops, i, now, guards) && AcceptsCond(p, cs[i])
    ensures Guarding(p, start, own, cs, ops, i + 1, BuiltBindings(p, now, cs[i].field, cs[i].operator, cs[i].value),
                  Filters(guards.ms + SaidAll(p, [cs[i]]), Behind(guards, [ops[i]])))
  {
    var said := SaidAll(p, cs[..i]);
    SaidNext(p, cs, i);
    OpsNext(own, said, ops, i, ops[i]);
    assert own.ms + said + SaidAll(p, [cs[i]]) == own.ms + (said + SaidAll(p, [cs[i]]));
    BoundNext(p, start, cs, i);
  }

  method ApplyGuards(b: Builder, cs: seq<Cond>, ops: seq<Junction>, ghost words: set<string>) returns (ok: bool)
    requires b.Valid() && |ops| == |cs|
    modifies b`names, b`values, b`nameCounter, b`valueCounter, b`conditions, b`conditionOperators, b`conditionMeanings
    ensures b.Valid()
    ensures ok <==> AllAccepted(b.policy, cs)
    ensures ok ==> b.conditionMeanings == old(b.conditionMeanings) + SaidAll(b.policy, cs)
    ensures ok ==> b.conditionOperators == Behind(old(GuardsOf(b)), ops)
    ensures ok ==> b.State() == BoundBy(b.policy, old(b.State()), cs)
    ensures old(Speaking(b, words)) && Spoken(b.policy, words, cs) ==>
              Speaking(b, words) && Extends(old(b.names), b.names) && Extends(old(b.values), b.values)
  {
    ghost var spoken, own, start := Speaking(b, words) && Spoken(b.policy, words, cs), GuardsOf(b), b.State();
    var i := 0;
    while i < |cs|
      invariant 0 <= i <= |cs| && b.Valid()
      invariant Guarding(b.policy, start, own, cs, ops, i, b.State(), GuardsOf(b))
      invariant spoken ==> Speaking(b, words) && Extends(old(b.names), b.names) && Extends(old(b.values), b.values)
    {
      ghost var now, guards := b.State(), GuardsOf(b);
      ok := ApplyGuard(b, ops[i], cs[i], words);
      if !ok {
        assert !AcceptsCond(b.policy, cs[i]);
        return;
      }
      GuardAdded(b.policy, start, own, cs, ops, i, now, guards);
      i := i + 1;
    }
    assert cs[..i] == cs && ops[..i] == ops;
    ok := true;
  }

  // ---- Truth under later bindings ----

  lemma {:induction false} ClosedFlat(ms: seq<Meaning>, ops: seq<Junction>)
    requires |ms| == |ops| + 1 && forall i :: 0 <= i < |ms| ==> Closed(ms[i])
    ensures Closed(FlatTree(ms, ops))
    decreases |ops|
  {
    if ops != [] {
      ClosedFlat(ms[1..], ops[1..]);
    }
  }

  lemma EmittedKept(text: string, own: Filters, names: Names, values: Values, names': Names, values': Values)
    requires OpsFit(own.ms, own.ops) && Emitted(text, names, values, own.ms, own.ops)
    requires forall i :: 0 <= i < |own.ms| ==> Closed(own.ms[i])
    requires Extends(names, names') && Extends(values, values')
    ensures Emitted(text, names', values', own.ms, own.ops) && Means(text, names', values')
  {
    if own.ms != [] {
      ClosedFlat(own.ms, own.ops);
      DenotesKept(text, names, values, names', values', FlatTree(own.ms, own.ops));
    }
  }

  lemma GuardsClosed(b: Builder)
    requires b.Valid() && b.Sound()
    ensures forall i :: 0 <= i < |b.conditionMeanings| ==> Closed(b.conditionMeanings[i])
  {
    assert Says(b.Contents().condition, b.State());
  }

  /** The sent condition holds exactly when the guards, the write conditions and the raw conditions all do. */
  ghost predicate Guarded(
    text: string, names: Names, values: Values, guards: Filters, write: seq<Meaning>, raws: seq<RawCondition>)
    requires OpsFit(guards.ms, guards.ops)
  {
    forall holds: Meaning -> bool ::
      TextHolds(text, names, values, holds) <==>
      Passes(guards.ms, guards.ops, holds) && AllHold(write, holds) && RawsHold(raws, names, values, holds)
  }

  lemma CombinedHolds(
    own: string, guards: Filters, base: string, write: Filters, raws: seq<RawCondition>, names: Names, values: Values)
    requires OpsFit(guards.ms, guards.ops) && Emitted(own, names, values, guards.ms, guards.ops)
    requires Means(own, names, values)
    requires OpsFit(write.ms, write.ops) && Emitted(base, names, values, write.ms, write.ops)
    requires Means(base, names, values)
    requires ConditionMeaning.OR !in write.ops && RawsMean(raws, names, values)
    ensures Guarded(ConjoinText(own, MergedText(base, raws)), names, values, guards, write.ms, raws)
  {
    forall holds: Meaning -> bool
      ensures TextHolds(ConjoinText(own, MergedText(base, raws)), names, values, holds) <==>
              Passes(guards.ms, guards.ops, holds) && AllHold(write.ms, holds) && RawsHold(raws, names, values, holds)
    {
      EmittedHolds(own, names, values, guards.ms, guards.ops, holds);
      EmittedHolds(base, names, values, write.ms, write.ops, holds);
      PassesAll(write.ms, write.ops, holds);
      MergedHolds(base, raws, names, values, holds);
      ConjoinHolds(own, MergedText(base, raws), names, values, holds);
    }
  }

  // ---- The builder ----

  datatype Sent = Sent(condition: string, names: Names, values: Values, update: string)

  /** The text of a query's write conditions. */
  ghost predicate Asked(p: Policy, write: seq<Cond>, base: string, names: Names, values: Values) {
    && AllAccepted(p, write)
    && Emitted(base, names, values, SaidAll(p, write), KeyOps(|write|))
    && forall i :: 0 <= i < |write| ==> Closed(SaidAll(p, write)[i])
  }

  predicate WriteOk(m: Metadata, p: Policy, c: Cond) {
    c.field != "" && !(Lookup(m, c.field).Some? && Lookup(m, c.field).value.encrypted) && AcceptsCond(p, c)
  }

  /** A write condition is taken exactly when the builder accepts it and its field names no encrypted attribute. */
  lemma WriteExactly(m: Metadata, p: Policy, c: Cond)
    requires Registered(m)
    ensures WriteOk(m, p, c) <==>
            && c.field != "" && AcceptsCond(p, c)
            && forall f :: f in m.attributes && m.attributes[f].dbName == Normalize(m, c).0.field ==>
                 !m.attributes[f].encrypted
  {
    if c.field != "" && c.field in m.attributes {
      FieldNames(m, c, m.attributes[c.field]);
    }
  }

  predicate AllWriteOk(m: Metadata, p: Policy, cs: seq<Cond>) {
    forall i :: 0 <= i < |cs| ==> WriteOk(m, p, cs[i])
  }

  /** The text of the write conditions a builder holds. */
  method Printed(b: Builder, write: seq<Cond>, ghost words: set<string>) returns (base: string)
    requires b.Valid() && AllAccepted(b.policy, write)
    requires b.conditionMeanings == SaidAll(b.policy, write) && b.conditionOperators == KeyOps(|write|)
    ensures Speaking(b, words) ==> Asked(b.policy, write, base, b.names, b.values)
  {
    var c := b.Build();
    base := c.condition;
    if Speaking(b, words) {
      GuardsClosed(b);
    }
  }

  /** Conditions joined by AND, on a builder without conditions. */
  method AddWrites(b: Builder, write: seq<Cond>, ghost words: set<string>)
    requires b.Valid() && b.conditionMeanings == [] && AllAccepted(b.policy, write)
    modifies b`names, b`values, b`nameCounter, b`valueCounter, b`conditions, b`conditionOperators, b`conditionMeanings
    ensures b.Valid() && b.State() == BoundBy(b.policy, old(b.State()), write)
    ensures b.conditionMeanings == SaidAll(b.policy, write) && b.conditionOperators == KeyOps(|write|)
    ensures old(Speaking(b, words)) && Spoken(b.policy, words, write) ==>
              Speaking(b, words) && Extends(old(b.names), b.names) && Extends(old(b.values), b.values)
  {
    ghost var p := b.policy;
    assert GuardsOf(b) == Filters([], []);
    BehindNone(|write|);
    var ok := ApplyGuards(b, write, AllAnd(|write|), words);
    assert [] + SaidAll(p, write) == SaidAll(p, write);
  }

  /** The text of conditions joined by AND, on a builder without conditions. */
  method AskText(b: Builder, write: seq<Cond>, ghost words: set<string>) returns (base: string)
    requires b.Valid() && b.conditionMeanings == [] && AllAccepted(b.policy, write)
    modifies b`names, b`values, b`nameCounter, b`valueCounter, b`conditions, b`conditionOperators, b`conditionMeanings
    ensures b.Valid() && b.State() == BoundBy(b.policy, old(b.State()), write)
    ensures old(Speaking(b, words)) && Spoken(b.policy, words, write) ==>
              && Extends(old(b.names), b.names) && Extends(old(b.values), b.values)
              && Asked(b.policy, write, base, b.names, b.values)
  {
    AddWrites(b, write, words);
    base := Printed(b, write, words);
  }

  /** The update's texts and the query's, each read under the bindings that are sent. */
  lemma SentHolds(
    p: Policy, c: Components, guards: Filters, base: string, names: Names, baseValues: Values, write: seq<Cond>,
    raws: seq<RawCondition>, values: Values)
    requires OpsFit(guards.ms, guards.ops) && Emitted(c.condition, c.names, c.values, guards.ms, guards.ops)
    requires forall i :: 0 <= i < |guards.ms| ==> Closed(guards.ms[i])
    requires Extends(c.names, names) && Extends(c.values, baseValues) && MergedInto(baseValues, raws, |raws|, values)
    requires Asked(p, write, base, names, baseValues)
    requires RawsMean(raws, c.names + names, c.values + values)
    ensures Guarded(ConjoinText(c.condition, MergedText(base, raws)), c.names + names, c.values + values, guards,
        SaidAll(p, write), raws)
  {
    assert c.names + names == names && c.values + values == values;
    var asked := Filters(SaidAll(p, write), KeyOps(|write|));
    EmittedKept(c.condition, guards, c.names, c.values, names, values);
    EmittedKept(base, asked, names, baseValues, names, values);
    CombinedHolds(c.condition, guards, base, asked, raws, names, values);
  }

  /** The update's own condition says what its guards say. */
  ghost predicate OwnEmitted(c: Components, guards: Filters) {
    && OpsFit(guards.ms, guards.ops) && Emitted(c.condition, c.names, c.values, guards.ms, guards.ops)
    && forall i :: 0 <= i < |guards.ms| ==> Closed(guards.ms[i])
  }

  /** What is sent once both parts are built. */
  lemma SentWorks(
    p: Policy, c: Components, guards: Filters, base: string, text: string, names: Names, baseValues: Values,
    write: seq<Cond>, raws: seq<RawCondition>, values: Values, es: seq<Effect>, sent: Sent)
    requires OwnEmitted(c, guards)
    requires Extends(c.names, names) && Extends(c.values, baseValues) && MergedInto(baseValues, raws, |raws|, values)
    requires Asked(p, write, base, names, baseValues) && text == MergedText(base, raws)
    requires sent == Sent(ConjoinText(c.condition, text), c.names + names, c.values + values, c.update)
    ensures RawsMean(raws, sent.names, sent.values) ==>
              Guarded(sent.condition, sent.names, sent.values, guards, SaidAll(p, write), raws)
    ensures UpdateDoes(c.update, c.names, c.values, es) ==> UpdateDoes(sent.update, sent.names, sent.values, es)
  {
    if RawsMean(raws, sent.names, sent.values) {
      SentHolds(p, c, guards, base, names, baseValues, write, raws, values);
    }
    if UpdateDoes(c.update, c.names, c.values, es) {
      assert Extends(c.names, sent.names) && Extends(c.values, sent.values);
      UpdateKept(c.update, c.names, c.values, sent.names, sent.values, es);
    }
  }

  class UpdateBuilder {
    const metadata: Metadata
    const policy: Policy
    const expr: Builder
    var conditions: seq<Guard>

    constructor (metadata: Metadata, policy: Policy)
      ensures this.metadata == metadata && this.policy == policy && expr.policy == policy
      ensures fresh(expr) && expr.Valid() && expr.Sound() && expr.UpdatesSound() && conditions == []
      ensures GuardsOf(expr) == Filters([], []) && expr.names == map[]
    {
      this.metadata, this.policy, conditions := metadata, policy, [];
      expr := new Builder(policy);
    }

    predicate Guardable(field: string) {
      !(Lookup(metadata, field).Some? && Lookup(metadata, field).value.encrypted)
    }

    /** A guard on an encrypted field is refused. */
    method Condition(field: string, operator: string, value: GoValue) returns (ok: bool)
      modifies this`conditions
      ensures ok <==> Guardable(field)
      ensures conditions ==
              old(conditions) + if ok then [Guard(ConditionMeaning.AND, field, operator, value)] else []
    {
      ok := Guardable(field);
      if ok {
        conditions := conditions + [Guard(ConditionMeaning.AND, field, operator, value)];
      }
    }

    method OrCondition(field: string, operator: string, value: GoValue) returns (ok: bool)
      modifies this`conditions
      ensures ok <==> Guardable(field)
      ensures conditions ==
              old(conditions) + if ok then [Guard(ConditionMeaning.OR, field, operator, value)] else []
    {
      ok := Guardable(field);
      if ok {
        conditions := conditions + [Guard(ConditionMeaning.OR, field, operator, value)];
      }
    }

    /** addWriteConditions, on a builder without conditions, and the text it gives. */
    method WriteConditions(b: Builder, write: seq<Cond>, ghost words: set<string>) returns (ok: bool, base: string)
      requires b.Valid() && b.conditionMeanings == [] && b.policy == policy
      modifies b`names, b`values, b`nameCounter, b`valueCounter, b`conditions, b`conditionOperators, b`conditionMeanings
      ensures b.Valid()
      ensures ok <==> AllWriteOk(metadata, policy, write)
      ensures ok ==> b.State() == BoundBy(policy, old(b.State()), write)
      ensures ok && old(Speaking(b, words)) && Spoken(policy, words, write) ==>
                && Extends(old(b.names), b.names) && Extends(old(b.values), b.values)
                && Asked(policy, write, base, b.names, b.values)
    {
      base := "";
      ok := forall i :: 0 <= i < |write| ==> WriteOk(metadata, policy, write[i]);
      if ok {
        base := AskText(b, write, words);
      }
    }

    /** buildConditionExpression, for an update: the query's write conditions and then its raw conditions. */
    method QueryConditions(combined: Builder, write: seq<Cond>, raws: seq<RawCondition>, ghost words: set<string>)
      returns (ok: bool, ghost base: string, text: string, values: Values)
      requires combined.Valid() && combined.conditionMeanings == [] && combined.policy == policy
      modifies combined`names, combined`values, combined`nameCounter, combined`valueCounter, combined`conditions,
          combined`conditionOperators, combined`conditionMeanings
      ensures ok <==> AllWriteOk(metadata, policy, write) &&
                      Mergeable(BoundBy(policy, old(combined.State()), write).values, raws)
      ensures ok ==> text == MergedText(base, raws) && MergedInto(combined.values, raws, |raws|, values)
      ensures ok && old(Speaking(combined, words)) && Spoken(policy, words, write) ==>
                && Extends(old(combined.names), combined.names) && Extends(old(combined.values), combined.values)
                && Asked(policy, write, base, combined.names, combined.values)
    {
      var written;
      ok, written := WriteConditions(combined, write, words);
      base, text, values := written, "", map[];
      if ok {
        ok, text, values := MergeConditionExpressions(written, combined.values, raws);
      }
    }

    /**
     The condition sent by Execute (`stored` false) and ExecuteWithResult (`stored` true). The update's own guards, the
     query's write conditions and its raw conditions all have to hold; the query's part is built on a copy, so the
     update's texts are untouched by it. The update that is sent does what the update builder's clauses were built to.
     It fails exactly when a guard or write condition is refused, or a raw condition's placeholder is bound already, by
     another raw condition or by the numbering of the guards and write conditions, or has a value that does not convert.
     */
    method SentCondition(write: seq<Cond>, raws: seq<RawCondition>, stored: bool, ghost words: set<string>)
      returns (ok: bool, sent: Sent)
      requires expr.Valid() && expr.policy == policy
      modifies expr`names, expr`values, expr`nameCounter, expr`valueCounter, expr`conditions, expr`conditionOperators,
          expr`conditionMeanings
      ensures expr.Valid()
      ensures var guards := GuardConds(metadata, conditions);
              ok <==> AllAccepted(policy, guards) && AllWriteOk(metadata, policy, write) &&
                      Mergeable(BoundBy(policy, BoundBy(policy, old(expr.State()), guards), write).values, raws)
      ensures ok && old(Speaking(expr, words)) && Spoken(policy, words, GuardConds(metadata, conditions)) &&
              Spoken(policy, words, write) && RawsMean(raws, sent.names, sent.values) ==>
                && OpsFit(GuardsOf(expr).ms, GuardsOf(expr).ops)
                && AllAccepted(policy, write)
                && Guarded(sent.condition, sent.names, sent.values, GuardsOf(expr), SaidAll(policy, write), raws)
      ensures ok ==>
                expr.conditionMeanings ==
                old(expr.conditionMeanings) + SaidAll(policy, GuardConds(metadata, conditions))
      ensures ok ==> expr.conditionOperators == Behind(old(GuardsOf(expr)), GuardOps(conditions, stored))
      ensures ok && expr.UpdatesSound() ==> Prints(sent.update, expr.added)
      ensures ok && old(Speaking(expr, words)) && Spoken(policy, words, GuardConds(metadata, conditions)) &&
              Spoken(policy, words, write) && expr.UpdatesSound() ==>
                UpdateDoes(sent.update, sent.names, sent.values, expr.effects)
    {
      sent := Sent("", map[], map[], "");
      var c;
      ok, c := OwnCondition(stored, words);
      if ok {
        ok, sent := WithQuery(c, write, raws, words);
      }
    }

    /** The query's part, built on a copy of the update's builder, behind the update's own condition. */
    method WithQuery(c: Components, write: seq<Cond>, raws: seq<RawCondition>, ghost words: set<string>)
      returns (ok: bool, sent: Sent)
      requires expr.Valid() && expr.policy == policy && c.names == expr.names && c.values == expr.values
      ensures ok <==> AllWriteOk(metadata, policy, write) &&
                      Mergeable(BoundBy(policy, expr.State(), write).values, raws)
      ensures ok ==> sent.update == c.update
      ensures ok && Speaking(expr, words) && Spoken(policy, words, write) && OwnEmitted(c, GuardsOf(expr)) ==>
                && AllAccepted(policy, write)
                && (RawsMean(raws, sent.names, sent.values) ==>
                    Guarded(sent.condition, sent.names, sent.values, GuardsOf(expr), SaidAll(policy, write), raws))
                && (UpdateDoes(c.update, c.names, c.values, expr.effects) ==>
                    UpdateDoes(sent.update, sent.names, sent.values, expr.effects))
    {
      sent := Sent("", map[], map[], "");
      var combined := expr.Clone();
      combined.ResetConditions();
      ghost var base;
      var text, values;
      ok, base, text, values := QueryConditions(combined, write, raws, words);
      if !ok {
        return;
      }
      sent := Sent(ConjoinText(c.condition, text), c.names + combined.names, c.values + values, c.update);
      if Speaking(expr, words) && Spoken(policy, words, write) && OwnEmitted(c, GuardsOf(expr)) {
        SentWorks(policy, c, GuardsOf(expr), base, text, combined.names, combined.values, write, raws, values,
          expr.effects, sent);
      }
    }

    /** The update's guards are added and the update is printed. */
    method OwnCondition(stored: bool, ghost words: set<string>) returns (ok: bool, c: Components)
      requires expr.Valid() && expr.policy == policy
      modifies expr`names, expr`values, expr`nameCounter, expr`valueCounter, expr`conditions, expr`conditionOperators,
          expr`conditionMeanings
      ensures expr.Valid()
      ensures ok <==> AllAccepted(policy, GuardConds(metadata, conditions))
      ensures c.names == expr.names && c.values == expr.values
      ensures ok ==> expr.State() == BoundBy(policy, old(expr.State()), GuardConds(metadata, conditions))
      ensures ok ==>
                expr.conditionMeanings ==
                old(expr.conditionMeanings) + SaidAll(policy, GuardConds(metadata, conditions))
      ensures ok ==> expr.conditionOperators == Behind(old(GuardsOf(expr)), GuardOps(conditions, stored))
      ensures ok && old(Speaking(expr, words)) && Spoken(policy, words, GuardConds(metadata, conditions)) ==>
                Speaking(expr, words) && OwnEmitted(c, GuardsOf(expr))
      ensures expr.UpdatesSound() ==> Prints(c.update, expr.added)
      ensures ok && old(Speaking(expr, words)) && Spoken(policy, words, GuardConds(metadata, conditions)) ==>
                (expr.UpdatesSound() ==> UpdateDoes(c.update, c.names, c.values, expr.effects))
    {
      ok := ApplyGuards(expr, GuardConds(metadata, conditions), GuardOps(conditions, stored), words);
      c := PrintOwn(words);
    }

    method PrintOwn(ghost words: set<string>) returns (c: Components)
      requires expr.Valid()
      ensures c.names == expr.names && c.values == expr.values
      ensures expr.UpdatesSound() ==> Prints(c.update, expr.added)
      ensures Speaking(expr, words) ==>
                && OwnEmitted(c, GuardsOf(expr))
                && (expr.UpdatesSound() ==> UpdateDoes(c.update, c.names, c.values, expr.effects))
    {
      c := expr.Build();
      if Speaking(expr, words) {
        GuardsClosed(expr);
      }
    }
  }

  // ---- The ignored operator ----

  /**
   Execute, which conjoins its guards, and ExecuteWithResult, which uses the operators they were added with, send
   conditions that agree for every outcome of the guards if and only if no guard after the first was added with OR.
   */
  lemma ExecuteAgrees(ops: seq<Junction>)
    ensures (forall bs | |bs| == |ops| + 1 :: SameTruth(bs, ops)) <==> ConditionMeaning.OR !in ops
  {
    if ConditionMeaning.OR in ops {
      var k := RunEnd(ops);
      RunEndOr(ops);
      var bs := seq(|ops| + 1, i => i <= k);
      assert forall x :: 0 <= x <= k ==> bs[x];
      assert IsRun(ops, 0, k);
      assert !bs[|ops|];
      FilterOrder.NoOrsConjunction(bs, AllAnd(|ops|));
      assert !SameTruth(bs, ops);
    } else {
      forall i | 0 <= i < |ops| ensures ops[i] == AllAnd(|ops|)[i] {
        assert ops[i] in ops && AllAnd(|ops|)[i] in AllAnd(|ops|);
      }
      assert ops == AllAnd(|ops|);
    }
  }

  ghost predicate SameTruth(bs: seq<bool>, ops: seq<Junction>)
    requires |bs| == |ops| + 1
  {
    SomeRunHolds(bs, ops) <==> SomeRunHolds(bs, AllAnd(|ops|))
  }

  /** A comparison or a function call, of which the service has an answer of its own. */
  predicate IsAtom(m: Meaning) {
    !m.Not? && !m.And? && !m.Or?
  }

  predicate DistinctAtoms(ms: seq<Meaning>) {
    && (forall i :: 0 <= i < |ms| ==> IsAtom(ms[i]))
    && (forall i, j :: 0 <= i < j < |ms| ==> ms[i] != ms[j])
  }

  /** An item of which condition `i` is true exactly when `bs[i]` is. */
  ghost function Answering(ms: seq<Meaning>, bs: seq<bool>): Meaning -> bool
    requires |ms| == |bs|
  {
    m => exists i :: 0 <= i < |ms| && ms[i] == m && bs[i]
  }

  lemma AnsweringTruths(ms: seq<Meaning>, bs: seq<bool>)
    requires |ms| == |bs| && DistinctAtoms(ms)
    ensures Truths(ms, Answering(ms, bs)) == bs
  {
    var holds := Answering(ms, bs);
    forall i | 0 <= i < |ms| ensures Truths(ms, holds)[i] == bs[i] {
      assert Eval(ms[i], holds) == holds(ms[i]);
    }
  }

  ghost predicate SameSent(a: Sent, b: Sent) {
    forall holds: Meaning -> bool ::
      TextHolds(a.condition, a.names, a.values, holds) <==> TextHolds(b.condition, b.names, b.values, holds)
  }

  /** What guards alone send holds exactly when some run of them does. */
  lemma GuardedRun(s: Sent, ms: seq<Meaning>, ops: seq<Junction>, holds: Meaning -> bool)
    requires |ms| == |ops| + 1 && Guarded(s.condition, s.names, s.values, Filters(ms, ops), [], [])
    ensures TextHolds(s.condition, s.names, s.values, holds) <==> SomeRunHolds(Truths(ms, holds), ops)
  {
    FlatEval(ms, ops, holds);
    assert RawsHold([], s.names, s.values, holds) && AllHold([], holds);
  }

  /**
   In terms of what is sent: for guards that are told apart, the condition with AND throughout and the one with the
   stored operators hold on the same items if and only if no guard after the first was added with OR.
   */
  lemma SentAgree(a: Sent, b: Sent, ms: seq<Meaning>, ops: seq<Junction>)
    requires |ms| == |ops| + 1 && DistinctAtoms(ms)
    requires Guarded(a.condition, a.names, a.values, Filters(ms, AllAnd(|ops|)), [], [])
    requires Guarded(b.condition, b.names, b.values, Filters(ms, ops), [], [])
    ensures SameSent(a, b) <==> ConditionMeaning.OR !in ops
  {
    ExecuteAgrees(ops);
    if ConditionMeaning.OR in ops {
      var bs :| |bs| == |ops| + 1 && !SameTruth(bs, ops);
      var holds := Answering(ms, bs);
      AnsweringTruths(ms, bs);
      GuardedRun(a, ms, AllAnd(|ops|), holds);
      GuardedRun(b, ms, ops, holds);
    } else {
      forall holds: Meaning -> bool
        ensures TextHolds(a.condition, a.names, a.values, holds) <==> TextHolds(b.condition, b.names, b.values, holds)
      {
        GuardedRun(a, ms, AllAnd(|ops|), holds);
        GuardedRun(b, ms, ops, holds);
        assert SameTruth(Truths(ms, holds), ops);
      }
    }
  }

  /** `a = v` or `b = w`. */
  function Either(v: GoValue, w: GoValue): seq<Guard> {
    [Guard(ConditionMeaning.AND, "a", "=", v), Guard(ConditionMeaning.OR, "b", "=", w)]
  }

  const NO_METADATA: Metadata := Metadata(map[], KeySchema("", ""), [])
  const WORDS: set<string> := {"a", "b"}

  lemma EitherVocabulary(p: Policy)
    requires p.fieldOk("a") && p.fieldOk("b")
    ensures BuilderRuns.Vocabulary(p, WORDS) && BuilderRuns.Speaks(p, WORDS, "a") && BuilderRuns.Speaks(p, WORDS, "b")
  {
    SplitDotless("a");
    SplitDotless("b");
    assert Upper("a")[0] != Upper("b")[0];
  }

  lemma EqualitySaid(p: Policy, field: string, v: GoValue)
    requires p.fieldOk(field) && p.operatorOk("=") && ValueOk(p, v)
    ensures AcceptsCond(p, Cond(field, "=", v)) && SaidBy(p, Cond(field, "=", v)).Compare?
    ensures SaidBy(p, Cond(field, "=", v)).left == FieldPath(field) && Readable("=", v)
  {
    AcceptedOne(p, v);
    assert OpOf("=") == Some(Cmp(EQ)) by { assert Upper("=") == "="; }
  }

  lemma EitherSaid(p: Policy, v: GoValue, w: GoValue)
    requires Usable(p, v, w)
    ensures var cs := GuardConds(NO_METADATA, Either(v, w));
            && AllAccepted(p, cs) && Spoken(p, WORDS, cs) && BuilderRuns.Vocabulary(p, WORDS)
            && |SaidAll(p, cs)| == 2 && DistinctAtoms(SaidAll(p, cs))
  {
    var cs := GuardConds(NO_METADATA, Either(v, w));
    assert cs == [Cond("a", "=", v), Cond("b", "=", w)];
    EqualitySaid(p, "a", v);
    EqualitySaid(p, "b", w);
    EitherVocabulary(p);
    if FieldPath("a") == FieldPath("b") {
      KeyConditions.FieldPathInjective("a", "b");
    }
    TwoSaid(p, cs);
  }

  lemma TwoSaid(p: Policy, cs: seq<Cond>)
    requires |cs| == 2 && AcceptsCond(p, cs[0]) && AcceptsCond(p, cs[1])
    requires var x, y := SaidBy(p, cs[0]), SaidBy(p, cs[1]); x.Compare? && y.Compare? && x.left != y.left
    ensures AllAccepted(p, cs) && |SaidAll(p, cs)| == 2 && DistinctAtoms(SaidAll(p, cs))
  {
    var ms := SaidAll(p, cs);
    assert ms[0] == SaidBy(p, cs[0]) && ms[1] == SaidBy(p, cs[1]);
    TwoAtoms(ms);
  }

  lemma TwoAtoms(ms: seq<Meaning>)
    requires |ms| == 2 && ms[0].Compare? && ms[1].Compare? && ms[0].left != ms[1].left
    ensures DistinctAtoms(ms)
  {
  }

  /** The operator ExecuteWithResult puts between the two guards, or Execute. */
  function EitherOp(stored: bool): Junction {
    if stored then ConditionMeaning.OR else ConditionMeaning.AND
  }

  lemma EitherOps(v: GoValue, w: GoValue, stored: bool)
    ensures Behind(Filters([], []), GuardOps(Either(v, w), stored)) == [EitherOp(stored)]
  {
    assert GuardOps(Either(v, w), stored)[1..] == [EitherOp(stored)];
  }

  predicate Usable(p: Policy, v: GoValue, w: GoValue) {
    p.fieldOk("a") && p.fieldOk("b") && p.operatorOk("=") && ValueOk(p, v) && ValueOk(p, w)
  }

  method SendEither(policy: Policy, v: GoValue, w: GoValue, stored: bool) returns (sent: Sent)
    requires Usable(policy, v, w)
    ensures var cs := GuardConds(NO_METADATA, Either(v, w));
            && AllAccepted(policy, cs) && |SaidAll(policy, cs)| == 2
            && Guarded(sent.condition, sent.names, sent.values, Filters(SaidAll(policy, cs), [EitherOp(stored)]), [],
                       [])
  {
    EitherSaid(policy, v, w);
    EitherOps(v, w, stored);
    var u := new UpdateBuilder(NO_METADATA, policy);
    var first := u.Condition("a", "=", v);
    var second := u.OrCondition("b", "=", w);
    assert u.conditions == Either(v, w);
    assert Speaking(u.expr, WORDS);
    var ok;
    ok, sent := u.SentCondition([], [], stored, WORDS);
    assert GuardsOf(u.expr) == Filters(SaidAll(policy, GuardConds(NO_METADATA, Either(v, w))), [EitherOp(stored)]);
    assert SaidAll(policy, []) == [];
  }

  /** Two guards joined by OR: Execute sends something else than ExecuteWithResult. */
  method OrIgnored(policy: Policy, v: GoValue, w: GoValue) returns (executed: Sent, withResult: Sent)
    requires Usable(policy, v, w)
    ensures !SameSent(executed, withResult)
  {
    EitherSaid(policy, v, w);
    executed := SendEither(policy, v, w, false);
    withResult := SendEither(policy, v, w, true);
    assert AllAnd(1) == [ConditionMeaning.AND];
    SentAgree(executed, withResult, SaidAll(policy, GuardConds(NO_METADATA, Either(v, w))), [ConditionMeaning.OR]);
  }

  // ---- The key ----

  /** The stored name of a key attribute, as populateKeyValues resolves it. */
  function KeyAttribute(m: Metadata, field: string): string {
    match Lookup(m, field)
    case Some(a) => if field != "" && a.dbName != "" then a.dbName else field
    case None => field
  }

  /** The attribute the field is known as is stored under a name of its own. */
  predicate StoredUnder(m: Metadata, field: string, attr: string) {
    Lookup(m, field).Some? && Lookup(m, field).value.dbName == attr && attr != ""
  }

  /**
   Where a field is turned into the name an attribute is stored under (a Where condition, an index key, an update's
   guard, its key), each of the four places gives the same name for every name the attribute is known by; they agree on
   a field exactly when it is unknown or its attribute has a stored name.
   */
  lemma ResolversAgree(m: Metadata, c: Cond)
    requires c.field != ""
    ensures forall attr :: StoredUnder(m, c.field, attr) ==>
              && Normalize(m, c).0.field == attr && AttributeName(m, c.field) == attr
              && StoredName(m, c.field) == attr && KeyAttribute(m, c.field) == attr
    ensures Normalize(m, c).0.field == AttributeName(m, c.field) == StoredName(m, c.field) == KeyAttribute(m, c.field)
            <==> Lookup(m, c.field).None? || Lookup(m, c.field).value.dbName != ""
  {
  }

  predicate OnTableKey(m: Metadata, c: Cond) {
    var attr := KeyAttribute(m, c.field);
    attr == KeyAttribute(m, m.primary.partition) || (m.primary.sort != "" && attr == KeyAttribute(m, m.primary.sort))
  }

  predicate LastAt(m: Metadata, cs: seq<Cond>, attr: string, i: nat) {
    && i < |cs| && KeyAttribute(m, cs[i].field) == attr
    && forall j :: i < j < |cs| ==> KeyAttribute(m, cs[j].field) != attr
  }

  /** The value of the last condition on an attribute. */
  predicate LastOn(m: Metadata, cs: seq<Cond>, attr: string, v: GoValue) {
    exists i :: 0 <= i < |cs| && LastAt(m, cs, attr, i) && cs[i].value == v
  }

  predicate Mentions(m: Metadata, cs: seq<Cond>, attr: string) {
    exists i :: 0 <= i < |cs| && KeyAttribute(m, cs[i].field) == attr
  }

  /** A key value given explicitly ends up under the attribute of one of the names given for it. */
  predicate GivenFor(m: Metadata, given: map<string, GoValue>, attr: string, v: GoValue) {
    exists field :: field in given && KeyAttribute(m, field) == attr && given[field] == v
  }

  predicate CoversKey(m: Metadata, attrs: set<string>) {
    && KeyAttribute(m, m.primary.partition) in attrs
    && (m.primary.sort != "" ==> KeyAttribute(m, m.primary.sort) in attrs)
  }

  function Attrs(m: Metadata, given: map<string, GoValue>): set<string> {
    set field | field in given :: KeyAttribute(m, field)
  }

  /** Explicitly given key values are renamed to stored names, in any order of the map, and have to cover the key. */
  method NormalizeKeyValues(m: Metadata, given: map<string, GoValue>) returns (ok: bool, key: map<string, GoValue>)
    ensures key.Keys == Attrs(m, given)
    ensures forall a :: a in key ==> GivenFor(m, given, a, key[a])
    ensures ok <==> CoversKey(m, Attrs(m, given))
  {
    key := map[];
    var todo := given.Keys;
    while todo != {}
      invariant todo <= given.Keys
      invariant forall a :: a in key <==> exists f :: f in given && f !in todo && KeyAttribute(m, f) == a
      invariant forall a :: a in key ==> GivenFor(m, given, a, key[a])
    {
      var field :| field in todo;
      ghost var before, left := key, todo;
      todo := todo - {field};
      key := key[KeyAttribute(m, field) := given[field]];
      forall a ensures a in key <==> exists f :: f in given && f !in todo && KeyAttribute(m, f) == a {
        if a in before {
          var f :| f in given && f !in left && KeyAttribute(m, f) == a;
          assert f !in todo;
        }
      }
    }
    ok := KeyAttribute(m, m.primary.partition) in key;
    ok := ok && (m.primary.sort != "" ==> KeyAttribute(m, m.primary.sort) in key);
  }

  /** The key taken from the query's conditions. */
  method KeyFromConditions(m: Metadata, cs: seq<Cond>) returns (ok: bool, key: map<string, GoValue>)
    ensures ok <==>
            && (forall i :: 0 <= i < |cs| && OnTableKey(m, cs[i]) ==> cs[i].operator == "=")
            && Mentions(m, cs, KeyAttribute(m, m.primary.partition))
            && (m.primary.sort != "" ==> Mentions(m, cs, KeyAttribute(m, m.primary.sort)))
    ensures ok ==> key.Keys == {KeyAttribute(m, m.primary.partition)} +
                               if m.primary.sort != "" then {KeyAttribute(m, m.primary.sort)} else {}
    ensures ok ==> forall a :: a in key ==> LastOn(m, cs, a, key[a])
  {
    key := map[];
    var i := 0;
    while i < |cs|
      invariant 0 <= i <= |cs|
      invariant forall j :: 0 <= j < i && OnTableKey(m, cs[j]) ==>
                  cs[j].operator == "=" && KeyAttribute(m, cs[j].field) in key
      invariant forall a :: a in key ==>
                  && (|| a == KeyAttribute(m, m.primary.partition)
                      || (m.primary.sort != "" && a == KeyAttribute(m, m.primary.sort)))
                  && LastOn(m, cs[..i], a, key[a])
    {
      var c := cs[i];
      ghost var before := key;
      if OnTableKey(m, c) {
        if c.operator != "=" {
          return false, map[];
        }
        key := key[KeyAttribute(m, c.field) := c.value];
      }
      forall a | a in key ensures LastOn(m, cs[..i + 1], a, key[a]) {
        LastOnNext(m, cs, i, a, key[a]);
      }
      i := i + 1;
    }
    assert cs[..i] == cs;
    ok := KeyAttribute(m, m.primary.partition) in key;
    ok := ok && (m.primary.sort != "" ==> KeyAttribute(m, m.primary.sort) in key);
  }

  /** populateKeyValues: the key values given explicitly, or those of the query's conditions. */
  method PopulateKeyValues(m: Metadata, given: map<string, GoValue>, cs: seq<Cond>)
    returns (ok: bool, key: map<string, GoValue>)
    ensures given != map[] ==> (ok <==> CoversKey(m, Attrs(m, given)))
    ensures given != map[] && ok ==>
              key.Keys == Attrs(m, given) && forall a :: a in key ==> GivenFor(m, given, a, key[a])
    ensures given == map[] ==>
              (ok <==>
               && (forall i :: 0 <= i < |cs| && OnTableKey(m, cs[i]) ==> cs[i].operator == "=")
               && Mentions(m, cs, KeyAttribute(m, m.primary.partition))
               && (m.primary.sort != "" ==> Mentions(m, cs, KeyAttribute(m, m.primary.sort))))
    ensures given == map[] && ok ==>
              key.Keys == {KeyAttribute(m, m.primary.partition)} +
                          if m.primary.sort != "" then {KeyAttribute(m, m.primary.sort)} else {}
    ensures given == map[] && ok ==> forall a :: a in key ==> LastOn(m, cs, a, key[a])
  {
    if |given| > 0 {
      ok, key := NormalizeKeyValues(m, given);
    } else {
      ok, key := KeyFromConditions(m, cs);
    }
  }

  lemma LastOnNext(m: Metadata, cs: seq<Cond>, i: nat, attr: string, v: GoValue)
    requires i < |cs|
    requires if KeyAttribute(m, cs[i].field) == attr then v == cs[i].value else LastOn(m, cs[..i], attr, v)
    ensures LastOn(m, cs[..i + 1], attr, v)
  {
    var next := cs[..i + 1];
    if KeyAttribute(m, cs[i].field) == attr {
      assert LastAt(m, next, attr, i);
    } else {
      var k :| 0 <= k < i && LastAt(m, cs[..i], attr, k) && cs[..i][k].value == v;
      forall j | k < j < |next| ensures KeyAttribute(m, next[j].field) != attr {
        if j < i { assert next[j] == cs[..i][j]; }
      }
      assert LastAt(m, next, attr, k);
    }
  }
}
