/**
 Update text has one reading: the service reads the clauses that were printed, and what an update text does is what it
 reads there.
 */
module UpdateReading {
  import opened Attributes
  import opened ConditionMeaning
  import opened UpdateClauses
  import opened UpdateMeaning
  import opened UpdateReparse
  import opened UpdateText
  import UpdateGrammar

  /** The service reads each action's clauses of a printed update, in whatever order the sections come. */
  lemma PrintedRead(text: string, cs: seq<Clause>)
    requires Prints(text, cs)
    ensures var read := UpdateGrammar.ReadUpdate(text);
            read.Some? && forall a :: ClausesOf(read.value, a) == OfAction(cs, a)
  {
    var order :| Visits(order, cs) && text == UpdateExpression(Sections(cs, order));
    SectionsWellFormed(cs, order);
    UpdateGrammar.UpdateRead(Sections(cs, order));
  }

  // ---- What a printed update does ----

  function EffectsOf(cs: seq<Clause>, names: Names, values: Values): (es: seq<Effect>)
    ensures |es| == |cs|
    ensures forall i :: 0 <= i < |cs| ==> es[i] == EffectOf(cs[i], names, values)
  {
    seq(|cs|, i requires 0 <= i < |cs| => EffectOf(cs[i], names, values))
  }

  function EffectAction(e: Effect): Action {
    match e
    case SetTo(_, _) => SET
    case AddTo(_, _) => ADD
    case Removed(_) => REMOVE
    case DeletedFrom(_, _) => DELETE
  }

  /** The effects of one action, in order. */
  function OfKind(es: seq<Effect>, a: Action): seq<Effect> {
    if es == [] then []
    else
      var k := |es| - 1;
      OfKind(es[..k], a) + if EffectAction(es[k]) == a then [es[k]] else []
  }

  lemma SameAction(c: Clause, names: Names, values: Values)
    ensures EffectAction(EffectOf(c, names, values)) == ActionOf(c)
  {
  }

  lemma {:induction false} KindsMatch(cs: seq<Clause>, names: Names, values: Values, es: seq<Effect>, a: Action)
    requires AllDo(cs, names, values, es)
    ensures OfKind(es, a) == EffectsOf(OfAction(cs, a), names, values)
  {
    if cs != [] {
      var k := |cs| - 1;
      assert Does(cs[k], names, values, es[k]);
      forall i | 0 <= i < k ensures Does(cs[..k][i], names, values, es[..k][i]) {
        assert Does(cs[i], names, values, es[i]);
      }
      KindsMatch(cs[..k], names, values, es[..k], a);
      SameAction(cs[k], names, values);
    }
  }

  /** Under given bindings an update text does one thing, up to the order between actions. */
  lemma DoesOnce(text: string, names: Names, values: Values, es: seq<Effect>, es': seq<Effect>, a: Action)
    requires UpdateDoes(text, names, values, es) && UpdateDoes(text, names, values, es')
    ensures OfKind(es, a) == OfKind(es', a)
  {
    var cs :| Prints(text, cs) && AllDo(cs, names, values, es);
    var cs' :| Prints(text, cs') && AllDo(cs', names, values, es');
    PrintedRead(text, cs);
    PrintedRead(text, cs');
    KindsMatch(cs, names, values, es, a);
    KindsMatch(cs', names, values, es', a);
  }

  /** What an update text does is what the clauses do that the service reads in it, action by action. */
  lemma DoesAsRead(text: string, names: Names, values: Values, es: seq<Effect>)
    requires UpdateDoes(text, names, values, es)
    ensures var read := UpdateGrammar.ReadUpdate(text);
            read.Some? && forall a :: OfKind(es, a) == EffectsOf(ClausesOf(read.value, a), names, values)
  {
    var cs :| Prints(text, cs) && AllDo(cs, names, values, es);
    PrintedRead(text, cs);
    forall a ensures OfKind(es, a) == EffectsOf(OfAction(cs, a), names, values) {
      KindsMatch(cs, names, values, es, a);
    }
  }
}
