/** What an update clause does to an item, once its placeholders are looked up. */
module UpdateMeaning {
  import opened Text
  import opened Attributes
  import opened ConditionGrammar
  import opened ConditionMeaning
  import opened Placeholders
  import opened UpdateText

  /** An attribute, or one element of a list. */
  datatype Place = Place(path: Term, index: Option<nat>)

  datatype Assigned =
    | Outright(value: Term)
    | Default(path: Term, value: Term)
    | Appended(first: Term, second: Term)

  datatype Effect =
    | SetTo(place: Place, rhs: Assigned)
    | AddTo(path: Term, value: Term)
    | Removed(place: Place)
    | DeletedFrom(path: Term, value: Term)

  function Meant(w: string, names: Names, values: Values): Term {
    ResolveOperand(Ref(w), names, values)
  }

  function PlaceOf(t: Target, names: Names, values: Values): Place {
    Place(Meant(t.name, names, values), t.index)
  }

  function AssignedOf(r: Rhs, names: Names, values: Values): Assigned {
    match r
    case FromValue(v) => Outright(Meant(v, names, values))
    case IfNotExists(n, d) => Default(Meant(n, names, values), Meant(d, names, values))
    case ListAppend(a, b) => Appended(Meant(a, names, values), Meant(b, names, values))
  }

  function EffectOf(c: Clause, names: Names, values: Values): Effect {
    match c
    case SetClause(t, r) => SetTo(PlaceOf(t, names, values), AssignedOf(r, names, values))
    case AddClause(n, v) => AddTo(Meant(n, names, values), Meant(v, names, values))
    case RemoveClause(t) => Removed(PlaceOf(t, names, values))
    case DeleteClause(n, v) => DeletedFrom(Meant(n, names, values), Meant(v, names, values))
  }

  predicate ClosedAssigned(a: Assigned) {
    match a
    case Outright(v) => v != Unbound
    case Default(p, v) => p != Unbound && v != Unbound
    case Appended(x, y) => x != Unbound && y != Unbound
  }

  /** Every placeholder of the clause is bound. */
  predicate ClosedEffect(e: Effect) {
    match e
    case SetTo(p, a) => p.path != Unbound && ClosedAssigned(a)
    case AddTo(p, v) => p != Unbound && v != Unbound
    case Removed(p) => p.path != Unbound
    case DeletedFrom(p, v) => p != Unbound && v != Unbound
  }

  /** Later bindings leave a clause's effect alone. */
  lemma EffectKept(c: Clause, names: Names, values: Values, names': Names, values': Values)
    requires Extends(names, names') && Extends(values, values') && ClosedEffect(EffectOf(c, names, values))
    ensures EffectOf(c, names', values') == EffectOf(c, names, values)
  {
    forall w | Meant(w, names, values) != Unbound ensures Meant(w, names', values') == Meant(w, names, values) {
      ResolveOperandKept(Ref(w), names, values, names', values');
    }
  }

  /** The clause does this, and every placeholder in it is bound. */
  predicate Does(c: Clause, names: Names, values: Values, e: Effect) {
    EffectOf(c, names, values) == e && ClosedEffect(e)
  }

  predicate AllDo(cs: seq<Clause>, names: Names, values: Values, es: seq<Effect>) {
    |cs| == |es| && forall i :: 0 <= i < |cs| ==> Does(cs[i], names, values, es[i])
  }

  lemma AllDoKept(cs: seq<Clause>, names: Names, values: Values, names': Names, values': Values, es: seq<Effect>)
    requires AllDo(cs, names, values, es) && Extends(names, names') && Extends(values, values')
    ensures AllDo(cs, names', values', es)
  {
    forall i | 0 <= i < |cs| ensures Does(cs[i], names', values', es[i]) {
      assert Does(cs[i], names, values, es[i]);
      EffectKept(cs[i], names, values, names', values');
    }
  }
}
