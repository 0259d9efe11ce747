/**
 What the service does with an update: it refuses one that reaches a place twice, and performs the others on the
 stored item.
 */
module UpdateAction {
  import opened Text
  import opened Attributes
  import opened ConditionMeaning
  import opened Placeholders
  import opened Sorting
  import opened UpdateClauses
  import opened UpdateMeaning
  import opened UpdateReading
  import UT = UpdateText

  // ---- Updates that reach a place twice ----

  datatype Hop = Attr(step: Step) | Element(index: nat)

  function Hops(steps: seq<Step>): (hops: seq<Hop>)
    ensures |hops| == |steps| && forall i :: 0 <= i < |steps| ==> hops[i] == Attr(steps[i])
  {
    seq(|steps|, i requires 0 <= i < |steps| => Attr(steps[i]))
  }

  function PlaceOf(e: Effect): Place {
    match e
    case SetTo(place, _) => place
    case AddTo(path, _) => Place(path, None)
    case Removed(place) => place
    case DeletedFrom(path, _) => Place(path, None)
  }

  /** The way from the item to the place an effect reaches. */
  function Route(e: Effect): seq<Hop> {
    var place := PlaceOf(e);
    (if place.path.Path? then Hops(place.path.steps) else [])
    + (if place.index.Some? then [Element(place.index.value)] else [])
  }

  /** The same place, or one inside the other. */
  predicate Overlap(e: Effect, f: Effect) {
    Route(e) <= Route(f) || Route(f) <= Route(e)
  }

  ghost predicate NoOverlap(es: seq<Effect>) {
    forall i, j :: 0 <= i < j < |es| ==> !Overlap(es[i], es[j])
  }

  /** The service takes the text: it does something, and reaches no place twice. */
  ghost predicate LegalUpdateText(text: string, names: Names, values: Values) {
    exists es :: UpdateDoes(text, names, values, es) && es != [] && NoOverlap(es)
  }

  lemma KindNext(es: seq<Effect>, a: UT.Action)
    requires es != []
    ensures var k := |es| - 1;
            multiset(OfKind(es, a)) ==
            multiset(OfKind(es[..k], a)) + if EffectAction(es[k]) == a then multiset{es[k]} else multiset{}
  {
  }

  /** The effects of each of the four actions. */
  ghost function Kinds(es: seq<Effect>): multiset<Effect> {
    multiset(OfKind(es, UT.SET)) + multiset(OfKind(es, UT.REMOVE)) + multiset(OfKind(es, UT.ADD)) +
    multiset(OfKind(es, UT.DELETE))
  }

  lemma KindsNext(es: seq<Effect>)
    requires es != []
    ensures Kinds(es) == Kinds(es[..|es| - 1]) + multiset{es[|es| - 1]}
  {
    KindNext(es, UT.SET);
    KindNext(es, UT.REMOVE);
    KindNext(es, UT.ADD);
    KindNext(es, UT.DELETE);
  }

  lemma {:induction false} KindsTotal(es: seq<Effect>)
    ensures multiset(es) == Kinds(es)
  {
    if es != [] {
      var k := |es| - 1;
      KindsTotal(es[..k]);
      assert es == es[..k] + [es[k]];
      KindsNext(es);
    }
  }

  lemma OneOccurrence(es: seq<Effect>, i: nat)
    requires i < |es| && NoOverlap(es)
    ensures multiset(es)[es[i]] == 1
  {
    assert es == es[..i] + [es[i]] + es[i + 1..];
    assert Overlap(es[i], es[i]);
    assert es[i] !in es[..i] && es[i] !in es[i + 1..];
  }

  lemma OverlapPermuted(a: seq<Effect>, b: seq<Effect>)
    requires multiset(a) == multiset(b) && NoOverlap(a)
    ensures NoOverlap(b)
  {
    forall i, j | 0 <= i < j < |b| ensures !Overlap(b[i], b[j]) {
      assert b[i] in multiset(a) && b[j] in multiset(a);
      var x :| 0 <= x < |a| && a[x] == b[i];
      var y :| 0 <= y < |a| && a[y] == b[j];
      OneOccurrence(a, x);
      if b[i] == b[j] {
        TwoOccurrences(b, i, j);
      }
      assert x != y;
      assert !Overlap(a[if x < y then x else y], a[if x < y then y else x]);
    }
  }

  /** Whatever a text is found to do, the service takes it exactly when that reaches no place twice. */
  lemma LegalUpdateExactly(text: string, names: Names, values: Values, es: seq<Effect>)
    requires UpdateDoes(text, names, values, es)
    ensures LegalUpdateText(text, names, values) <==> es != [] && NoOverlap(es)
  {
    if es' :| UpdateDoes(text, names, values, es') && es' != [] && NoOverlap(es') {
      forall a ensures OfKind(es, a) == OfKind(es', a) {
        DoesOnce(text, names, values, es, es', a);
      }
      KindsTotal(es);
      KindsTotal(es');
      OverlapPermuted(es', es);
      assert |multiset(es)| == |multiset(es')|;
    }
  }

  // ---- What an update makes of an item ----

  /** The number a text of digits stands for. */
  ghost function IntOf(text: string): Option<int> {
    if exists n :: IntText(n) == text then
      var n :| IntText(n) == text;
      Some(n)
    else None
  }

  lemma IntOfText(n: int)
    ensures IntOf(IntText(n)) == Some(n)
  {
    var m :| IntText(m) == IntText(n) && IntOf(IntText(n)) == Some(m);
    IntTextInjective(m, n);
  }

  /** The attribute a path names at the top level. */
  function TopAttr(t: Term): Option<string> {
    if t.Path? && |t.steps| == 1 && t.steps[0].indexes == "" then Some(t.steps[0].name) else None
  }

  /** The sum ADD leaves, when both numbers are whole; a missing attribute counts as zero. */
  ghost function Sum(item: Item, attr: string, delta: AttributeValue): Option<int> {
    if !delta.N? || IntOf(delta.n).None? then None
    else if attr !in item then IntOf(delta.n)
    else if item[attr].N? && IntOf(item[attr].n).Some? then Some(IntOf(item[attr].n).value + IntOf(delta.n).value)
    else None
  }

  /** The name of an attribute, with no path or element inside. */
  predicate IsAttribute(name: string) {
    '.' !in name && '[' !in name
  }

  lemma TopOf(name: string)
    requires IsAttribute(name)
    ensures TopAttr(FieldPath(name)) == Some(name)
  {
    SplitDotless(name);
    FieldStepPlain(name);
  }

  /** An operand of list_append: a value, or what the attribute that is assigned holds. */
  function Operand(item: Item, path: Term, attr: string, t: Term): Option<AttributeValue> {
    if t.Value? then Some(t.value) else if t == path && attr in item then Some(item[attr]) else None
  }

  /** What an attribute is assigned, by a value or a function of itself and values. */
  function AssignedTo(item: Item, path: Term, attr: string, rhs: Assigned): Option<AttributeValue> {
    match rhs
    case Outright(v) => if v.Value? then Some(v.value) else None
    case Default(read, v) =>
      if read == path && v.Value? then Some(if attr in item then item[attr] else v.value) else None
    case Appended(x, y) =>
      match (Operand(item, path, attr, x), Operand(item, path, attr, y))
      case (Some(L(xs)), Some(L(ys))) => Some(L(xs + ys))
      case _ => None
  }

  /** The effect is on an attribute as a whole. */
  predicate OnTop(place: Place) {
    TopAttr(place.path).Some? && place.index.None?
  }

  predicate AssignsTop(item: Item, e: Effect) {
    e.SetTo? && OnTop(e.place) && AssignedTo(item, e.place.path, TopAttr(e.place.path).value, e.rhs).Some?
  }

  ghost predicate AddsTop(item: Item, e: Effect) {
    && e.AddTo? && TopAttr(e.path).Some? && e.value.Value?
    && Sum(item, TopAttr(e.path).value, e.value.value).Some?
  }

  /** One effect on an item; `other` is what the service makes of those that are none of the three below. */
  ghost function Act(item: Item, e: Effect, other: (Item, Effect) -> Item): Item {
    if AssignsTop(item, e) then
      var attr := TopAttr(e.place.path).value;
      item[attr := AssignedTo(item, e.place.path, attr, e.rhs).value]
    else if e.Removed? && OnTop(e.place) then item - {TopAttr(e.place.path).value}
    else if AddsTop(item, e) then
      item[TopAttr(e.path).value := N(IntText(Sum(item, TopAttr(e.path).value, e.value.value).value))]
    else other(item, e)
  }

  ghost function ActAll(item: Item, es: seq<Effect>, other: (Item, Effect) -> Item): Item {
    if es == [] then item else Act(ActAll(item, es[..|es| - 1], other), es[|es| - 1], other)
  }

  lemma OneAct(item: Item, e: Effect, other: (Item, Effect) -> Item)
    ensures ActAll(item, [e], other) == Act(item, e, other)
  {
    assert [e][..0] == [];
    assert ActAll(item, [], other) == item;
  }

  /** Section by section; the order of the sections cannot be told, as they reach different places. */
  function InSections(es: seq<Effect>): seq<Effect> {
    OfKind(es, UT.SET) + OfKind(es, UT.REMOVE) + OfKind(es, UT.ADD) + OfKind(es, UT.DELETE)
  }

  /** What a text that does something does, up to the order between actions. */
  ghost function EffectsIn(text: string, names: Names, values: Values): (es: seq<Effect>)
    requires exists es :: UpdateDoes(text, names, values, es)
    ensures UpdateDoes(text, names, values, es)
  {
    var es :| UpdateDoes(text, names, values, es);
    es
  }

  /** The item after an update with this text. */
  ghost function Performed(
    item: Item, text: string, names: Names, values: Values, other: (Item, Effect) -> Item): Item
  {
    if exists es :: UpdateDoes(text, names, values, es) then
      ActAll(item, InSections(EffectsIn(text, names, values)), other)
    else item
  }

  lemma PerformedIs(item: Item, text: string, names: Names, values: Values, other: (Item, Effect) -> Item,
      es: seq<Effect>)
    requires UpdateDoes(text, names, values, es)
    ensures Performed(item, text, names, values, other) == ActAll(item, InSections(es), other)
  {
    var es' := EffectsIn(text, names, values);
    DoesOnce(text, names, values, es, es', UT.SET);
    DoesOnce(text, names, values, es, es', UT.REMOVE);
    DoesOnce(text, names, values, es, es', UT.ADD);
    DoesOnce(text, names, values, es, es', UT.DELETE);
  }

  lemma {:induction false} ActCat(item: Item, a: seq<Effect>, b: seq<Effect>, other: (Item, Effect) -> Item)
    ensures ActAll(item, a + b, other) == ActAll(ActAll(item, a, other), b, other)
  {
    if b == [] {
      assert a + b == a;
    } else {
      assert (a + b)[..|a + b| - 1] == a + b[..|b| - 1];
      ActCat(item, a, b[..|b| - 1], other);
    }
  }
}
