/** What First finds by a Query or Scan compiled from its conditions (pkg/query/query.go firstInternal, Compile). */
module QueryPath {
  import opened Text
  import opened Attributes
  import opened ConditionGrammar
  import opened ConditionMeaning
  import opened ConditionPrinter
  import opened Documents
  import opened ExprBuilder
  import opened IndexSelection
  import opened KeyConditions
  import opened Placeholders
  import opened QueryCompile
  import PagedReads

  // ---- Truth of an equality on an item ----

  predicate IsEqual(m: Meaning) {
    m.Compare? && m.cmp == EQ && m.left.Path? && m.right.Value?
  }

  /** The service's answers to everything but equalities of a path with a value are left open. */
  function ItemHolds(answers: (Item, Meaning) -> bool, item: Item): Meaning -> bool {
    m => if IsEqual(m) then AtPath(item, m.left.steps) == Some(m.right.value) else answers(item, m)
  }

  /** The item's value under the attribute the condition is sent with is the condition's value. */
  predicate Holds(m: Metadata, c: Cond, item: Item) {
    && Convert(c.value).Ok?
    && AtPath(item, Steps(Split(Normalize(m, c).0.field, '.'))) == Some(Convert(c.value).value)
  }

  predicate AllHoldOn(m: Metadata, cs: seq<Cond>, item: Item) {
    forall i :: 0 <= i < |cs| ==> Holds(m, cs[i], item)
  }

  predicate AllEqual(cs: seq<Cond>) {
    forall i :: 0 <= i < |cs| ==> cs[i].operator == "="
  }

  lemma EqualityHolds(p: Policy, m: Metadata, c: Cond, answers: (Item, Meaning) -> bool, item: Item)
    requires AcceptsCond(p, Normalize(m, c).0) && c.operator == "="
    ensures Eval(SaidBy(p, Normalize(m, c).0), ItemHolds(answers, item)) <==> Holds(m, c, item)
  {
    NormalizedOperator(m, c);
    var field := Normalize(m, c).0.field;
    assert OpOf("=") == Some(Cmp(EQ)) by { assert Upper("=") == "="; }
    AcceptedOne(p, c.value);
    var said := SaidBy(p, Normalize(m, c).0);
    assert said == Compare(EQ, FieldPath(field), Value(Convert(c.value).value));
    assert IsEqual(said);
    assert Eval(said, ItemHolds(answers, item)) == ItemHolds(answers, item)(said);
  }

  lemma EqualitiesHold(p: Policy, m: Metadata, cs: seq<Cond>, answers: (Item, Meaning) -> bool, item: Item)
    requires AllAccepted(p, Normalized(m, cs)) && AllEqual(cs)
    ensures AllHold(SaidAll(p, Normalized(m, cs)), ItemHolds(answers, item)) <==> AllHoldOn(m, cs, item)
  {
    forall i | 0 <= i < |cs|
      ensures Eval(SaidAll(p, Normalized(m, cs))[i], ItemHolds(answers, item)) <==> Holds(m, cs[i], item)
    {
      assert AcceptsCond(p, Normalized(m, cs)[i]);
      EqualityHolds(p, m, cs[i], answers, item);
    }
    if AllHold(SaidAll(p, Normalized(m, cs)), ItemHolds(answers, item)) {
      forall i | 0 <= i < |cs| ensures Holds(m, cs[i], item) {
        assert Eval(SaidAll(p, Normalized(m, cs))[i], ItemHolds(answers, item));
      }
    }
  }

  // ---- Indexes ----

  /** The table itself, read by a Scan or a Query. */
  predicate OnTable(best: Option<Index>) {
    best.None? || best.value.name == ""
  }

  /** The attributes of a schema. */
  function KeyAttributes(s: Schema): set<string> {
    {s.partition} + if s.sort.Some? then {s.sort.value} else {}
  }

  /** An index holds the items that carry its key attributes. */
  predicate Visible(m: Metadata, best: Option<Index>, item: Item) {
    OnTable(best) || KeyAttributes(SchemaOf(m, best)) <= item.Keys
  }

  /** An index that does not project everything returns the keys and the attributes `kept`. */
  function Returned(m: Metadata, best: Option<Index>, kept: set<string>, item: Item): Item {
    if OnTable(best) || best.value.projection == "ALL" then item
    else
      var names := kept + KeyAttributes(SchemaOf(m, None)) + KeyAttributes(SchemaOf(m, best));
      map a | a in item && a in names :: item[a]
  }

  // ---- The path ----

  function Find(m: Metadata, cs: seq<Cond>, best: Option<Index>): Item -> bool {
    item => Visible(m, best, item) && AllHoldOn(m, cs, item)
  }

  function FirstOf(m: Metadata, best: Option<Index>, kept: set<string>, matches: seq<Item>): Option<Item> {
    if matches == [] then None else Some(Returned(m, best, kept, matches[0]))
  }

  /** Whether the service is sent a key condition and a filter it accepts. */
  predicate Answerable(m: Metadata, cs: seq<Cond>, best: Option<Index>) {
    best.Some? ==>
      var s, sorter := SchemaOf(m, best), BestSorter(m, KeysFor(m, best));
      KeysOnce(m, cs, sorter, s) && LeftKeyFree(m, cs, sorter, s)
  }

  /** What a Query on the chosen index, or a Scan, finds first; a refused condition, or request, is an error. */
  function ByQuery(
    p: Policy, m: Metadata, cs: seq<Cond>, best: Option<Index>, kept: set<string>, items: seq<Item>)
    : Result<Option<Item>>
  {
    if !AllAccepted(p, Normalized(m, cs)) || !Answerable(m, cs, best) then Err
    else Ok(FirstOf(m, best, kept, PagedReads.Matching(items, Find(m, cs, best))))
  }

  /** The index a compiled query without a given index runs on. */
  ghost predicate RunsOn(m: Metadata, cs: seq<Cond>, best: Option<Index>, r: Compiled, sorter: Sorter) {
    && (r.scan <==> best.None?)
    && sorter == if best.Some? then BestSorter(m, KeysFor(m, best)) else NoKeys()
  }

  ghost predicate TextKeeps(c: Components, answers: (Item, Meaning) -> bool, item: Item) {
    && TextHolds(c.keyCondition, c.names, c.values, ItemHolds(answers, item))
    && TextHolds(c.filter, c.names, c.values, ItemHolds(answers, item))
  }

  /** The service takes the texts as a Scan, or as a Query on the index. */
  ghost predicate TextAccepted(m: Metadata, best: Option<Index>, r: Compiled) {
    var c, s := r.components, SchemaOf(m, best);
    r.scan || (LegalKeyText(c.keyCondition, c.names, c.values, s) && LegalFilterText(c.filter, c.names, c.values, s))
  }

  /** The service's part: it refuses an illegal request and keeps the items on which the texts hold. */
  ghost function TextPath(
    m: Metadata, best: Option<Index>, kept: set<string>, r: Compiled, answers: (Item, Meaning) -> bool,
    items: seq<Item>): Result<Option<Item>>
  {
    if !TextAccepted(m, best, r) then Err
    else
      var found := item => Visible(m, best, item) && TextKeeps(r.components, answers, item);
      Ok(FirstOf(m, best, kept, PagedReads.Matching(items, found)))
  }

  lemma {:induction false} SameMatches(items: seq<Item>, a: Item -> bool, b: Item -> bool)
    requires forall x :: x in items ==> a(x) == b(x)
    ensures PagedReads.Matching(items, a) == PagedReads.Matching(items, b)
  {
    if items != [] {
      SameMatches(items[..|items| - 1], a, b);
    }
  }

  /** The texts Compile emits for equalities find what the conditions say. */
  lemma TextPathFinds(
    p: Policy, m: Metadata, cs: seq<Cond>, best: Option<Index>, kept: set<string>, r: Compiled, sorter: Sorter,
    answers: (Item, Meaning) -> bool, items: seq<Item>)
    requires AllAccepted(p, Normalized(m, cs)) && AllEqual(cs) && RunsOn(m, cs, best, r, sorter)
    requires Selects(r.components, SaidAll(p, Normalized(m, cs)), Filters([], []))
    requires KeyExact(r.components, m, cs, sorter) && FilterExact(r.components, m, cs, sorter, Filters([], []))
    ensures TextPath(m, best, kept, r, answers, items) == ByQuery(p, m, cs, best, kept, items)
  {
    var c := r.components;
    var byText := item => Visible(m, best, item) && TextKeeps(c, answers, item);
    forall x | x in items ensures byText(x) == Find(m, cs, best)(x) {
      EqualitiesHold(p, m, cs, answers, x);
      var holds := ItemHolds(answers, x);
      assert TextHolds(c.keyCondition, c.names, c.values, holds) && TextHolds(c.filter, c.names, c.values, holds) <==>
             AllHold(SaidAll(p, Normalized(m, cs)), holds) && Passes([], [], holds);
    }
    SameMatches(items, byText, Find(m, cs, best));
  }

  /** What Compile makes of a query with nothing but equalities is run with the result `ByQuery` gives. */
  method CompileFirst(q: Query, ghost words: set<string>) returns (r: Result<Compiled>, ghost best: Option<Index>)
    requires q.Valid() && q.builder == null && q.index == "" && q.SpeaksWell(words) && AllEqual(q.conditions)
    ensures r.Ok? <==> AllAccepted(q.policy, Normalized(q.metadata, q.conditions))
    ensures best.None? <==> NoneServes(q.metadata, q.conditions)
    ensures best.Some? ==> Serves(q.metadata, q.conditions, best.value)
    ensures r.Ok? ==> forall kept, answers, items ::
              TextPath(q.metadata, best, kept, r.value, answers, items) ==
              ByQuery(q.policy, q.metadata, q.conditions, best, kept, items)
  {
    ghost var sorter;
    r, sorter := q.Compile(words);
    best := None;
    if !NoneServes(q.metadata, q.conditions) {
      if r.Ok? {
        ghost var index :| Serves(q.metadata, q.conditions, index) && index.name == r.value.index &&
                           sorter == BestSorter(q.metadata, KeysFor(q.metadata, Some(index)));
        best := Some(index);
      } else {
        ghost var i :| 0 <= i < |RawIndexes(q.metadata)| && Serves(q.metadata, q.conditions, RawIndexes(q.metadata)[i]);
        best := Some(RawIndexes(q.metadata)[i]);
      }
    }
    if r.Ok? {
      forall kept, answers, items
        ensures TextPath(q.metadata, best, kept, r.value, answers, items) ==
                ByQuery(q.policy, q.metadata, q.conditions, best, kept, items)
      {
        TextPathFinds(q.policy, q.metadata, q.conditions, best, kept, r.value, sorter, answers, items);
      }
    }
  }
}
