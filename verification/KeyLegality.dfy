/**
 When the key condition and the filter of a compiled query are ones the service accepts, on each of the two paths of
 Query.Compile, and queries on which they are not (pkg/query/query.go).
 */
module KeyLegality {
  import opened Text
  import opened Attributes
  import opened ConditionGrammar
  import opened ConditionMeaning
  import opened ConditionPrinter
  import opened ExprBuilder
  import opened IndexSelection
  import opened KeyConditions
  import opened Placeholders
  import opened QueryCompile
  import opened Operators
  import BuilderRuns

  // ---- The path that chooses an index ----

  /**
   With an index chosen by the selector the key condition is legal for that index if and only if, besides the first
   equality, at most one condition is on a key attribute, and it bounds the index's sort key.
   */
  lemma BestLegal(m: Metadata, cs: seq<Cond>, index: Index, p: nat)
    requires Coherent(m) && index in RawIndexes(m)
    requires FirstEquality(KeyUses(m, cs), p) && index.partition == KeyUseOf(m, cs[p]).field
    requires SchemaOf(m, Some(index)).sort != Some(SchemaOf(m, Some(index)).partition)
    ensures var s, sorter := SchemaOf(m, Some(index)), BestSorter(m, KeysFor(m, Some(index)));
            KeysOnce(m, cs, sorter, s) <==> OneBound(m, cs, sorter, s, p)
  {
    var s, sorter := SchemaOf(m, Some(index)), BestSorter(m, KeysFor(m, Some(index)));
    BestFixesPartition(m, cs, index, p);
    assert FixesAt(m, cs[p], s.partition) && sorter(cs[p]);
    if KeysOnce(m, cs, sorter, s) {
      var i :| 0 <= i < |cs| && sorter(cs[i]) && FixesAt(m, cs[i], s.partition) && OneBound(m, cs, sorter, s, i);
      assert i != p ==> BoundsAt(m, cs[p], s);
    }
  }

  // ---- The path with an index given ----

  lemma OpStart(operator: string)
    requires OpOf(operator).Some?
    ensures operator != "" && !IsSpace(Upper(operator)[0])
  {
    assert operator != "";
    assert Upper(operator)[0] == UpperChar(operator[0]);
  }

  lemma OpEnd(operator: string)
    requires OpOf(operator).Some? && operator != ""
    ensures !IsSpace(Upper(operator)[|operator| - 1])
  {
    assert |Upper(operator)| == |operator|;
  }

  lemma OpTrimmed(operator: string)
    requires OpOf(operator).Some?
    ensures TrimSpace(operator) == operator
  {
    OpStart(operator);
    OpEnd(operator);
    var u := Upper(operator);
    assert UpperChar(operator[0]) == u[0] && UpperChar(operator[|operator| - 1]) == u[|u| - 1];
    TrimSpaced(operator);
  }

  /** A spelling the explicit path knows on a sort key: the service's own, BETWEEN or begins_with. */
  predicate SpeltForSort(operator: string) {
    || (ComparatorOf(operator).Done? && ComparatorOf(operator) != Done(NE, []))
    || EqualFold(operator, "BETWEEN") || EqualFold(operator, "begins_with")
  }

  lemma SortSpelt(operator: string)
    requires TrimSpace(operator) == operator
    ensures SortOperator(Upper(TrimSpace(operator))) <==> SpeltForSort(operator)
    ensures Upper(TrimSpace(operator)) == "=" <==> ComparatorOf(operator) == Done(EQ, [])
  {
    Symbols(operator);
    UpperNames();
    UpperFunctions();
  }

  /**
   Which conditions on a key the explicit path puts into the key condition: on the partition key those spelt `=`, and on
   the sort key those spelt as the service does. A comparator spelt as a word (`EQ`, `LT`) stays in the filter.
   */
  lemma ExplicitSpelling(m: Metadata, k: KeyNames, c: Cond)
    requires OpOf(c.operator).Some? && OnKey(m, k, c)
    ensures ExplicitSorter(m, k)(c) <==>
            if OnPartitionKey(m, k, c) then ComparatorOf(c.operator) == Done(EQ, []) else SpeltForSort(c.operator)
  {
    OpTrimmed(c.operator);
    SortSpelt(c.operator);
  }

  lemma UpperOfLower(s: string)
    ensures Upper(Lower(s)) == Upper(s)
  {
    forall i | 0 <= i < |s| ensures Upper(Lower(s))[i] == Upper(s)[i] {
      assert Lower(s)[i] == LowerChar(s[i]);
    }
  }

  /** An operator the selector leaves as it is, but for its case, is none a sort key may be bounded by. */
  lemma Unfolded(operator: string, w: string)
    requires Lower(operator) == w && OrdersSort(w)
    ensures Upper(operator) in {"=", "<", "<=", ">", ">=", "BETWEEN", "BEGINS_WITH"}
  {
    UpperOfLower(operator);
    Symbols(w);
    UpperFunctions();
    assert Upper("between") == "BETWEEN";
  }

  /** The selector, which folds the words, counts on just the operators a sort key may be bounded by. */
  lemma SelectorSpelling(operator: string)
    requires OpOf(operator).Some?
    ensures OrdersSort(NormalizeOperator(operator)) <==> BoundingOp(OpOf(operator).value)
  {
    if OrdersSort(Lower(operator)) {
      Unfolded(operator, Lower(operator));
    }
  }

  lemma SelectorEquality(operator: string)
    ensures IsEquality(operator) <==> OpOf(operator) == Some(Cmp(EQ))
  {
    Symbols(operator);
    UpperNames();
    assert Upper("eq") == "EQ";
  }

  /** A condition the explicit path puts into the key condition has an operator its key attribute may have. */
  lemma ExplicitOperator(p: Policy, m: Metadata, index: Option<Index>, c: Cond)
    requires Coherent(m) && AcceptsCond(p, Normalize(m, c).0) && ExplicitSorter(m, KeysFor(m, index))(c)
    requires m.primary.partition != "" && (index.Some? ==> index.value.name != "" && index.value.partition != "")
    ensures Normalize(m, c).0.field == SchemaOf(m, index).partition ==> FixesAt(m, c, SchemaOf(m, index).partition)
    ensures SchemaOf(m, index).sort == Some(Normalize(m, c).0.field) ==> BoundsAt(m, c, SchemaOf(m, index))
  {
    NormalizedOperator(m, c);
    OpTrimmed(c.operator);
  }

  /** Besides condition `i`, at most one goes into the key condition, and it is on the sort key. */
  predicate OneOnSort(m: Metadata, cs: seq<Cond>, sorter: Sorter, s: Schema, i: nat) {
    && (forall j :: 0 <= j < |cs| && j != i && sorter(cs[j]) ==> s.sort == Some(Normalize(m, cs[j]).0.field))
    && (forall j, k :: 0 <= j < k < |cs| && j != i && k != i ==> !sorter(cs[j]) || !sorter(cs[k]))
  }

  predicate FieldsOnce(m: Metadata, cs: seq<Cond>, sorter: Sorter, s: Schema) {
    exists i ::
      && 0 <= i < |cs| && sorter(cs[i]) && Normalize(m, cs[i]).0.field == s.partition
      && OneOnSort(m, cs, sorter, s, i)
  }

  /**
   With an index given, no operator makes the key condition illegal: it is legal for that index if and only if one
   condition put into it is on the partition key as it is stored and at most one more is, on the sort key as it is
   stored. A second comparison on the sort key, or a sort key borrowed from the table, makes it illegal.
   */
  lemma ExplicitLegal(p: Policy, m: Metadata, cs: seq<Cond>, index: Option<Index>)
    requires Coherent(m) && AllAccepted(p, Normalized(m, cs))
    requires m.primary.partition != "" && (index.Some? ==> index.value.name != "" && index.value.partition != "")
    ensures var s, sorter := SchemaOf(m, index), ExplicitSorter(m, KeysFor(m, index));
            KeysOnce(m, cs, sorter, s) <==> FieldsOnce(m, cs, sorter, s)
  {
    var s, sorter := SchemaOf(m, index), ExplicitSorter(m, KeysFor(m, index));
    forall i | 0 <= i < |cs| && sorter(cs[i])
      ensures Normalize(m, cs[i]).0.field == s.partition <==> FixesAt(m, cs[i], s.partition)
      ensures s.sort == Some(Normalize(m, cs[i]).0.field) <==> BoundsAt(m, cs[i], s)
    {
      assert AcceptsCond(p, Normalized(m, cs)[i]);
      ExplicitOperator(p, m, index, cs[i]);
    }
    if KeysOnce(m, cs, sorter, s) {
      var i :| 0 <= i < |cs| && sorter(cs[i]) && FixesAt(m, cs[i], s.partition) && OneBound(m, cs, sorter, s, i);
      assert OneOnSort(m, cs, sorter, s, i);
    }
    if FieldsOnce(m, cs, sorter, s) {
      var i :| 0 <= i < |cs| && sorter(cs[i]) && Normalize(m, cs[i]).0.field == s.partition
               && OneOnSort(m, cs, sorter, s, i);
      assert OneBound(m, cs, sorter, s, i);
    }
  }

  /**
   The service accepts the whole query exactly when, besides, no condition kept out of the key condition is on a key: a
   comparison on a key attribute with an operator it may not have makes the filter illegal instead.
   */
  lemma ExplicitAccepted(p: Policy, m: Metadata, cs: seq<Cond>, index: Option<Index>, c: Components, own: Filters)
    requires Coherent(m) && AllAccepted(p, Normalized(m, cs))
    requires m.primary.partition != "" && (index.Some? ==> index.value.name != "" && index.value.partition != "")
    requires var sorter := ExplicitSorter(m, KeysFor(m, index));
             KeyExact(c, m, cs, sorter) && FilterExact(c, m, cs, sorter, own)
    ensures var s, sorter := SchemaOf(m, index), ExplicitSorter(m, KeysFor(m, index));
            LegalKeyText(c.keyCondition, c.names, c.values, s) && LegalFilterText(c.filter, c.names, c.values, s) <==>
            FieldsOnce(m, cs, sorter, s) && LeftKeyFree(m, cs, sorter, s) && NoneReach(own.ms, s)
  {
    ExplicitLegal(p, m, cs, index);
  }

  // ---- Queries the service refuses ----

  const ID: Attribute := Attribute("id", "id", false)
  const AGE: Attribute := Attribute("age", "age", false)

  /** A table keyed by `id` and `age`, with these indexes. */
  function People(indexes: seq<Index>): Metadata {
    Metadata(map["id" := ID, "age" := AGE], KeySchema("id", "age"), indexes)
  }

  const BY_AGE: Index := Index("byAge", "LSI", "id", "age", "ALL")
  const BY_ID: Index := Index("byId", "GSI", "id", "", "KEYS_ONLY")

  predicate OnPeople(cs: seq<Cond>) {
    forall i :: 0 <= i < |cs| ==> cs[i].field == "id" || cs[i].field == "age"
  }

  const WORDS: set<string> := {"id", "age"}

  lemma PeopleVocabulary(p: Policy)
    requires p.fieldOk("id") && p.fieldOk("age")
    ensures BuilderRuns.Vocabulary(p, WORDS)
  {
    assert |Upper("id")| != |Upper("age")|;
  }

  lemma PeopleSpeak(p: Policy)
    requires p.fieldOk("id") && p.fieldOk("age")
    ensures BuilderRuns.Speaks(p, WORDS, "id") && BuilderRuns.Speaks(p, WORDS, "age")
  {
    SplitDotless("id");
    SplitDotless("age");
  }

  lemma PeopleNormalized(m: Metadata, cs: seq<Cond>)
    requires m == People(m.indexes) && OnPeople(cs)
    ensures Normalized(m, cs) == cs
  {
    forall i | 0 <= i < |cs| ensures Normalized(m, cs)[i] == cs[i] {
    }
  }

  lemma PeopleSpoken(p: Policy, m: Metadata, cs: seq<Cond>)
    requires m == People(m.indexes) && OnPeople(cs) && p.fieldOk("id") && p.fieldOk("age")
    requires forall i :: 0 <= i < |cs| ==> Readable(cs[i].operator, cs[i].value)
    ensures BuilderRuns.Vocabulary(p, WORDS) && Spoken(p, WORDS, Normalized(m, cs)) && Normalized(m, cs) == cs
  {
    PeopleVocabulary(p);
    PeopleSpeak(p);
    PeopleNormalized(m, cs);
  }

  method WhereAll(q: Query, cs: seq<Cond>)
    requires q.metadata == People(q.metadata.indexes) && OnPeople(cs) && q.conditions == []
    modifies q`conditions
    ensures q.conditions == cs
  {
    var i := 0;
    while i < |cs|
      invariant 0 <= i <= |cs| && q.conditions == cs[..i]
    {
      var ok := q.Where(cs[i].field, cs[i].operator, cs[i].value);
      assert cs[..i + 1] == cs[..i] + [cs[i]];
      i := i + 1;
    }
    assert cs[..i] == cs;
  }

  method CompileWhere(policy: Policy, m: Metadata, index: string, cs: seq<Cond>)
    returns (r: Result<Compiled>, ghost sorter: Sorter)
    requires m == People(m.indexes) && OnPeople(cs) && policy.fieldOk("id") && policy.fieldOk("age")
    requires AllAccepted(policy, cs) && forall i :: 0 <= i < |cs| ==> Readable(cs[i].operator, cs[i].value)
    ensures r.Ok? && KeyExact(r.value.components, m, cs, sorter)
    ensures FilterExact(r.value.components, m, cs, sorter, Filters([], []))
    ensures PlannedBy(m, cs, index, r.value.scan, r.value.index, sorter)
  {
    var q := new Query(m, policy);
    q.index := index;
    WhereAll(q, cs);
    PeopleSpoken(policy, m, cs);
    r, sorter := q.Compile(WORDS);
  }

  /** `id = v` with `age <> w`, no index given. */
  function Inequality(v: GoValue, w: GoValue): seq<Cond> {
    [Cond("id", "=", v), Cond("age", "<>", w)]
  }

  lemma AgeIsKey(c: Cond, index: Index)
    requires c.field == "age" && index == RawIndexes(People([]))[0]
    ensures BestSorter(People([]), KeysFor(People([]), Some(index)))(c)
  {
    var m := People([]);
    assert Normalize(m, c) == (c, "age", "age") && ConditionNames(m, "age", "age") == ("age", "age");
    assert KeysFor(m, Some(index)) == KeyNames("id", "id", "age", "age");
  }

  lemma UnequalOperator()
    ensures OpOf("<>") == Some(Cmp(NE))
  {
    var u := Upper("<>");
    assert u[0] == '<' && u[1] == '>';
    assert u == "<>";
  }

  lemma PeopleSchema(index: Index)
    requires index == RawIndexes(People([]))[0]
    ensures index in RawIndexes(People([])) && SchemaOf(People([]), Some(index)) == Schema("id", Some("age"))
  {
  }

  lemma PeopleCoherent()
    ensures Coherent(People([]))
  {
    var attributes := People([]).attributes;
    assert attributes.Keys == {"id", "age"};
    assert attributes["age"] == AGE && AGE.goName == "age";
    assert "id" != "age" && attributes["id"] == ID && ID.goName == "id";
  }

  lemma InequalityRefused(v: GoValue, w: GoValue, index: Index)
    requires Serves(People([]), Inequality(v, w), index)
    ensures var m := People([]);
            !KeysOnce(m, Inequality(v, w), BestSorter(m, KeysFor(m, Some(index))), Schema("id", Some("age")))
  {
    var m, cs := People([]), Inequality(v, w);
    assert FirstEquality(KeyUses(m, cs), 0);
    assert index == RawIndexes(m)[0];
    PeopleSchema(index);
    PeopleCoherent();
    BestLegal(m, cs, index, 0);
    AgeIsKey(cs[1], index);
    UnequalUnbound(w);
  }

  lemma UnequalUnbound(w: GoValue)
    ensures !BoundsAt(People([]), Cond("age", "<>", w), Schema("id", Some("age")))
  {
    UnequalOperator();
  }

  lemma InequalityServed(v: GoValue, w: GoValue)
    ensures !NoneServes(People([]), Inequality(v, w))
  {
    var m, cs := People([]), Inequality(v, w);
    assert FirstEquality(KeyUses(m, cs), 0);
    assert Serves(m, cs, RawIndexes(m)[0]);
  }

  /** The path that chooses an index puts an inequality on the sort key into the key condition. */
  method InequalityKey(policy: Policy, v: GoValue, w: GoValue) returns (c: Compiled)
    requires policy.fieldOk("id") && policy.fieldOk("age") && AllAccepted(policy, Inequality(v, w))
    ensures !c.scan
    ensures !LegalKeyText(c.components.keyCondition, c.components.names, c.components.values, Schema("id", Some("age")))
  {
    var r;
    ghost var sorter;
    r, sorter := CompileWhere(policy, People([]), "", Inequality(v, w));
    c := r.value;
    InequalityServed(v, w);
    ghost var index :| Serves(People([]), Inequality(v, w), index) && index.name == c.index &&
                       sorter == BestSorter(People([]), KeysFor(People([]), Some(index)));
    InequalityRefused(v, w, index);
  }

  /** `id = v` with `age > w` and `age < x`, on the index by age. */
  function Range(v: GoValue, w: GoValue, x: GoValue): seq<Cond> {
    [Cond("id", "=", v), Cond("age", ">", w), Cond("age", "<", x)]
  }

  lemma OneCharOperator(op: string)
    requires op == "=" || op == ">" || op == "<"
    ensures Upper(TrimSpace(op)) == op
  {
    TrimSpaced(op);
    assert Upper(op)[0] == op[0];
  }

  /** An equality on `id` and a comparison on `age` go into the key condition of either index. */
  lemma PeopleSorted(m: Metadata, i: Index, c: Cond)
    requires m == People([i]) && i.name != "" && i.partition == "id" && (i.sort == "" || i.sort == "age")
    requires (c.field == "id" && c.operator == "=") || (c.field == "age" && (c.operator == ">" || c.operator == "<"))
    ensures ExplicitSorter(m, KeysFor(m, Some(i)))(c)
  {
    OneCharOperator(c.operator);
    assert |Upper("id")| != |Upper("age")|;
  }

  lemma ExplicitPlan(m: Metadata, cs: seq<Cond>, i: Index)
    requires m == People([i]) && i.name != "" && i.partition == "id" && (i.sort == "" || i.sort == "age")
    requires |cs| >= 1 && cs[0].field == "id" && cs[0].operator == "="
    ensures KeysFor(m, Some(i)).pkAttr == "id"
    ensures FixesAttribute(Chosen(m, cs, ExplicitSorter(m, KeysFor(m, Some(i))), true), "id")
  {
    var sorter := ExplicitSorter(m, KeysFor(m, Some(i)));
    PeopleSorted(m, i, cs[0]);
    ChosenPicked(m, cs, sorter);
    var k :| 0 <= k < |Picked(cs, sorter)| && Picked(cs, sorter)[k] == 0;
    assert Chosen(m, cs, sorter, true)[k].field == "id";
  }

  /** With an index given, two comparisons on the sort key both go into the key condition. */
  method RangeKey(policy: Policy, v: GoValue, w: GoValue, x: GoValue) returns (c: Compiled)
    requires policy.fieldOk("id") && policy.fieldOk("age") && AllAccepted(policy, Range(v, w, x))
    ensures !c.scan && c.index == "byAge"
    ensures !LegalKeyText(c.components.keyCondition, c.components.names, c.components.values, Schema("id", Some("age")))
  {
    var m, cs := People([BY_AGE]), Range(v, w, x);
    var r;
    ghost var sorter;
    r, sorter := CompileWhere(policy, m, "byAge", cs);
    c := r.value;
    ExplicitPlan(m, cs, BY_AGE);
    PeopleSorted(m, BY_AGE, cs[1]);
    PeopleSorted(m, BY_AGE, cs[2]);
    assert IndexNamed(m.indexes, "byAge") == Some(BY_AGE);
    assert !KeysOnce(m, cs, sorter, Schema("id", Some("age")));
  }

  /** On an index without a sort key, a comparison on the table's sort key goes into the key condition. */
  method BorrowedKey(policy: Policy, v: GoValue, w: GoValue) returns (c: Compiled)
    requires policy.fieldOk("id") && policy.fieldOk("age")
    requires AllAccepted(policy, [Cond("id", "=", v), Cond("age", ">", w)])
    ensures !c.scan && c.index == "byId"
    ensures !LegalKeyText(c.components.keyCondition, c.components.names, c.components.values, Schema("id", None))
  {
    var m, cs := People([BY_ID]), [Cond("id", "=", v), Cond("age", ">", w)];
    var r;
    ghost var sorter;
    r, sorter := CompileWhere(policy, m, "byId", cs);
    c := r.value;
    ExplicitPlan(m, cs, BY_ID);
    PeopleSorted(m, BY_ID, cs[1]);
    assert IndexNamed(m.indexes, "byId") == Some(BY_ID);
    assert !KeysOnce(m, cs, sorter, Schema("id", None));
  }

  /** One condition fixes the partition key, and the other is on a key but not in the key condition. */
  lemma OneLeft(m: Metadata, cs: seq<Cond>, sorter: Sorter, s: Schema)
    requires |cs| == 2 && sorter(cs[0]) && !sorter(cs[1])
    requires FixesAt(m, cs[0], s.partition) && InKey(Normalize(m, cs[1]).0.field, s)
    ensures KeysOnce(m, cs, sorter, s) && !LeftKeyFree(m, cs, sorter, s)
  {
    assert OneBound(m, cs, sorter, s, 0);
  }

  lemma AgeInKey()
    ensures InKey("age", Schema("id", Some("age")))
  {
    SplitDotless("age");
    FieldStepPlain("age");
  }

  lemma IdFixed(m: Metadata, v: GoValue)
    requires m == People(m.indexes)
    ensures FixesAt(m, Cond("id", "=", v), "id")
  {
    assert Upper("=") == "=";
  }

  lemma AgeStored(m: Metadata, c: Cond)
    requires m == People(m.indexes) && c.field == "age"
    ensures Normalize(m, c).0.field == "age"
  {
  }

  /** `id = v` with another comparison on `age`. */
  function WithAge(v: GoValue, operator: string, w: GoValue): seq<Cond> {
    [Cond("id", "=", v), Cond("age", operator, w)]
  }

  /** `age` is on the sort key, and is no other name for the partition key. */
  lemma AgeOnSort(m: Metadata, c: Cond)
    requires m == People([BY_AGE]) && c.field == "age"
    ensures OnKey(m, KeysFor(m, Some(BY_AGE)), c) && !OnPartitionKey(m, KeysFor(m, Some(BY_AGE)), c)
  {
    assert |Upper("id")| != |Upper("age")|;
  }

  lemma AgeFiltered(m: Metadata, v: GoValue, operator: string, w: GoValue)
    requires m == People([BY_AGE]) && OpOf(operator).Some? && !SpeltForSort(operator)
    ensures var cs, s := WithAge(v, operator, w), Schema("id", Some("age"));
            var sorter := ExplicitSorter(m, KeysFor(m, Some(BY_AGE)));
            KeysOnce(m, cs, sorter, s) && !LeftKeyFree(m, cs, sorter, s)
  {
    var cs, sorter := WithAge(v, operator, w), ExplicitSorter(m, KeysFor(m, Some(BY_AGE)));
    PeopleSorted(m, BY_AGE, cs[0]);
    AgeOnSort(m, cs[1]);
    ExplicitSpelling(m, KeysFor(m, Some(BY_AGE)), cs[1]);
    IdFixed(m, v);
    AgeStored(m, cs[1]);
    AgeInKey();
    OneLeft(m, cs, sorter, Schema("id", Some("age")));
  }

  /**
   With an index given, a comparison on the sort key that is not spelt as the service spells one, an inequality or `LT`
   for `<`, goes into the filter, which may not reach a key attribute.
   */
  method SpellingFilter(policy: Policy, v: GoValue, operator: string, w: GoValue) returns (c: Compiled)
    requires policy.fieldOk("id") && policy.fieldOk("age") && AllAccepted(policy, WithAge(v, operator, w))
    requires !SpeltForSort(operator) && Readable(operator, w)
    ensures !c.scan && c.index == "byAge"
    ensures LegalKeyText(c.components.keyCondition, c.components.names, c.components.values, Schema("id", Some("age")))
    ensures !LegalFilterText(c.components.filter, c.components.names, c.components.values, Schema("id", Some("age")))
  {
    var m, cs := People([BY_AGE]), WithAge(v, operator, w);
    assert AcceptsCond(policy, cs[1]);
    var r;
    ghost var sorter;
    r, sorter := CompileWhere(policy, m, "byAge", cs);
    c := r.value;
    ExplicitPlan(m, cs, BY_AGE);
    AgeFiltered(m, v, operator, w);
    assert IndexNamed(m.indexes, "byAge") == Some(BY_AGE);
  }

  lemma Unspelt()
    ensures !SpeltForSort("<>") && !SpeltForSort("LT") && OpOf("LT") == Some(Cmp(LT))
  {
    Symbols("<>");
    UpperNames();
    UpperFunctions();
    UpperWord("LT");
  }

  /** With an index given, an inequality on the sort key goes into the filter, which may not reach a key attribute. */
  method InequalityFilter(policy: Policy, v: GoValue, w: GoValue) returns (c: Compiled)
    requires policy.fieldOk("id") && policy.fieldOk("age") && AllAccepted(policy, Inequality(v, w))
    ensures !c.scan && c.index == "byAge"
    ensures LegalKeyText(c.components.keyCondition, c.components.names, c.components.values, Schema("id", Some("age")))
    ensures !LegalFilterText(c.components.filter, c.components.names, c.components.values, Schema("id", Some("age")))
  {
    Unspelt();
    UnequalOperator();
    c := SpellingFilter(policy, v, "<>", w);
  }
}
