/** Query.Compile (pkg/query/query.go): Where conditions are divided between the key condition and the filter. */
module QueryCompile {
  import opened Text
  import opened Attributes
  import opened ConditionGrammar
  import opened ConditionMeaning
  import opened ConditionPrinter
  import opened ExprBuilder
  import opened IndexSelection
  import opened KeyConditions
  import opened Placeholders
  import BuilderRuns

  datatype Cond = Cond(field: string, operator: string, value: GoValue)

  datatype Attribute = Attribute(goName: string, dbName: string, encrypted: bool)

  datatype KeySchema = KeySchema(partition: string, sort: string)

  /** `attributes` answers AttributeMetadata for every name it knows an attribute by. */
  datatype Metadata = Metadata(attributes: map<string, Attribute>, primary: KeySchema, indexes: seq<Index>)

  // ---- Names ----

  function Lookup(m: Metadata, field: string): Option<Attribute> {
    if field in m.attributes then Some(m.attributes[field]) else None
  }

  function GoName(m: Metadata, field: string): string {
    match Lookup(m, field)
    case Some(a) => if field != "" && a.goName != "" then a.goName else field
    case None => field
  }

  function AttributeName(m: Metadata, field: string): string {
    match Lookup(m, field)
    case Some(a) =>
      if field == "" then field else if a.dbName != "" then a.dbName else if a.goName != "" then a.goName else field
    case None => field
  }

  /** normalizeCondition: the condition on the stored attribute, with the field's two names. */
  function Normalize(m: Metadata, c: Cond): (Cond, string, string) {
    match Lookup(m, c.field)
    case Some(a) =>
      var attr := if a.dbName != "" then a.dbName else a.goName;
      (c.(field := attr), a.goName, attr)
    case None => (c, c.field, c.field)
  }

  function ConditionNames(m: Metadata, goField: string, attr: string): (string, string) {
    match (Lookup(m, goField), Lookup(m, attr))
    case (Some(a), _) =>
      var go := if a.goName != "" then a.goName else goField;
      (go, if a.dbName != "" then a.dbName else if attr == "" then go else attr)
    case (None, Some(a)) =>
      (if a.goName != "" then a.goName else goField, if a.dbName != "" then a.dbName else attr)
    case (None, None) => (goField, attr)
  }

  datatype KeyNames = KeyNames(pkGo: string, pkAttr: string, skGo: string, skAttr: string)

  predicate IsPartitionKey(k: KeyNames, go: string, attr: string) {
    k.pkGo != "" && (EqualFold(go, k.pkGo) || EqualFold(attr, k.pkAttr))
  }

  predicate IsSortKey(k: KeyNames, go: string, attr: string) {
    k.skGo != "" && (EqualFold(go, k.skGo) || EqualFold(attr, k.skAttr))
  }

  function Or(a: string, b: string): string {
    if a == "" then b else a
  }

  /** An index that names no sort key is given the table's. */
  function KeysFor(m: Metadata, index: Option<Index>): KeyNames {
    var p := m.primary;
    var table :=
      KeyNames(GoName(m, p.partition), AttributeName(m, p.partition), GoName(m, p.sort), AttributeName(m, p.sort));
    match index
    case None => table
    case Some(i) =>
      if i.name == "" then table
      else KeyNames(Or(GoName(m, i.partition), table.pkGo), Or(AttributeName(m, i.partition), table.pkAttr),
                    Or(GoName(m, i.sort), table.skGo), Or(AttributeName(m, i.sort), table.skAttr))
  }

  predicate OnPartitionKey(m: Metadata, k: KeyNames, c: Cond) {
    var (_, go, attr) := Normalize(m, c);
    var (go', attr') := ConditionNames(m, go, attr);
    IsPartitionKey(k, go', attr')
  }

  predicate OnKey(m: Metadata, k: KeyNames, c: Cond) {
    var (_, go, attr) := Normalize(m, c);
    var (go', attr') := ConditionNames(m, go, attr);
    IsPartitionKey(k, go', attr') || IsSortKey(k, go', attr')
  }

  /** Every attribute is known by its Go name and by the name it is stored under. */
  predicate Registered(m: Metadata) {
    forall f :: f in m.attributes ==>
      var a := m.attributes[f];
      && a.goName != "" && a.goName in m.attributes && m.attributes[a.goName] == a
      && a.dbName != "" && a.dbName in m.attributes && m.attributes[a.dbName] == a
  }

  /** The same attribute, but for letter case. */
  predicate SameNamed(a: Attribute, b: Attribute) {
    EqualFold(a.goName, b.goName) || EqualFold(a.dbName, b.dbName)
  }

  /** A condition under any of an attribute's names is on an index key when that is the attribute, and only then. */
  lemma KeyMatched(m: Metadata, i: Index, c: Cond, a: Attribute)
    requires Registered(m) && c.field != "" && Lookup(m, c.field) == Some(a)
    requires i.name != "" && i.partition != "" && i.sort != ""
    ensures Lookup(m, i.partition).Some? ==>
              (OnPartitionKey(m, KeysFor(m, Some(i)), c) <==> SameNamed(a, Lookup(m, i.partition).value))
    ensures Lookup(m, i.partition).Some? && Lookup(m, i.sort).Some? ==>
              (OnKey(m, KeysFor(m, Some(i)), c) <==>
               SameNamed(a, Lookup(m, i.partition).value) || SameNamed(a, Lookup(m, i.sort).value))
  {
    FieldNames(m, c, a);
  }

  /** The same for the table, given or as the index without a name. */
  lemma TableKeyMatched(m: Metadata, i: Index, c: Cond, a: Attribute)
    requires Registered(m) && c.field != "" && Lookup(m, c.field) == Some(a)
    requires i.name == "" && m.primary.partition != "" && m.primary.sort != ""
    ensures KeysFor(m, Some(i)) == KeysFor(m, None)
    ensures Lookup(m, m.primary.partition).Some? ==>
              (OnPartitionKey(m, KeysFor(m, None), c) <==> SameNamed(a, Lookup(m, m.primary.partition).value))
    ensures Lookup(m, m.primary.partition).Some? && Lookup(m, m.primary.sort).Some? ==>
              (OnKey(m, KeysFor(m, None), c) <==>
               SameNamed(a, Lookup(m, m.primary.partition).value) || SameNamed(a, Lookup(m, m.primary.sort).value))
  {
    FieldNames(m, c, a);
  }

  lemma FieldNames(m: Metadata, c: Cond, a: Attribute)
    requires Registered(m) && c.field != "" && Lookup(m, c.field) == Some(a)
    ensures Normalize(m, c) == (c.(field := a.dbName), a.goName, a.dbName)
    ensures ConditionNames(m, a.goName, a.dbName) == (a.goName, a.dbName)
  {
    assert Normalize(m, c).0.field == a.dbName && Normalize(m, c).1 == a.goName;
    assert ConditionNames(m, a.goName, a.dbName) == (a.goName, a.dbName);
  }

  predicate SortOperator(op: string) {
    op == "=" || op == "<" || op == "<=" || op == ">" || op == ">=" || op == "BETWEEN" || op == "BEGINS_WITH"
  }

  /** The operators a key condition may have. */
  predicate AllowedOnKey(m: Metadata, k: KeyNames, c: Cond) {
    var op := Upper(TrimSpace(c.operator));
    if OnPartitionKey(m, k, c) then op == "=" else SortOperator(op)
  }

  // ---- Splitting ----

  /** How a splitter sorts conditions: into the key condition or into the filter. */
  type Sorter = Cond -> bool

  function ExplicitSorter(m: Metadata, k: KeyNames): Sorter {
    c => OnKey(m, k, c) && AllowedOnKey(m, k, c)
  }

  function BestSorter(m: Metadata, k: KeyNames): Sorter {
    c => OnKey(m, k, c)
  }

  function Normalized(m: Metadata, cs: seq<Cond>): (ns: seq<Cond>)
    ensures |ns| == |cs|
    ensures forall i :: 0 <= i < |cs| ==> ns[i] == Normalize(m, cs[i]).0
  {
    seq(|cs|, i requires 0 <= i < |cs| => Normalize(m, cs[i]).0)
  }

  /** The normalized conditions of one kind, in order. */
  function Chosen(m: Metadata, cs: seq<Cond>, sorter: Sorter, kind: bool): seq<Cond> {
    if cs == [] then []
    else
      var n := |cs| - 1;
      Chosen(m, cs[..n], sorter, kind) + if sorter(cs[n]) == kind then [Normalize(m, cs[n]).0] else []
  }

  /** The branches of partitionConditionsForKeys for one condition. */
  method GoesToKey(m: Metadata, k: KeyNames, c: Cond) returns (key: bool)
    ensures key == ExplicitSorter(m, k)(c)
  {
    if !OnKey(m, k, c) {
      return false;
    }
    var op := Upper(TrimSpace(c.operator));
    if OnPartitionKey(m, k, c) {
      return op == "=";
    }
    key := SortOperator(op);
  }

  method PartitionConditionsForKeys(m: Metadata, k: KeyNames, cs: seq<Cond>)
    returns (keys: seq<Cond>, filters: seq<Cond>)
    ensures keys == Chosen(m, cs, ExplicitSorter(m, k), true)
    ensures filters == Chosen(m, cs, ExplicitSorter(m, k), false)
  {
    keys, filters := [], [];
    ghost var sorter := ExplicitSorter(m, k);
    var i := 0;
    while i < |cs|
      invariant 0 <= i <= |cs|
      invariant keys == Chosen(m, cs[..i], sorter, true)
      invariant filters == Chosen(m, cs[..i], sorter, false)
    {
      assert cs[..i + 1][..i] == cs[..i];
      var normalized := Normalize(m, cs[i]).0;
      var key := GoesToKey(m, k, cs[i]);
      if key {
        keys := keys + [normalized];
      } else {
        filters := filters + [normalized];
      }
      i := i + 1;
    }
    assert cs[..i] == cs;
  }

  method SplitConditionsByKey(m: Metadata, k: KeyNames, cs: seq<Cond>) returns (keys: seq<Cond>, filters: seq<Cond>)
    ensures keys == Chosen(m, cs, BestSorter(m, k), true)
    ensures filters == Chosen(m, cs, BestSorter(m, k), false)
  {
    keys, filters := [], [];
    var i := 0;
    while i < |cs|
      invariant 0 <= i <= |cs|
      invariant keys == Chosen(m, cs[..i], BestSorter(m, k), true)
      invariant filters == Chosen(m, cs[..i], BestSorter(m, k), false)
    {
      assert cs[..i + 1][..i] == cs[..i];
      var (normalized, go, attr) := Normalize(m, cs[i]);
      var (go', attr') := ConditionNames(m, go, attr);
      if IsPartitionKey(k, go', attr') || IsSortKey(k, go', attr') {
        keys := keys + [normalized];
      } else {
        filters := filters + [normalized];
      }
      i := i + 1;
    }
    assert cs[..i] == cs;
  }

  // ---- Meanings ----

  predicate AcceptsCond(p: Policy, c: Cond) {
    Accepts(p, c.field, c.operator, c.value)
  }

  predicate AllAccepted(p: Policy, cs: seq<Cond>) {
    forall i :: 0 <= i < |cs| ==> AcceptsCond(p, cs[i])
  }

  function SaidAll(p: Policy, cs: seq<Cond>): (ms: seq<Meaning>)
    requires AllAccepted(p, cs)
    ensures |ms| == |cs|
    ensures forall i :: 0 <= i < |cs| ==> ms[i] == SaidBy(p, cs[i])
  {
    seq(|cs|, i requires 0 <= i < |cs| && AcceptsCond(p, cs[i]) => SaidBy(p, cs[i]))
  }

  function SaidBy(p: Policy, c: Cond): Meaning
    requires AcceptsCond(p, c)
  {
    Said(p, c.field, c.operator, c.value)
  }

  predicate AllHold(ms: seq<Meaning>, holds: Meaning -> bool) {
    forall i :: 0 <= i < |ms| ==> Eval(ms[i], holds)
  }

  lemma ChosenAccepted(p: Policy, m: Metadata, cs: seq<Cond>, sorter: Sorter)
    ensures AllAccepted(p, Normalized(m, cs)) <==>
            AllAccepted(p, Chosen(m, cs, sorter, true)) && AllAccepted(p, Chosen(m, cs, sorter, false))
  {
    if cs != [] {
      var n := |cs| - 1;
      ChosenAccepted(p, m, cs[..n], sorter);
      assert Normalized(m, cs) == Normalized(m, cs[..n]) + [Normalize(m, cs[n]).0];
      AcceptedCat(p, Normalized(m, cs[..n]), [Normalize(m, cs[n]).0]);
      AcceptedCat(p, Chosen(m, cs[..n], sorter, true), if sorter(cs[n]) then [Normalize(m, cs[n]).0] else []);
      AcceptedCat(p, Chosen(m, cs[..n], sorter, false), if sorter(cs[n]) then [] else [Normalize(m, cs[n]).0]);
    }
  }

  lemma AcceptedCat(p: Policy, a: seq<Cond>, b: seq<Cond>)
    ensures AllAccepted(p, a + b) <==> AllAccepted(p, a) && AllAccepted(p, b)
  {
    if AllAccepted(p, a + b) {
      forall i | 0 <= i < |a| ensures AcceptsCond(p, a[i]) { assert AcceptsCond(p, (a + b)[i]); }
      forall i | 0 <= i < |b| ensures AcceptsCond(p, b[i]) { assert AcceptsCond(p, (a + b)[|a| + i]); }
    }
  }

  lemma HoldCat(a: seq<Meaning>, b: seq<Meaning>, holds: Meaning -> bool)
    ensures AllHold(a + b, holds) <==> AllHold(a, holds) && AllHold(b, holds)
  {
    if AllHold(a + b, holds) {
      forall i | 0 <= i < |a| ensures Eval(a[i], holds) { assert Eval((a + b)[i], holds); }
      forall i | 0 <= i < |b| ensures Eval(b[i], holds) { assert Eval((a + b)[|a| + i], holds); }
    }
  }

  lemma SaidCat(p: Policy, a: seq<Cond>, b: seq<Cond>)
    requires AllAccepted(p, a) && AllAccepted(p, b)
    ensures AllAccepted(p, a + b) && SaidAll(p, a + b) == SaidAll(p, a) + SaidAll(p, b)
  {
    AcceptedCat(p, a, b);
  }

  lemma SaidOne(p: Policy, c: Cond)
    ensures AllAccepted(p, [c]) <==> AcceptsCond(p, c)
    ensures AcceptsCond(p, c) ==> SaidAll(p, [c]) == [SaidBy(p, c)]
  {
    assert [c][0] == c;
  }

  lemma SaidNext(p: Policy, cs: seq<Cond>, i: nat)
    requires i < |cs| && AllAccepted(p, cs[..i]) && AcceptsCond(p, cs[i])
    ensures AllAccepted(p, cs[..i + 1]) && SaidAll(p, cs[..i + 1]) == SaidAll(p, cs[..i]) + SaidAll(p, [cs[i]])
  {
    assert cs[..i + 1] == cs[..i] + [cs[i]];
    SaidCat(p, cs[..i], [cs[i]]);
  }

  /** However conditions are sorted, the two parts together say what all of them say. */
  lemma {:induction false} ChosenHold(p: Policy, m: Metadata, cs: seq<Cond>, sorter: Sorter, holds: Meaning -> bool)
    requires AllAccepted(p, Normalized(m, cs))
    ensures AllAccepted(p, Chosen(m, cs, sorter, true)) && AllAccepted(p, Chosen(m, cs, sorter, false))
    ensures AllHold(SaidAll(p, Chosen(m, cs, sorter, true)), holds) &&
            AllHold(SaidAll(p, Chosen(m, cs, sorter, false)), holds) <==>
            AllHold(SaidAll(p, Normalized(m, cs)), holds)
  {
    ChosenAccepted(p, m, cs, sorter);
    if cs != [] {
      var n := |cs| - 1;
      var last := [Normalize(m, cs[n]).0];
      assert Normalized(m, cs) == Normalized(m, cs[..n]) + last;
      AcceptedCat(p, Normalized(m, cs[..n]), last);
      ChosenHold(p, m, cs[..n], sorter, holds);
      SaidCat(p, Normalized(m, cs[..n]), last);
      HoldCat(SaidAll(p, Normalized(m, cs[..n])), SaidAll(p, last), holds);
      var grown := Chosen(m, cs[..n], sorter, sorter(cs[n]));
      SaidCat(p, grown, last);
      HoldCat(SaidAll(p, grown), SaidAll(p, last), holds);
      assert Chosen(m, cs, sorter, sorter(cs[n])) == grown + last;
      assert Chosen(m, cs, sorter, !sorter(cs[n])) == Chosen(m, cs[..n], sorter, !sorter(cs[n]));
    }
  }

  // ---- When the key condition is one the service accepts ----

  /** The positions of the conditions sorted into the key condition, in order. */
  function Picked(cs: seq<Cond>, sorter: Sorter): (ps: seq<nat>)
    ensures forall k :: 0 <= k < |ps| ==> ps[k] < |cs| && sorter(cs[ps[k]])
    ensures forall k, l :: 0 <= k < l < |ps| ==> ps[k] < ps[l]
    ensures forall i: nat :: i < |cs| && sorter(cs[i]) ==> i in ps
  {
    if cs == [] then []
    else
      var n := |cs| - 1;
      Picked(cs[..n], sorter) + if sorter(cs[n]) then [n] else []
  }

  lemma {:induction false} ChosenPicked(m: Metadata, cs: seq<Cond>, sorter: Sorter)
    ensures |Chosen(m, cs, sorter, true)| == |Picked(cs, sorter)|
    ensures forall k :: 0 <= k < |Picked(cs, sorter)| ==>
              Chosen(m, cs, sorter, true)[k] == Normalize(m, cs[Picked(cs, sorter)[k]]).0
  {
    if cs != [] {
      ChosenPicked(m, cs[..|cs| - 1], sorter);
    }
  }

  /** An equality on this attribute. */
  predicate FixesAt(m: Metadata, c: Cond, key: string) {
    Normalize(m, c).0.field == key && OpOf(c.operator) == Some(Cmp(EQ))
  }

  /** A comparison a sort key may be bounded by, on the sort key. */
  predicate BoundsAt(m: Metadata, c: Cond, s: Schema) {
    s.sort == Some(Normalize(m, c).0.field) && OpOf(c.operator).Some? && BoundingOp(OpOf(c.operator).value)
  }

  /** Besides condition `i`, at most one goes into the key condition, and it bounds the sort key. */
  predicate OneBound(m: Metadata, cs: seq<Cond>, sorter: Sorter, s: Schema, i: nat) {
    && (forall j :: 0 <= j < |cs| && j != i && sorter(cs[j]) ==> BoundsAt(m, cs[j], s))
    && (forall j, k :: 0 <= j < k < |cs| && j != i && k != i ==> !sorter(cs[j]) || !sorter(cs[k]))
  }

  /**
   One condition that goes into the key condition fixes the partition key, and at most one more bounds the sort key.
   */
  predicate KeysOnce(m: Metadata, cs: seq<Cond>, sorter: Sorter, s: Schema) {
    exists i :: 0 <= i < |cs| && sorter(cs[i]) && FixesAt(m, cs[i], s.partition) && OneBound(m, cs, sorter, s, i)
  }

  lemma NormalizedOperator(m: Metadata, c: Cond)
    ensures Normalize(m, c).0.operator == c.operator && Normalize(m, c).0.value == c.value
  {
  }

  lemma ChosenShape(p: Policy, m: Metadata, cs: seq<Cond>, sorter: Sorter, s: Schema, k: nat)
    requires AllAccepted(p, Chosen(m, cs, sorter, true)) && k < |Picked(cs, sorter)|
    ensures |Chosen(m, cs, sorter, true)| == |Picked(cs, sorter)|
    ensures var c := cs[Picked(cs, sorter)[k]];
            var said := SaidAll(p, Chosen(m, cs, sorter, true))[k];
            && (FixesKey(said, s.partition) <==> FixesAt(m, c, s.partition))
            && (BoundsSort(said, s) <==> BoundsAt(m, c, s))
            && !said.And?
  {
    ChosenPicked(m, cs, sorter);
    var c := Chosen(m, cs, sorter, true)[k];
    assert AcceptsCond(p, c);
    NormalizedOperator(m, cs[Picked(cs, sorter)[k]]);
    SaidShape(p, c.field, c.operator, c.value, s.partition);
    if s.sort.Some? {
      SaidShape(p, c.field, c.operator, c.value, s.sort.value);
    }
  }

  lemma OfTwo(ps: seq<nat>, k: nat, j: nat)
    requires k < |ps| <= 2 && j in ps && j != ps[k]
    ensures |ps| == 2 && j == ps[1 - k]
  {
  }

  lemma PickedOnce(m: Metadata, cs: seq<Cond>, sorter: Sorter, s: Schema, k: nat)
    requires k < |Picked(cs, sorter)| <= 2 && FixesAt(m, cs[Picked(cs, sorter)[k]], s.partition)
    requires |Picked(cs, sorter)| == 2 ==> BoundsAt(m, cs[Picked(cs, sorter)[1 - k]], s)
    ensures KeysOnce(m, cs, sorter, s)
  {
    var ps := Picked(cs, sorter);
    var other := if |ps| == 2 then Some(ps[1 - k]) else None;
    forall j: nat | j < |cs| && j != ps[k] && sorter(cs[j]) ensures other == Some(j) {
      OfTwo(ps, k, j);
    }
    OneOther(m, cs, sorter, s, ps[k], other);
  }

  lemma OneOther(m: Metadata, cs: seq<Cond>, sorter: Sorter, s: Schema, i: nat, other: Option<nat>)
    requires i < |cs| && sorter(cs[i]) && FixesAt(m, cs[i], s.partition)
    requires forall j: nat :: j < |cs| && j != i && sorter(cs[j]) ==> other == Some(j)
    requires other.Some? ==> other.value < |cs| && BoundsAt(m, cs[other.value], s)
    ensures KeysOnce(m, cs, sorter, s)
  {
    assert OneBound(m, cs, sorter, s, i);
  }

  lemma RunOnce(p: Policy, m: Metadata, cs: seq<Cond>, sorter: Sorter, s: Schema)
    requires AllAccepted(p, Chosen(m, cs, sorter, true)) && LegalRun(SaidAll(p, Chosen(m, cs, sorter, true)), s)
    ensures KeysOnce(m, cs, sorter, s)
  {
    var ps := Picked(cs, sorter);
    ChosenPicked(m, cs, sorter);
    ChosenShape(p, m, cs, sorter, s, 0);
    if |ps| == 2 {
      ChosenShape(p, m, cs, sorter, s, 1);
    }
    var ms := SaidAll(p, Chosen(m, cs, sorter, true));
    PickedOnce(m, cs, sorter, s, if FixesKey(ms[0], s.partition) && (|ps| == 2 ==> BoundsSort(ms[1], s)) then 0 else 1);
  }

  lemma AtMostTwo(m: Metadata, cs: seq<Cond>, sorter: Sorter, s: Schema, i: nat, k: nat)
    requires k < |Picked(cs, sorter)| && Picked(cs, sorter)[k] == i && OneBound(m, cs, sorter, s, i)
    ensures |Picked(cs, sorter)| <= 2
  {
    if |Picked(cs, sorter)| > 2 {
      var a, b := TwoOthers(cs, sorter, k);
    }
  }

  lemma TwoOthers(cs: seq<Cond>, sorter: Sorter, k: nat) returns (a: nat, b: nat)
    requires k < |Picked(cs, sorter)| && |Picked(cs, sorter)| > 2
    ensures a < b < |cs| && sorter(cs[a]) && sorter(cs[b]) && a != Picked(cs, sorter)[k] && b != Picked(cs, sorter)[k]
  {
    var ps := Picked(cs, sorter);
    a := ps[if k == 0 then 1 else 0];
    b := ps[if k == 2 then 1 else 2];
  }

  lemma ShapesLegal(ms: seq<Meaning>, s: Schema, k: nat)
    requires k < |ms| <= 2 && FixesKey(ms[k], s.partition) && (|ms| == 2 ==> BoundsSort(ms[1 - k], s))
    ensures LegalRun(ms, s)
  {
  }

  /** The picked condition fixes the partition key, and the other one, if there is one, bounds the sort key. */
  lemma PickedShapes(m: Metadata, cs: seq<Cond>, sorter: Sorter, s: Schema) returns (k: nat)
    requires KeysOnce(m, cs, sorter, s)
    ensures k < |Picked(cs, sorter)| <= 2 && FixesAt(m, cs[Picked(cs, sorter)[k]], s.partition)
    ensures |Picked(cs, sorter)| == 2 ==> BoundsAt(m, cs[Picked(cs, sorter)[1 - k]], s)
  {
    var ps := Picked(cs, sorter);
    var i :| 0 <= i < |cs| && sorter(cs[i]) && FixesAt(m, cs[i], s.partition) && OneBound(m, cs, sorter, s, i);
    k :| 0 <= k < |ps| && ps[k] == i;
    AtMostTwo(m, cs, sorter, s, i, k);
    assert |ps| == 2 ==> ps[1 - k] != i;
  }

  lemma OnceRun(p: Policy, m: Metadata, cs: seq<Cond>, sorter: Sorter, s: Schema)
    requires AllAccepted(p, Chosen(m, cs, sorter, true)) && KeysOnce(m, cs, sorter, s)
    ensures LegalRun(SaidAll(p, Chosen(m, cs, sorter, true)), s)
  {
    var ps, ms := Picked(cs, sorter), SaidAll(p, Chosen(m, cs, sorter, true));
    ChosenPicked(m, cs, sorter);
    var k := PickedShapes(m, cs, sorter, s);
    ChosenShape(p, m, cs, sorter, s, k);
    if |ps| == 2 {
      ChosenShape(p, m, cs, sorter, s, 1 - k);
    }
    ShapesLegal(ms, s, k);
  }

  /** The emitted key condition is one the service accepts for these keys exactly under this condition on the query. */
  ghost predicate KeyExact(c: Components, m: Metadata, cs: seq<Cond>, sorter: Sorter) {
    forall s :: LegalKeyText(c.keyCondition, c.names, c.values, s) <==> KeysOnce(m, cs, sorter, s)
  }

  lemma LegalExactly(p: Policy, m: Metadata, cs: seq<Cond>, sorter: Sorter, c: Components)
    requires AllAccepted(p, Chosen(m, cs, sorter, true))
    requires var ms := SaidAll(p, Chosen(m, cs, sorter, true));
             Emitted(c.keyCondition, c.names, c.values, ms, KeyOps(|ms|))
    ensures KeyExact(c, m, cs, sorter)
  {
    var ms := SaidAll(p, Chosen(m, cs, sorter, true));
    ChosenPicked(m, cs, sorter);
    forall s ensures LegalKeyText(c.keyCondition, c.names, c.values, s) <==> KeysOnce(m, cs, sorter, s) {
      forall k | 0 <= k < |ms| ensures !ms[k].And? {
        ChosenShape(p, m, cs, sorter, s, k);
      }
      LegalEmitted(c.keyCondition, c.names, c.values, ms, s);
      if LegalRun(ms, s) {
        RunOnce(p, m, cs, sorter, s);
      }
      if KeysOnce(m, cs, sorter, s) {
        OnceRun(p, m, cs, sorter, s);
      }
    }
  }

  /** The attributes a query on this index, or the table, is keyed by. */
  function SchemaOf(m: Metadata, index: Option<Index>): Schema {
    var (partition, sort) := match index
      case None => (m.primary.partition, m.primary.sort)
      case Some(i) => (i.partition, i.sort);
    Schema(AttributeName(m, partition), if sort == "" then None else Some(AttributeName(m, sort)))
  }

  // ---- The chosen index ----

  /** Every name an attribute goes by finds it under its Go name too. */
  predicate Coherent(m: Metadata) {
    && (forall f :: f in m.attributes ==>
          m.attributes[f].goName != "" && m.attributes[f].goName in m.attributes &&
          m.attributes[m.attributes[f].goName] == m.attributes[f])
    && (forall i :: 0 <= i < |m.indexes| ==> m.indexes[i].name != "")
  }

  /** The conditions as the selector sees them. */
  function KeyUses(m: Metadata, cs: seq<Cond>): (us: seq<KeyUse>)
    ensures |us| == |cs|
    ensures forall i :: 0 <= i < |cs| ==> us[i] == KeyUseOf(m, cs[i])
  {
    seq(|cs|, i requires 0 <= i < |cs| => KeyUseOf(m, cs[i]))
  }

  function KeyUseOf(m: Metadata, c: Cond): KeyUse {
    var (normalized, go, attr) := Normalize(m, c);
    KeyUse(Or(go, Or(attr, normalized.field)), normalized.operator)
  }

  function TableIndex(m: Metadata): Index {
    Index("", "PRIMARY", m.primary.partition, m.primary.sort, "")
  }

  /** The table and its indexes, the table first. */
  function RawIndexes(m: Metadata): seq<Index> {
    [TableIndex(m)] + m.indexes
  }

  /** A candidate index whose partition key is the attribute of the first equality. */
  ghost predicate Serves(m: Metadata, cs: seq<Cond>, index: Index) {
    index in RawIndexes(m) &&
    exists p: nat :: FirstEquality(KeyUses(m, cs), p) && index.partition == KeyUseOf(m, cs[p]).field
  }

  ghost predicate NoneServes(m: Metadata, cs: seq<Cond>) {
    forall i :: 0 <= i < |RawIndexes(m)| ==> !Serves(m, cs, RawIndexes(m)[i])
  }

  /** The candidate that no other outranks for what the conditions require, and the first of its kind. */
  ghost predicate Preferred(m: Metadata, cs: seq<Cond>, index: Index) {
    exists r, b: nat ::
      RequiredBy(KeyUses(m, cs), r) && IsPreferred(RawIndexes(m), r, b) && index == RawIndexes(m)[b]
  }

  /** What the selector answers: nothing when nothing serves, and otherwise the preferred index. */
  ghost predicate Picks(m: Metadata, cs: seq<Cond>, best: Option<Index>) {
    match best
    case None => NoneServes(m, cs)
    case Some(index) => Serves(m, cs, index) && Preferred(m, cs, index)
  }

  /** Where the conditions fix the table's own partition key, the table is chosen unless some index outranks it. */
  lemma TablePreferred(m: Metadata, cs: seq<Cond>, index: Index)
    requires Coherent(m) && Preferred(m, cs, index) && index.partition == m.primary.partition
    ensures exists r ::
              RequiredBy(KeyUses(m, cs), r) && r.partition == m.primary.partition
              && (index == TableIndex(m) <==>
                  forall i :: 0 <= i < |m.indexes| && m.indexes[i].partition == r.partition ==>
                    !Outranks(Merits(m.indexes[i], r), Merits(TableIndex(m), r)))
  {
    var r, b: nat :|
      RequiredBy(KeyUses(m, cs), r) && IsPreferred(RawIndexes(m), r, b) && index == RawIndexes(m)[b];
    assert RawIndexes(m)[0] == TableIndex(m);
    forall i | 0 <= i < |m.indexes| ensures RawIndexes(m)[i + 1] == m.indexes[i] {
    }
  }

  method SelectBestIndex(m: Metadata, cs: seq<Cond>) returns (best: Option<Index>)
    ensures Picks(m, cs, best)
  {
    var required := AnalyzeConditions(KeyUses(m, cs));
    best := SelectOptimal(RawIndexes(m), required);
    if best.Some? {
      ghost var b: nat :| IsBest(RawIndexes(m), required, b) && best.value == RawIndexes(m)[b];
      BestExactly(RawIndexes(m), required, b);
    }
    ghost var us := KeyUses(m, cs);
    if required.partition == "" {
      assert forall p: nat :: !FirstEquality(us, p);
    } else {
      ghost var p: nat :| FirstEquality(us, p) && required.partition == us[p].field;
      assert forall q: nat :: FirstEquality(us, q) ==> q == p;
      assert forall i :: 0 <= i < |RawIndexes(m)| ==>
               (Serves(m, cs, RawIndexes(m)[i]) <==> RawIndexes(m)[i].partition == required.partition);
    }
  }

  /** On the path that chooses an index, the key condition fixes that index's partition key by an equality. */
  lemma BestFixesPartition(m: Metadata, cs: seq<Cond>, index: Index, p: nat)
    requires Coherent(m) && index in RawIndexes(m)
    requires FirstEquality(KeyUses(m, cs), p) && index.partition == KeyUseOf(m, cs[p]).field
    ensures OnPartitionKey(m, KeysFor(m, Some(index)), cs[p])
    ensures BestSorter(m, KeysFor(m, Some(index)))(cs[p])
    ensures FixesAt(m, cs[p], SchemaOf(m, Some(index)).partition)
  {
    var c := cs[p];
    var (normalized, go, attr) := Normalize(m, c);
    assert KeyUses(m, cs)[p] == KeyUseOf(m, c);
    assert go != "";
    if index.name == "" {
      assert index == RawIndexes(m)[0];
    }
    assert KeysFor(m, Some(index)).pkGo == GoName(m, go);
    assert ConditionNames(m, go, attr).0 == GoName(m, go);
    assert Upper("eq") == "EQ" && Upper("=") == "=";
    assert AttributeName(m, go) == normalized.field;
  }

  lemma BestFixed(m: Metadata, cs: seq<Cond>, index: Index)
    requires Coherent(m) && Serves(m, cs, index)
    ensures FixedBy(m, cs, BestSorter(m, KeysFor(m, Some(index))), SchemaOf(m, Some(index)).partition)
  {
    var p: nat :| FirstEquality(KeyUses(m, cs), p) && index.partition == KeyUseOf(m, cs[p]).field;
    BestFixesPartition(m, cs, index, p);
  }

  // ---- Compiling ----

  /** The builder's texts are sound and its names come from a vocabulary that spells reserved words one way. */
  ghost predicate Speaking(b: Builder, words: set<string>)
    reads b
  {
    b.Valid() && b.Sound() && BuilderRuns.Vocabulary(b.policy, words) && BuilderRuns.Within(words, b.names)
  }

  ghost predicate Spoken(p: Policy, words: set<string>, cs: seq<Cond>) {
    forall i :: 0 <= i < |cs| ==> SpokenCond(p, words, cs[i])
  }

  ghost predicate SpokenCond(p: Policy, words: set<string>, c: Cond) {
    BuilderRuns.Speaks(p, words, c.field) && Readable(c.operator, c.value)
  }

  /** The operators in front of `n` more conditions joined by AND to a list of `before`. */
  function AddedOps(ops: seq<Junction>, before: nat, n: nat): seq<Junction> {
    ops + AllAnd(if before == 0 && n > 0 then n - 1 else n)
  }

  lemma OneAdded(ops: seq<Junction>, before: nat)
    ensures AddedOps(ops, before, 1) == if before == 0 then ops else ops + [ConditionMeaning.AND]
  {
  }

  lemma AddedNext(ops: seq<Junction>, before: nat, n: nat)
    ensures AddedOps(AddedOps(ops, before, n), before + n, 1) == AddedOps(ops, before, n + 1)
  {
    assert AllAnd(0) == [];
    assert AllAnd(n) + AllAnd(1) == AllAnd(n + 1);
    assert n > 0 ==> AllAnd(n - 1) + AllAnd(1) == AllAnd(n);
  }

  method ApplyKeyConditions(b: Builder, cs: seq<Cond>, ghost words: set<string>) returns (ok: bool)
    requires b.Valid()
    modifies b
    ensures b.Valid()
    ensures ok <==> AllAccepted(b.policy, cs)
    ensures ok ==> b.keyMeanings == old(b.keyMeanings) + SaidAll(b.policy, cs)
    ensures b.filterMeanings == old(b.filterMeanings) && b.filterOperators == old(b.filterOperators)
    ensures old(Speaking(b, words)) && Spoken(b.policy, words, cs) ==> Speaking(b, words)
  {
    ghost var spoken := Speaking(b, words) && Spoken(b.policy, words, cs);
    var i := 0;
    while i < |cs|
      invariant 0 <= i <= |cs| && b.Valid()
      invariant AllAccepted(b.policy, cs[..i]) && b.keyMeanings == old(b.keyMeanings) + SaidAll(b.policy, cs[..i])
      invariant b.filterMeanings == old(b.filterMeanings) && b.filterOperators == old(b.filterOperators)
      invariant spoken ==> Speaking(b, words)
    {
      ok := ApplyKey(b, cs[i], words);
      if !ok {
        assert !AcceptsCond(b.policy, cs[i]);
        return;
      }
      SaidNext(b.policy, cs, i);
      i := i + 1;
    }
    assert cs[..i] == cs;
    ok := true;
  }

  method ApplyKey(b: Builder, c: Cond, ghost words: set<string>) returns (ok: bool)
    requires b.Valid()
    modifies b
    ensures b.Valid()
    ensures ok <==> AcceptsCond(b.policy, c)
    ensures b.keyMeanings == old(b.keyMeanings) + if ok then SaidAll(b.policy, [c]) else []
    ensures b.filterMeanings == old(b.filterMeanings) && b.filterOperators == old(b.filterOperators)
    ensures old(Speaking(b, words)) && SpokenCond(b.policy, words, c) ==> Speaking(b, words)
  {
    ghost var spoken, before := Speaking(b, words) && SpokenCond(b.policy, words, c), b.State();
    ghost var ref;
    if spoken {
      BuilderRuns.SpokenIsClear(b.policy, words, b.names, c.field);
    }
    SaidOne(b.policy, c);
    ok, ref := b.AddKeyCondition(c.field, c.operator, c.value);
    if spoken {
      BuilderRuns.BuiltWithin(b.policy, words, before, c.field, c.operator, c.value, b.State(), ref);
    }
  }

  method ApplyFilter(b: Builder, c: Cond, ghost words: set<string>) returns (ok: bool)
    requires b.Valid()
    modifies b`names, b`values, b`nameCounter, b`valueCounter, b`filterConditions, b`filterOperators, b`filterMeanings
    ensures b.Valid()
    ensures ok <==> AcceptsCond(b.policy, c)
    ensures b.filterMeanings == old(b.filterMeanings) + if ok then SaidAll(b.policy, [c]) else []
    ensures ok ==> b.filterOperators == AddedOps(old(b.filterOperators), old(|b.filterMeanings|), 1)
    ensures old(Speaking(b, words)) && SpokenCond(b.policy, words, c) ==> Speaking(b, words)
  {
    ghost var spoken, before := Speaking(b, words) && SpokenCond(b.policy, words, c), b.State();
    ghost var ref;
    if spoken {
      BuilderRuns.SpokenIsClear(b.policy, words, b.names, c.field);
    }
    OneAdded(b.filterOperators, |b.filterMeanings|);
    SaidOne(b.policy, c);
    ok, ref := b.AddFilterCondition(ConditionMeaning.AND, c.field, c.operator, c.value);
    if spoken {
      BuilderRuns.BuiltWithin(b.policy, words, before, c.field, c.operator, c.value, b.State(), ref);
    }
  }

  /** The first `i` conditions have been put behind a list of filters. */
  predicate Appended(p: Policy, start: Filters, cs: seq<Cond>, i: nat, now: Filters)
    requires i <= |cs|
  {
    && AllAccepted(p, cs[..i])
    && now.ms == start.ms + SaidAll(p, cs[..i])
    && now.ops == AddedOps(start.ops, |start.ms|, i)
  }

  lemma AppendedNext(p: Policy, start: Filters, cs: seq<Cond>, i: nat, before: Filters, now: Filters)
    requires i < |cs| && Appended(p, start, cs, i, before) && AcceptsCond(p, cs[i])
    requires now.ms == before.ms + SaidAll(p, [cs[i]]) && now.ops == AddedOps(before.ops, |before.ms|, 1)
    ensures Appended(p, start, cs, i + 1, now)
  {
    SaidNext(p, cs, i);
    AddedNext(start.ops, |start.ms|, i);
    assert |before.ms| == |start.ms| + i;
  }

  method ApplyFilterAt(b: Builder, cs: seq<Cond>, i: nat, ghost start: Filters, ghost words: set<string>)
    returns (ok: bool)
    requires b.Valid() && i < |cs| && Appended(b.policy, start, cs, i, FiltersOf(b))
    modifies b`names, b`values, b`nameCounter, b`valueCounter, b`filterConditions, b`filterOperators, b`filterMeanings
    ensures b.Valid()
    ensures if ok then Appended(b.policy, start, cs, i + 1, FiltersOf(b)) else !AllAccepted(b.policy, cs)
    ensures old(Speaking(b, words)) && Spoken(b.policy, words, cs) ==> Speaking(b, words)
  {
    ghost var before := FiltersOf(b);
    ok := ApplyFilter(b, cs[i], words);
    if ok {
      AppendedNext(b.policy, start, cs, i, before, FiltersOf(b));
    } else {
      assert !AcceptsCond(b.policy, cs[i]);
    }
  }

  lemma AppendedAll(p: Policy, start: Filters, cs: seq<Cond>, now: Filters)
    requires Appended(p, start, cs, |cs|, now)
    ensures AllAccepted(p, cs)
    ensures now.ms == start.ms + SaidAll(p, cs) && now.ops == AddedOps(start.ops, |start.ms|, |cs|)
  {
    assert cs[..|cs|] == cs;
  }

  method ApplyFilterConditions(b: Builder, cs: seq<Cond>, ghost words: set<string>) returns (ok: bool)
    requires b.Valid()
    modifies b`names, b`values, b`nameCounter, b`valueCounter, b`filterConditions, b`filterOperators, b`filterMeanings
    ensures b.Valid()
    ensures ok <==> AllAccepted(b.policy, cs)
    ensures ok ==> b.filterMeanings == old(b.filterMeanings) + SaidAll(b.policy, cs)
    ensures ok ==> b.filterOperators == AddedOps(old(b.filterOperators), old(|b.filterMeanings|), |cs|)
    ensures old(Speaking(b, words)) && Spoken(b.policy, words, cs) ==> Speaking(b, words)
  {
    ghost var spoken, start := Speaking(b, words) && Spoken(b.policy, words, cs), FiltersOf(b);
    var i := 0;
    while i < |cs|
      invariant 0 <= i <= |cs| && b.Valid()
      invariant Appended(b.policy, start, cs, i, FiltersOf(b))
      invariant spoken ==> Speaking(b, words)
    {
      ok := ApplyFilterAt(b, cs, i, start, words);
      if !ok {
        return;
      }
      i := i + 1;
    }
    AppendedAll(b.policy, start, cs, FiltersOf(b));
    ok := true;
  }

  // ---- What is compiled, and what it selects ----

  predicate OpsFit(ms: seq<Meaning>, ops: seq<Junction>) {
    |ops| == if ms == [] then 0 else |ms| - 1
  }

  /** No conditions let every item through. */
  predicate Passes(ms: seq<Meaning>, ops: seq<Junction>, holds: Meaning -> bool)
    requires OpsFit(ms, ops)
  {
    ms == [] || Eval(FlatTree(ms, ops), holds)
  }

  lemma PassesAll(ms: seq<Meaning>, ops: seq<Junction>, holds: Meaning -> bool)
    requires OpsFit(ms, ops) && ConditionMeaning.OR !in ops
    ensures Passes(ms, ops, holds) <==> AllHold(ms, holds)
  {
    if ms != [] {
      FlatAllAnd(ms, ops, holds);
    }
  }

  lemma EmittedHolds(text: string, names: Names, values: Values, ms: seq<Meaning>, ops: seq<Junction>,
      holds: Meaning -> bool)
    requires OpsFit(ms, ops) && Emitted(text, names, values, ms, ops)
    ensures TextHolds(text, names, values, holds) <==> Passes(ms, ops, holds)
  {
    if ms != [] && TextHolds(text, names, values, holds) {
      var m :| Denotes(text, names, values, m) && Eval(m, holds);
      DenotesUnique(text, names, values, m, FlatTree(ms, ops));
    }
  }

  /** A builder's filter list. */
  datatype Filters = Filters(ms: seq<Meaning>, ops: seq<Junction>)

  /** What a compiled builder holds: the conditions sorted into its key condition and behind its own filters. */
  ghost predicate Divided(p: Policy, m: Metadata, cs: seq<Cond>, sorter: Sorter, own: Filters, keys: seq<Meaning>,
      out: Filters) {
    && OpsFit(own.ms, own.ops)
    && AllAccepted(p, Chosen(m, cs, sorter, true)) && AllAccepted(p, Chosen(m, cs, sorter, false))
    && keys == SaidAll(p, Chosen(m, cs, sorter, true))
    && out.ms == own.ms + SaidAll(p, Chosen(m, cs, sorter, false))
    && out.ops == AddedOps(own.ops, |own.ms|, |Chosen(m, cs, sorter, false)|)
  }

  /** AND behind a list joined by AND alone keeps both lists; with nothing behind it the list is as it was. */
  lemma AddedHolds(own: Filters, more: seq<Meaning>, holds: Meaning -> bool)
    requires OpsFit(own.ms, own.ops) && (ConditionMeaning.OR !in own.ops || more == [])
    ensures OpsFit(own.ms + more, AddedOps(own.ops, |own.ms|, |more|))
    ensures Passes(own.ms + more, AddedOps(own.ops, |own.ms|, |more|), holds) <==>
            Passes(own.ms, own.ops, holds) && AllHold(more, holds)
  {
    var ops := AddedOps(own.ops, |own.ms|, |more|);
    if more == [] {
      assert own.ms + more == own.ms && ops == own.ops;
    } else {
      PassesAll(own.ms + more, ops, holds);
      PassesAll(own.ms, own.ops, holds);
      HoldCat(own.ms, more, holds);
    }
  }

  /** Key condition and filter together hold exactly when every Where condition and the query's own filters do. */
  lemma DividedHolds(p: Policy, m: Metadata, cs: seq<Cond>, sorter: Sorter, own: Filters, keys: seq<Meaning>,
      out: Filters, holds: Meaning -> bool)
    requires Divided(p, m, cs, sorter, own, keys, out)
    requires ConditionMeaning.OR !in own.ops || Chosen(m, cs, sorter, false) == []
    ensures AllAccepted(p, Normalized(m, cs)) && OpsFit(out.ms, out.ops) && OpsFit(keys, KeyOps(|keys|))
    ensures Passes(keys, KeyOps(|keys|), holds) && Passes(out.ms, out.ops, holds) <==>
            AllHold(SaidAll(p, Normalized(m, cs)), holds) && Passes(own.ms, own.ops, holds)
  {
    ChosenAccepted(p, m, cs, sorter);
    ChosenHold(p, m, cs, sorter, holds);
    PassesAll(keys, KeyOps(|keys|), holds);
    AddedHolds(own, SaidAll(p, Chosen(m, cs, sorter, false)), holds);
  }

  /** The emitted texts select exactly the items on which these conditions and filters hold. */
  ghost predicate Selects(c: Components, where: seq<Meaning>, own: Filters)
    requires OpsFit(own.ms, own.ops)
  {
    forall holds: Meaning -> bool ::
      TextHolds(c.keyCondition, c.names, c.values, holds) && TextHolds(c.filter, c.names, c.values, holds) <==>
      AllHold(where, holds) && Passes(own.ms, own.ops, holds)
  }

  lemma CompiledSelects(p: Policy, m: Metadata, cs: seq<Cond>, sorter: Sorter, own: Filters, keys: seq<Meaning>,
      out: Filters, c: Components)
    requires Divided(p, m, cs, sorter, own, keys, out)
    requires ConditionMeaning.OR !in own.ops || Chosen(m, cs, sorter, false) == []
    requires OpsFit(out.ms, out.ops)
    requires Emitted(c.keyCondition, c.names, c.values, keys, KeyOps(|keys|))
    requires Emitted(c.filter, c.names, c.values, out.ms, out.ops)
    ensures AllAccepted(p, Normalized(m, cs)) && Selects(c, SaidAll(p, Normalized(m, cs)), own)
  {
    ChosenAccepted(p, m, cs, sorter);
    forall holds: Meaning -> bool
      ensures TextHolds(c.keyCondition, c.names, c.values, holds) && TextHolds(c.filter, c.names, c.values, holds) <==>
              AllHold(SaidAll(p, Normalized(m, cs)), holds) && Passes(own.ms, own.ops, holds)
    {
      DividedHolds(p, m, cs, sorter, own, keys, out, holds);
      EmittedHolds(c.keyCondition, c.names, c.values, keys, KeyOps(|keys|), holds);
      EmittedHolds(c.filter, c.names, c.values, out.ms, out.ops, holds);
    }
  }

  // ---- When the filter is one the service accepts ----

  /** None of these conditions is on a key attribute. */
  predicate KeyFree(cs: seq<Cond>, s: Schema) {
    forall i :: 0 <= i < |cs| ==> !InKey(cs[i].field, s)
  }

  /** No condition left out of the key condition is on a key attribute. */
  predicate LeftKeyFree(m: Metadata, cs: seq<Cond>, sorter: Sorter, s: Schema) {
    forall i :: 0 <= i < |cs| && !sorter(cs[i]) ==> !InKey(Normalize(m, cs[i]).0.field, s)
  }

  lemma LeftNext(m: Metadata, cs: seq<Cond>, c: Cond, sorter: Sorter, s: Schema)
    ensures LeftKeyFree(m, cs + [c], sorter, s) <==>
            LeftKeyFree(m, cs, sorter, s) && (!sorter(c) ==> !InKey(Normalize(m, c).0.field, s))
  {
    var all := cs + [c];
    assert all[|cs|] == c;
    if LeftKeyFree(m, all, sorter, s) {
      forall i | 0 <= i < |cs| && !sorter(cs[i]) ensures !InKey(Normalize(m, cs[i]).0.field, s) {
        assert all[i] == cs[i];
      }
    }
  }

  lemma KeyFreeNext(cs: seq<Cond>, c: Cond, s: Schema)
    ensures KeyFree(cs + [c], s) <==> KeyFree(cs, s) && !InKey(c.field, s)
  {
    var all := cs + [c];
    assert all[|cs|] == c;
    if KeyFree(all, s) {
      forall i | 0 <= i < |cs| ensures !InKey(cs[i].field, s) {
        assert all[i] == cs[i];
      }
    }
  }

  lemma {:induction false} ChosenKeyFree(m: Metadata, cs: seq<Cond>, sorter: Sorter, s: Schema)
    ensures KeyFree(Chosen(m, cs, sorter, false), s) <==> LeftKeyFree(m, cs, sorter, s)
  {
    if cs != [] {
      var n := |cs| - 1;
      var front, c := cs[..n], cs[n];
      assert cs == front + [c];
      var left, next := Chosen(m, front, sorter, false), Normalize(m, c).0;
      ChosenKeyFree(m, front, sorter, s);
      KeyFreeNext(left, next, s);
      LeftNext(m, front, c, sorter, s);
      assert Chosen(m, cs, sorter, false) == left + if sorter(c) then [] else [next];
      assert left + [] == left;
    }
  }

  lemma NoneReachCat(a: seq<Meaning>, b: seq<Meaning>, s: Schema)
    ensures NoneReach(a + b, s) <==> NoneReach(a, s) && NoneReach(b, s)
  {
    if NoneReach(a + b, s) {
      forall i | 0 <= i < |a| ensures !ReachesKey(a[i], s) { assert !ReachesKey((a + b)[i], s); }
      forall i | 0 <= i < |b| ensures !ReachesKey(b[i], s) { assert !ReachesKey((a + b)[|a| + i], s); }
    }
  }

  lemma SaidKeyFree(p: Policy, cs: seq<Cond>, s: Schema)
    requires AllAccepted(p, cs)
    ensures NoneReach(SaidAll(p, cs), s) <==> KeyFree(cs, s)
  {
    var ms := SaidAll(p, cs);
    forall i | 0 <= i < |cs| ensures ReachesKey(ms[i], s) <==> InKey(cs[i].field, s) {
      assert AcceptsCond(p, cs[i]) && ms[i] == SaidBy(p, cs[i]);
      SaidReaches(p, cs[i].field, cs[i].operator, cs[i].value, s);
    }
    if KeyFree(cs, s) {
      forall i | 0 <= i < |ms| ensures !ReachesKey(ms[i], s) {
        assert !InKey(cs[i].field, s);
      }
    }
    if NoneReach(ms, s) {
      forall i | 0 <= i < |cs| ensures !InKey(cs[i].field, s) {
        assert !ReachesKey(ms[i], s);
      }
    }
  }

  /** The emitted filter is one the service accepts in a query over these keys exactly under this condition. */
  ghost predicate FilterExact(c: Components, m: Metadata, cs: seq<Cond>, sorter: Sorter, own: Filters) {
    forall s :: LegalFilterText(c.filter, c.names, c.values, s) <==>
                LeftKeyFree(m, cs, sorter, s) && NoneReach(own.ms, s)
  }

  lemma FilterExactly(p: Policy, m: Metadata, cs: seq<Cond>, sorter: Sorter, own: Filters, keys: seq<Meaning>,
      out: Filters, c: Components)
    requires Divided(p, m, cs, sorter, own, keys, out) && OpsFit(out.ms, out.ops)
    requires Emitted(c.filter, c.names, c.values, out.ms, out.ops)
    ensures FilterExact(c, m, cs, sorter, own)
  {
    var left := Chosen(m, cs, sorter, false);
    forall s ensures LegalFilterText(c.filter, c.names, c.values, s) <==>
                     LeftKeyFree(m, cs, sorter, s) && NoneReach(own.ms, s)
    {
      FilterEmitted(c.filter, c.names, c.values, out.ms, out.ops, s);
      NoneReachCat(own.ms, SaidAll(p, left), s);
      SaidKeyFree(p, left, s);
      ChosenKeyFree(m, cs, sorter, s);
    }
  }

  // ---- The query ----

  datatype Compiled = Compiled(scan: bool, index: string, components: Components)

  function IndexNamed(indexes: seq<Index>, name: string): Option<Index> {
    if indexes == [] then None else if indexes[0].name == name then Some(indexes[0]) else IndexNamed(indexes[1..], name)
  }

  predicate IsFirstNamed(indexes: seq<Index>, name: string, i: nat) {
    i < |indexes| && indexes[i].name == name && forall j :: 0 <= j < i ==> indexes[j].name != name
  }

  /** An index is found by its name, the first one of that name, exactly when there is one. */
  lemma {:induction false} IndexFound(indexes: seq<Index>, name: string, i: nat)
    ensures i < |indexes| ==> (IsFirstNamed(indexes, name, i) ==> IndexNamed(indexes, name) == Some(indexes[i]))
    ensures i < |indexes| && indexes[i].name == name ==> IndexNamed(indexes, name).Some?
    ensures IndexNamed(indexes, name).Some? ==>
              IndexNamed(indexes, name).value in indexes && IndexNamed(indexes, name).value.name == name
  {
    if indexes != [] && indexes[0].name != name {
      IndexFound(indexes[1..], name, if i == 0 then 0 else i - 1);
      assert forall j :: 0 < j < |indexes| ==> indexes[j] == indexes[1..][j - 1];
    }
  }

  function NoKeys(): Sorter {
    c => false
  }

  lemma {:induction false} NoKeysChosen(m: Metadata, cs: seq<Cond>)
    ensures Chosen(m, cs, NoKeys(), true) == [] && Chosen(m, cs, NoKeys(), false) == Normalized(m, cs)
  {
    if cs != [] {
      var n := |cs| - 1;
      NoKeysChosen(m, cs[..n]);
      assert Normalized(m, cs) == Normalized(m, cs[..n]) + [Normalize(m, cs[n]).0];
    }
  }

  lemma {:induction false} ChosenSpoken(p: Policy, words: set<string>, m: Metadata, cs: seq<Cond>, sorter: Sorter)
    requires Spoken(p, words, Normalized(m, cs))
    ensures Spoken(p, words, Chosen(m, cs, sorter, true)) && Spoken(p, words, Chosen(m, cs, sorter, false))
  {
    if cs != [] {
      var n := |cs| - 1;
      assert Normalized(m, cs) == Normalized(m, cs[..n]) + [Normalize(m, cs[n]).0];
      assert SpokenCond(p, words, Normalized(m, cs)[n]);
      forall i | 0 <= i < n ensures SpokenCond(p, words, Normalized(m, cs[..n])[i]) {
        assert SpokenCond(p, words, Normalized(m, cs)[i]);
      }
      ChosenSpoken(p, words, m, cs[..n], sorter);
    }
  }

  predicate FixesAttribute(cs: seq<Cond>, attr: string) {
    exists i :: 0 <= i < |cs| && EqualFold(cs[i].field, attr)
  }

  lemma CompiledExactly(p: Policy, m: Metadata, cs: seq<Cond>, sorter: Sorter, own: Filters, keys: seq<Meaning>,
      out: Filters, c: Components)
    requires Divided(p, m, cs, sorter, own, keys, out) && OpsFit(out.ms, out.ops)
    requires Emitted(c.keyCondition, c.names, c.values, keys, KeyOps(|keys|))
    requires Emitted(c.filter, c.names, c.values, out.ms, out.ops)
    ensures KeyExact(c, m, cs, sorter) && FilterExact(c, m, cs, sorter, own) && AllAccepted(p, Normalized(m, cs))
    ensures ConditionMeaning.OR !in own.ops || Chosen(m, cs, sorter, false) == [] ==>
              Selects(c, SaidAll(p, Normalized(m, cs)), own)
  {
    LegalExactly(p, m, cs, sorter, c);
    FilterExactly(p, m, cs, sorter, own, keys, out, c);
    ChosenAccepted(p, m, cs, sorter);
    if ConditionMeaning.OR !in own.ops || Chosen(m, cs, sorter, false) == [] {
      CompiledSelects(p, m, cs, sorter, own, keys, out, c);
    }
  }

  ghost function FiltersOf(b: Builder?): Filters
    reads b
  {
    if b == null then Filters([], []) else Filters(b.filterMeanings, b.filterOperators)
  }

  /** Adds the sorted conditions to a builder that has no key conditions yet. */
  method ApplyConditions(b: Builder, m: Metadata, cs: seq<Cond>, keys: seq<Cond>, filters: seq<Cond>,
      ghost sorter: Sorter, ghost words: set<string>)
    returns (ok: bool)
    requires b.Valid() && b.keyMeanings == []
    requires keys == Chosen(m, cs, sorter, true) && filters == Chosen(m, cs, sorter, false)
    modifies b
    ensures b.Valid()
    ensures ok <==> AllAccepted(b.policy, Normalized(m, cs))
    ensures ok ==> Divided(b.policy, m, cs, sorter, old(FiltersOf(b)), b.keyMeanings, FiltersOf(b))
    ensures old(Speaking(b, words)) && Spoken(b.policy, words, Normalized(m, cs)) ==> Speaking(b, words)
  {
    ChosenAccepted(b.policy, m, cs, sorter);
    if Spoken(b.policy, words, Normalized(m, cs)) {
      ChosenSpoken(b.policy, words, m, cs, sorter);
    }
    ok := ApplyKeyConditions(b, keys, words);
    if ok {
      ok := ApplyFilterConditions(b, filters, words);
    }
  }

  class Query {
    const metadata: Metadata
    const policy: Policy
    var conditions: seq<Cond>
    var index: string
    var builder: Builder?

    constructor (metadata: Metadata, policy: Policy)
      ensures this.metadata == metadata && this.policy == policy && Valid()
      ensures conditions == [] && index == "" && builder == null
    {
      this.metadata, this.policy := metadata, policy;
      conditions, index, builder := [], "", null;
    }

    ghost predicate Valid()
      reads this, builder
    {
      builder != null ==> builder.Valid() && builder.policy == policy && builder.keyMeanings == []
    }

    ghost predicate SpeaksWell(words: set<string>)
      reads this, builder
    {
      && BuilderRuns.Vocabulary(policy, words)
      && (builder != null ==> Speaking(builder, words))
      && Spoken(policy, words, Normalized(metadata, conditions))
    }

    /** A condition on an encrypted field is refused. */
    method Where(field: string, operator: string, value: GoValue) returns (ok: bool)
      modifies this`conditions
      ensures ok <==> !(Lookup(metadata, field).Some? && field != "" && Lookup(metadata, field).value.encrypted)
      ensures conditions == old(conditions) + if ok then [Cond(field, operator, value)] else []
    {
      ok := !(Lookup(metadata, field).Some? && field != "" && Lookup(metadata, field).value.encrypted);
      if ok {
        conditions := conditions + [Cond(field, operator, value)];
      }
    }

    method EffectiveBuilder(ghost words: set<string>) returns (b: Builder)
      requires Valid()
      ensures fresh(b) && b.Valid() && b.policy == policy && b.keyMeanings == []
      ensures FiltersOf(b) == FiltersOf(builder)
      ensures SpeaksWell(words) ==> Speaking(b, words)
    {
      if builder != null {
        b := builder.Clone();
      } else {
        b := new Builder(policy);
      }
    }

    /** With an index given, only operators a key condition may have go into the key condition. */
    method CompileWithExplicitIndex(b: Builder, ghost words: set<string>) returns (ok: bool, scan: bool,
        ghost sorter: Sorter)
      requires b.Valid() && b.policy == policy && b.keyMeanings == []
      modifies b
      ensures b.Valid()
      ensures var keys := KeysFor(metadata, IndexNamed(metadata.indexes, index));
              && (scan <==>
                  !FixesAttribute(Chosen(metadata, conditions, ExplicitSorter(metadata, keys), true), keys.pkAttr))
              && sorter == if scan then NoKeys() else ExplicitSorter(metadata, keys)
      ensures ok <==> AllAccepted(policy, Normalized(metadata, conditions))
      ensures ok ==> Divided(policy, metadata, conditions, sorter, old(FiltersOf(b)), b.keyMeanings, FiltersOf(b))
      ensures old(Speaking(b, words)) && Spoken(policy, words, Normalized(metadata, conditions)) ==> Speaking(b, words)
    {
      var keys := KeysFor(metadata, IndexNamed(metadata.indexes, index));
      var keyConditions, filterConditions := PartitionConditionsForKeys(metadata, keys, conditions);
      sorter := ExplicitSorter(metadata, keys);
      scan := !FixesAttribute(keyConditions, keys.pkAttr);
      if scan {
        sorter := NoKeys();
        NoKeysChosen(metadata, conditions);
        keyConditions, filterConditions := [], Normalized(metadata, conditions);
      }
      ok := ApplyConditions(b, metadata, conditions, keyConditions, filterConditions, sorter, words);
    }

    /** The conditions split by the keys of the index, and all of them left without one. */
    method SplitFor(best: Option<Index>) returns (keys: seq<Cond>, filters: seq<Cond>, ghost sorter: Sorter)
      ensures sorter == if best.Some? then BestSorter(metadata, KeysFor(metadata, best)) else NoKeys()
      ensures keys == Chosen(metadata, conditions, sorter, true)
      ensures filters == Chosen(metadata, conditions, sorter, false)
    {
      if best.Some? {
        keys, filters := SplitConditionsByKey(metadata, KeysFor(metadata, best), conditions);
        sorter := BestSorter(metadata, KeysFor(metadata, best));
      } else {
        keys, filters := [], Normalized(metadata, conditions);
        sorter := NoKeys();
        NoKeysChosen(metadata, conditions);
      }
    }

    /** The index the selector chooses, and the conditions split for it. */
    method Choose() returns (best: Option<Index>, keys: seq<Cond>, filters: seq<Cond>, ghost sorter: Sorter)
      ensures Picks(metadata, conditions, best)
      ensures best.Some? && Coherent(metadata) ==>
                FixedBy(metadata, conditions, sorter, SchemaOf(metadata, best).partition)
      ensures sorter == if best.Some? then BestSorter(metadata, KeysFor(metadata, best)) else NoKeys()
      ensures keys == Chosen(metadata, conditions, sorter, true)
      ensures filters == Chosen(metadata, conditions, sorter, false)
    {
      best := SelectBestIndex(metadata, conditions);
      keys, filters, sorter := SplitFor(best);
      if best.Some? && Coherent(metadata) {
        BestFixed(metadata, conditions, best.value);
      }
    }

    /** Without an index given the selector chooses, and every condition on a key goes into the key condition. */
    method CompileWithBestIndex(b: Builder, ghost words: set<string>)
      returns (ok: bool, best: Option<Index>, ghost sorter: Sorter)
      requires b.Valid() && b.policy == policy && b.keyMeanings == []
      modifies b
      ensures b.Valid()
      ensures Picks(metadata, conditions, best)
      ensures best.Some? && Coherent(metadata) ==>
                FixedBy(metadata, conditions, sorter, SchemaOf(metadata, best).partition)
      ensures sorter == if best.Some? then BestSorter(metadata, KeysFor(metadata, best)) else NoKeys()
      ensures ok <==> AllAccepted(policy, Normalized(metadata, conditions))
      ensures ok ==> Divided(policy, metadata, conditions, sorter, old(FiltersOf(b)), b.keyMeanings, FiltersOf(b))
      ensures old(Speaking(b, words)) && Spoken(policy, words, Normalized(metadata, conditions)) ==> Speaking(b, words)
    {
      var keyConditions, filterConditions;
      best, keyConditions, filterConditions, sorter := Choose();
      ok := ApplyConditions(b, metadata, conditions, keyConditions, filterConditions, sorter, words);
    }

    /** The index given, or the one the selector chooses, decides how the conditions are divided. */
    method Plan(b: Builder, ghost words: set<string>)
      returns (ok: bool, scan: bool, name: string, ghost sorter: Sorter)
      requires b.Valid() && b.policy == policy && b.keyMeanings == []
      modifies b
      ensures b.Valid()
      ensures PlannedBy(metadata, conditions, index, scan, name, sorter)
      ensures ok <==> AllAccepted(policy, Normalized(metadata, conditions))
      ensures ok ==> Divided(policy, metadata, conditions, sorter, old(FiltersOf(b)), b.keyMeanings, FiltersOf(b))
      ensures old(Speaking(b, words)) && Spoken(policy, words, Normalized(metadata, conditions)) ==> Speaking(b, words)
    {
      if index != "" {
        ok, scan, sorter := CompileWithExplicitIndex(b, words);
        name := index;
      } else {
        var best;
        ok, best, sorter := CompileWithBestIndex(b, words);
        scan, name := best.None?, if best.Some? then best.value.name else "";
      }
    }

    /** The texts of a builder the conditions have been divided on. */
    method Print(b: Builder, ghost sorter: Sorter, ghost own: Filters, ghost words: set<string>)
      returns (c: Components)
      requires b.Valid() && Divided(policy, metadata, conditions, sorter, own, b.keyMeanings, FiltersOf(b))
      ensures Speaking(b, words) ==>
                && KeyExact(c, metadata, conditions, sorter) && FilterExact(c, metadata, conditions, sorter, own)
                && AllAccepted(policy, Normalized(metadata, conditions))
                && (ConditionMeaning.OR !in own.ops || Chosen(metadata, conditions, sorter, false) == [] ==>
                    Selects(c, SaidAll(policy, Normalized(metadata, conditions)), own))
    {
      c := b.Build();
      if Speaking(b, words) {
        CompiledExactly(policy, metadata, conditions, sorter, own, b.keyMeanings, FiltersOf(b), c);
      }
    }

    /** The conditions are divided on a builder that holds the query's own filters, and its texts are printed. */
    method Emit(b: Builder, ghost words: set<string>) returns (r: Result<Compiled>, ghost sorter: Sorter)
      requires b.Valid() && b.policy == policy && b.keyMeanings == []
      modifies b
      ensures r.Ok? <==> AllAccepted(policy, Normalized(metadata, conditions))
      ensures r.Ok? && old(Speaking(b, words)) && Spoken(policy, words, Normalized(metadata, conditions)) ==>
                && KeyExact(r.value.components, metadata, conditions, sorter)
                && FilterExact(r.value.components, metadata, conditions, sorter, old(FiltersOf(b)))
                && (ConditionMeaning.OR !in old(FiltersOf(b)).ops
                    || Chosen(metadata, conditions, sorter, false) == [] ==>
                    Selects(r.value.components, SaidAll(policy, Normalized(metadata, conditions)), old(FiltersOf(b))))
      ensures r.Ok? ==> PlannedBy(metadata, conditions, index, r.value.scan, r.value.index, sorter)
    {
      ghost var own := FiltersOf(b);
      var ok, scan, name;
      ok, scan, name, sorter := Plan(b, words);
      if !ok {
        return Err, sorter;
      }
      var c := Print(b, sorter, own, words);
      r := Ok(Compiled(scan, name, c));
    }

    /**
     Compiling leaves the query and its builder as they were. The texts of a compiled query select exactly the items
     on which every Where condition and the query's filters hold, unless an OR filter stands in front of a Where
     condition that had to go into the filter. Its key condition is one the service accepts for given keys if and only
     if exactly one of the conditions sorted into it fixes the partition key and at most one more bounds the sort key,
     and its filter is one if and only if no other condition, and no filter of the query's own, reaches a key attribute.
     */
    method Compile(ghost words: set<string>) returns (r: Result<Compiled>, ghost sorter: Sorter)
      requires Valid()
      ensures r.Ok? <==> AllAccepted(policy, Normalized(metadata, conditions))
      ensures r.Ok? && SpeaksWell(words) &&
              (ConditionMeaning.OR !in FiltersOf(builder).ops || Chosen(metadata, conditions, sorter, false) == []) ==>
                Selects(r.value.components, SaidAll(policy, Normalized(metadata, conditions)), FiltersOf(builder))
      ensures r.Ok? && SpeaksWell(words) ==>
                && KeyExact(r.value.components, metadata, conditions, sorter)
                && FilterExact(r.value.components, metadata, conditions, sorter, FiltersOf(builder))
      ensures r.Ok? ==> PlannedBy(metadata, conditions, index, r.value.scan, r.value.index, sorter)
    {
      var b := EffectiveBuilder(words);
      r, sorter := Emit(b, words);
    }
  }

  /** How a query is run: as a Scan or a Query, on which index, and which conditions go into its key condition. */
  ghost predicate PlannedBy(m: Metadata, cs: seq<Cond>, index: string, scan: bool, name: string, sorter: Sorter) {
    if index != "" then
      var keys := KeysFor(m, IndexNamed(m.indexes, index));
      && name == index
      && (scan <==> !FixesAttribute(Chosen(m, cs, ExplicitSorter(m, keys), true), keys.pkAttr))
      && sorter == if scan then NoKeys() else ExplicitSorter(m, keys)
    else
      && (scan <==> NoneServes(m, cs))
      && if scan then name == "" && sorter == NoKeys() else Planned(m, cs, name, sorter)
  }

  /** The named index serves the conditions best, and they are split by its keys. */
  ghost predicate Planned(m: Metadata, cs: seq<Cond>, name: string, sorter: Sorter) {
    exists index ::
      && Serves(m, cs, index) && Preferred(m, cs, index)
      && index.name == name && sorter == BestSorter(m, KeysFor(m, Some(index)))
  }

  /** A condition that goes into the key condition is an equality on this attribute. */
  predicate FixedBy(m: Metadata, cs: seq<Cond>, sorter: Sorter, key: string) {
    exists i :: 0 <= i < |cs| && sorter(cs[i]) && FixesAt(m, cs[i], key)
  }
}
