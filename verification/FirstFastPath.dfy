/** First's GetItem fast path against the Query it stands in for (pkg/query/query.go firstInternal, compileGetItem). */
module FirstFastPath {
  import opened Text
  import opened Attributes
  import opened ConditionGrammar
  import opened ConditionPrinter
  import opened Documents
  import opened ExprBuilder
  import opened IndexSelection
  import opened KeyConditions
  import opened KeyedTables
  import opened Placeholders
  import opened QueryCompile
  import opened QueryPath
  import KeyLegality
  import Operators
  import PagedReads

  /** The names of the table's key attributes; no sort key when `skGo` is empty. */
  function TableKey(m: Metadata): KeyNames {
    KeyNames(m.primary.partition, AttributeName(m, m.primary.partition), m.primary.sort,
             if m.primary.sort == "" then "" else AttributeName(m, m.primary.sort))
  }

  predicate OnPk(m: Metadata, c: Cond) {
    var (_, go, attr) := Normalize(m, c);
    EqualFold(go, TableKey(m).pkGo) || EqualFold(attr, TableKey(m).pkAttr)
  }

  predicate OnSk(m: Metadata, c: Cond) {
    var (_, go, attr) := Normalize(m, c);
    !OnPk(m, c) && TableKey(m).skGo != "" && (EqualFold(go, TableKey(m).skGo) || EqualFold(attr, TableKey(m).skAttr))
  }

  predicate FastCond(m: Metadata, c: Cond) {
    (OnPk(m, c) || OnSk(m, c)) && TrimSpace(c.operator) == "="
  }

  /** The value of the last condition of a kind. */
  function LastValue(cs: seq<Cond>, on: Cond -> bool): Option<GoValue> {
    if cs == [] then None
    else if on(cs[|cs| - 1]) then Some(cs[|cs| - 1].value)
    else LastValue(cs[..|cs| - 1], on)
  }

  lemma {:induction false} LastValueGiven(cs: seq<Cond>, on: Cond -> bool)
    requires LastValue(cs, on).Some?
    ensures exists i :: 0 <= i < |cs| && cs[i].value == LastValue(cs, on).value
  {
    var k := |cs| - 1;
    if !on(cs[k]) {
      LastValueGiven(cs[..k], on);
      var i :| 0 <= i < k && cs[..k][i].value == LastValue(cs, on).value;
      assert cs[i].value == LastValue(cs, on).value;
    }
  }

  lemma LastValueNext(cs: seq<Cond>, on: Cond -> bool, i: nat)
    requires i < |cs|
    ensures LastValue(cs[..i + 1], on) == if on(cs[i]) then Some(cs[i].value) else LastValue(cs[..i], on)
  {
    assert cs[..i + 1][..i] == cs[..i];
  }

  /**
   extractGetItemKeyValuesFromConditions: any condition that is not an equality on a key attribute rules the path out.
   */
  method ExtractKeyValues(m: Metadata, cs: seq<Cond>) returns (ok: bool, pk: Option<GoValue>, sk: Option<GoValue>)
    ensures ok <==> forall i :: 0 <= i < |cs| ==> FastCond(m, cs[i])
    ensures ok ==> pk == LastValue(cs, c => OnPk(m, c)) && sk == LastValue(cs, c => OnSk(m, c))
  {
    pk, sk := None, None;
    ghost var onPk, onSk := c => OnPk(m, c), c => OnSk(m, c);
    var i := 0;
    while i < |cs|
      invariant 0 <= i <= |cs|
      invariant forall j :: 0 <= j < i ==> FastCond(m, cs[j])
      invariant pk == LastValue(cs[..i], onPk) && sk == LastValue(cs[..i], onSk)
    {
      var kind := KindOf(m, cs[i]);
      LastValueNext(cs, onPk, i);
      LastValueNext(cs, onSk, i);
      assert kind.PkKind? ==> onPk(cs[i]) && !onSk(cs[i]);
      assert kind.SkKind? ==> onSk(cs[i]) && !onPk(cs[i]);
      if kind.OtherKind? {
        return false, None, None;
      }
      if kind.PkKind? {
        pk := Some(cs[i].value);
      } else {
        sk := Some(cs[i].value);
      }
      i := i + 1;
    }
    assert cs[..i] == cs;
    ok := true;
  }

  datatype Kind = PkKind | SkKind | OtherKind

  /** The branches of the loop: an equality on the partition key, one on the sort key, or a reason to give up. */
  method KindOf(m: Metadata, c: Cond) returns (kind: Kind)
    ensures kind.PkKind? <==> FastCond(m, c) && OnPk(m, c)
    ensures kind.SkKind? <==> FastCond(m, c) && !OnPk(m, c)
    ensures kind.SkKind? ==> OnSk(m, c)
  {
    if OnPk(m, c) {
      kind := if TrimSpace(c.operator) == "=" then PkKind else OtherKind;
    } else if OnSk(m, c) {
      kind := if TrimSpace(c.operator) == "=" then SkKind else OtherKind;
    } else {
      kind := OtherKind;
    }
  }

  /** What the query's model struct holds in its key fields, when they are not zero. */
  datatype FromModel = FromModel(pk: Option<GoValue>, sk: Option<GoValue>)

  /** A value given by a condition goes before one taken from the model. */
  function OrModel(given: Option<GoValue>, model: Option<GoValue>): Option<GoValue> {
    if given.Some? then given else model
  }

  function GivenPk(m: Metadata, cs: seq<Cond>, model: FromModel): Option<GoValue> {
    OrModel(LastValue(cs, c => OnPk(m, c)), model.pk)
  }

  function GivenSk(m: Metadata, cs: seq<Cond>, model: FromModel): Option<GoValue> {
    OrModel(LastValue(cs, c => OnSk(m, c)), model.sk)
  }

  /** The conditions of a fast-path query, and the model where they are silent, give this key. */
  predicate GivesKey(m: Metadata, cs: seq<Cond>, model: FromModel, key: Item) {
    var k := TableKey(m);
    var pk, sk := GivenPk(m, cs, model), GivenSk(m, cs, model);
    && (forall i :: 0 <= i < |cs| ==> FastCond(m, cs[i]))
    && pk.Some? && Convert(pk.value).Ok?
    && if k.skGo == "" then key == map[k.pkAttr := Convert(pk.value).value]
       else
         && sk.Some? && Convert(sk.value).Ok?
         && key == map[k.pkAttr := Convert(pk.value).value, k.skAttr := Convert(sk.value).value]
  }

  /** Condition `i` is the last of its kind. */
  predicate IsLast(cs: seq<Cond>, on: Cond -> bool, i: nat) {
    i < |cs| && on(cs[i]) && forall j :: i < j < |cs| ==> !on(cs[j])
  }

  lemma {:induction false} LastValueAt(cs: seq<Cond>, on: Cond -> bool, i: nat)
    requires IsLast(cs, on, i)
    ensures LastValue(cs, on) == Some(cs[i].value)
  {
    var k := |cs| - 1;
    if i < k {
      assert !on(cs[k]);
      LastValueAt(cs[..k], on, i);
    }
  }

  lemma {:induction false} NoValue(cs: seq<Cond>, on: Cond -> bool)
    requires forall i :: 0 <= i < |cs| ==> !on(cs[i])
    ensures LastValue(cs, on).None?
  {
    if cs != [] {
      NoValue(cs[..|cs| - 1], on);
    }
  }

  /** A key attribute has the value of the last condition on it, and the model's only where no condition is on it. */
  lemma KeyValues(m: Metadata, cs: seq<Cond>, model: FromModel, key: Item, i: nat)
    requires GivesKey(m, cs, model, key) && (TableKey(m).skGo != "" ==> TableKey(m).pkAttr != TableKey(m).skAttr)
    ensures var k := TableKey(m);
            && key.Keys == {k.pkAttr} + (if k.skGo == "" then {} else {k.skAttr})
            && (IsLast(cs, c => OnPk(m, c), i) ==> Convert(cs[i].value) == Ok(key[k.pkAttr]))
            && (k.skGo != "" && IsLast(cs, c => OnSk(m, c), i) ==> Convert(cs[i].value) == Ok(key[k.skAttr]))
            && ((forall j :: 0 <= j < |cs| ==> !OnPk(m, cs[j])) ==>
                  model.pk.Some? && Convert(model.pk.value) == Ok(key[k.pkAttr]))
            && (k.skGo != "" && (forall j :: 0 <= j < |cs| ==> !OnSk(m, cs[j])) ==>
                  model.sk.Some? && Convert(model.sk.value) == Ok(key[k.skAttr]))
  {
    var onPk, onSk := c => OnPk(m, c), c => OnSk(m, c);
    if IsLast(cs, onPk, i) {
      LastValueAt(cs, onPk, i);
    }
    if IsLast(cs, onSk, i) {
      LastValueAt(cs, onSk, i);
    }
    if forall j :: 0 <= j < |cs| ==> !OnPk(m, cs[j]) {
      NoValue(cs, onPk);
    }
    if forall j :: 0 <= j < |cs| ==> !OnSk(m, cs[j]) {
      NoValue(cs, onSk);
    }
  }

  /** The table's key is given by the Go names of its attributes. */
  predicate KeyedByGoNames(m: Metadata) {
    && m.primary.partition != ""
    && Lookup(m, m.primary.partition).Some? && Lookup(m, m.primary.partition).value.goName == m.primary.partition
    && (m.primary.sort != "" ==>
          Lookup(m, m.primary.sort).Some? && Lookup(m, m.primary.sort).value.goName == m.primary.sort)
  }

  /** A condition is one for the fast path exactly when it is an equality, spelt `=`, on an attribute of the key. */
  lemma FastConds(m: Metadata, c: Cond, a: Attribute)
    requires Registered(m) && c.field != "" && Lookup(m, c.field) == Some(a) && OpOf(c.operator).Some?
    requires KeyedByGoNames(m)
    ensures FastCond(m, c) <==>
            && ComparatorOf(c.operator) == Done(EQ, [])
            && (SameNamed(a, Lookup(m, m.primary.partition).value)
                || (m.primary.sort != "" && SameNamed(a, Lookup(m, m.primary.sort).value)))
  {
    FieldNames(m, c, a);
    KeyLegality.OpTrimmed(c.operator);
    KeyLegality.SortSpelt(c.operator);
    Operators.Symbols(c.operator);
  }

  // ---- When the two paths agree ----

  predicate ScalarKey(key: Item) {
    forall a :: a in key ==> IsScalar(key[a])
  }

  /** The condition names a key attribute as it is stored, at the top level, and gives it the value the key has. */
  predicate AgreesWith(m: Metadata, c: Cond, key: Item) {
    var field := Normalize(m, c).0.field;
    '.' !in field && '[' !in field && field in key && Convert(c.value) == Ok(key[field])
  }

  predicate Consistent(m: Metadata, cs: seq<Cond>, key: Item) {
    forall i :: 0 <= i < |cs| ==> AgreesWith(m, cs[i], key)
  }

  /** Some condition names the attribute. */
  predicate Names(m: Metadata, cs: seq<Cond>, attr: string) {
    exists i :: 0 <= i < |cs| && Normalize(m, cs[i]).0.field == attr
  }

  /** The index chosen for the query answers it in full: its keys are key attributes and it projects everything. */
  predicate Covers(m: Metadata, best: Option<Index>, key: Item) {
    OnTable(best) || (KeyAttributes(SchemaOf(m, best)) <= key.Keys && best.value.projection == "ALL")
  }

  /**
   Every condition is accepted and names a key attribute as it is stored, with the value the key has; every key
   attribute is named; and the chosen index, if there is one, gets a key condition the service accepts, with each key
   attribute in it once, and answers in full.
   */
  predicate Pins(p: Policy, m: Metadata, cs: seq<Cond>, best: Option<Index>, key: Item) {
    && AllAccepted(p, Normalized(m, cs))
    && Answerable(m, cs, best)
    && Consistent(m, cs, key) && (forall a :: a in key ==> Names(m, cs, a))
    && Covers(m, best, key)
  }

  /** Each item carries the key attributes, and no two items carry the same key. */
  predicate IsKeyed(key: Item, items: seq<Item>) {
    && (forall i :: 0 <= i < |items| ==> key.Keys <= items[i].Keys)
    && forall i, j :: 0 <= i < j < |items| ==> exists a :: a in key && items[i][a] != items[j][a]
  }

  /** GetItem: the item under the key, if there is one. */
  method GetItem(items: seq<Item>, key: Item) returns (found: Option<Item>)
    ensures IsGot(items, key, found)
  {
    var i := 0;
    while i < |items|
      invariant 0 <= i <= |items|
      invariant forall j :: 0 <= j < i ==> !Matches(key, items[j])
    {
      if Matches(key, items[i]) {
        return Some(items[i]);
      }
      i := i + 1;
    }
    found := None;
  }

  /** The result of GetItem, as a relation. */
  predicate IsGot(items: seq<Item>, key: Item, found: Option<Item>) {
    && (found.None? ==> forall i :: 0 <= i < |items| ==> !Matches(key, items[i]))
    && (found.Some? ==> found.value in items && Matches(key, found.value))
  }

  lemma PlainPath(fields: Item, name: string)
    requires '.' !in name && '[' !in name
    ensures AtPath(fields, Steps(Split(name, '.'))) == if name in fields then Some(fields[name]) else None
  {
    SplitDotless(name);
    FieldStepPlain(name);
  }

  /** Nothing is stored inside a key attribute. */
  lemma InnerPath(fields: Item, name: string)
    requires ('.' in name || '[' in name) && ScalarKey(fields)
    ensures AtPath(fields, Steps(Split(name, '.'))) == None
  {
    if '.' in name {
      assert |Split(name, '.')| > 1 by {
        var n := Span(name, d => d != '.');
      }
    } else {
      SplitDotless(name);
      FieldStepPlain(name);
      assert FieldStep(name).indexes == "" ==> FieldStep(name).name == name;
    }
    ScalarPath(fields, Steps(Split(name, '.')));
  }

  /** Conditions that agree with the key and name all of it hold on an item exactly when it carries the key. */
  lemma ConsistentHolds(m: Metadata, cs: seq<Cond>, key: Item, item: Item)
    requires Consistent(m, cs, key) && forall a :: a in key ==> Names(m, cs, a)
    ensures AllHoldOn(m, cs, item) <==> Matches(key, item)
  {
    forall i | 0 <= i < |cs|
      ensures var field := Normalize(m, cs[i]).0.field;
              field in key && (Holds(m, cs[i], item) <==> field in item && item[field] == key[field])
    {
      assert AgreesWith(m, cs[i], key);
      PlainPath(item, Normalize(m, cs[i]).0.field);
    }
    if AllHoldOn(m, cs, item) {
      forall a | a in key ensures a in item && item[a] == key[a] {
        assert Names(m, cs, a);
        var i :| 0 <= i < |cs| && Normalize(m, cs[i]).0.field == a;
        assert Holds(m, cs[i], item);
      }
    }
  }

  lemma {:induction false} MatchingMember(items: seq<Item>, keep: Item -> bool, x: Item)
    ensures x in PagedReads.Matching(items, keep) <==> x in items && keep(x)
  {
    if items != [] {
      MatchingMember(items[..|items| - 1], keep, x);
      assert items == items[..|items| - 1] + [items[|items| - 1]];
    }
  }

  lemma SamePath(
    p: Policy, m: Metadata, cs: seq<Cond>, best: Option<Index>, kept: set<string>, key: Item, items: seq<Item>,
    found: Option<Item>)
    requires IsKeyed(key, items) && IsGot(items, key, found)
    requires Pins(p, m, cs, best, key)
    ensures ByQuery(p, m, cs, best, kept, items) == Ok(found)
  {
    var keep := Find(m, cs, best);
    var matches := PagedReads.Matching(items, keep);
    forall x | x in items ensures keep(x) <==> Matches(key, x) {
      ConsistentHolds(m, cs, key, x);
    }
    if matches != [] {
      MatchingMember(items, keep, matches[0]);
    }
    if found.Some? {
      MatchingMember(items, keep, found.value);
      OneCarrier(key, items, found.value, matches[0]);
    }
  }

  lemma OneCarrier(key: Item, items: seq<Item>, x: Item, y: Item)
    requires IsKeyed(key, items) && x in items && y in items && Matches(key, x) && Matches(key, y)
    ensures x == y
  {
    var i :| 0 <= i < |items| && items[i] == x;
    var j :| 0 <= j < |items| && items[j] == y;
  }

  ghost predicate PathsAgreeOn(
    p: Policy, m: Metadata, cs: seq<Cond>, best: Option<Index>, kept: set<string>, key: Item, items: seq<Item>)
  {
    IsKeyed(key, items) ==>
      forall found :: IsGot(items, key, found) ==> ByQuery(p, m, cs, best, kept, items) == Ok(found)
  }

  // ---- Tables on which they differ ----

  lemma OneItem(x: Item, keep: Item -> bool)
    ensures PagedReads.Matching([x], keep) == if keep(x) then [x] else []
  {
    assert [x][..0] == [];
  }

  /** On an empty table only the Query path can fail. */
  lemma RefusedDiffers(p: Policy, m: Metadata, cs: seq<Cond>, best: Option<Index>, kept: set<string>, key: Item)
    requires !AllAccepted(p, Normalized(m, cs)) || !Answerable(m, cs, best)
    ensures !PathsAgreeOn(p, m, cs, best, kept, key, [])
  {
    assert IsGot([], key, None) && IsKeyed(key, []);
  }

  /** A table with nothing but the key tells a query apart that does not hold on it or does not see it. */
  lemma KeyDiffers(p: Policy, m: Metadata, cs: seq<Cond>, best: Option<Index>, kept: set<string>, key: Item)
    requires ScalarKey(key) && (!Consistent(m, cs, key) || !Visible(m, best, key))
    ensures !PathsAgreeOn(p, m, cs, best, kept, key, [key])
  {
    OneItem(key, Find(m, cs, best));
    assert IsKeyed(key, [key]) && IsGot([key], key, Some(key));
    if !Consistent(m, cs, key) {
      var i :| 0 <= i < |cs| && !AgreesWith(m, cs[i], key);
      if '.' in Normalize(m, cs[i]).0.field || '[' in Normalize(m, cs[i]).0.field {
        InnerPath(key, Normalize(m, cs[i]).0.field);
      } else {
        PlainPath(key, Normalize(m, cs[i]).0.field);
      }
      assert !Holds(m, cs[i], key);
    }
    assert ByQuery(p, m, cs, best, kept, [key]) != Ok(Some(key));
  }

  /** Another value of the same kind. */
  function Other(v: AttributeValue): (w: AttributeValue)
    ensures w != v && (IsScalar(v) ==> IsScalar(w))
  {
    match v
    case N(n) => N(if n == "0" then "1" else "0")
    case B(b) => B(if b == [0] then [1] else [0])
    case S(s) => S(if s == "x" then "y" else "x")
    case _ => S("x")
  }

  /** The item, with attributes an index needs filled in. */
  function Filled(names: set<string>, item: Item): (filled: Item)
    ensures names <= filled.Keys && item.Keys <= filled.Keys
    ensures forall a :: a in item ==> filled[a] == item[a]
  {
    (map a | a in names :: S("x")) + item
  }

  /** Conditions that do not name an attribute hold whatever it is. */
  lemma UnnamedHolds(m: Metadata, cs: seq<Cond>, key: Item, a: string, item: Item)
    requires Consistent(m, cs, key) && !Names(m, cs, a)
    requires forall b :: b in key && b != a ==> b in item && item[b] == key[b]
    ensures AllHoldOn(m, cs, item)
  {
    forall i | 0 <= i < |cs| ensures Holds(m, cs[i], item) {
      assert AgreesWith(m, cs[i], key);
      PlainPath(item, Normalize(m, cs[i]).0.field);
    }
  }

  /** An item that differs in a key attribute no condition names tells the paths apart as well. */
  lemma UnnamedDiffers(
    p: Policy, m: Metadata, cs: seq<Cond>, best: Option<Index>, kept: set<string>, key: Item, a: string)
    requires Consistent(m, cs, key) && a in key && !Names(m, cs, a)
    ensures exists items :: !PathsAgreeOn(p, m, cs, best, kept, key, items)
  {
    var changed := key[a := Other(key[a])];
    var item := Filled(if best.Some? then KeyAttributes(SchemaOf(m, best)) else {}, changed);
    UnnamedHolds(m, cs, key, a, item);
    assert changed[a] != key[a] && item[a] == changed[a];
    OneItem(item, Find(m, cs, best));
    assert IsKeyed(key, [item]) && IsGot([item], key, None);
    assert ByQuery(p, m, cs, best, kept, [item]) != Ok(None);
    assert !PathsAgreeOn(p, m, cs, best, kept, key, [item]);
  }

  lemma {:induction false} FreshName(names: set<string>) returns (name: string)
    ensures forall w :: w in names ==> |w| < |name|
    decreases |names|
  {
    if names == {} {
      name := "";
    } else {
      var w :| w in names;
      var shorter := FreshName(names - {w});
      name := if |w| < |shorter| then shorter else w + "x";
      forall v | v in names ensures |v| < |name| {
        if v != w {
          assert v in names - {w};
        }
      }
    }
  }

  /** An item under the key that a partial index does not return in full. */
  lemma LeftOut(m: Metadata, best: Option<Index>, kept: set<string>, key: Item) returns (item: Item)
    requires !OnTable(best) && best.value.projection != "ALL"
    ensures Matches(key, item) && key.Keys <= item.Keys && Returned(m, best, kept, item) != item
  {
    var names := kept + KeyAttributes(SchemaOf(m, None)) + KeyAttributes(SchemaOf(m, best));
    var x := FreshName(names + key.Keys);
    item := key[x := S("x")];
    assert x !in names && x !in Returned(m, best, kept, item) && x in item;
  }

  /** An attribute a partial index leaves out tells the paths apart. */
  lemma ProjectionDiffers(p: Policy, m: Metadata, cs: seq<Cond>, best: Option<Index>, kept: set<string>, key: Item)
    requires !OnTable(best) && best.value.projection != "ALL"
    ensures exists items :: !PathsAgreeOn(p, m, cs, best, kept, key, items)
  {
    var item := LeftOut(m, best, kept, key);
    OneItem(item, Find(m, cs, best));
    assert IsKeyed(key, [item]) && IsGot([item], key, Some(item));
    assert ByQuery(p, m, cs, best, kept, [item]) != Ok(Some(item));
    assert !PathsAgreeOn(p, m, cs, best, kept, key, [item]);
  }

  /**
   When the fast path applies, it returns what the compiled Query or Scan returns, on every table, if and only if the
   query pins its key on the chosen index.
   */
  lemma FastPathExact(
    p: Policy, m: Metadata, cs: seq<Cond>, model: FromModel, best: Option<Index>, kept: set<string>, key: Item)
    requires GivesKey(m, cs, model, key) && ScalarKey(key)
    ensures (forall items :: PathsAgreeOn(p, m, cs, best, kept, key, items)) <==> Pins(p, m, cs, best, key)
  {
    if Pins(p, m, cs, best, key) {
      forall items ensures PathsAgreeOn(p, m, cs, best, kept, key, items) {
        forall found | IsKeyed(key, items) && IsGot(items, key, found)
          ensures ByQuery(p, m, cs, best, kept, items) == Ok(found)
        {
          SamePath(p, m, cs, best, kept, key, items, found);
        }
      }
    } else if !AllAccepted(p, Normalized(m, cs)) || !Answerable(m, cs, best) {
      RefusedDiffers(p, m, cs, best, kept, key);
    } else if !Consistent(m, cs, key) || !Visible(m, best, key) {
      KeyDiffers(p, m, cs, best, kept, key);
    } else if a :| a in key && !Names(m, cs, a) {
      UnnamedDiffers(p, m, cs, best, kept, key, a);
    } else {
      ProjectionDiffers(p, m, cs, best, kept, key);
    }
  }

  // ---- Queries on which the paths differ ----

  /** A table keyed by `id` alone. */
  const PLAIN: Metadata := Metadata(map["id" := Attribute("id", "id", false)], KeySchema("id", ""), [])

  lemma PlainSchema()
    ensures TableKey(PLAIN) == KeyNames("id", "id", "", "")
    ensures SchemaOf(PLAIN, Some(RawIndexes(PLAIN)[0])) == Schema("id", None)
  {
  }

  /** `id = v` given twice: GetItem answers, the Query is refused. */
  lemma TwiceDiffers(p: Policy, v: AttributeValue, kept: set<string>)
    requires IsScalar(v)
    ensures var cs := [Cond("id", "=", Scalar(v)), Cond("id", "=", Scalar(v))];
            var best, key := Some(RawIndexes(PLAIN)[0]), map["id" := v];
            && Serves(PLAIN, cs, best.value) && GivesKey(PLAIN, cs, FromModel(None, None), key)
            && !PathsAgreeOn(p, PLAIN, cs, best, kept, key, [])
  {
    var c := Cond("id", "=", Scalar(v));
    var cs, best := [c, c], Some(RawIndexes(PLAIN)[0]);
    PlainSchema();
    assert TrimSpace("=") == "=" by { TrimSpaced("="); }
    assert KeyUseOf(PLAIN, c) == KeyUse("id", "=");
    assert FirstEquality(KeyUses(PLAIN, cs), 0);
    var sorter, s := BestSorter(PLAIN, KeysFor(PLAIN, best)), SchemaOf(PLAIN, best);
    assert sorter(c);
    forall i | 0 <= i < 2 ensures !OneBound(PLAIN, cs, sorter, s, i) {
      assert cs[1 - i] == c && !BoundsAt(PLAIN, c, s);
    }
    assert !Answerable(PLAIN, cs, best);
    RefusedDiffers(p, PLAIN, cs, best, kept, map["id" := v]);
  }

  /** `ID = v` on a table whose key is stored as `id`: GetItem finds the item, the Scan compares another attribute. */
  lemma SpellingDiffers(p: Policy, v: AttributeValue, kept: set<string>)
    requires IsScalar(v)
    ensures var cs, key := [Cond("ID", "=", Scalar(v))], map["id" := v];
            && NoneServes(PLAIN, cs) && GivesKey(PLAIN, cs, FromModel(None, None), key)
            && !PathsAgreeOn(p, PLAIN, cs, None, kept, key, [key])
  {
    var c := Cond("ID", "=", Scalar(v));
    PlainSchema();
    assert EqualFold("ID", "id") by {
      var u, l := Upper("ID"), Upper("id");
      assert u[0] == l[0] && u[1] == l[1];
      assert u == l;
    }
    assert TrimSpace("=") == "=" by { TrimSpaced("="); }
    assert KeyUses(PLAIN, [c])[0] == KeyUse("ID", "=");
    assert !AgreesWith(PLAIN, c, map["id" := v]);
    KeyDiffers(p, PLAIN, [c], None, kept, map["id" := v]);
  }

  /** Without a condition the model's key is fetched, where the Scan finds whatever comes first. */
  lemma ModelDiffers(p: Policy, v: AttributeValue, kept: set<string>)
    requires IsScalar(v)
    ensures var key := map["id" := v];
            && NoneServes(PLAIN, []) && GivesKey(PLAIN, [], FromModel(Some(Scalar(v)), None), key)
            && exists items :: !PathsAgreeOn(p, PLAIN, [], None, kept, key, items)
  {
    PlainSchema();
    UnnamedDiffers(p, PLAIN, [], None, kept, map["id" := v], "id");
  }

  // ---- First ----

  predicate Converts(v: Option<GoValue>) {
    v.Some? ==> Convert(v.value).Ok?
  }

  /** Every value the key could be made of becomes an attribute value. */
  predicate Convertible(cs: seq<Cond>, model: FromModel) {
    (forall i :: 0 <= i < |cs| ==> Convert(cs[i].value).Ok?) && Converts(model.pk) && Converts(model.sk)
  }

  lemma GivenConverts(cs: seq<Cond>, on: Cond -> bool, model: FromModel, own: Option<GoValue>)
    requires Convertible(cs, model) && Converts(own)
    ensures Converts(OrModel(LastValue(cs, on), own))
  {
    if LastValue(cs, on).Some? {
      LastValueGiven(cs, on);
    }
  }

  /** The key the fast path fetches, None where the query has to be compiled, or an error. */
  method CompileGetItem(m: Metadata, cs: seq<Cond>, model: FromModel) returns (ok: bool, key: Option<Item>)
    ensures ok ==> m.primary.partition != ""
    ensures ok && key.Some? ==> GivesKey(m, cs, model, key.value)
    ensures ok && key.None? ==> forall k :: !GivesKey(m, cs, model, k)
    ensures m.primary.partition != "" && Convertible(cs, model) ==> ok
  {
    key := None;
    if m.primary.partition == "" {
      return false, None;
    }
    var fits, pk, sk := ExtractKeyValues(m, cs);
    if fits && Convertible(cs, model) {
      GivenConverts(cs, c => OnPk(m, c), model, model.pk);
      GivenConverts(cs, c => OnSk(m, c), model, model.sk);
    }
    pk, sk := OrModel(pk, model.pk), OrModel(sk, model.sk);
    var k := TableKey(m);
    if !fits || pk.None? || (k.skGo != "" && sk.None?) {
      return true, None;
    }
    if Convert(pk.value).Err? || (k.skGo != "" && Convert(sk.value).Err?) {
      return false, None;
    }
    var found := map[k.pkAttr := Convert(pk.value).value];
    if k.skGo != "" {
      found := map[k.pkAttr := Convert(pk.value).value, k.skAttr := Convert(sk.value).value];
    }
    return true, Some(found);
  }

  /**
   First, on a query without filters and without a given index: the item under the key when the query gives one, and
   otherwise the first item of a Query or Scan that reads one item per page.
   */
  method First(
    p: Policy, m: Metadata, cs: seq<Cond>, model: FromModel, items: seq<Item>, kept: set<string>, trimming: bool,
    reliable: bool)
    returns (ok: bool, found: Option<Item>, key: Option<Item>, ghost best: Option<Index>)
    ensures best.None? <==> NoneServes(m, cs)
    ensures best.Some? ==> Serves(m, cs, best.value)
    ensures ok && key.Some? ==> GivesKey(m, cs, model, key.value) && IsGot(items, key.value, found)
    ensures ok && QueryPath.AllEqual(cs) ==>
              ((key.Some? ==> Pins(p, m, cs, best, key.value) && IsKeyed(key.value, items)) ==>
               ByQuery(p, m, cs, best, kept, items) == Ok(found))
    ensures reliable && m.primary.partition != "" && Convertible(cs, model) ==>
              (AllAccepted(p, Normalized(m, cs)) && Answerable(m, cs, best) ==> ok)
  {
    found := None;
    var index := SelectBestIndex(m, cs);
    best := index;
    ok, key := CompileGetItem(m, cs, model);
    if !ok {
      return;
    }
    if key.Some? {
      found := GetItem(items, key.value);
      if Pins(p, m, cs, best, key.value) && IsKeyed(key.value, items) {
        SamePath(p, m, cs, best, kept, key.value, items, found);
      }
      return;
    }
    ok := AllAccepted(p, Normalized(m, cs)) && Answerable(m, cs, index);
    if ok {
      var svc := new PagedReads.Service(items, Find(m, cs, index), reliable);
      var seen;
      ok, seen := PagedReads.First(svc, trimming);
      found := if seen.Some? then Some(Returned(m, index, kept, seen.value)) else None;
    }
  }
}
