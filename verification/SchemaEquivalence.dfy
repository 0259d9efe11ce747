/** Comparing model descriptions (pkg/dms/dms.go): normalization and AssertModelsEquivalent. */
module SchemaEquivalence {
  import opened Attributes
  import opened Sorting
  import Text

  datatype KeyAttribute = KeyAttribute(attribute: string, kind: string)

  datatype Keys = Keys(partition: KeyAttribute, sort: Option<KeyAttribute>)

  datatype Attribute = Attribute(
    attribute: string, kind: string, roles: seq<string>, omitEmpty: bool, required: bool, optional: bool,
    encrypted: bool, json: bool, binary: bool)

  datatype Index = Index(
    name: string, kind: string, partition: KeyAttribute, sort: Option<KeyAttribute>, projection: string,
    fields: seq<string>)

  datatype Model = Model(
    name: string, table: string, convention: string, keys: Keys, attributes: seq<Attribute>, indexes: seq<Index>)

  /** The order of roles and projected fields is of no account, so a normal form sorts them. */
  datatype NormalModel = NormalModel(
    name: string, table: string, convention: string, keys: Keys, attributes: seq<Attribute>, indexes: seq<Index>)

  predicate IsBlank(s: string) {
    Text.TrimSpace(s) == ""
  }

  predicate ValidAttribute(a: Attribute) {
    && !IsBlank(a.attribute) && !IsBlank(a.kind)
    && !(a.required && a.optional)
    && (a.json ==> a.kind == "S") && (a.binary ==> a.kind == "B")
    && !(a.json && a.binary)
  }

  /** The kinds an attribute may have under its flags. */
  predicate KindFits(a: Attribute) {
    match (a.json, a.binary)
    case (true, false) => a.kind == "S"
    case (false, true) => a.kind == "B"
    case (false, false) => !IsBlank(a.kind)
    case (true, true) => false
  }

  /** The checks come down to one kind for each flag; the last of them never decides. */
  lemma ValidKinds(a: Attribute)
    ensures ValidAttribute(a) <==> !IsBlank(a.attribute) && KindFits(a) && (a.required ==> !a.optional)
    ensures a.json && a.binary ==> !((a.json ==> a.kind == "S") && (a.binary ==> a.kind == "B"))
  {
    assert "S" != "B";
    Text.TrimSpaced("S");
    Text.TrimSpaced("B");
  }

  predicate DistinctAttributes(attrs: seq<Attribute>) {
    forall i, j :: 0 <= i < j < |attrs| ==> attrs[i].attribute != attrs[j].attribute
  }

  /** The loop of validateModelAttributes, with the map of names it has seen. */
  method ValidateModelAttributes(attrs: seq<Attribute>) returns (ok: bool, seen: set<string>)
    ensures ok <==> DistinctAttributes(attrs) && forall i :: 0 <= i < |attrs| ==> ValidAttribute(attrs[i])
    ensures ok ==> forall n :: n in seen <==> exists i :: 0 <= i < |attrs| && attrs[i].attribute == n
  {
    seen := {};
    var i := 0;
    while i < |attrs|
      invariant 0 <= i <= |attrs|
      invariant DistinctAttributes(attrs[..i]) && forall j :: 0 <= j < i ==> ValidAttribute(attrs[j])
      invariant forall n :: n in seen <==> exists j :: 0 <= j < i && attrs[j].attribute == n
    {
      var a := attrs[i];
      if !ValidAttribute(a) || a.attribute in seen {
        return false, seen;
      }
      seen := seen + {a.attribute};
      i := i + 1;
    }
    assert attrs[..i] == attrs;
    ok := true;
  }

  // ---- Views: what equivalence looks at ----

  datatype AttributeView = AttributeView(
    attribute: string, kind: string, roles: multiset<string>, omitEmpty: bool, required: bool, optional: bool,
    encrypted: bool, json: bool, binary: bool)

  datatype IndexView = IndexView(
    name: string, kind: string, partition: KeyAttribute, sort: Option<KeyAttribute>, projection: string,
    fields: multiset<string>)

  function ViewOf(a: Attribute): AttributeView {
    AttributeView(a.attribute, a.kind, multiset(a.roles), a.omitEmpty, a.required, a.optional, a.encrypted, a.json,
                  a.binary)
  }

  function IndexViewOf(i: Index): IndexView {
    IndexView(i.name, i.kind, i.partition, i.sort, i.projection, multiset(i.fields))
  }

  function Views(attrs: seq<Attribute>): seq<AttributeView> {
    Map(attrs, ViewOf)
  }

  function IndexViews(indexes: seq<Index>): seq<IndexView> {
    Map(indexes, IndexViewOf)
  }

  function Convention(m: Model): string {
    if m.convention == "" then "camelCase" else m.convention
  }

  /** Not to name a convention is to name camelCase. */
  lemma SameConvention(m: Model, n: Model)
    ensures Convention(m) == Convention(n) <==>
            m.convention == n.convention ||
            ({m.convention, n.convention} == {"", "camelCase"})
  {
  }

  function TableFor(m: Model, ignore: bool): string {
    if ignore then "" else m.table
  }

  function Self(s: string): string {
    s
  }

  predicate RolesSorted(attrs: seq<Attribute>) {
    forall i :: 0 <= i < |attrs| ==> IsSorted(attrs[i].roles, Self)
  }

  predicate FieldsSorted(indexes: seq<Index>) {
    forall i :: 0 <= i < |indexes| ==> IsSorted(indexes[i].fields, Self)
  }

  /** Everything is kept, and every list is sorted; the sort need not be stable. */
  ghost predicate IsNormal(m: Model, ignore: bool, n: NormalModel) {
    && n.name == m.name && n.table == TableFor(m, ignore) && n.convention == Convention(m) && n.keys == m.keys
    && multiset(Views(n.attributes)) == multiset(Views(m.attributes))
    && IsSorted(n.attributes, (a: Attribute) => a.attribute) && RolesSorted(n.attributes)
    && multiset(IndexViews(n.indexes)) == multiset(IndexViews(m.indexes))
    && IsSorted(n.indexes, (i: Index) => i.name) && FieldsSorted(n.indexes)
  }

  method NormalizeAttributes(attributes: seq<Attribute>) returns (r: seq<Attribute>)
    ensures multiset(Views(r)) == multiset(Views(attributes))
    ensures IsSorted(r, (a: Attribute) => a.attribute) && RolesSorted(r)
  {
    var attrs: seq<Attribute> := [];
    for i := 0 to |attributes|
      invariant |attrs| == i && RolesSorted(attrs)
      invariant forall j :: 0 <= j < i ==> ViewOf(attrs[j]) == ViewOf(attributes[j])
    {
      var roles := Sort(attributes[i].roles, Self);
      attrs := attrs + [attributes[i].(roles := roles)];
    }
    assert Views(attrs) == Views(attributes);
    r := Sort(attrs, (a: Attribute) => a.attribute);
    MapPermuted(r, attrs, ViewOf);
    SortedKeepRoles(attrs, r);
  }

  method NormalizeIndexes(indexes: seq<Index>) returns (r: seq<Index>)
    ensures multiset(IndexViews(r)) == multiset(IndexViews(indexes))
    ensures IsSorted(r, (i: Index) => i.name) && FieldsSorted(r)
  {
    var out: seq<Index> := [];
    for i := 0 to |indexes|
      invariant |out| == i && FieldsSorted(out)
      invariant forall j :: 0 <= j < i ==> IndexViewOf(out[j]) == IndexViewOf(indexes[j])
    {
      var fields := Sort(indexes[i].fields, Self);
      out := out + [indexes[i].(fields := fields)];
    }
    assert IndexViews(out) == IndexViews(indexes);
    r := Sort(out, (i: Index) => i.name);
    MapPermuted(r, out, IndexViewOf);
    SortedKeepFields(out, r);
  }

  method NormalizeForCompare(m: Model, ignore: bool) returns (n: NormalModel)
    ensures IsNormal(m, ignore, n)
  {
    var attributes := NormalizeAttributes(m.attributes);
    var indexes := NormalizeIndexes(m.indexes);
    n := NormalModel(m.name, TableFor(m, ignore), Convention(m), m.keys, attributes, indexes);
  }

  lemma SortedKeepRoles(a: seq<Attribute>, b: seq<Attribute>)
    requires multiset(a) == multiset(b) && RolesSorted(a)
    ensures RolesSorted(b)
  {
    forall i | 0 <= i < |b| ensures IsSorted(b[i].roles, Self) {
      SameElements(a, b, b[i]);
      var j :| 0 <= j < |a| && a[j] == b[i];
    }
  }

  lemma SortedKeepFields(a: seq<Index>, b: seq<Index>)
    requires multiset(a) == multiset(b) && FieldsSorted(a)
    ensures FieldsSorted(b)
  {
    forall i | 0 <= i < |b| ensures IsSorted(b[i].fields, Self) {
      SameElements(a, b, b[i]);
      var j :| 0 <= j < |a| && a[j] == b[i];
    }
  }

  // ---- Equivalence ----

  predicate DistinctIndexes(indexes: seq<Index>) {
    forall i, j :: 0 <= i < j < |indexes| ==> indexes[i].name != indexes[j].name
  }

  ghost predicate SameSet<T(!new)>(a: seq<T>, b: seq<T>) {
    forall x :: x in a <==> x in b
  }

  /** Same name, table, convention and keys, and the same sets of attributes and of indexes. */
  ghost predicate Equivalent(a: Model, b: Model, ignore: bool) {
    && a.name == b.name && (ignore || a.table == b.table)
    && Convention(a) == Convention(b) && a.keys == b.keys
    && SameSet(Views(a.attributes), Views(b.attributes)) && SameSet(IndexViews(a.indexes), IndexViews(b.indexes))
  }

  predicate NoRepeats<T(==)>(s: seq<T>) {
    forall i, j :: 0 <= i < j < |s| ==> s[i] != s[j]
  }

  lemma CountOnce<T>(s: seq<T>, x: T)
    requires NoRepeats(s)
    ensures multiset(s)[x] == if x in s then 1 else 0
  {
    if x in s {
      var i :| 0 <= i < |s| && s[i] == x;
      assert s == s[..i] + [x] + s[i + 1..];
      assert x !in s[..i] && x !in s[i + 1..];
    }
  }

  lemma SameSetSameBag<T(!new)>(a: seq<T>, b: seq<T>)
    requires NoRepeats(a) && NoRepeats(b)
    ensures multiset(a) == multiset(b) <==> SameSet(a, b)
  {
    forall x ensures multiset(a)[x] == (if x in a then 1 else 0) && multiset(b)[x] == (if x in b then 1 else 0) {
      CountOnce(a, x);
      CountOnce(b, x);
    }
    if multiset(a) == multiset(b) {
      forall x ensures x in a <==> x in b {
        SameElements(a, b, x);
      }
    }
  }

  /** With sorted roles, a view determines the attribute. */
  lemma ViewDetermines(a: Attribute, b: Attribute)
    requires ViewOf(a) == ViewOf(b) && IsSorted(a.roles, Self) && IsSorted(b.roles, Self)
    ensures a == b
  {
    SortedUnique(a.roles, b.roles, Self);
  }

  lemma IndexViewDetermines(a: Index, b: Index)
    requires IndexViewOf(a) == IndexViewOf(b) && IsSorted(a.fields, Self) && IsSorted(b.fields, Self)
    ensures a == b
  {
    SortedUnique(a.fields, b.fields, Self);
  }

  lemma SameAttributes(a: seq<Attribute>, b: seq<Attribute>, m: seq<Attribute>)
    requires multiset(Views(a)) == multiset(Views(b)) == multiset(Views(m)) && DistinctAttributes(m)
    requires IsSorted(a, (x: Attribute) => x.attribute) && IsSorted(b, (x: Attribute) => x.attribute)
    requires RolesSorted(a) && RolesSorted(b)
    ensures a == b
  {
    var key := (v: AttributeView) => v.attribute;
    forall i, j | 0 <= i < |a| && 0 <= j < |a| && key(Views(a)[i]) == key(Views(a)[j])
      ensures Views(a)[i] == Views(a)[j]
    {
      SameElements(Views(a), Views(m), Views(a)[i]);
      SameElements(Views(a), Views(m), Views(a)[j]);
      var k :| 0 <= k < |m| && Views(m)[k] == Views(a)[i];
      var l :| 0 <= l < |m| && Views(m)[l] == Views(a)[j];
      assert k == l;
    }
    SortedUnique(Views(a), Views(b), key);
    assert |a| == |Views(a)| && |b| == |Views(b)|;
    forall i | 0 <= i < |a| ensures a[i] == b[i] {
      assert Views(a)[i] == Views(b)[i];
      ViewDetermines(a[i], b[i]);
    }
  }

  lemma SameIndexes(a: seq<Index>, b: seq<Index>, m: seq<Index>)
    requires multiset(IndexViews(a)) == multiset(IndexViews(b)) == multiset(IndexViews(m)) && DistinctIndexes(m)
    requires IsSorted(a, (x: Index) => x.name) && IsSorted(b, (x: Index) => x.name)
    requires FieldsSorted(a) && FieldsSorted(b)
    ensures a == b
  {
    var key := (v: IndexView) => v.name;
    forall i, j | 0 <= i < |a| && 0 <= j < |a| && key(IndexViews(a)[i]) == key(IndexViews(a)[j])
      ensures IndexViews(a)[i] == IndexViews(a)[j]
    {
      SameElements(IndexViews(a), IndexViews(m), IndexViews(a)[i]);
      SameElements(IndexViews(a), IndexViews(m), IndexViews(a)[j]);
      var k :| 0 <= k < |m| && IndexViews(m)[k] == IndexViews(a)[i];
      var l :| 0 <= l < |m| && IndexViews(m)[l] == IndexViews(a)[j];
      assert k == l;
    }
    SortedUnique(IndexViews(a), IndexViews(b), key);
    assert |a| == |IndexViews(a)| && |b| == |IndexViews(b)|;
    forall i | 0 <= i < |a| ensures a[i] == b[i] {
      assert IndexViews(a)[i] == IndexViews(b)[i];
      IndexViewDetermines(a[i], b[i]);
    }
  }

  predicate Comparable(m: Model) {
    DistinctAttributes(m.attributes) && DistinctIndexes(m.indexes)
  }

  lemma AttributesCanonical(a: seq<Attribute>, b: seq<Attribute>, na: seq<Attribute>, nb: seq<Attribute>)
    requires DistinctAttributes(a) && DistinctAttributes(b) && RolesSorted(na) && RolesSorted(nb)
    requires multiset(Views(na)) == multiset(Views(a)) && multiset(Views(nb)) == multiset(Views(b))
    requires IsSorted(na, (x: Attribute) => x.attribute) && IsSorted(nb, (x: Attribute) => x.attribute)
    ensures na == nb <==> SameSet(Views(a), Views(b))
  {
    SameSetSameBag(Views(a), Views(b));
    if multiset(Views(a)) == multiset(Views(b)) {
      SameAttributes(na, nb, a);
    }
  }

  lemma IndexesCanonical(a: seq<Index>, b: seq<Index>, na: seq<Index>, nb: seq<Index>)
    requires DistinctIndexes(a) && DistinctIndexes(b) && FieldsSorted(na) && FieldsSorted(nb)
    requires multiset(IndexViews(na)) == multiset(IndexViews(a)) && multiset(IndexViews(nb)) == multiset(IndexViews(b))
    requires IsSorted(na, (x: Index) => x.name) && IsSorted(nb, (x: Index) => x.name)
    ensures na == nb <==> SameSet(IndexViews(a), IndexViews(b))
  {
    SameSetSameBag(IndexViews(a), IndexViews(b));
    if multiset(IndexViews(a)) == multiset(IndexViews(b)) {
      SameIndexes(na, nb, a);
    }
  }

  /** Normal forms are equal exactly when the models are equivalent. */
  lemma NormalFormsCanonical(a: Model, b: Model, ignore: bool, na: NormalModel, nb: NormalModel)
    requires Comparable(a) && Comparable(b) && IsNormal(a, ignore, na) && IsNormal(b, ignore, nb)
    ensures na == nb <==> Equivalent(a, b, ignore)
  {
    AttributesCanonical(a.attributes, b.attributes, na.attributes, nb.attributes);
    IndexesCanonical(a.indexes, b.indexes, na.indexes, nb.indexes);
  }

  /**
   For models whose attribute names and index names are distinct, the listing order of everything is of no account.
   */
  method AssertModelsEquivalent(got: Model, want: Model, ignore: bool) returns (ok: bool)
    ensures Comparable(got) && Comparable(want) ==> (ok <==> Equivalent(got, want, ignore))
  {
    var ng := NormalizeForCompare(got, ignore);
    var nw := NormalizeForCompare(want, ignore);
    ok := ng == nw;
    if Comparable(got) && Comparable(want) {
      NormalFormsCanonical(got, want, ignore, ng, nw);
    }
  }
}
