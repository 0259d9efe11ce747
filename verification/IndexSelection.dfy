/** Choosing an index for a query (pkg/index/selector.go). */
module IndexSelection {
  import opened Text
  import opened Attributes

  datatype Index = Index(name: string, kind: string, partition: string, sort: string, projection: string)

  datatype KeyUse = KeyUse(field: string, operator: string)

  datatype Required = Required(partition: string, sort: string, sortOp: string)

  // ---- What the conditions require ----

  predicate IsEquality(op: string) {
    op == "=" || EqualFold(op, "eq")
  }

  function NormalizeOperator(op: string): string {
    var u := Upper(op);
    if u == "EQ" || u == "=" then "="
    else if u == "LT" || u == "<" then "<"
    else if u == "LE" || u == "<=" then "<="
    else if u == "GT" || u == ">" then ">"
    else if u == "GE" || u == ">=" then ">="
    else if u == "BEGINS_WITH" then "begins_with"
    else if u == "BETWEEN" then "between"
    else Lower(op)
  }

  predicate FixesPartition(c: KeyUse) {
    IsEquality(c.operator) && c.field != ""
  }

  /** Condition `p` is the first equality. */
  predicate FirstEquality(cs: seq<KeyUse>, p: nat) {
    p < |cs| && FixesPartition(cs[p]) && forall i :: 0 <= i < p ==> !FixesPartition(cs[i])
  }

  /** Condition `s` is the first of `cs[from..to]` on some other attribute. */
  predicate FirstOther(cs: seq<KeyUse>, partition: string, from: nat, to: nat, s: nat) {
    from <= s < to <= |cs| && cs[s].field != partition && cs[s].field != "" &&
    forall i :: from <= i < s ==> cs[i].field == partition || cs[i].field == ""
  }

  predicate NoOther(cs: seq<KeyUse>, partition: string, from: nat, to: nat) {
    from <= to <= |cs| && forall i :: from <= i < to ==> cs[i].field == partition || cs[i].field == ""
  }

  predicate SortFrom(cs: seq<KeyUse>, r: Required, s: nat) {
    s < |cs| && r.sort == cs[s].field && (r.sort != "" ==> r.sortOp == NormalizeOperator(cs[s].operator))
  }

  /** Condition `s` is the first of `cs[..p]` not on the partition key, even if it names nothing. */
  predicate FirstPending(cs: seq<KeyUse>, partition: string, p: nat, s: nat) {
    s < p <= |cs| && cs[s].field != partition && forall i :: 0 <= i < s ==> cs[i].field == partition
  }

  /** A sort key is looked for behind the first equality `p`, and only then in front of it. */
  ghost predicate SortRequired(cs: seq<KeyUse>, r: Required, p: nat) {
    if !NoOther(cs, r.partition, p, |cs|) then exists s :: FirstOther(cs, r.partition, p, |cs|, s) && SortFrom(cs, r, s)
    else if exists s :: FirstPending(cs, r.partition, p, s) then
      exists s :: FirstPending(cs, r.partition, p, s) && SortFrom(cs, r, s)
    else r.sort == ""
  }

  /** The partition key is the attribute of the first equality. */
  ghost predicate RequiredBy(cs: seq<KeyUse>, r: Required) {
    if r.partition == "" then r.sort == "" && forall i :: 0 <= i < |cs| ==> !FixesPartition(cs[i])
    else exists p: nat :: FirstEquality(cs, p) && r.partition == cs[p].field && SortRequired(cs, r, p)
  }

  /** The second loop of AnalyzeConditions, over the conditions in front of the first equality. */
  method PendingSort(pending: seq<KeyUse>, r: Required) returns (r': Required)
    requires r.sort == ""
    ensures r'.partition == r.partition
    ensures ((forall i :: 0 <= i < |pending| ==> pending[i].field == r.partition) && r'.sort == "") ||
            exists s :: FirstPending(pending, r.partition, |pending|, s) && SortFrom(pending, r', s)
  {
    r' := r;
    var i := 0;
    while i < |pending|
      invariant 0 <= i <= |pending| && r' == r
      invariant forall j :: 0 <= j < i ==> pending[j].field == r.partition
    {
      if pending[i].field != r.partition {
        r' := r.(sort := pending[i].field, sortOp := NormalizeOperator(pending[i].operator));
        assert FirstPending(pending, r.partition, |pending|, i) && SortFrom(pending, r', i);
        return;
      }
      i := i + 1;
    }
  }

  ghost predicate Scanned(cs: seq<KeyUse>, i: nat, r: Required, pending: seq<KeyUse>, p: nat, s: nat)
    requires i <= |cs|
  {
    if r.partition == "" then
      r.sort == "" && pending == cs[..i] && forall j :: 0 <= j < i ==> !FixesPartition(cs[j])
    else
      && FirstEquality(cs, p) && p < i && r.partition == cs[p].field && pending == cs[..p]
      && if r.sort == "" then NoOther(cs, r.partition, p, i)
         else FirstOther(cs, r.partition, p, i, s) && SortFrom(cs, r, s)
  }

  method AnalyzeConditions(cs: seq<KeyUse>) returns (r: Required)
    ensures RequiredBy(cs, r)
  {
    r := Required("", "", "");
    var pending: seq<KeyUse> := [];
    ghost var p, s := 0, 0;
    var i := 0;
    while i < |cs|
      invariant 0 <= i <= |cs| && Scanned(cs, i, r, pending, p, s)
    {
      var c := cs[i];
      assert cs[..i + 1] == cs[..i] + [c];
      if IsEquality(c.operator) && r.partition == "" {
        r := r.(partition := c.field);
        p := i;
      }
      if r.partition == "" {
        pending := pending + [c];
      } else if r.sort == "" && c.field != r.partition {
        r := r.(sort := c.field, sortOp := NormalizeOperator(c.operator));
        s := i;
      }
      i := i + 1;
    }
    if r.sort == "" && r.partition != "" {
      ghost var before := r;
      r := PendingSort(pending, r);
      PendingFound(cs, r, p);
    }
  }

  lemma PendingFound(cs: seq<KeyUse>, r: Required, p: nat)
    requires FirstEquality(cs, p) && r.partition == cs[p].field && NoOther(cs, r.partition, p, |cs|)
    requires ((forall i :: 0 <= i < p ==> cs[..p][i].field == r.partition) && r.sort == "") ||
             exists s :: FirstPending(cs[..p], r.partition, p, s) && SortFrom(cs[..p], r, s)
    ensures RequiredBy(cs, r)
  {
    if s :| FirstPending(cs[..p], r.partition, p, s) && SortFrom(cs[..p], r, s) {
      assert forall i :: 0 <= i < s ==> cs[i] == cs[..p][i];
      assert FirstPending(cs, r.partition, p, s) && SortFrom(cs, r, s);
    } else {
      assert forall i :: 0 <= i < p ==> cs[i] == cs[..p][i];
    }
    assert SortRequired(cs, r, p);
  }

  // ---- Scores ----

  function SortScore(op: string): nat {
    if op == "=" then 50
    else if op == "begins_with" then 40
    else if op == "between" || op == "<" || op == "<=" || op == ">" || op == ">=" then 30
    else 0
  }

  function Score(i: Index, r: Required): nat {
    if i.partition != r.partition then 0
    else
      100 + (if r.sort != "" && i.sort == r.sort then SortScore(r.sortOp) else 0)
      + (if i.kind == "GSI" then 10 else 0)
      + (if i.projection == "ALL" then 5 else 0)
  }

  /** The operators a sort key may be bounded by, as NormalizeOperator gives them. */
  predicate OrdersSort(op: string) {
    op in {"=", "<", "<=", ">", ">=", "between", "begins_with"}
  }

  /** The index can answer the sort condition as part of a key condition. */
  predicate AnswersSort(i: Index, r: Required) {
    i.partition == r.partition && r.sort != "" && i.sort == r.sort && OrdersSort(r.sortOp)
  }

  /** What speaks for an index, the first in the list above all that follow. */
  function Merits(i: Index, r: Required): (ms: seq<bool>)
    ensures |ms| == 3
  {
    [AnswersSort(i, r), i.kind == "GSI", i.projection == "ALL"]
  }

  /** The first merit that only one of the two has is on the left. */
  predicate Outranks(a: seq<bool>, b: seq<bool>)
    requires |a| == |b|
  {
    exists k :: 0 <= k < |a| && a[k] && !b[k] && forall j :: 0 <= j < k ==> a[j] == b[j]
  }

  predicate Candidate(indexes: seq<Index>, r: Required, i: nat) {
    i < |indexes| && indexes[i].partition == r.partition
  }

  /** A candidate that no other outranks, and the first of those with the same merits. */
  predicate IsPreferred(indexes: seq<Index>, r: Required, b: nat) {
    && Candidate(indexes, r, b)
    && (forall i :: 0 <= i < |indexes| && Candidate(indexes, r, i) ==>
          !Outranks(Merits(indexes[i], r), Merits(indexes[b], r)))
    && (forall i :: 0 <= i < b && Candidate(indexes, r, i) ==>
          Outranks(Merits(indexes[b], r), Merits(indexes[i], r)))
  }

  /** Position `b` has the best score, and the first of several. */
  predicate IsBest(indexes: seq<Index>, r: Required, b: nat) {
    && b < |indexes|
    && Score(indexes[b], r) > 0
    && (forall j :: 0 <= j < |indexes| ==> Score(indexes[j], r) <= Score(indexes[b], r))
    && (forall j :: 0 <= j < b ==> Score(indexes[j], r) < Score(indexes[b], r))
  }

  method SelectOptimal(indexes: seq<Index>, r: Required) returns (best: Option<Index>)
    ensures best.None? <==> r.partition == "" || forall i :: 0 <= i < |indexes| ==> indexes[i].partition != r.partition
    ensures best.Some? ==> exists b: nat :: IsBest(indexes, r, b) && best.value == indexes[b]
  {
    best := None;
    if r.partition == "" {
      return;
    }
    var bestScore := 0;
    ghost var b := 0;
    var i := 0;
    while i < |indexes|
      invariant 0 <= i <= |indexes|
      invariant best.None? ==> bestScore == 0
      invariant best.Some? ==>
                  b < i && best.value == indexes[b] && bestScore == Score(indexes[b], r) > 0 &&
                  forall j :: 0 <= j < b ==> Score(indexes[j], r) < bestScore
      invariant forall j :: 0 <= j < i ==> Score(indexes[j], r) <= bestScore
    {
      var score := Score(indexes[i], r);
      if score > bestScore {
        bestScore, best := score, Some(indexes[i]);
        b := i;
      }
      i := i + 1;
    }
    if best.Some? {
      assert IsBest(indexes, r, b);
    } else {
      forall j | 0 <= j < |indexes| ensures indexes[j].partition != r.partition {
        assert Score(indexes[j], r) <= 0;
      }
    }
  }

  /** Scores put candidates in the order of their merits. */
  lemma ScoreRanks(x: Index, y: Index, r: Required)
    requires x.partition == r.partition && y.partition == r.partition
    ensures Score(x, r) > Score(y, r) <==> Outranks(Merits(x, r), Merits(y, r))
  {
    var a, b := Merits(x, r), Merits(y, r);
    if Score(x, r) > Score(y, r) {
      var k := if a[0] && !b[0] then 0 else if a[1] && !b[1] then 1 else 2;
      assert a[k] && !b[k] && forall j :: 0 <= j < k ==> a[j] == b[j];
    }
  }

  /** The index chosen is the preferred one. */
  lemma BestExactly(indexes: seq<Index>, r: Required, b: nat)
    ensures IsBest(indexes, r, b) <==> IsPreferred(indexes, r, b)
  {
    if b < |indexes| && indexes[b].partition == r.partition {
      forall i | 0 <= i < |indexes| && indexes[i].partition == r.partition
        ensures Score(indexes[i], r) > Score(indexes[b], r) <==>
                Outranks(Merits(indexes[i], r), Merits(indexes[b], r))
        ensures Score(indexes[b], r) > Score(indexes[i], r) <==>
                Outranks(Merits(indexes[b], r), Merits(indexes[i], r))
      {
        ScoreRanks(indexes[i], indexes[b], r);
        ScoreRanks(indexes[b], indexes[i], r);
      }
    }
  }

  /** Whenever some index can answer the sort condition as well as the partition key, the chosen one does. */
  lemma BestAnswersSort(indexes: seq<Index>, r: Required, b: nat, i: nat)
    requires IsBest(indexes, r, b) && i < |indexes| && AnswersSort(indexes[i], r)
    ensures AnswersSort(indexes[b], r)
  {
    assert Score(indexes[i], r) <= Score(indexes[b], r);
  }
}
