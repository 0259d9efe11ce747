/** Permuted lists: sorting by a string key, why the result is unique, and images of permuted lists. */
module Sorting {

  lemma TwoOccurrences<T>(s: seq<T>, i: nat, j: nat)
    requires i < j < |s| && s[i] == s[j]
    ensures multiset(s)[s[i]] >= 2
  {
    assert s == s[..i] + [s[i]] + s[i + 1..j] + [s[j]] + s[j + 1..];
  }

  /** The order of Go strings. */
  predicate Less(a: string, b: string) {
    b != "" && (a == "" || a[0] < b[0] || (a[0] == b[0] && Less(a[1..], b[1..])))
  }

  lemma {:induction false} LessTotal(a: string, b: string)
    ensures Less(a, b) || Less(b, a) || a == b
    ensures !(Less(a, b) && Less(b, a)) && !(a == b && Less(a, b))
  {
    if a != "" && b != "" && a[0] == b[0] {
      LessTotal(a[1..], b[1..]);
      assert a == [a[0]] + a[1..] && b == [b[0]] + b[1..];
    }
  }

  lemma {:induction false} LessTransitive(a: string, b: string, c: string)
    requires !Less(b, a) && !Less(c, b)
    ensures !Less(c, a)
  {
    if a != "" && b != "" && c != "" && a[0] == b[0] == c[0] {
      LessTransitive(a[1..], b[1..], c[1..]);
    }
  }

  predicate IsSorted<T(!new)>(s: seq<T>, key: T -> string) {
    forall i, j :: 0 <= i < j < |s| ==> !Less(key(s[j]), key(s[i]))
  }

  /** Elements that share a key are the same. */
  ghost predicate KeyedApart<T(!new)>(s: seq<T>, key: T -> string) {
    forall i, j :: 0 <= i < |s| && 0 <= j < |s| && key(s[i]) == key(s[j]) ==> s[i] == s[j]
  }

  method Insert<T(==, !new)>(s: seq<T>, key: T -> string, x: T) returns (r: seq<T>)
    requires IsSorted(s, key)
    ensures IsSorted(r, key) && multiset(r) == multiset(s) + multiset{x}
  {
    var i := 0;
    while i < |s| && Less(key(s[i]), key(x))
      invariant 0 <= i <= |s|
      invariant forall j :: 0 <= j < i ==> Less(key(s[j]), key(x))
    {
      i := i + 1;
    }
    r := s[..i] + [x] + s[i..];
    assert s == s[..i] + s[i..];
    forall a, b | 0 <= a < b < |r| ensures !Less(key(r[b]), key(r[a])) {
      InsertedOrder(s, key, x, i, a, b);
    }
  }

  lemma InsertedOrder<T(!new)>(s: seq<T>, key: T -> string, x: T, i: nat, a: nat, b: nat)
    requires IsSorted(s, key) && i <= |s| && a < b < |s| + 1
    requires forall j :: 0 <= j < i ==> Less(key(s[j]), key(x))
    requires i < |s| ==> !Less(key(s[i]), key(x))
    ensures var r := s[..i] + [x] + s[i..]; !Less(key(r[b]), key(r[a]))
  {
    if b == i {
      LessTotal(key(s[a]), key(x));
    } else if a == i {
      if b > i + 1 {
        LessTransitive(key(x), key(s[i]), key(s[b - 1]));
      }
    }
  }

  method Sort<T(==, !new)>(s: seq<T>, key: T -> string) returns (r: seq<T>)
    ensures IsSorted(r, key) && multiset(r) == multiset(s)
  {
    r := [];
    for i := 0 to |s|
      invariant IsSorted(r, key) && multiset(r) == multiset(s[..i])
    {
      r := Insert(r, key, s[i]);
      assert s[..i + 1] == s[..i] + [s[i]];
    }
    assert s[..|s|] == s;
  }

  lemma SameElements<T>(a: seq<T>, b: seq<T>, x: T)
    requires multiset(a) == multiset(b)
    ensures x in a <==> x in b
  {
    assert x in multiset(a) <==> x in multiset(b);
  }

  lemma FirstOfSorted<T(!new)>(a: seq<T>, b: seq<T>, key: T -> string)
    requires a != [] && b != [] && multiset(a) == multiset(b)
    requires IsSorted(a, key) && IsSorted(b, key) && KeyedApart(a, key)
    ensures a[0] == b[0]
  {
    SameElements(a, b, a[0]);
    SameElements(a, b, b[0]);
    var i :| 0 <= i < |b| && b[i] == a[0];
    var j :| 0 <= j < |a| && a[j] == b[0];
    LessTotal(key(a[0]), key(b[0]));
    assert !Less(key(a[j]), key(a[0]));
    assert !Less(key(b[i]), key(b[0]));
  }

  lemma TailsAgree<T>(a: seq<T>, b: seq<T>)
    requires a != [] && b != [] && a[0] == b[0] && multiset(a) == multiset(b)
    ensures multiset(a[1..]) == multiset(b[1..])
  {
    assert a == [a[0]] + a[1..] && b == [b[0]] + b[1..];
    assert multiset(a[1..]) == multiset(a) - multiset{a[0]};
    assert multiset(b[1..]) == multiset(b) - multiset{b[0]};
  }

  /** However a list is sorted, the result is the same when elements that share a key are the same. */
  lemma {:induction false} SortedUnique<T(!new)>(a: seq<T>, b: seq<T>, key: T -> string)
    requires multiset(a) == multiset(b) && IsSorted(a, key) && IsSorted(b, key) && KeyedApart(a, key)
    ensures a == b
  {
    if a == [] {
      assert |b| == |multiset(b)| == 0;
    } else {
      assert |multiset(a)| == |a| && |multiset(b)| == |b|;
      FirstOfSorted(a, b, key);
      TailsAgree(a, b);
      SortedUnique(a[1..], b[1..], key);
      assert a == [a[0]] + a[1..] && b == [b[0]] + b[1..];
    }
  }

  // ---- Images of permuted lists ----

  function Map<A, B>(s: seq<A>, f: A -> B): (r: seq<B>)
    ensures |r| == |s|
    ensures forall i :: 0 <= i < |s| ==> r[i] == f(s[i])
  {
    if s == [] then [] else [f(s[0])] + Map(s[1..], f)
  }

  lemma MapCons<A, B>(x: A, s: seq<A>, f: A -> B)
    ensures multiset(Map([x] + s, f)) == multiset{f(x)} + multiset(Map(s, f))
  {
    assert ([x] + s)[1..] == s;
  }

  function RemoveAt<T>(s: seq<T>, i: nat): seq<T>
    requires i < |s|
  {
    s[..i] + s[i + 1..]
  }

  lemma RemoveLater<T>(s: seq<T>, i: nat)
    requires 0 < i < |s|
    ensures RemoveAt(s, i) == [s[0]] + RemoveAt(s[1..], i - 1)
  {
  }

  lemma {:induction false} MapSplit<A, B>(s: seq<A>, i: nat, f: A -> B)
    requires i < |s|
    ensures multiset(Map(s, f)) == multiset(Map(RemoveAt(s, i), f)) + multiset{f(s[i])}
  {
    var head, tail := s[0], s[1..];
    assert s == [head] + tail;
    MapCons(head, tail, f);
    if i == 0 {
      assert RemoveAt(s, i) == tail;
    } else {
      var less := RemoveAt(tail, i - 1);
      assert multiset(Map(tail, f)) == multiset(Map(less, f)) + multiset{f(s[i])} by {
        MapSplit(tail, i - 1, f);
      }
      assert RemoveAt(s, i) == [head] + less by { RemoveLater(s, i); }
      MapCons(head, less, f);
    }
  }

  lemma {:induction false} MapPermuted<A, B>(a: seq<A>, b: seq<A>, f: A -> B)
    requires multiset(a) == multiset(b)
    ensures multiset(Map(a, f)) == multiset(Map(b, f))
    decreases |a|
  {
    if a == [] {
      assert |b| == |multiset(b)| == 0;
    } else {
      SameElements(a, b, a[0]);
      var i :| 0 <= i < |b| && b[i] == a[0];
      Removed(a, b, i);
      MapPermuted(a[1..], RemoveAt(b, i), f);
      MapSplit(b, i, f);
      MapCons(a[0], a[1..], f);
      assert a == [a[0]] + a[1..];
    }
  }

  lemma Removed<T>(a: seq<T>, b: seq<T>, i: nat)
    requires a != [] && i < |b| && b[i] == a[0] && multiset(a) == multiset(b)
    ensures multiset(a[1..]) == multiset(RemoveAt(b, i))
  {
    var front, back := b[..i], b[i + 1..];
    assert a == [a[0]] + a[1..];
    assert b == front + ([a[0]] + back);
    assert multiset(b) == multiset(front) + multiset{a[0]} + multiset(back);
    assert multiset(a) == multiset{a[0]} + multiset(a[1..]);
    assert multiset(front + back) == multiset(b) - multiset{a[0]};
  }
}
