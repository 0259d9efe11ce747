/** Put and delete requests, what they do to a table, and a service that may leave any of them unprocessed. */
module TableWrites {
  import opened Attributes
  import opened KeyedTables
  import Sorting

  datatype Request = Put(item: Item) | Delete(key: Key)

  function KeyIn(schema: set<string>, item: Item): Key {
    map a | a in schema && a in item :: item[a]
  }

  function KeyOf(schema: set<string>, r: Request): Key {
    match r
    case Put(item) => KeyIn(schema, item)
    case Delete(key) => key
  }

  function Apply(schema: set<string>, t: Table, r: Request): Table {
    match r
    case Put(item) => t[KeyIn(schema, item) := item]
    case Delete(key) => t - {key}
  }

  /** The requests one after the other. */
  function ApplyAll(schema: set<string>, t: Table, rs: seq<Request>): Table {
    if rs == [] then t else Apply(schema, ApplyAll(schema, t, rs[..|rs| - 1]), rs[|rs| - 1])
  }

  lemma {:induction false} ApplyCat(schema: set<string>, t: Table, a: seq<Request>, b: seq<Request>)
    ensures ApplyAll(schema, t, a + b) == ApplyAll(schema, ApplyAll(schema, t, a), b)
  {
    if b == [] {
      assert a + b == a;
    } else {
      assert (a + b)[..|a + b| - 1] == a + b[..|b| - 1];
      ApplyCat(schema, t, a, b[..|b| - 1]);
    }
  }

  predicate DistinctKeys(schema: set<string>, rs: seq<Request>) {
    forall i, j :: 0 <= i < j < |rs| ==> KeyOf(schema, rs[i]) != KeyOf(schema, rs[j])
  }

  /** What a request leaves under its own key. */
  function Left(r: Request): Option<Item> {
    match r
    case Put(item) => Some(item)
    case Delete(_) => None
  }

  /** With one request per key, each key holds what its request left and the other keys are as before. */
  lemma {:induction false} AppliedAt(schema: set<string>, t: Table, rs: seq<Request>, k: Key)
    requires DistinctKeys(schema, rs)
    ensures (forall r :: r in rs ==> KeyOf(schema, r) != k) ==> ItemAt(ApplyAll(schema, t, rs), k) == ItemAt(t, k)
    ensures forall i :: 0 <= i < |rs| && KeyOf(schema, rs[i]) == k ==> ItemAt(ApplyAll(schema, t, rs), k) == Left(rs[i])
  {
    if rs != [] {
      var n := |rs| - 1;
      AppliedAt(schema, t, rs[..n], k);
      assert rs[n] in rs;
      assert KeyOf(schema, rs[n]) == k ==> forall i :: 0 <= i < n ==> KeyOf(schema, rs[..n][i]) != k;
      forall i | 0 <= i < |rs| && KeyOf(schema, rs[i]) == k ensures ItemAt(ApplyAll(schema, t, rs), k) == Left(rs[i]) {
        if i < n {
          assert rs[..n][i] == rs[i];
        }
      }
    }
  }

  lemma DistinctPermuted(schema: set<string>, a: seq<Request>, b: seq<Request>)
    requires multiset(a) == multiset(b) && DistinctKeys(schema, a)
    ensures DistinctKeys(schema, b)
  {
    forall i, j | 0 <= i < j < |b| ensures KeyOf(schema, b[i]) != KeyOf(schema, b[j]) {
      if KeyOf(schema, b[i]) == KeyOf(schema, b[j]) {
        assert b[i] in multiset(b) && b[j] in multiset(b);
        assert b[i] in a && b[j] in a;
        var x :| 0 <= x < |a| && a[x] == b[i];
        var y :| 0 <= y < |a| && a[y] == b[j];
        if b[i] == b[j] {
          Sorting.TwoOccurrences(b, i, j);
          OneOccurrence(schema, a, x);
        }
        assert false;
      }
    }
  }

  lemma OneOccurrence(schema: set<string>, a: seq<Request>, x: nat)
    requires x < |a| && DistinctKeys(schema, a)
    ensures multiset(a)[a[x]] == 1
  {
    assert a == a[..x] + [a[x]] + a[x + 1..];
    assert a[x] !in a[..x] && a[x] !in a[x + 1..];
  }

  /** With one request per key, their order does not matter. */
  lemma AppliedInAnyOrder(schema: set<string>, t: Table, a: seq<Request>, b: seq<Request>)
    requires multiset(a) == multiset(b) && DistinctKeys(schema, a)
    ensures ApplyAll(schema, t, a) == ApplyAll(schema, t, b)
  {
    DistinctPermuted(schema, a, b);
    forall k ensures ItemAt(ApplyAll(schema, t, a), k) == ItemAt(ApplyAll(schema, t, b), k) {
      AppliedAt(schema, t, a, k);
      AppliedAt(schema, t, b, k);
      if i :| 0 <= i < |a| && KeyOf(schema, a[i]) == k {
        assert a[i] in multiset(b);
        var j :| 0 <= j < |b| && b[j] == a[i];
      } else {
        forall r | r in b ensures KeyOf(schema, r) != k {
          assert r in multiset(a);
        }
      }
    }
    SameItems(ApplyAll(schema, t, a), ApplyAll(schema, t, b));
  }

  lemma SameItems(a: Table, b: Table)
    requires forall k :: ItemAt(a, k) == ItemAt(b, k)
    ensures a == b
  {
    forall k ensures (k in a <==> k in b) && (k in a ==> a[k] == b[k]) {
      assert ItemAt(a, k) == ItemAt(b, k);
    }
  }

  // ---- The service ----

  /** Some requests have been applied to a table and the rest have not. */
  ghost predicate Split(schema: set<string>, t: Table, all: seq<Request>, now: Table, rest: seq<Request>) {
    exists done :: multiset(done) + multiset(rest) == multiset(all) && now == ApplyAll(schema, t, done)
  }

  lemma SplitNext(schema: set<string>, t: Table, all: seq<Request>, now: Table, rest: seq<Request>, next: Table,
      rest': seq<Request>)
    requires Split(schema, t, all, now, rest) && Split(schema, now, rest, next, rest')
    ensures Split(schema, t, all, next, rest')
  {
    var done :| multiset(done) + multiset(rest) == multiset(all) && now == ApplyAll(schema, t, done);
    var more :| multiset(more) + multiset(rest') == multiset(rest) && next == ApplyAll(schema, now, more);
    ApplyCat(schema, t, done, more);
    assert multiset(done + more) + multiset(rest') == multiset(all);
  }

  lemma SplitDone(schema: set<string>, t: Table, all: seq<Request>, now: Table)
    requires Split(schema, t, all, now, []) && DistinctKeys(schema, all)
    ensures now == ApplyAll(schema, t, all)
  {
    var done :| multiset(done) + multiset([]) == multiset(all) && now == ApplyAll(schema, t, done);
    assert multiset(done) == multiset(all);
    AppliedInAnyOrder(schema, t, all, done);
  }

  lemma SplitStart(schema: set<string>, t: Table, all: seq<Request>)
    ensures Split(schema, t, all, t, all)
  {
    assert multiset([]) + multiset(all) == multiset(all) && t == ApplyAll(schema, t, []);
  }

  /** What is left of a batch has different keys, and is no longer than the batch. */
  lemma SplitRest(schema: set<string>, t: Table, all: seq<Request>, now: Table, rest: seq<Request>)
    requires Split(schema, t, all, now, rest) && DistinctKeys(schema, all)
    ensures DistinctKeys(schema, rest) && |rest| <= |all|
  {
    var done :| multiset(done) + multiset(rest) == multiset(all) && now == ApplyAll(schema, t, done);
    assert multiset(done + rest) == multiset(all);
    DistinctPermuted(schema, all, done + rest);
    forall i, j | 0 <= i < j < |rest| ensures KeyOf(schema, rest[i]) != KeyOf(schema, rest[j]) {
      assert (done + rest)[|done| + i] == rest[i] && (done + rest)[|done| + j] == rest[j];
    }
    assert |multiset(done + rest)| == |multiset(all)|;
  }

  /** What is still to be written after some calls, at the service's rate. */
  ghost predicate Remaining(svc: Service, t: Table, rs: seq<Request>, remaining: seq<Request>, calls: nat)
    reads svc
  {
    && Split(svc.schema, t, rs, svc.table, remaining)
    && (svc.reliable && |remaining| > 0 ==> |remaining| + calls * svc.rate <= |rs|)
  }

  /** One call for what is left of a batch. */
  method WriteOnce(svc: Service, ghost t: Table, ghost rs: seq<Request>, remaining: seq<Request>, ghost calls: nat)
    returns (ok: bool, unprocessed: seq<Request>)
    requires Remaining(svc, t, rs, remaining, calls) && |remaining| > 0
    modifies svc
    ensures ok ==> Remaining(svc, t, rs, unprocessed, calls + 1) && BatchOk(svc.schema, remaining)
    ensures !ok ==> exists rest :: Split(svc.schema, t, rs, svc.table, rest)
    ensures svc.reliable && |rs| <= 25 && DistinctKeys(svc.schema, rs) ==> ok
  {
    if DistinctKeys(svc.schema, rs) {
      SplitRest(svc.schema, t, rs, svc.table, remaining);
    }
    ghost var now := svc.table;
    ok, unprocessed := svc.BatchWriteItem(remaining);
    if ok {
      SplitNext(svc.schema, t, rs, now, remaining, svc.table, unprocessed);
      if svc.reliable {
        RateStep(|unprocessed|, |remaining|, svc.rate, calls, |rs|);
      }
    } else {
      ghost var rest :| Split(svc.schema, now, remaining, svc.table, rest);
      SplitNext(svc.schema, t, rs, now, remaining, svc.table, rest);
    }
  }

  predicate BatchOk(schema: set<string>, rs: seq<Request>) {
    1 <= |rs| <= 25 && DistinctKeys(schema, rs)
  }

  class Service {
    const schema: set<string>
    var table: Table
    /** Whether every lawful call succeeds; each is then processed in full, or at least `rate` requests of it are. */
    const reliable: bool
    const rate: nat

    constructor (schema: set<string>, table: Table, reliable: bool, rate: nat)
      ensures this.schema == schema && this.table == table && this.reliable == reliable && this.rate == rate
    {
      this.schema, this.table, this.reliable, this.rate := schema, table, reliable, rate;
    }

    /**
     One BatchWriteItem call. Any part of the requests is applied, in any order; on success the rest is returned as
     unprocessed, after an error nobody knows which. Empty, oversized and repeating batches are always refused.
     */
    method BatchWriteItem(rs: seq<Request>) returns (ok: bool, unprocessed: seq<Request>)
      modifies this
      ensures ok ==> BatchOk(schema, rs) && Split(schema, old(table), rs, table, unprocessed)
      ensures !ok ==> exists rest :: Split(schema, old(table), rs, table, rest)
      ensures reliable && BatchOk(schema, rs) ==> ok && (unprocessed == [] || |unprocessed| + rate <= |rs|)
    {
      SplitStart(schema, table, rs);
      if !BatchOk(schema, rs) {
        return false, [];
      }
      assert multiset(rs) + multiset([]) == multiset(rs);
      var done, rest := rs, [];
      var full: bool := *;
      if !full {
        done, rest :| multiset(done) + multiset(rest) == multiset(rs);
        if reliable && |rest| + rate > |rs| {
          done, rest := rs, [];
        }
      }
      ghost var before := table;
      table := ApplyAll(schema, table, done);
      assert Split(schema, before, rs, table, rest);
      var answered: bool := *;
      ok, unprocessed := answered || reliable, rest;
    }

    method PutItem(item: Item) returns (ok: bool)
      modifies this
      ensures ok ==> table == Apply(schema, old(table), Put(item))
      ensures !ok ==> table == old(table) || table == Apply(schema, old(table), Put(item))
      ensures reliable ==> ok
    {
      var applied: bool, answered: bool := *, *;
      if applied || reliable {
        table := table[KeyIn(schema, item) := item];
      }
      ok := reliable || (answered && applied);
    }
  }
}
