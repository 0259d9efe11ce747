/** Copying a table page by page with batched writes (pkg/schema/automigrate.go). */
module TableCopy {
  import opened Attributes
  import opened KeyedTables
  import opened TableWrites

  // ---- Writing a page ----

  /** Calls until nothing is left or `maxRetries` calls have been made; what is left is handed back. */
  method BatchWriteWithRetries(svc: Service, rs: seq<Request>, maxRetries: int)
    returns (ok: bool, remaining: seq<Request>)
    modifies svc
    ensures ok ==> Split(svc.schema, old(svc.table), rs, svc.table, remaining)
    ensures ok && maxRetries > 0 && |rs| > 0 ==> DistinctKeys(svc.schema, rs)
    ensures maxRetries <= 0 ==> ok && remaining == rs && svc.table == old(svc.table)
    ensures svc.reliable && |rs| <= 25 && DistinctKeys(svc.schema, rs) ==> ok
    ensures ok && svc.reliable && maxRetries > 0 ==> remaining == [] || |remaining| + maxRetries * svc.rate <= |rs|
  {
    SplitStart(svc.schema, svc.table, rs);
    if |rs| == 0 {
      return true, [];
    }
    if maxRetries <= 0 {
      return true, rs;
    }
    remaining := rs;
    var attempt := 1;
    while attempt <= maxRetries
      invariant 1 <= attempt <= maxRetries + 1
      invariant Remaining(svc, old(svc.table), rs, remaining, attempt - 1) && |remaining| > 0
      invariant if attempt == 1 then remaining == rs else DistinctKeys(svc.schema, rs)
    {
      var sent, unprocessed := WriteOnce(svc, old(svc.table), rs, remaining, attempt - 1);
      if !sent {
        return false, [];
      }
      remaining := unprocessed;
      if |remaining| == 0 {
        return true, [];
      }
      attempt := attempt + 1;
    }
    ok := true;
  }

  predicate AllPuts(rs: seq<Request>) {
    forall i :: 0 <= i < |rs| ==> rs[i].Put?
  }

  method PutWriteRequestsIndividually(svc: Service, rs: seq<Request>) returns (ok: bool)
    modifies svc
    ensures svc.reliable ==> ok
    ensures ok && AllPuts(rs) ==> svc.table == ApplyAll(svc.schema, old(svc.table), rs)
  {
    var i := 0;
    while i < |rs|
      invariant 0 <= i <= |rs|
      invariant AllPuts(rs) ==> svc.table == ApplyAll(svc.schema, old(svc.table), rs[..i])
    {
      assert rs[..i + 1][..i] == rs[..i];
      if rs[i].Put? {
        ok := svc.PutItem(rs[i].item);
        if !ok {
          return;
        }
      }
      i := i + 1;
    }
    assert rs[..i] == rs;
    ok := true;
  }

  lemma LeftoversArePuts(schema: set<string>, t: Table, all: seq<Request>, now: Table, rest: seq<Request>)
    requires Split(schema, t, all, now, rest) && AllPuts(all)
    ensures AllPuts(rest)
  {
    var done :| multiset(done) + multiset(rest) == multiset(all) && now == ApplyAll(schema, t, done);
    forall i | 0 <= i < |rest| ensures rest[i].Put? {
      assert rest[i] in multiset(rest);
      assert rest[i] in multiset(all);
    }
  }

  /** What the retries left over is put one by one: the page's requests have all been applied, each exactly once. */
  lemma FallbackCompletes(schema: set<string>, t: Table, all: seq<Request>, now: Table, rest: seq<Request>)
    requires Split(schema, t, all, now, rest) && DistinctKeys(schema, all)
    ensures ApplyAll(schema, now, rest) == ApplyAll(schema, t, all)
  {
    var done :| multiset(done) + multiset(rest) == multiset(all) && now == ApplyAll(schema, t, done);
    ApplyCat(schema, t, done, rest);
    assert multiset(done + rest) == multiset(all);
    AppliedInAnyOrder(schema, t, all, done + rest);
  }

  method WriteRequestsBatched(svc: Service, rs: seq<Request>, maxBatchSize: int, maxRetries: int) returns (ok: bool)
    modifies svc
    ensures svc.reliable && 0 < maxBatchSize <= 25 && DistinctKeys(svc.schema, rs) ==> ok
    ensures ok && AllPuts(rs) ==> svc.table == ApplyAll(svc.schema, old(svc.table), rs)
  {
    if |rs| == 0 {
      return true;
    }
    var size: nat := if maxBatchSize <= 0 then |rs| else maxBatchSize;
    var i := 0;
    while i < |rs|
      invariant 0 <= i
      invariant AllPuts(rs) ==> svc.table == ApplyAll(svc.schema, old(svc.table), rs[..if i < |rs| then i else |rs|])
    {
      var end := if i + size > |rs| then |rs| else i + size;
      var batch := rs[i..end];
      assert AllPuts(rs) ==> AllPuts(batch);
      ok := WriteBatch(svc, batch, maxRetries);
      if !ok {
        return;
      }
      ApplyCat(svc.schema, old(svc.table), rs[..i], batch);
      assert rs[..i] + batch == rs[..end];
      i := i + size;
    }
    assert rs[..|rs|] == rs;
    ok := true;
  }

  /** The body of the batch loop. */
  method WriteBatch(svc: Service, batch: seq<Request>, maxRetries: int) returns (ok: bool)
    modifies svc
    ensures svc.reliable && |batch| <= 25 && DistinctKeys(svc.schema, batch) ==> ok
    ensures ok && AllPuts(batch) ==> svc.table == ApplyAll(svc.schema, old(svc.table), batch)
  {
    var remaining;
    ok, remaining := BatchWriteWithRetries(svc, batch, maxRetries);
    if ok {
      if maxRetries > 0 && AllPuts(batch) {
        FallbackCompletes(svc.schema, old(svc.table), batch, svc.table, remaining);
        LeftoversArePuts(svc.schema, old(svc.table), batch, svc.table, remaining);
      }
      if |remaining| > 0 {
        ok := PutWriteRequestsIndividually(svc, remaining);
      }
    }
  }

  // ---- Copying ----

  /** A scan of a table in its own order: any next run of items, and where to go on. */
  class Source {
    const items: seq<Item>
    const reliable: bool

    constructor (items: seq<Item>, reliable: bool)
      ensures this.items == items && this.reliable == reliable
    {
      this.items, this.reliable := items, reliable;
    }

    /** A page that is not the last one moves on by at least one item. */
    method Scan(start: Option<nat>) returns (ok: bool, page: seq<Item>, next: Option<nat>)
      requires start.Some? ==> start.value <= |items|
      ensures ok ==>
                var from := if start.Some? then start.value else 0;
                var to := if next.Some? then next.value else |items|;
                && from <= to <= |items| && page == items[from..to]
                && (next.Some? ==> from < to)
      ensures reliable ==> ok
    {
      var from := if start.Some? then start.value else 0;
      var more: bool := *;
      if more && from < |items| {
        var to :| from < to <= |items|;
        page, next := items[from..to], Some(to);
      } else {
        page, next := items[from..], None;
      }
      ok := *;
      ok := ok || reliable;
    }
  }

  /** A caller's transform, which may fail on an item. */
  type Transform = Item -> Result<Item>

  function Transformed(f: Transform, items: seq<Item>): Result<seq<Request>> {
    if items == [] then Ok([])
    else
      var n := |items| - 1;
      match (Transformed(f, items[..n]), f(items[n]))
      case (Ok(rs), Ok(item)) => Ok(rs + [Put(item)])
      case _ => Err
  }

  lemma {:induction false} TransformedCat(f: Transform, a: seq<Item>, b: seq<Item>)
    requires Transformed(f, a).Ok? && Transformed(f, b).Ok?
    ensures Transformed(f, a + b) == Ok(Transformed(f, a).value + Transformed(f, b).value)
  {
    var ra, rb := Transformed(f, a).value, Transformed(f, b).value;
    if b == [] {
      assert a + b == a && ra + rb == ra;
    } else {
      var n := |b| - 1;
      assert (a + b)[..|a + b| - 1] == a + b[..n] && (a + b)[|a + b| - 1] == b[n];
      TransformedCat(f, a, b[..n]);
      var before, last := Transformed(f, b[..n]).value, [Put(f(b[n]).value)];
      assert ra + before + last == ra + (before + last);
    }
  }

  lemma {:induction false} TransformedPuts(f: Transform, items: seq<Item>)
    requires Transformed(f, items).Ok?
    ensures |Transformed(f, items).value| == |items|
    ensures forall i :: 0 <= i < |items| ==> f(items[i]).Ok? && Transformed(f, items).value[i] == Put(f(items[i]).value)
  {
    if items != [] {
      TransformedPuts(f, items[..|items| - 1]);
    }
  }

  /** A list is transformed exactly when every item is. */
  lemma {:induction false} TransformedExactly(f: Transform, items: seq<Item>)
    ensures Transformed(f, items).Ok? <==> forall i :: 0 <= i < |items| ==> f(items[i]).Ok?
  {
    if items != [] {
      var n := |items| - 1;
      TransformedExactly(f, items[..n]);
      if forall i :: 0 <= i < n ==> f(items[..n][i]).Ok? {
        assert forall i :: 0 <= i < n ==> f(items[i]).Ok?;
      }
    }
  }

  /** A put request for each transformed item, in order; it fails exactly when the transform fails on an item. */
  method BuildPutWriteRequests(f: Transform, items: seq<Item>) returns (r: Result<seq<Request>>)
    ensures r.Ok? <==> forall i :: 0 <= i < |items| ==> f(items[i]).Ok?
    ensures r.Ok? ==> |r.value| == |items| && forall i :: 0 <= i < |items| ==> r.value[i] == Put(f(items[i]).value)
    ensures r == Transformed(f, items)
  {
    TransformedExactly(f, items);
    var rs: seq<Request> := [];
    var i := 0;
    while i < |items|
      invariant 0 <= i <= |items|
      invariant Transformed(f, items[..i]) == Ok(rs)
    {
      assert items[..i + 1][..i] == items[..i];
      var item := f(items[i]);
      if item.Err? {
        assert Transformed(f, items[..i + 1]).Err?;
        StaysFailed(f, items, i + 1);
        return Err;
      }
      rs := rs + [Put(item.value)];
      i := i + 1;
    }
    assert items[..i] == items;
    r := Ok(rs);
    TransformedPuts(f, items);
  }

  lemma {:induction false} StaysFailed(f: Transform, items: seq<Item>, k: nat)
    requires k <= |items| && Transformed(f, items[..k]).Err?
    ensures Transformed(f, items).Err?
  {
    if k < |items| {
      var n := |items| - 1;
      assert items[..n][..k] == items[..k];
      StaysFailed(f, items[..n], k);
    } else {
      assert items[..k] == items;
    }
  }

  ghost function Copied(f: Transform, items: seq<Item>, n: nat, schema: set<string>, t: Table): Table
    requires n <= |items| && Transformed(f, items[..n]).Ok?
  {
    ApplyAll(schema, t, Transformed(f, items[..n]).value)
  }

  lemma PageCopied(f: Transform, items: seq<Item>, done: nat, to: nat, schema: set<string>, t: Table)
    requires done <= to <= |items| && Transformed(f, items[..done]).Ok? && Transformed(f, items[done..to]).Ok?
    ensures Transformed(f, items[..to]).Ok?
    ensures Copied(f, items, to, schema, t) ==
            ApplyAll(schema, Copied(f, items, done, schema, t), Transformed(f, items[done..to]).value)
  {
    TransformedCat(f, items[..done], items[done..to]);
    assert items[..done] + items[done..to] == items[..to];
    ApplyCat(schema, t, Transformed(f, items[..done]).value, Transformed(f, items[done..to]).value);
  }

  /** The transform succeeds on every item and gives the items different keys. */
  ghost predicate DistinctlyTransformed(f: Transform, items: seq<Item>, schema: set<string>) {
    Transformed(f, items).Ok? && DistinctKeys(schema, Transformed(f, items).value)
  }

  lemma PageDistinct(f: Transform, items: seq<Item>, schema: set<string>, from: nat, to: nat)
    requires DistinctlyTransformed(f, items, schema) && from <= to <= |items|
    ensures DistinctlyTransformed(f, items[from..to], schema)
  {
    var page := items[from..to];
    TransformedExactly(f, items);
    TransformedExactly(f, page);
    TransformedPuts(f, items);
    TransformedPuts(f, page);
    var all, some := Transformed(f, items).value, Transformed(f, page).value;
    forall i, j | 0 <= i < j < |page| ensures KeyOf(schema, some[i]) != KeyOf(schema, some[j]) {
      assert some[i] == all[from + i] && some[j] == all[from + j];
    }
  }

  /** One page of the source, transformed and written. */
  method CopyPage(target: Service, page: seq<Item>, f: Transform) returns (ok: bool)
    modifies target
    ensures ok ==> Transformed(f, page).Ok?
    ensures ok ==> target.table == ApplyAll(target.schema, old(target.table), Transformed(f, page).value)
    ensures target.reliable && DistinctlyTransformed(f, page, target.schema) ==> ok
  {
    var rs := BuildPutWriteRequests(f, page);
    if rs.Err? {
      return false;
    }
    TransformedPuts(f, page);
    ok := WriteRequestsBatched(target, rs.value, 25, 5);
  }

  /**
   copyData: when it reports success, whatever the pages, the service's leftovers and the fallback did, the target is
   its old contents with the transform of every source item put in scan order.
   */
  method CopyData(source: Source, target: Service, f: Transform) returns (ok: bool)
    modifies target
    ensures ok ==> Transformed(f, source.items).Ok?
    ensures ok ==> target.table == ApplyAll(target.schema, old(target.table), Transformed(f, source.items).value)
    ensures source.reliable && target.reliable && DistinctlyTransformed(f, source.items, target.schema) ==> ok
  {
    var last: Option<nat> := None;
    ghost var done := 0;
    while true
      invariant done == if last.Some? then last.value else 0
      invariant done <= |source.items|
      invariant Transformed(f, source.items[..done]).Ok?
      invariant target.table == Copied(f, source.items, done, target.schema, old(target.table))
      decreases |source.items| - done
    {
      var page, next;
      ok, page, next := source.Scan(last);
      if !ok {
        return;
      }
      ghost var to := if next.Some? then next.value else |source.items|;
      if |page| > 0 {
        if DistinctlyTransformed(f, source.items, target.schema) {
          PageDistinct(f, source.items, target.schema, done, to);
        }
        ok := CopyPage(target, page, f);
        if !ok {
          return;
        }
        PageCopied(f, source.items, done, to, target.schema, old(target.table));
      }
      if next.None? {
        assert source.items[..to] == source.items;
        return true;
      }
      last, done := next, to;
    }
  }

  /** With a transform that gives the items different keys, the target overlays them on what it held. */
  lemma CopiedOverlay(schema: set<string>, old_: Table, f: Transform, items: seq<Item>)
    requires Transformed(f, items).Ok? && DistinctKeys(schema, Transformed(f, items).value)
    ensures var t := ApplyAll(schema, old_, Transformed(f, items).value);
            && (forall i :: 0 <= i < |items| ==>
                  f(items[i]).Ok? && ItemAt(t, KeyIn(schema, f(items[i]).value)) == Some(f(items[i]).value))
            && forall k ::
                 (forall i :: 0 <= i < |items| && f(items[i]).Ok? ==> KeyIn(schema, f(items[i]).value) != k) ==>
                 ItemAt(t, k) == ItemAt(old_, k)
  {
    var rs := Transformed(f, items).value;
    TransformedPuts(f, items);
    forall i | 0 <= i < |items|
      ensures ItemAt(ApplyAll(schema, old_, rs), KeyIn(schema, f(items[i]).value)) == Some(f(items[i]).value)
    {
      AppliedAt(schema, old_, rs, KeyIn(schema, f(items[i]).value));
      assert rs[i] == Put(f(items[i]).value);
    }
    forall k | forall i :: 0 <= i < |items| && f(items[i]).Ok? ==> KeyIn(schema, f(items[i]).value) != k
      ensures ItemAt(ApplyAll(schema, old_, rs), k) == ItemAt(old_, k)
    {
      AppliedAt(schema, old_, rs, k);
      forall r | r in rs ensures KeyOf(schema, r) != k {
        var i :| 0 <= i < |rs| && rs[i] == r;
        assert r == Put(f(items[i]).value);
      }
    }
  }
}
