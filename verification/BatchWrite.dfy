/** Batch writes with retries of unprocessed requests (pkg/query/batch_operations.go). */
module BatchWrite {
  import opened Attributes
  import opened Chunks
  import opened KeyedTables
  import opened TableWrites

  const MAX_ATTEMPTS := 5

  /** Whether the service, at its rate, processes this many requests in the calls that are made. */
  predicate Serves(svc: Service, n: nat) {
    svc.reliable && MAX_ATTEMPTS * svc.rate >= n
  }

  /**
   One batch. On success the table is as if its requests had been applied one after the other; at every turn, and after
   a failure too, the requests applied and those remaining make up the batch. At most five calls are made, and it
   succeeds when none fails and they process all of it.
   */
  method ExecuteBatchWriteWithRetries(svc: Service, rs: seq<Request>) returns (ok: bool, ghost calls: nat)
    modifies svc
    ensures ok ==> svc.table == ApplyAll(svc.schema, old(svc.table), rs)
    ensures ok ==> |rs| <= 25 && DistinctKeys(svc.schema, rs)
    ensures exists rest :: Split(svc.schema, old(svc.table), rs, svc.table, rest)
    ensures calls <= MAX_ATTEMPTS
    ensures |rs| <= 25 && DistinctKeys(svc.schema, rs) && Serves(svc, |rs|) ==> ok
  {
    calls := 0;
    SplitStart(svc.schema, svc.table, rs);
    if |rs| == 0 {
      return true, calls;
    }
    var remaining, attempts := rs, 0;
    while |remaining| > 0 && attempts < MAX_ATTEMPTS
      invariant Remaining(svc, old(svc.table), rs, remaining, attempts) && |remaining| > 0
      invariant calls == attempts <= MAX_ATTEMPTS
      invariant if attempts == 0 then remaining == rs else BatchOk(svc.schema, rs)
      decreases MAX_ATTEMPTS - attempts
    {
      var sent, unprocessed := WriteOnce(svc, old(svc.table), rs, remaining, attempts);
      attempts := attempts + 1;
      calls := calls + 1;
      if !sent {
        return false, calls;
      }
      if |unprocessed| == 0 {
        SplitDone(svc.schema, old(svc.table), rs, svc.table);
        return true, calls;
      }
      remaining := unprocessed;
    }
    ok := false;
  }

  /** A batch of requests with different keys has different keys. */
  lemma ChunkDistinct(schema: set<string>, rs: seq<Request>, batches: seq<seq<Request>>, b: nat)
    requires DistinctKeys(schema, rs) && Flat(batches) == rs && b < |batches|
    ensures DistinctKeys(schema, batches[b])
  {
    forall i, j | 0 <= i < j < |batches[b]| ensures KeyOf(schema, batches[b][i]) != KeyOf(schema, batches[b][j]) {
      FlatAt(batches, b, i);
      FlatAt(batches, b, j);
    }
  }

  function BatchSize(size: int): (n: nat)
    ensures 1 <= n <= 25 && (1 <= size <= 25 ==> n == size)
  {
    if size <= 0 || size > 25 then 25 else size
  }

  method SplitWriteRequests(rs: seq<Request>, batchSize: int) returns (batches: seq<seq<Request>>)
    ensures IsChunking(rs, BatchSize(batchSize), batches)
  {
    var size := BatchSize(batchSize);
    batches := [];
    var i := 0;
    while i < |rs|
      invariant 0 <= i
      invariant IsChunking(rs[..if i < |rs| then i else |rs|], size, batches)
      invariant i < |rs| ==> AllFull(size, batches)
    {
      var end := if i + size > |rs| then |rs| else i + size;
      ChunkingNext(rs, size, batches, i, end);
      batches := batches + [rs[i..end]];
      i := i + size;
    }
    assert rs[..|rs|] == rs;
  }

  function Requests(puts: seq<Item>, deletes: seq<Key>): (rs: seq<Request>)
    ensures |rs| == |puts| + |deletes|
    ensures forall i :: 0 <= i < |puts| ==> rs[i] == Put(puts[i])
    ensures forall i :: 0 <= i < |deletes| ==> rs[|puts| + i] == Delete(deletes[i])
  {
    seq(|puts|, i requires 0 <= i < |puts| => Put(puts[i])) +
    seq(|deletes|, i requires 0 <= i < |deletes| => Delete(deletes[i]))
  }

  /**
   BatchWriteWithOptions without an error handler: success means the table is as if every put and then every delete had
   been applied in turn.
   */
  method BatchWriteWithOptions(svc: Service, puts: seq<Item>, deletes: seq<Key>, batchSize: int) returns (ok: bool)
    modifies svc
    ensures ok ==> svc.table == ApplyAll(svc.schema, old(svc.table), Requests(puts, deletes))
    ensures DistinctKeys(svc.schema, Requests(puts, deletes)) && Serves(svc, BatchSize(batchSize)) ==> ok
  {
    var rs := Requests(puts, deletes);
    if |rs| == 0 {
      return true;
    }
    var batches := SplitWriteRequests(rs, batchSize);
    var b := 0;
    while b < |batches|
      invariant 0 <= b <= |batches|
      invariant svc.table == ApplyAll(svc.schema, old(svc.table), Flat(batches[..b]))
    {
      ghost var calls;
      if DistinctKeys(svc.schema, rs) {
        ChunkDistinct(svc.schema, rs, batches, b);
      }
      ok, calls := ExecuteBatchWriteWithRetries(svc, batches[b]);
      if !ok {
        return;
      }
      ApplyCat(svc.schema, old(svc.table), Flat(batches[..b]), batches[b]);
      assert batches[..b + 1][..b] == batches[..b];
      b := b + 1;
    }
    assert batches[..b] == batches;
    ok := true;
  }

  /** What that means for one key, when no key is put or deleted twice. */
  lemma WrittenAt(schema: set<string>, t: Table, puts: seq<Item>, deletes: seq<Key>)
    requires DistinctKeys(schema, Requests(puts, deletes))
    ensures var t' := ApplyAll(schema, t, Requests(puts, deletes));
            && (forall i :: 0 <= i < |puts| ==> ItemAt(t', KeyIn(schema, puts[i])) == Some(puts[i]))
            && (forall i :: 0 <= i < |deletes| ==> ItemAt(t', deletes[i]) == None)
            && forall k :: (forall i :: 0 <= i < |puts| ==> KeyIn(schema, puts[i]) != k) && k !in deletes ==>
                ItemAt(t', k) == ItemAt(t, k)
  {
    var rs := Requests(puts, deletes);
    forall i | 0 <= i < |puts| ensures ItemAt(ApplyAll(schema, t, rs), KeyIn(schema, puts[i])) == Some(puts[i]) {
      AppliedAt(schema, t, rs, KeyIn(schema, puts[i]));
      assert rs[i] == Put(puts[i]);
    }
    forall i | 0 <= i < |deletes| ensures ItemAt(ApplyAll(schema, t, rs), deletes[i]) == None {
      AppliedAt(schema, t, rs, deletes[i]);
      assert rs[|puts| + i] == Delete(deletes[i]);
    }
    forall k | (forall i :: 0 <= i < |puts| ==> KeyIn(schema, puts[i]) != k) && k !in deletes
      ensures ItemAt(ApplyAll(schema, t, rs), k) == ItemAt(t, k)
    {
      AppliedAt(schema, t, rs, k);
      forall r | r in rs ensures KeyOf(schema, r) != k {
        var i :| 0 <= i < |rs| && rs[i] == r;
        if i >= |puts| {
          assert rs[|puts| + (i - |puts|)] == Delete(deletes[i - |puts|]);
        }
      }
    }
  }
}
