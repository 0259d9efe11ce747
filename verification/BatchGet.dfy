/**
 BatchGet: chunks, retries of unprocessed keys, alignment of responses and parallel workers
 (pkg/query/batch_get.go, the retry loops of pkg/query/executor.go and query_executor.go).
 */
module BatchGet {
  import opened Attributes
  import opened Chunks
  import opened KeyedTables
  import opened Sorting

  datatype KeySpec = KeySpec(attrs: Key, index: nat)

  function Attrs(specs: seq<KeySpec>): (ks: seq<Key>)
    ensures |ks| == |specs|
    ensures forall i :: 0 <= i < |specs| ==> ks[i] == specs[i].attrs
  {
    seq(|specs|, i requires 0 <= i < |specs| => specs[i].attrs)
  }

  // ---- The service ----

  class Service {
    const schema: set<string>
    const table: Table
    /** Whether every lawful call succeeds; each is then served in full, or at least `rate` keys of it are. */
    const reliable: bool
    const rate: nat

    constructor (schema: set<string>, table: Table, reliable: bool, rate: nat)
      requires IsTable(schema, table)
      ensures this.schema == schema && this.table == table && this.reliable == reliable && this.rate == rate
    {
      this.schema, this.table, this.reliable, this.rate := schema, table, reliable, rate;
    }

    /**
     One BatchGetItem call: an error, or the items of any part of the keys in any order and the rest of the keys as
     unprocessed. Malformed and repeated keys are always refused.
     */
    method BatchGetItem(keys: seq<Key>) returns (r: Result<seq<Item>>, unprocessed: seq<Key>)
      ensures r.Ok? ==> Lawful(schema, keys)
      ensures r.Ok? ==>
                exists served ::
                  && multiset(served) + multiset(unprocessed) == multiset(keys)
                  && multiset(r.value) == multiset(Found(table, served))
      ensures reliable && Lawful(schema, keys) ==> r.Ok? && (unprocessed == [] || |unprocessed| + rate <= |keys|)
    {
      var answered: bool := *;
      if !answered && !reliable {
        return Err, [];
      }
      if !Distinct(keys) || exists k :: k in keys && !IsKey(schema, k) {
        return Err, [];
      }
      assert multiset(keys) + multiset([]) == multiset(keys);
      var served, rest := keys, [];
      var full: bool := *;
      if !full {
        served, rest :| multiset(served) + multiset(rest) == multiset(keys);
        if reliable && |rest| + rate > |keys| {
          served, rest := keys, [];
        }
      }
      var items :| multiset(items) == multiset(Found(table, served));
      r, unprocessed := Ok(items), rest;
    }
  }

  /** Serving some of the keys splits the items still to come. */
  lemma Served(t: Table, keys: seq<Key>, served: seq<Key>, rest: seq<Key>)
    requires multiset(served) + multiset(rest) == multiset(keys)
    ensures multiset(Found(t, keys)) == multiset(Found(t, served)) + multiset(Found(t, rest))
  {
    assert multiset(served + rest) == multiset(keys);
    FoundPermuted(t, served + rest, keys);
    FoundCat(t, served, rest);
  }

  /** What has been collected and what is still to come are the items asked for. */
  ghost predicate Conserved(t: Table, keys: seq<Key>, collected: seq<Item>, pending: seq<Key>) {
    multiset(collected) + multiset(Found(t, pending)) == multiset(Found(t, keys))
  }

  lemma Progress(t: Table, keys: seq<Key>, collected: seq<Item>, pending: seq<Key>, items: seq<Item>, rest: seq<Key>)
    requires Conserved(t, keys, collected, pending)
    requires exists served ::
               multiset(served) + multiset(rest) == multiset(pending) && multiset(items) == multiset(Found(t, served))
    ensures Conserved(t, keys, collected + items, rest)
  {
    var served :|
      multiset(served) + multiset(rest) == multiset(pending) && multiset(items) == multiset(Found(t, served));
    Served(t, pending, served, rest);
  }

  ghost predicate Lawful(schema: set<string>, keys: seq<Key>) {
    Distinct(keys) && forall k :: k in keys ==> IsKey(schema, k)
  }

  /** The calls a retry policy allows. */
  function Allowed(maxRetries: Option<nat>): nat {
    1 + if maxRetries.Some? then maxRetries.value else 0
  }

  lemma LawfulRest(schema: set<string>, keys: seq<Key>, rest: seq<Key>)
    requires Lawful(schema, keys) && multiset(rest) <= multiset(keys)
    ensures Lawful(schema, rest)
  {
    forall k | k in rest ensures k in keys {
      assert k in multiset(rest);
      assert k in multiset(keys);
    }
    forall i, j | 0 <= i < j < |rest| ensures rest[i] != rest[j] {
      if rest[i] == rest[j] {
        TwoOccurrences(rest, i, j);
        OneOccurrence(keys, rest[i]);
        assert false;
      }
    }
  }

  lemma OneOccurrence(keys: seq<Key>, k: Key)
    requires Distinct(keys)
    ensures multiset(keys)[k] <= 1
  {
    if k in keys {
      var x :| 0 <= x < |keys| && keys[x] == k;
      assert keys == keys[..x] + [keys[x]] + keys[x + 1..];
      assert k !in keys[..x] && k !in keys[x + 1..];
    }
  }

  /** One more call: what is still to be asked for are some of the keys, and fewer by the rate. */
  lemma Left(t: Table, items: seq<Item>, pending: seq<Key>, rest: seq<Key>)
    requires exists served ::
               multiset(served) + multiset(rest) == multiset(pending) && multiset(items) == multiset(Found(t, served))
    ensures multiset(rest) <= multiset(pending)
  {
  }

  /** Whether the service, at its rate, serves this many keys in the calls a policy allows. */
  predicate Serves(svc: Service, maxRetries: Option<nat>, n: nat) {
    svc.reliable && Allowed(maxRetries) * svc.rate >= n
  }

  /** What is still to be asked for after some calls, at the service's rate. */
  ghost predicate Pending(svc: Service, keys: seq<Key>, collected: seq<Item>, pending: seq<Key>, calls: nat) {
    && Conserved(svc.table, keys, collected, pending)
    && multiset(pending) <= multiset(keys)
    && (svc.reliable && |pending| > 0 ==> |pending| + calls * svc.rate <= |keys|)
  }

  method AskOnce(svc: Service, ghost keys: seq<Key>, ghost collected: seq<Item>, pending: seq<Key>, ghost calls: nat)
    returns (r: Result<seq<Item>>, unprocessed: seq<Key>)
    requires Pending(svc, keys, collected, pending, calls) && |pending| > 0
    ensures r.Ok? ==> Pending(svc, keys, collected + r.value, unprocessed, calls + 1) && Lawful(svc.schema, pending)
    ensures svc.reliable && Lawful(svc.schema, keys) ==> r.Ok?
  {
    if Lawful(svc.schema, keys) {
      LawfulRest(svc.schema, keys, pending);
    }
    r, unprocessed := svc.BatchGetItem(pending);
    if r.Ok? {
      Progress(svc.table, keys, collected, pending, r.value, unprocessed);
      Left(svc.table, r.value, pending, unprocessed);
      if svc.reliable {
        RateStep(|unprocessed|, |pending|, svc.rate, calls, |keys|);
      }
    }
  }

  /**
   The retry loop: on success the response is exactly the items of the requested keys, in some order, whatever the
   service left unprocessed on the way; at most `maxRetries` retries are made, and none without a policy. When no call
   fails and each serves `rate` keys, it succeeds if the calls allowed serve all of them.
   */
  method ExecuteBatchGet(svc: Service, keys: seq<Key>, maxRetries: Option<nat>)
    returns (r: Result<seq<Item>>, ghost calls: nat)
    ensures r.Ok? ==> multiset(r.value) == multiset(Found(svc.table, keys))
    ensures r.Ok? ==> Lawful(svc.schema, keys)
    ensures calls <= Allowed(maxRetries)
    ensures Lawful(svc.schema, keys) && Serves(svc, maxRetries, |keys|) ==> r.Ok?
  {
    calls := 0;
    if |keys| == 0 {
      return Ok([]), calls;
    }
    var collected: seq<Item>, pending, attempt := [], keys, 0;
    while |pending| > 0
      invariant Pending(svc, keys, collected, pending, attempt)
      invariant calls == attempt && (attempt > 0 ==> maxRetries.Some? && attempt <= maxRetries.value)
      invariant attempt == 0 ==> pending == keys
      invariant attempt > 0 ==> Lawful(svc.schema, keys)
      decreases (if maxRetries.Some? then maxRetries.value else 0) - attempt
    {
      var response, unprocessed := AskOnce(svc, keys, collected, pending, attempt);
      calls := calls + 1;
      if response.Err? {
        return Err, calls;
      }
      collected := collected + response.value;
      if |unprocessed| == 0 {
        break;
      }
      if maxRetries.None? || attempt >= maxRetries.value {
        return Err, calls;
      }
      attempt := attempt + 1;
      pending := unprocessed;
    }
    r := Ok(collected);
  }

  // ---- Chunks ----

  method BuildBatchGetChunks(specs: seq<KeySpec>, size: nat) returns (chunks: seq<seq<KeySpec>>)
    requires size > 0
    ensures IsChunking(specs, size, chunks)
  {
    chunks := [];
    var i := 0;
    while i < |specs|
      invariant 0 <= i
      invariant IsChunking(specs[..if i < |specs| then i else |specs|], size, chunks)
      invariant i < |specs| ==> AllFull(size, chunks)
    {
      var end := i + size;
      if end > |specs| {
        end := |specs|;
      }
      ChunkingNext(specs, size, chunks, i, end);
      chunks := chunks + [specs[i..end]];
      i := i + size;
    }
    assert specs[..|specs|] == specs;
  }

  // ---- Alignment ----

  method KeyMatchesItem(key: Key, item: Item) returns (ok: bool)
    ensures ok <==> Matches(key, item)
  {
    var todo := key.Keys;
    while todo != {}
      invariant todo <= key.Keys
      invariant forall a :: a in key && a !in todo ==> a in item && item[a] == key[a]
    {
      var attr :| attr in todo;
      if attr !in item || item[attr] != key[attr] {
        return false;
      }
      todo := todo - {attr};
    }
    ok := true;
  }

  /** The first unused item that carries the key. */
  method FindMatchingItem(key: Key, items: seq<Item>, used: seq<bool>) returns (idx: int)
    requires |used| == |items|
    ensures -1 <= idx < |items|
    ensures idx >= 0 ==> !used[idx] && Matches(key, items[idx])
    ensures idx < 0 ==> forall i :: 0 <= i < |items| && !used[i] ==> !Matches(key, items[i])
  {
    var i := 0;
    while i < |items|
      invariant 0 <= i <= |items|
      invariant forall j :: 0 <= j < i && !used[j] ==> !Matches(key, items[j])
    {
      if !used[i] {
        var ok := KeyMatchesItem(key, items[i]);
        if ok {
          return i;
        }
      }
      i := i + 1;
    }
    idx := -1;
  }

  /** The items are those of the keys, in some order. */
  ghost predicate Answers(schema: set<string>, t: Table, keys: seq<Key>, items: seq<Item>) {
    IsTable(schema, t) && Lawful(schema, keys) && multiset(items) == multiset(Found(t, keys))
  }

  /** An answered item that carries a key is that key's item; each key's item is among the answers. */
  lemma AnswerOf(schema: set<string>, t: Table, keys: seq<Key>, items: seq<Item>, key: Key, i: nat)
    requires Answers(schema, t, keys, items) && IsKey(schema, key) && i < |items| && Matches(key, items[i])
    ensures key in t && items[i] == t[key]
  {
    assert items[i] in multiset(items);
    assert items[i] in Found(t, keys);
    FoundMember(t, keys, items[i]);
    var j :| 0 <= j < |keys| && keys[j] in t && t[keys[j]] == items[i];
    OneKey(schema, key, keys[j], items[i]);
  }

  lemma AnswerFor(schema: set<string>, t: Table, keys: seq<Key>, items: seq<Item>, k: nat) returns (i: nat)
    requires Answers(schema, t, keys, items) && k < |keys| && keys[k] in t
    ensures i < |items| && items[i] == t[keys[k]] && Matches(keys[k], items[i])
  {
    FoundMember(t, keys, t[keys[k]]);
    assert t[keys[k]] in multiset(items);
    i :| 0 <= i < |items| && items[i] == t[keys[k]];
  }

  /** A used item carries one of the first `k` keys. */
  ghost predicate UsedBy(specs: seq<KeySpec>, items: seq<Item>, used: seq<bool>, k: nat)
    requires k <= |specs|
  {
    && |used| == |items|
    && forall i :: 0 <= i < |items| && used[i] ==> TakenBefore(specs, items[i], k)
  }

  ghost predicate TakenBefore(specs: seq<KeySpec>, item: Item, k: nat)
    requires k <= |specs|
  {
    exists j :: 0 <= j < k && Matches(specs[j].attrs, item)
  }

  lemma AlignedItem(
    schema: set<string>, t: Table, specs: seq<KeySpec>, items: seq<Item>, used: seq<bool>, k: nat, idx: int)
    requires k < |specs| && Answers(schema, t, Attrs(specs), items) && UsedBy(specs, items, used, k)
    requires -1 <= idx < |items|
    requires idx >= 0 ==> !used[idx] && Matches(specs[k].attrs, items[idx])
    requires idx < 0 ==> forall i :: 0 <= i < |items| && !used[i] ==> !Matches(specs[k].attrs, items[i])
    ensures if idx >= 0 then ItemAt(t, specs[k].attrs) == Some(items[idx]) else ItemAt(t, specs[k].attrs) == None
  {
    var keys := Attrs(specs);
    assert keys[k] in keys;
    if idx >= 0 {
      AnswerOf(schema, t, keys, items, keys[k], idx);
    } else if keys[k] in t {
      var i := AnswerFor(schema, t, keys, items, k);
      assert TakenBefore(specs, items[i], k);
      var j :| 0 <= j < k && Matches(specs[j].attrs, items[i]);
      assert keys[j] in keys;
      OneKey(schema, keys[j], keys[k], items[i]);
      assert false;
    }
  }

  /** One round of alignChunkResults: the key's item, if there is one, goes to the key's place and is used up. */
  method AlignKey(specs: seq<KeySpec>, k: nat, items: seq<Item>, used: seq<bool>, ordered: array<Option<Item>>,
                  ghost schema: set<string>, ghost t: Table) returns (used': seq<bool>)
    requires k < |specs| && specs[k].index < ordered.Length && UsedBy(specs, items, used, k)
    modifies ordered
    ensures UsedBy(specs, items, used', k + 1)
    ensures forall p :: 0 <= p < ordered.Length && p != specs[k].index ==> ordered[p] == old(ordered[p])
    ensures Answers(schema, t, Attrs(specs), items) && old(ordered[specs[k].index]) == None ==>
              ordered[specs[k].index] == ItemAt(t, specs[k].attrs)
  {
    used' := used;
    var idx := FindMatchingItem(specs[k].attrs, items, used);
    if idx >= 0 {
      ordered[specs[k].index] := Some(items[idx]);
      used' := used[idx := true];
    }
    forall i | 0 <= i < |items| && used'[i] ensures TakenBefore(specs, items[i], k + 1) {
      if i != idx {
        assert TakenBefore(specs, items[i], k);
      }
    }
    if Answers(schema, t, Attrs(specs), items) {
      AlignedItem(schema, t, specs, items, used, k, idx);
    }
  }

  // ---- Workers ----

  /** Where a worker is: not started, placing items, finished, or stopped by an error. */
  datatype Worker = Waiting | Aligning(items: seq<Item>, used: seq<bool>, k: nat) | Finished | Failed

  /** The keys in a worker's chunk whose places are settled. */
  function Settled(w: Worker, size: nat): nat {
    match w
    case Waiting => 0
    case Aligning(_, _, k) => k
    case Finished => size
    case Failed => 0
  }

  /** The request's keys carry their positions. */
  predicate Numbered(specs: seq<KeySpec>) {
    forall i :: 0 <= i < |specs| ==> specs[i].index == i
  }

  lemma OnePlace(chunks: seq<seq<KeySpec>>, c: nat, j: nat, d: nat, k: nat)
    requires Numbered(Flat(chunks)) && c < |chunks| && d < |chunks| && j < |chunks[c]| && k < |chunks[d]|
    requires chunks[c][j].index == chunks[d][k].index
    ensures c == d && j == k
  {
    FlatAt(chunks, c, j);
    FlatAt(chunks, d, k);
    if c < d {
      FlatGrows(chunks, c, d);
    } else if d < c {
      FlatGrows(chunks, d, c);
    }
  }

  ghost predicate WorkerOk(schema: set<string>, t: Table, specs: seq<KeySpec>, w: Worker) {
    w.Aligning? ==> w.k <= |specs| && Answers(schema, t, Attrs(specs), w.items) && UsedBy(specs, w.items, w.used, w.k)
  }

  /** Settled keys have their item in place and the places of the others are blank. */
  ghost predicate Consistent(t: Table, specs: seq<KeySpec>, w: Worker, ordered: seq<Option<Item>>) {
    forall j :: 0 <= j < |specs| && !w.Failed? ==>
      specs[j].index < |ordered| &&
      ordered[specs[j].index] == if j < Settled(w, |specs|) then ItemAt(t, specs[j].attrs) else None
  }

  ghost predicate AllConsistent(schema: set<string>, t: Table, chunks: seq<seq<KeySpec>>, ws: seq<Worker>,
      ordered: seq<Option<Item>>) {
    && |ws| == |chunks|
    && forall c :: 0 <= c < |chunks| ==>
         WorkerOk(schema, t, chunks[c], ws[c]) && Consistent(t, chunks[c], ws[c], ordered)
  }

  /** A worker's step leaves the other workers' places alone. */
  lemma StepKeeps(schema: set<string>, t: Table, chunks: seq<seq<KeySpec>>, ws: seq<Worker>, before: seq<Option<Item>>,
                  c: nat, k: nat, w: Worker, after: seq<Option<Item>>)
    requires AllConsistent(schema, t, chunks, ws, before) && Numbered(Flat(chunks))
    requires c < |chunks| && k < |chunks[c]| && |before| == |after|
    requires forall p :: 0 <= p < |before| && p != chunks[c][k].index ==> after[p] == before[p]
    requires WorkerOk(schema, t, chunks[c], w) && Consistent(t, chunks[c], w, after)
    ensures AllConsistent(schema, t, chunks, ws[c := w], after)
  {
    forall d | 0 <= d < |chunks| && d != c ensures Consistent(t, chunks[d], ws[d], after) {
      assert Consistent(t, chunks[d], ws[d], before);
      forall j | 0 <= j < |chunks[d]| && !ws[d].Failed?
        ensures chunks[d][j].index < |after| && after[chunks[d][j].index] == before[chunks[d][j].index]
      {
        if chunks[d][j].index == chunks[c][k].index {
          OnePlace(chunks, d, j, c, k);
        }
      }
    }
  }

  /** One atomic step of one worker: fetching its chunk, or placing one key's item under the lock. */
  method Step(svc: Service, chunks: seq<seq<KeySpec>>, c: nat, ws: seq<Worker>, ordered: array<Option<Item>>,
      maxRetries: Option<nat>)
    returns (ws': seq<Worker>)
    requires IsTable(svc.schema, svc.table) && Numbered(Flat(chunks)) && c < |chunks|
    requires AllConsistent(svc.schema, svc.table, chunks, ws, ordered[..])
    modifies ordered
    ensures AllConsistent(svc.schema, svc.table, chunks, ws', ordered[..])
    ensures ws[c].Waiting? || ws[c].Aligning? ==> Remaining(ws'[c], |chunks[c]|) < Remaining(ws[c], |chunks[c]|)
    ensures ws[c].Finished? || ws[c].Failed? ==> ws'[c] == ws[c]
    ensures Lawful(svc.schema, Attrs(chunks[c])) && Serves(svc, maxRetries, |chunks[c]|) ==>
              (!ws[c].Failed? ==> !ws'[c].Failed?)
    ensures forall d :: 0 <= d < |chunks| && d != c ==> ws'[d] == ws[d]
  {
    var specs, w := chunks[c], ws[c];
    ws' := ws;
    match w {
      case Waiting =>
        ghost var calls;
        var r;
        r, calls := ExecuteBatchGet(svc, Attrs(specs), maxRetries);
        ws' := ws[c := if r.Err? then Failed else Aligning(r.value, seq(|r.value|, _ => false), 0)];
      case Aligning(items, used, k) =>
        if k == |specs| {
          ws' := ws[c := Finished];
        } else {
          ghost var before := ordered[..];
          assert Consistent(svc.table, specs, w, before);
          var used' := AlignKey(specs, k, items, used, ordered, svc.schema, svc.table);
          var w' := Aligning(items, used', k + 1);
          Advanced(svc.table, chunks, c, w, w', before, ordered[..]);
          StepKeeps(svc.schema, svc.table, chunks, ws, before, c, k, w', ordered[..]);
          ws' := ws[c := w'];
        }
      case _ =>
    }
  }

  function Remaining(w: Worker, size: nat): int {
    match w
    case Waiting => size + 2
    case Aligning(_, _, k) => size + 1 - k
    case _ => 0
  }

  lemma Advanced(t: Table, chunks: seq<seq<KeySpec>>, c: nat, w: Worker, w': Worker, before: seq<Option<Item>>,
      after: seq<Option<Item>>)
    requires Numbered(Flat(chunks)) && c < |chunks| && w.Aligning? && w.k < |chunks[c]|
    requires w'.Aligning? && w'.k == w.k + 1
    requires Consistent(t, chunks[c], w, before) && |after| == |before| && chunks[c][w.k].index < |before|
    requires forall p :: 0 <= p < |before| && p != chunks[c][w.k].index ==> after[p] == before[p]
    requires after[chunks[c][w.k].index] == ItemAt(t, chunks[c][w.k].attrs)
    ensures Consistent(t, chunks[c], w', after)
  {
    forall j | 0 <= j < |chunks[c]| && j != w.k ensures chunks[c][j].index != chunks[c][w.k].index {
      if chunks[c][j].index == chunks[c][w.k].index {
        OnePlace(chunks, c, j, c, w.k);
      }
    }
  }

  lemma StartConsistent(schema: set<string>, t: Table, chunks: seq<seq<KeySpec>>, ws: seq<Worker>,
      ordered: seq<Option<Item>>)
    requires Numbered(Flat(chunks)) && |ws| == |chunks| && |ordered| == |Flat(chunks)|
    requires (forall c :: 0 <= c < |ws| ==> ws[c] == Waiting) && forall p :: 0 <= p < |ordered| ==> ordered[p] == None
    ensures AllConsistent(schema, t, chunks, ws, ordered)
  {
    forall c, j | 0 <= c < |chunks| && 0 <= j < |chunks[c]| ensures chunks[c][j].index < |ordered| {
      FlatAt(chunks, c, j);
    }
  }

  ghost predicate AllPlaced(t: Table, specs: seq<KeySpec>, ordered: seq<Option<Item>>) {
    |ordered| == |specs| && forall p :: 0 <= p < |specs| ==> ordered[p] == ItemAt(t, specs[p].attrs)
  }

  lemma FinishedPlaced(
    schema: set<string>, t: Table, chunks: seq<seq<KeySpec>>, ws: seq<Worker>, ordered: seq<Option<Item>>)
    requires AllConsistent(schema, t, chunks, ws, ordered) && Numbered(Flat(chunks)) && |ordered| == |Flat(chunks)|
    requires forall c :: 0 <= c < |ws| ==> ws[c] == Finished
    ensures AllPlaced(t, Flat(chunks), ordered)
  {
    forall p | 0 <= p < |Flat(chunks)| ensures ordered[p] == ItemAt(t, Flat(chunks)[p].attrs) {
      var c, j := FlatOf(chunks, p);
      FlatAt(chunks, c, j);
      assert Consistent(t, chunks[c], ws[c], ordered);
    }
  }

  lemma RunLawful(schema: set<string>, all: seq<Key>, from: nat, keys: seq<Key>)
    requires Lawful(schema, all) && from + |keys| <= |all| && keys == all[from..from + |keys|]
    ensures Lawful(schema, keys)
  {
  }

  lemma AttrsRun(specs: seq<KeySpec>, from: nat, run: seq<KeySpec>)
    requires from + |run| <= |specs| && run == specs[from..from + |run|]
    ensures Attrs(run) == Attrs(specs)[from..from + |run|]
  {
    forall j | 0 <= j < |run| ensures Attrs(run)[j] == Attrs(specs)[from + j] {
      assert run[j] == specs[from + j];
    }
  }

  lemma SpecsLawful(schema: set<string>, specs: seq<KeySpec>, from: nat, run: seq<KeySpec>)
    requires Lawful(schema, Attrs(specs)) && from + |run| <= |specs| && run == specs[from..from + |run|]
    ensures Lawful(schema, Attrs(run))
  {
    AttrsRun(specs, from, run);
    RunLawful(schema, Attrs(specs), from, Attrs(run));
  }

  /** The chunks of a lawful request are lawful. */
  lemma ChunkLawful(schema: set<string>, specs: seq<KeySpec>, chunks: seq<seq<KeySpec>>, c: nat)
    requires Lawful(schema, Attrs(specs)) && specs == Flat(chunks) && c < |chunks|
    ensures Lawful(schema, Attrs(chunks[c]))
  {
    var from := FlatChunk(chunks, c);
    SpecsLawful(schema, specs, from, chunks[c]);
  }

  /** The number of steps a schedule gives a worker. */
  function Turns(schedule: seq<nat>, c: nat): nat {
    if schedule == [] then 0
    else Turns(schedule[..|schedule| - 1], c) + if schedule[|schedule| - 1] == c then 1 else 0
  }

  /** Every worker gets a step to fetch its chunk, one for each of its keys, and one to finish. */
  predicate LongEnough(schedule: seq<nat>, chunks: seq<seq<KeySpec>>) {
    forall c :: 0 <= c < |chunks| ==> Turns(schedule, c) >= |chunks[c]| + 2
  }

  /** Each of `n` workers gets the turns a chunk of `size` keys takes. */
  predicate Fair(schedule: seq<nat>, n: nat, size: nat) {
    forall c :: 0 <= c < n ==> Turns(schedule, c) >= size + 2
  }

  lemma {:induction false} FewChunks(chunks: seq<seq<KeySpec>>)
    requires forall c :: 0 <= c < |chunks| ==> 0 < |chunks[c]|
    ensures |chunks| <= |Flat(chunks)|
  {
    if chunks != [] {
      FewChunks(chunks[..|chunks| - 1]);
    }
  }

  /** With what is left of it, each worker has used its turns so far. */
  ghost predicate OnSchedule(chunks: seq<seq<KeySpec>>, ws: seq<Worker>, turns: seq<nat>) {
    && |ws| == |chunks|
    && forall c :: 0 <= c < |chunks| ==>
         !ws[c].Failed? && (ws[c].Finished? || Remaining(ws[c], |chunks[c]|) <= |chunks[c]| + 2 - Turns(turns, c))
  }

  lemma TurnTaken(chunks: seq<seq<KeySpec>>, ws: seq<Worker>, turns: seq<nat>, c: nat, ws': seq<Worker>)
    requires OnSchedule(chunks, ws, turns) && |ws'| == |ws|
    requires c < |chunks| ==>
               && !ws'[c].Failed? && (ws[c].Finished? ==> ws'[c].Finished?)
               && (!ws[c].Finished? ==> Remaining(ws'[c], |chunks[c]|) < Remaining(ws[c], |chunks[c]|))
    requires forall d :: 0 <= d < |chunks| && d != c ==> ws'[d] == ws[d]
    ensures OnSchedule(chunks, ws', turns + [c])
  {
    assert (turns + [c])[..|turns|] == turns;
  }

  /** The calls allowed for each chunk serve all of it, and the request is lawful. */
  ghost predicate Ample(svc: Service, maxRetries: Option<nat>, chunks: seq<seq<KeySpec>>) {
    && svc.reliable && Lawful(svc.schema, Attrs(Flat(chunks)))
    && forall c :: 0 <= c < |chunks| ==> Serves(svc, maxRetries, |chunks[c]|)
  }

  /**
   Every interleaving: at each turn `schedule` says whose step comes next. The call returns once all have finished,
   which they do when the service is reliable, the request lawful, the retries ample and the schedule long enough.
   */
  method RunChunksParallel(svc: Service, chunks: seq<seq<KeySpec>>, ordered: array<Option<Item>>,
      maxRetries: Option<nat>, schedule: seq<nat>)
    returns (ok: bool)
    requires IsTable(svc.schema, svc.table) && Numbered(Flat(chunks)) && ordered.Length == |Flat(chunks)|
    requires forall p :: 0 <= p < ordered.Length ==> ordered[p] == None
    modifies ordered
    ensures ok ==> AllPlaced(svc.table, Flat(chunks), ordered[..])
    ensures Ample(svc, maxRetries, chunks) && LongEnough(schedule, chunks) ==> ok
  {
    var ws := seq(|chunks|, _ => Waiting);
    ghost var sure := Ample(svc, maxRetries, chunks);
    StartConsistent(svc.schema, svc.table, chunks, ws, ordered[..]);
    for i := 0 to |schedule|
      invariant AllConsistent(svc.schema, svc.table, chunks, ws, ordered[..])
      invariant sure ==> OnSchedule(chunks, ws, schedule[..i])
    {
      ghost var before := ws;
      if schedule[i] < |chunks| {
        if sure {
          ChunkLawful(svc.schema, Flat(chunks), chunks, schedule[i]);
        }
        ws := Step(svc, chunks, schedule[i], ws, ordered, maxRetries);
      }
      if sure {
        TurnTaken(chunks, before, schedule[..i], schedule[i], ws);
        assert schedule[..i + 1] == schedule[..i] + [schedule[i]];
      }
    }
    assert schedule[..|schedule|] == schedule;
    ok := forall c :: 0 <= c < |ws| ==> ws[c] == Finished;
    if ok {
      FinishedPlaced(svc.schema, svc.table, chunks, ws, ordered[..]);
    }
  }

  /** One chunk after the other, up to the first error. */
  method RunChunks(svc: Service, chunks: seq<seq<KeySpec>>, ordered: array<Option<Item>>,
      maxRetries: Option<nat>) returns (ok: bool)
    requires IsTable(svc.schema, svc.table) && Numbered(Flat(chunks)) && ordered.Length == |Flat(chunks)|
    requires forall p :: 0 <= p < ordered.Length ==> ordered[p] == None
    modifies ordered
    ensures ok ==> AllPlaced(svc.table, Flat(chunks), ordered[..])
    ensures Ample(svc, maxRetries, chunks) ==> ok
  {
    var ws := seq(|chunks|, _ => Waiting);
    StartConsistent(svc.schema, svc.table, chunks, ws, ordered[..]);
    var c := 0;
    ghost var sure := Ample(svc, maxRetries, chunks);
    while c < |chunks|
      invariant 0 <= c <= |chunks|
      invariant AllConsistent(svc.schema, svc.table, chunks, ws, ordered[..])
      invariant forall d :: 0 <= d < c ==> ws[d] == Finished
      invariant sure ==> forall d :: c <= d < |chunks| ==> !ws[d].Failed?
    {
      if sure {
        ChunkLawful(svc.schema, Flat(chunks), chunks, c);
      }
      while ws[c] != Finished
        invariant AllConsistent(svc.schema, svc.table, chunks, ws, ordered[..])
        invariant forall d :: 0 <= d < c ==> ws[d] == Finished
        invariant sure ==> forall d :: c <= d < |chunks| ==> !ws[d].Failed?
        decreases Remaining(ws[c], |chunks[c]|)
      {
        if ws[c] == Failed {
          return false;
        }
        ws := Step(svc, chunks, c, ws, ordered, maxRetries);
      }
      c := c + 1;
    }
    FinishedPlaced(svc.schema, svc.table, chunks, ws, ordered[..]);
    ok := true;
  }

  lemma {:induction false} PresentFound(t: Table, keys: seq<Key>, k: Key)
    ensures Found(t, keys + [k]) == Found(t, keys) + if k in t then [t[k]] else []
  {
    FoundCat(t, keys, [k]);
    assert [k][1..] == [];
  }

  method FlattenBatchGetResults(ordered: array<Option<Item>>, ghost t: Table,
      ghost specs: seq<KeySpec>) returns (items: seq<Item>)
    requires AllPlaced(t, specs, ordered[..])
    ensures items == Found(t, Attrs(specs))
  {
    items := [];
    ghost var keys := Attrs(specs);
    for i := 0 to ordered.Length
      invariant items == Found(t, keys[..i])
    {
      assert keys[..i + 1] == keys[..i] + [keys[i]];
      assert ordered[..][i] == ItemAt(t, keys[i]);
      PresentFound(t, keys[..i], keys[i]);
      if ordered[i].Some? {
        items := items + [ordered[i].value];
      }
    }
    assert keys[..ordered.Length] == keys;
  }

  function ChunkSize(chunkSize: int): (size: nat)
    ensures 1 <= size <= 100 && (1 <= chunkSize <= 100 ==> size == chunkSize)
  {
    if chunkSize <= 0 || chunkSize > 100 then 100 else chunkSize
  }

  /**
   BatchGet end to end: whatever the chunk size, the service's choices and the interleaving of the workers, a call that
   succeeds returns, for each requested key in order, the table's item if there is one. It succeeds when no call fails,
   the calls allowed serve a chunk and, with workers, each gets its turns.
   */
  method BatchGet(svc: Service, keys: seq<Key>, chunkSize: int, maxRetries: Option<nat>, schedule: Option<seq<nat>>)
    returns (r: Result<seq<Item>>)
    requires IsTable(svc.schema, svc.table)
    ensures r.Ok? ==> r.value == Found(svc.table, keys)
    ensures keys != [] && Lawful(svc.schema, keys) && Serves(svc, maxRetries, ChunkSize(chunkSize)) ==>
              ((schedule.Some? ==> Fair(schedule.value, |keys|, ChunkSize(chunkSize))) ==> r.Ok?)
  {
    if |keys| == 0 {
      return Err;
    }
    var size := ChunkSize(chunkSize);
    var specs := seq(|keys|, i requires 0 <= i < |keys| => KeySpec(keys[i], i));
    assert Attrs(specs) == keys;
    var chunks := BuildBatchGetChunks(specs, size);
    var ordered := new Option<Item>[|specs|](_ => None);
    var ok;
    FewChunks(chunks);
    if schedule.Some? {
      ok := RunChunksParallel(svc, chunks, ordered, maxRetries, schedule.value);
    } else {
      ok := RunChunks(svc, chunks, ordered, maxRetries);
    }
    if !ok {
      return Err;
    }
    var items := FlattenBatchGetResults(ordered, svc.table, specs);
    r := Ok(items);
  }
}
