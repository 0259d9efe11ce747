/**
 Paged reads with a limit (query_executor.go collectPaginatedItems, pkg/query/executor.go executePagedItems) over a
 service that reads a page of items first and filters it afterwards, and First (pkg/query/query.go).
 */
module PagedReads {
  import opened Attributes

  /** The matches among `items`, in order. */
  function Matching(items: seq<Item>, keep: Item -> bool): (ms: seq<Item>)
    ensures |ms| <= |items|
  {
    if items == [] then []
    else Matching(items[..|items| - 1], keep) + if keep(items[|items| - 1]) then [items[|items| - 1]] else []
  }

  lemma {:induction false} MatchingCat(a: seq<Item>, b: seq<Item>, keep: Item -> bool)
    ensures Matching(a + b, keep) == Matching(a, keep) + Matching(b, keep)
  {
    if b == [] {
      assert a + b == a;
    } else {
      assert (a + b)[..|a + b| - 1] == a + b[..|b| - 1];
      MatchingCat(a, b[..|b| - 1], keep);
    }
  }

  /** A page read from position `from`: `next` is where to go on, if there may be more. */
  ghost predicate IsPage(items: seq<Item>, keep: Item -> bool, limit: Option<nat>, from: nat, page: seq<Item>,
      next: Option<nat>) {
    var to := if next.Some? then next.value else |items|;
    && from <= to <= |items|
    && page == Matching(items[from..to], keep)
    && (limit.Some? ==> to - from <= limit.value)
    && (next.Some? ==> from < to)
  }

  function From(start: Option<nat>): nat {
    if start.Some? then start.value else 0
  }

  class Service {
    const items: seq<Item>
    const keep: Item -> bool
    /** Whether every call with a limit the service accepts succeeds. */
    const reliable: bool

    constructor (items: seq<Item>, keep: Item -> bool, reliable: bool)
      ensures this.items == items && this.keep == keep && this.reliable == reliable
    {
      this.items, this.keep, this.reliable := items, keep, reliable;
    }

    /** Reads up to `limit` items of any next page, then filters; a limit of zero is refused. */
    method Fetch(limit: Option<nat>, start: Option<nat>) returns (ok: bool, page: seq<Item>, next: Option<nat>)
      requires start.Some? ==> start.value <= |items|
      ensures ok ==> limit != Some(0) && IsPage(items, keep, limit, From(start), page, next)
      ensures reliable && limit != Some(0) ==> ok
    {
      var from := From(start);
      page, next := [], None;
      var answered: bool := *;
      ok := answered || reliable;
      if !ok || limit == Some(0) {
        return false, [], None;
      }
      var most := if limit.Some? && limit.value < |items| - from then limit.value else |items| - from;
      var to :| from <= to <= from + most && (from < |items| ==> from < to);
      page := Matching(items[from..to], keep);
      var last: bool := *;
      next := if to == |items| && (last || from == to) then None else Some(to);
    }
  }

  function Min(a: nat, b: nat): nat {
    if a < b then a else b
  }

  /** The matches read so far. */
  function MatchesTo(svc: Service, to: nat): seq<Item>
    requires to <= |svc.items|
  {
    Matching(svc.items[..to], svc.keep)
  }

  lemma PageAdds(svc: Service, from: nat, to: nat)
    requires from <= to <= |svc.items|
    ensures MatchesTo(svc, to) == MatchesTo(svc, from) + Matching(svc.items[from..to], svc.keep)
    ensures MatchesTo(svc, to) <= MatchesTo(svc, |svc.items|)
  {
    MatchingCat(svc.items[..from], svc.items[from..to], svc.keep);
    assert svc.items[..from] + svc.items[from..to] == svc.items[..to];
    MatchingCat(svc.items[..to], svc.items[to..], svc.keep);
    assert svc.items[..to] + svc.items[to..] == svc.items[..|svc.items|];
  }

  /** Everything that matches, in order. */
  function Matches(svc: Service): seq<Item> {
    Matching(svc.items, svc.keep)
  }

  lemma MatchesAll(svc: Service)
    ensures MatchesTo(svc, |svc.items|) == Matches(svc)
  {
    assert svc.items[..|svc.items|] == svc.items;
  }

  /**
   The trimming loop returns exactly the first `limit` matches, and all of them when there are fewer or no limit;
   without trimming it returns a prefix of the matches that reaches the limit and stays below twice the limit.
   */
  method CollectPaginatedItems(svc: Service, limit: Option<nat>, trim: bool) returns (ok: bool, result: seq<Item>)
    ensures svc.reliable && limit != Some(0) ==> ok
    ensures ok && limit.None? ==> result == Matches(svc)
    ensures ok && limit.Some? && trim ==> result == Matches(svc)[..Min(limit.value, |Matches(svc)|)]
    ensures ok && limit.Some? && !trim ==>
              result <= Matches(svc) && Min(limit.value, |Matches(svc)|) <= |result| && |result| <= 2 * limit.value - 1
  {
    result := [];
    var start: Option<nat> := None;
    var more := true;
    ghost var read: nat := 0;
    while more
      invariant read <= |svc.items| && result == MatchesTo(svc, read)
      invariant read == if more then From(start) else |svc.items|
      invariant !more ==> limit != Some(0)
      invariant limit.Some? && limit.value > 0 ==> |result| < limit.value
      decreases more, |svc.items| - read
    {
      var page, next;
      ok, page, next := svc.Fetch(limit, start);
      if !ok {
        return;
      }
      ghost var to := if next.Some? then next.value else |svc.items|;
      PageAdds(svc, read, to);
      MatchesAll(svc);
      result := result + page;
      read := to;
      if limit.Some? && |result| >= limit.value {
        assert |page| <= limit.value;
        if trim {
          return true, result[..limit.value];
        }
        return true, result;
      }
      start, more := next, next.Some?;
    }
    MatchesAll(svc);
    ok := true;
  }

  /** The other executor's loop: it never trims and stops at once when the page is the last one. */
  method ExecutePagedItems(svc: Service, limit: Option<nat>) returns (ok: bool, result: seq<Item>)
    ensures svc.reliable && limit != Some(0) ==> ok
    ensures ok && limit.None? ==> result == Matches(svc)
    ensures ok && limit.Some? ==>
              result <= Matches(svc) && Min(limit.value, |Matches(svc)|) <= |result| && |result| <= 2 * limit.value - 1
  {
    result := [];
    var start: Option<nat> := None;
    ghost var read: nat := 0;
    while true
      invariant read == From(start) && read <= |svc.items|
      invariant result == MatchesTo(svc, read)
      invariant limit.Some? && limit.value > 0 ==> |result| < limit.value
      decreases |svc.items| - read
    {
      var page, next;
      ok, page, next := svc.Fetch(limit, start);
      if !ok {
        return;
      }
      ghost var to := if next.Some? then next.value else |svc.items|;
      PageAdds(svc, read, to);
      MatchesAll(svc);
      result := result + page;
      read := to;
      if next.None? || (limit.Some? && |result| >= limit.value) {
        return;
      }
      start := next;
    }
  }

  /**
   First asks for one item per page, yet finds a match if and only if there is one anywhere in the table, and it is
   the first; whichever executor reads the pages.
   */
  method First(svc: Service, trimming: bool) returns (ok: bool, found: Option<Item>)
    ensures ok ==> found == if Matches(svc) == [] then None else Some(Matches(svc)[0])
    ensures svc.reliable ==> ok
  {
    var results;
    found := None;
    if trimming {
      ok, results := CollectPaginatedItems(svc, Some(1), true);
    } else {
      ok, results := ExecutePagedItems(svc, Some(1));
    }
    if ok && |results| > 0 {
      found := Some(results[0]);
    }
  }
}
