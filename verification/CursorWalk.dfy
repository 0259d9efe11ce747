/** Walking a result by cursors: AllPaginated and SetCursor (pkg/query/pagination.go). */
module CursorWalk {
  import opened Attributes
  import opened CursorCodec
  import PagedReads
  import TableWrites

  /** Key attributes are strings, numbers or binaries. */
  predicate IsKeyValue(av: AttributeValue) {
    av.S? || av.N? || av.B?
  }

  /** Items in the order the service reads them, each with all key attributes, no two with the same key. */
  predicate IsListing(schema: set<string>, items: seq<Item>) {
    && schema != {}
    && (forall i, a :: 0 <= i < |items| && a in schema ==> a in items[i] && IsKeyValue(items[i][a]))
    && (forall i, j :: 0 <= i < j < |items| ==>
          TableWrites.KeyIn(schema, items[i]) != TableWrites.KeyIn(schema, items[j]))
  }

  lemma KeyOfListed(schema: set<string>, items: seq<Item>, i: nat)
    requires IsListing(schema, items) && i < |items|
    ensures TableWrites.KeyIn(schema, items[i]) != map[] && LosslessKey(TableWrites.KeyIn(schema, items[i]))
  {
    var a :| a in schema;
    assert a in TableWrites.KeyIn(schema, items[i]);
  }

  class Service {
    const schema: set<string>
    const items: seq<Item>
    const keep: Item -> bool
    /** Whether every call with a limit and a start key the service accepts succeeds. */
    const reliable: bool
    /** Whether every page is as long as the limit and the listing allow. */
    const full: bool

    constructor (schema: set<string>, items: seq<Item>, keep: Item -> bool, reliable: bool, full: bool)
      requires IsListing(schema, items)
      ensures this.schema == schema && this.items == items && this.keep == keep
      ensures this.reliable == reliable && this.full == full
    {
      this.schema, this.items, this.keep, this.reliable, this.full := schema, items, keep, reliable, full;
    }

    ghost predicate At(start: Item, from: nat) {
      && from <= |items|
      && if start == map[] then from == 0 else from > 0 && TableWrites.KeyIn(schema, items[from - 1]) == start
    }

    /**
     One page behind `start`: at most `limit` items are read, those that match are returned, with the key of the last
     one read unless the listing is at its end.
     */
    method Fetch(limit: Option<nat>, start: Item) returns (ok: bool, page: seq<Item>, last: Item, to: nat)
      requires IsListing(schema, items)
      ensures ok ==>
                exists from: nat ::
                  && At(start, from) && from <= to <= |items|
                  && (limit.Some? ==> to - from <= limit.value)
                  && (full && to < |items| ==> limit == Some(to - from))
                  && page == PagedReads.Matching(items[from..to], keep)
                  && (last == map[] ==> to == |items|)
                  && (last != map[] ==> from < to && At(last, to))
      ensures reliable && limit != Some(0) && (exists from: nat :: At(start, from)) ==> ok
    {
      page, last, to := [], map[], 0;
      var from := 0;
      if start != map[] {
        while from < |items| && TableWrites.KeyIn(schema, items[from]) != start
          invariant 0 <= from <= |items|
          invariant forall i :: 0 <= i < from ==> TableWrites.KeyIn(schema, items[i]) != start
        {
          from := from + 1;
        }
        if from == |items| {
          return false, [], map[], 0;
        }
        from := from + 1;
      }
      assert At(start, from);
      var answered: bool := *;
      ok := answered || reliable;
      if !ok || limit == Some(0) {
        return false, [], map[], 0;
      }
      var most := if limit.Some? && limit.value < |items| - from then limit.value else |items| - from;
      var end :| from <= end <= from + most && (from < |items| ==> from < end) && (full ==> end == from + most);
      page := PagedReads.Matching(items[from..end], keep);
      var final: bool := *;
      if !(end == |items| && (final || from == end)) {
        KeyOfListed(schema, items, end - 1);
        last := TableWrites.KeyIn(schema, items[end - 1]);
      }
      to := end;
    }
  }

  const MAX_INT32 := 0x7FFF_FFFF

  /** The limit a request carries: none for a negative one, and at most what 32 bits hold. */
  function Sent(limit: int): Option<nat> {
    if limit <= 0 then None else Some(if limit > MAX_INT32 then MAX_INT32 else limit)
  }

  /**
   The matches between positions `from` and `to`, no further apart than the limit, and just as far in front of the end
   when the service fills its pages; and a cursor that resumes at `to` unless the listing is at its end.
   */
  ghost predicate IsPage(svc: Service, limit: int, start: Item, from: nat, to: nat, page: seq<Item>, next: Cursor,
      more: bool) {
    && svc.At(start, from) && from <= to <= |svc.items|
    && (limit > 0 ==> to - from <= limit)
    && (svc.full && limit <= MAX_INT32 ==> to == |svc.items| || to - from == limit)
    && page == PagedReads.Matching(svc.items[from..to], svc.keep)
    && (!more ==> to == |svc.items|)
    && (more ==> from < to && Resumes(svc, start, next, to))
  }

  /** Setting this cursor makes the next call continue at position `done`. */
  ghost predicate Resumes(svc: Service, exclusive: Item, cursor: Cursor, done: nat) {
    if cursor == NoCursor then svc.At(exclusive, done)
    else StartKey(cursor).Some? && svc.At(StartKey(cursor).value, done)
  }

  lemma MatchesOn(items: seq<Item>, keep: Item -> bool, done: nat, to: nat)
    requires done <= to <= |items|
    ensures PagedReads.Matching(items[..to], keep) ==
            PagedReads.Matching(items[..done], keep) + PagedReads.Matching(items[done..to], keep)
  {
    assert items[..done] + items[done..to] == items[..to];
    PagedReads.MatchingCat(items[..done], items[done..to], keep);
  }

  lemma PageFollows(svc: Service, limit: int, start: Item, done: nat, to: nat, page: seq<Item>, next: Cursor,
      more: bool)
    requires IsListing(svc.schema, svc.items) && svc.At(start, done)
    requires exists from: nat :: IsPage(svc, limit, start, from, to, page, next, more)
    ensures IsPage(svc, limit, start, done, to, page, next, more)
    ensures PagedReads.Matching(svc.items[..to], svc.keep) == PagedReads.Matching(svc.items[..done], svc.keep) + page
  {
    var from: nat :| IsPage(svc, limit, start, from, to, page, next, more);
    OnePosition(svc, start, from, done);
    MatchesOn(svc.items, svc.keep, done, to);
  }

  lemma OnePosition(svc: Service, start: Item, i: nat, j: nat)
    requires IsListing(svc.schema, svc.items) && svc.At(start, i) && svc.At(start, j)
    ensures i == j
  {
  }

  class Query {
    const index: string
    const sort: string
    var limit: int
    var exclusive: Item

    constructor (limit: int, index: string, sort: string)
      ensures this.limit == limit && this.index == index && this.sort == sort && exclusive == map[]
    {
      this.limit, this.index, this.sort, exclusive := limit, index, sort, map[];
    }

    /** An empty cursor changes nothing. */
    method SetCursor(c: Cursor) returns (ok: bool)
      modifies this`exclusive
      ensures c == NoCursor ==> ok && exclusive == old(exclusive)
      ensures c != NoCursor ==>
                (ok <==> StartKey(c).Some?) && exclusive == if ok then StartKey(c).value else old(exclusive)
    {
      if c == NoCursor {
        return true;
      }
      var key := StartKey(c);
      ok := key.Some?;
      if ok {
        exclusive := key.value;
      }
    }

    /**
     One page, of no more items than the limit, which is 100 when none was given, and the cursor behind it; there is
     more exactly when that cursor is not empty.
     */
    method AllPaginated(svc: Service) returns (ok: bool, page: seq<Item>, next: Cursor, hasMore: bool, to: nat)
      requires IsListing(svc.schema, svc.items)
      modifies this`limit
      ensures limit == if old(limit) == 0 then 100 else old(limit)
      ensures ok ==> exists from: nat :: IsPage(svc, limit, exclusive, from, to, page, next, hasMore)
      ensures ok && limit > 0 ==> |page| <= limit
      ensures hasMore <==> next != NoCursor
      ensures hasMore ==> next.index == index && next.sort == sort
      ensures svc.reliable && (exists from: nat :: svc.At(exclusive, from)) ==> ok
    {
      if limit == 0 {
        limit := 100;
      }
      var last;
      ok, page, last, to := svc.Fetch(Sent(limit), exclusive);
      next := EncodeCursor(last, index, sort);
      hasMore := next != NoCursor;
      if ok && last != map[] {
        KeyOfListed(svc.schema, svc.items, to - 1);
        CursorRoundTrip(last, index, sort);
        assert |last| != 0;
      }
      if ok {
        ghost var from: nat :| svc.At(exclusive, from) && from <= to &&
                               page == PagedReads.Matching(svc.items[from..to], svc.keep) &&
                               (Sent(limit).Some? ==> to - from <= Sent(limit).value) &&
                               (svc.full && to < |svc.items| ==> Sent(limit) == Some(to - from)) &&
                               (last != map[] ==> from < to);
        assert IsPage(svc, limit, exclusive, from, to, page, next, hasMore);
      }
    }
  }

  /**
   Following NextCursor until HasMore is false visits exactly the unpaginated result, in order, each item once; whatever
   pages the service cuts.
   */
  method Walk(svc: Service, q: Query) returns (ok: bool, visited: seq<Item>)
    requires IsListing(svc.schema, svc.items) && q.exclusive == map[]
    modifies q
    ensures ok ==> visited == PagedReads.Matching(svc.items, svc.keep)
    ensures svc.reliable ==> ok
  {
    visited := [];
    ghost var done: nat := 0;
    var cursor, more := NoCursor, true;
    while more
      invariant done <= |svc.items| && visited == PagedReads.Matching(svc.items[..done], svc.keep)
      invariant more ==> Resumes(svc, q.exclusive, cursor, done)
      invariant !more ==> done == |svc.items|
      decreases more, |svc.items| - done
    {
      ok := q.SetCursor(cursor);
      if !ok {
        return;
      }
      assert svc.At(q.exclusive, done);
      var page, to;
      ok, page, cursor, more, to := q.AllPaginated(svc);
      assert svc.At(q.exclusive, done);
      if !ok {
        return;
      }
      PageFollows(svc, q.limit, q.exclusive, done, to, page, cursor, more);
      visited := visited + page;
      done := to;
    }
    assert svc.items[..done] == svc.items;
    ok := true;
  }
}
