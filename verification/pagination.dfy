/**
  A client that follows nextCursor from page to page. With a positive page
  size and every record carrying a start time, it sees each selected record
  exactly once, in sort order.
 */
module Pagination {
  import opened Wrappers
  import opened Runtime
  import opened ObjectIds
  import opened InterfaceExecution
  import opened Sequences
  import opened Filters
  import opened Ordering
  import opened Cursor
  import opened Listing

  /** Ask `serve` for the page at `cursor`, then follow nextCursor at most `fuel` times; None if a request fails or the fuel runs out. */
  function Chase(serve: Option<string> -> Result<Page, Failure>, cursor: Option<string>, fuel: nat): (r: Option<seq<Execution>>)
    ensures r.Some? ==> serve(cursor).Ok? && serve(cursor).value.items <= r.value
    ensures r.Some? && serve(cursor).value.nextCursor.None? ==> r.value == serve(cursor).value.items
    decreases fuel
  {
    match serve(cursor)
    case Err(_) => None
    case Ok(page) =>
      if page.nextCursor.None? then Some(page.items)
      else if fuel == 0 then None
      else
        match Chase(serve, page.nextCursor, fuel - 1)
        case None => None
        case Some(rest) => Some(page.items + rest)
  }

  /** A client of listExecutions that keeps the request and replaces only its cursor. */
  function Follow(lib: Lib, store: seq<Execution>, req: ListRequest, freshId: ObjectId, limit: int, fuel: nat): (r: Option<seq<Execution>>)
    requires limit != 0
    ensures r.Some? ==> ResponseWith(lib, store, req, freshId, limit).Ok?
    ensures r.Some? ==> ResponseWith(lib, store, req, freshId, limit).value.items <= r.value
    ensures r.Some? && ResponseWith(lib, store, req, freshId, limit).value.nextCursor.None? ==>
      r.value == ResponseWith(lib, store, req, freshId, limit).value.items
  {
    Chase(c => ResponseWith(lib, store, req.(cursor := c), freshId, limit), req.cursor, fuel)
  }

  predicate AllTimed(store: seq<Execution>)
  {
    forall i :: 0 <= i < |store| ==> store[i].startTime.Some?
  }

  /** Every record the filter selects, in the requested order. */
  function Selected(lib: Lib, store: seq<Execution>, req: ListRequest): seq<Execution>
  {
    match BuildFilters(lib, req.params)
    case Err(_) => []
    case Ok(filter) => SortBy(ParseDirection(req.sort), Where(store, r => Matches(lib, filter, r)))
  }

  /** The cursor a client holds after reading the first k selected records: none at the start. */
  function CursorAt(lib: Lib, s: seq<Execution>, k: nat): Option<string>
  {
    if k == 0 || k > |s| || s[k - 1].startTime.None? then None
    else Some(CursorToken(lib, s[k - 1].startTime.value, s[k - 1].id))
  }

  lemma SelectedFromStore(lib: Lib, store: seq<Execution>, req: ListRequest)
    requires BuildFilters(lib, req.params).Ok?
    ensures var filter := BuildFilters(lib, req.params).value;
      forall i :: 0 <= i < |Selected(lib, store, req)| ==>
        Selected(lib, store, req)[i] in store && Matches(lib, filter, Selected(lib, store, req)[i])
    ensures |Selected(lib, store, req)| <= |store|
  {
    var filter := BuildFilters(lib, req.params).value;
    var w := Where(store, r => Matches(lib, filter, r));
    var a := Selected(lib, store, req);
    assert multiset(a) == multiset(w);
    assert |a| == |w| by { assert |multiset(a)| == |multiset(w)|; }
    forall i | 0 <= i < |a| ensures a[i] in store && Matches(lib, filter, a[i]) {
      assert a[i] in multiset(w);
    }
  }

  lemma SelectedTimed(lib: Lib, store: seq<Execution>, req: ListRequest)
    requires AllTimed(store)
    ensures forall i :: 0 <= i < |Selected(lib, store, req)| ==> Selected(lib, store, req)[i].startTime.Some?
  {
    if BuildFilters(lib, req.params).Ok? {
      var a := Selected(lib, store, req);
      SelectedFromStore(lib, store, req);
      forall i | 0 <= i < |a| ensures a[i].startTime.Some? {
        var n :| 0 <= n < |store| && store[n] == a[i];
      }
    }
  }

  /** Without a cursor the query selects exactly the filtered records. */
  lemma MatchingAll(lib: Lib, store: seq<Execution>, req: ListRequest)
    requires BuildFilters(lib, req.params).Ok?
    ensures Matching(lib, store, Query(BuildFilters(lib, req.params).value, None), ParseDirection(req.sort)) == Selected(lib, store, req)
  {
    var filter := BuildFilters(lib, req.params).value;
    WhereCongruent(store, r => QueryMatches(lib, Query(filter, None), r), r => Matches(lib, filter, r));
  }

  /** With the seek condition of the k-th selected record, the query selects the records after it. */
  lemma MatchingAfter(lib: Lib, store: seq<Execution>, req: ListRequest, k: nat)
    requires UniqueIds(store) && AllTimed(store)
    requires BuildFilters(lib, req.params).Ok?
    requires 0 < k <= |Selected(lib, store, req)|
    ensures Selected(lib, store, req)[k - 1].startTime.Some?
    ensures var a := Selected(lib, store, req);
      var dir := ParseDirection(req.sort);
      Matching(lib, store, Query(BuildFilters(lib, req.params).value, Some(SeekAfter(dir, a[k - 1]))), dir) == a[k..]
  {
    var filter := BuildFilters(lib, req.params).value;
    var dir := ParseDirection(req.sort);
    var p := r => Matches(lib, filter, r);
    var w := Where(store, p);
    var a := Selected(lib, store, req);
    SelectedTimed(lib, store, req);
    WhereUnique(store, p);
    SortBySorted(dir, w);
    var x := a[k - 1];
    var seek := SeekAfter(dir, x);
    var query := Query(filter, Some(seek));
    var sq := r => SeekMatches(seek, r);
    var after := r => Before(dir, x, r);
    WhereWhere(store, p, sq, r => QueryMatches(lib, query, r));
    SortWhere(dir, w, sq);
    forall y | y in a ensures sq(y) == after(y) {
      SeekIsAfter(dir, x, y);
    }
    WhereCongruent(a, sq, after);
    AfterIsSuffix(dir, a, k, after);
  }

  /** The cursor of a record with a start time turns a request into the same query with that record's seek condition. */
  lemma PlanAfter(lib: Lib, req: ListRequest, freshId: ObjectId, limit: int, x: Execution)
    requires Wf(lib) && limit != 0 && x.startTime.Some?
    requires PlanWith(lib, req.(cursor := None), freshId, limit).Ok?
    ensures var dir := ParseDirection(req.sort);
      PlanWith(lib, req.(cursor := Some(CursorToken(lib, x.startTime.value, x.id))), freshId, limit)
        == Ok(Plan(Query(BuildFilters(lib, req.params).value, Some(SeekAfter(dir, x))), dir, limit))
  {
    CursorRoundTrip(lib, x);
    ParseToHex(x.id);
  }

  /**
    Resuming from the cursor of the k-th selected record serves the page that
    starts right after it.
   */
  lemma ResumeAt(lib: Lib, store: seq<Execution>, req: ListRequest, freshId: ObjectId, limit: int, k: nat)
    requires Wf(lib) && UniqueIds(store) && AllTimed(store) && limit != 0
    requires PlanWith(lib, req.(cursor := None), freshId, limit).Ok?
    requires k <= |Selected(lib, store, req)|
    ensures var a := Selected(lib, store, req);
      ResponseWith(lib, store, req.(cursor := CursorAt(lib, a, k)), freshId, limit) == PageOf(lib, a[k..], limit)
  {
    var a := Selected(lib, store, req);
    if k == 0 {
      MatchingAll(lib, store, req);
    } else {
      MatchingAfter(lib, store, req, k);
      PlanAfter(lib, req, freshId, limit, a[k - 1]);
    }
  }

  /** The page served after the first j records of `a` holds the next `limit` of them, with the cursor of the last one when more follow. */
  predicate ServesAt(serve: Option<string> -> Result<Page, Failure>, tokens: nat -> Option<string>, a: seq<Execution>, limit: int, j: nat)
    requires 1 <= limit && j <= |a|
  {
    serve(tokens(j)) ==
      if |a| - j > limit then Ok(Page(a[j..j + limit], tokens(j + limit))) else Ok(Page(a[j..], None))
  }

  /**
    If every cursor in `tokens` after the first is present and each serves the
    page that starts there, following the cursors from the k-th record on
    collects all the remaining records.
   */
  lemma {:induction false} ChaseFrom(serve: Option<string> -> Result<Page, Failure>, tokens: nat -> Option<string>,
                                     a: seq<Execution>, limit: int, k: nat, fuel: nat)
    requires 1 <= limit && k <= |a| && fuel >= |a| - k
    requires forall j :: 0 < j <= |a| ==> tokens(j).Some?
    requires forall j :: 0 <= j <= |a| ==> ServesAt(serve, tokens, a, limit, j)
    ensures Chase(serve, tokens(k), fuel) == Some(a[k..])
    decreases |a| - k
  {
    assert ServesAt(serve, tokens, a, limit, k);
    if |a| - k > limit {
      ChaseFrom(serve, tokens, a, limit, k + limit, fuel - 1);
      assert a[k..k + limit] + a[k + limit..] == a[k..];
    }
  }

  /** `serve` answers the cursor after the first j records of `a` with the page PageOf describes. */
  predicate ServesPageOf(lib: Lib, serve: Option<string> -> Result<Page, Failure>, tokens: nat -> Option<string>, a: seq<Execution>, limit: int, j: nat)
    requires limit != 0 && j <= |a|
  {
    serve(tokens(j)) == PageOf(lib, a[j..], limit)
  }

  /** PageOf, after the first j records of `a`, returns the next `limit` of them with the cursor of the last one when more follow. */
  predicate ShapeAt(lib: Lib, tokens: nat -> Option<string>, a: seq<Execution>, limit: int, j: nat)
    requires 1 <= limit && j <= |a|
  {
    PageOf(lib, a[j..], limit) ==
      if |a| - j > limit then Ok(Page(a[j..j + limit], tokens(j + limit))) else Ok(Page(a[j..], None))
  }

  lemma ServesFromPages(lib: Lib, serve: Option<string> -> Result<Page, Failure>, tokens: nat -> Option<string>, a: seq<Execution>, limit: int, j: nat)
    requires 1 <= limit && j <= |a|
    requires ServesPageOf(lib, serve, tokens, a, limit, j)
    requires ShapeAt(lib, tokens, a, limit, j)
    ensures ServesAt(serve, tokens, a, limit, j)
  {
  }

  lemma PageWithCursor(lib: Lib, s: seq<Execution>, limit: int)
    requires Wf(lib) && limit >= 1 && |s| > limit && s[limit - 1].startTime.Some?
    ensures PageOf(lib, s, limit) == Ok(Page(s[..limit], Some(CursorToken(lib, s[limit - 1].startTime.value, s[limit - 1].id))))
  {
    CursorRoundTrip(lib, s[limit - 1]);
  }

  /**
    Starting without a cursor and following nextCursor, a client with a positive
    page size reads exactly the selected records, in the requested order.
   */
  lemma PaginationComplete(lib: Lib, store: seq<Execution>, req: ListRequest, freshId: ObjectId, limit: int)
    requires Wf(lib) && UniqueIds(store) && AllTimed(store) && limit >= 1
    requires PlanWith(lib, req.(cursor := None), freshId, limit).Ok?
    ensures Follow(lib, store, req.(cursor := None), freshId, limit, |store|) == Some(Selected(lib, store, req))
  {
    var req0 := req.(cursor := None);
    var a := Selected(lib, store, req0);
    assert a == Selected(lib, store, req);
    SelectedFromStore(lib, store, req0);
    SelectedTimed(lib, store, req0);
    var serve := c => ResponseWith(lib, store, req0.(cursor := c), freshId, limit);
    var tokens := (i: nat) => CursorAt(lib, a, i);
    assert forall j :: 0 < j <= |a| ==> tokens(j).Some?;
    forall j | 0 <= j <= |a| ensures ServesAt(serve, tokens, a, limit, j) {
      PageAt(lib, store, req0, freshId, limit, j);
    }
    ChaseFrom(serve, tokens, a, limit, 0, |store|);
  }

  /** The page served from the cursor of the j-th selected record. */
  lemma PageAt(lib: Lib, store: seq<Execution>, req: ListRequest, freshId: ObjectId, limit: int, j: nat)
    requires Wf(lib) && UniqueIds(store) && AllTimed(store) && limit >= 1
    requires PlanWith(lib, req.(cursor := None), freshId, limit).Ok?
    requires j <= |Selected(lib, store, req)|
    ensures ServesAt(c => ResponseWith(lib, store, req.(cursor := c), freshId, limit),
                     (i: nat) => CursorAt(lib, Selected(lib, store, req), i), Selected(lib, store, req), limit, j)
  {
    var a := Selected(lib, store, req);
    var serve := c => ResponseWith(lib, store, req.(cursor := c), freshId, limit);
    var tokens := (i: nat) => CursorAt(lib, a, i);
    SelectedTimed(lib, store, req);
    ResumeServes(lib, store, req, freshId, limit, j);
    PageShapeAt(lib, a, limit, j);
    ServesFromPages(lib, serve, tokens, a, limit, j);
  }

  /** ResumeAt, stated for the client that replaces only the cursor of the request. */
  lemma ResumeServes(lib: Lib, store: seq<Execution>, req: ListRequest, freshId: ObjectId, limit: int, j: nat)
    requires Wf(lib) && UniqueIds(store) && AllTimed(store) && limit != 0
    requires PlanWith(lib, req.(cursor := None), freshId, limit).Ok?
    requires j <= |Selected(lib, store, req)|
    ensures ServesPageOf(lib, c => ResponseWith(lib, store, req.(cursor := c), freshId, limit),
                         (i: nat) => CursorAt(lib, Selected(lib, store, req), i), Selected(lib, store, req), limit, j)
  {
    ResumeAt(lib, store, req, freshId, limit, j);
  }

  /** The page of the records after the first j of `a`, in terms of the cursors of `a`. */
  lemma PageShapeAt(lib: Lib, a: seq<Execution>, limit: int, j: nat)
    requires Wf(lib) && limit >= 1 && j <= |a|
    requires forall i :: 0 <= i < |a| ==> a[i].startTime.Some?
    ensures ShapeAt(lib, (i: nat) => CursorAt(lib, a, i), a, limit, j)
  {
    if |a| - j > limit {
      assert a[j..][limit - 1] == a[j + limit - 1];
      PageWithCursor(lib, a[j..], limit);
      assert a[j..][..limit] == a[j..j + limit];
    }
  }

  lemma {:induction false} UniqueOnce(s: seq<Execution>, x: Execution)
    requires UniqueIds(s)
    ensures multiset(s)[x] == if x in s then 1 else 0
  {
    if s != [] {
      UniqueOnce(s[1..], x);
      assert s == [s[0]] + s[1..];
      if x == s[0] {
        assert x !in s[1..] by {
          forall i | 0 <= i < |s[1..]| ensures s[1..][i] != x {
            assert s[1..][i] == s[i + 1];
          }
        }
      }
    }
  }

  /** Every stored record the filter selects is read exactly once, and nothing else is read. */
  lemma ExactlyOnce(lib: Lib, store: seq<Execution>, req: ListRequest, freshId: ObjectId, limit: int, r: Execution)
    requires Wf(lib) && UniqueIds(store) && AllTimed(store) && limit >= 1
    requires PlanWith(lib, req.(cursor := None), freshId, limit).Ok?
    ensures var read := Follow(lib, store, req.(cursor := None), freshId, limit, |store|);
      && read.Some?
      && multiset(read.value)[r] == if r in store && Matches(lib, BuildFilters(lib, req.params).value, r) then 1 else 0
  {
    PaginationComplete(lib, store, req, freshId, limit);
    var filter := BuildFilters(lib, req.params).value;
    var p := x => Matches(lib, filter, x);
    WhereMultiset(store, p, r);
    UniqueOnce(store, r);
  }

  /** The listing as written: a positive (or absent) limit parameter gives a complete traversal. */
  lemma ListingComplete(lib: Lib, store: seq<Execution>, req: ListRequest, freshId: ObjectId)
    requires Wf(lib) && UniqueIds(store) && AllTimed(store)
    requires ListResponse(lib, store, req.(cursor := None), freshId).Ok?
    requires ParseLimit(lib, req.limit) >= 1
    ensures Follow(lib, store, req.(cursor := None), freshId, ParseLimit(lib, req.limit), |store|) == Some(Selected(lib, store, req))
  {
    PaginationComplete(lib, store, req, freshId, ParseLimit(lib, req.limit));
  }

  /**
    The listing as written, with `limit=-1`: the store is queried without a
    limit, the last selected record is cut off, and no cursor is returned, so
    that record is never read.
   */
  lemma MinusOneDropsLast(lib: Lib, store: seq<Execution>, req: ListRequest, freshId: ObjectId, fuel: nat)
    requires req.limit.Some? && lib.toNumber(req.limit.value) == Int(-1)
    requires ListResponse(lib, store, req.(cursor := None), freshId).Ok?
    requires Selected(lib, store, req) != []
    ensures ParseLimit(lib, req.limit) == -1
    ensures var a := Selected(lib, store, req);
      Follow(lib, store, req.(cursor := None), freshId, -1, fuel) == Some(a[..|a| - 1])
  {
    MatchingAll(lib, store, req);
  }

  /** The evidently intended page size: `limit` clamped to 1..100, 50 when absent, zero or not a number. */
  function ClampedLimit(lib: Lib, raw: Option<string>): (limit: int)
    ensures 1 <= limit <= MaxLimit
    ensures ParseLimit(lib, raw) >= 1 ==> limit == ParseLimit(lib, raw)
  {
    var limit := ParseLimit(lib, raw);
    if limit < 1 then 1 else limit
  }

  /** With the clamped page size the traversal is complete for every value of the limit parameter. */
  lemma ClampedListingComplete(lib: Lib, store: seq<Execution>, req: ListRequest, freshId: ObjectId)
    requires Wf(lib) && UniqueIds(store) && AllTimed(store)
    requires PlanWith(lib, req.(cursor := None), freshId, ClampedLimit(lib, req.limit)).Ok?
    ensures Follow(lib, store, req.(cursor := None), freshId, ClampedLimit(lib, req.limit), |store|) == Some(Selected(lib, store, req))
  {
    PaginationComplete(lib, store, req, freshId, ClampedLimit(lib, req.limit));
  }
}
