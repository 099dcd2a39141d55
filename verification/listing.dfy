/**
  listExecutions: parse the limit and the sort, decode the cursor into a strict
  seek condition on (startTime, _id), fetch `limit + 1` sorted records, and cut
  the page to `limit` records with a cursor for the next one.
 */
module Listing {
  import opened Wrappers
  import opened Runtime
  import opened ObjectIds
  import opened InterfaceExecution
  import opened Sequences
  import opened Filters
  import opened Ordering
  import opened Cursor

  datatype ListRequest = ListRequest(
    params: FilterParams,
    limit: Option<string>,
    cursor: Option<string>,
    sort: Option<string>
  )

  /** The `$or` added for a cursor: strictly below it for a descending sort, strictly above for an ascending one. */
  datatype Seek = Below(ts: JsNumber, id: ObjectId) | Above(ts: JsNumber, id: ObjectId)

  datatype Query = Query(filter: Filter, seek: Option<Seek>)

  datatype Plan = Plan(query: Query, dir: Direction, limit: int)

  datatype Page = Page(items: seq<Execution>, nextCursor: Option<string>)

  const MaxLimit: int := 100
  const DefaultLimit: int := 50

  function Min(a: int, b: int): int
  {
    if a < b then a else b
  }

  /** `Math.min(100, Number(limit) || 50)` */
  function ParseLimit(lib: Lib, raw: Option<string>): (limit: int)
    ensures limit <= MaxLimit && limit != 0
    ensures raw.None? || lib.toNumber(raw.value) == NaN || lib.toNumber(raw.value) == Int(0) ==> limit == DefaultLimit
    ensures limit < 0 <==> raw.Some? && lib.toNumber(raw.value).Int? && lib.toNumber(raw.value).value < 0
    ensures raw.Some? && lib.toNumber(raw.value).Int? && lib.toNumber(raw.value).value > 0 ==>
      limit == Min(MaxLimit, lib.toNumber(raw.value).value)
  {
    var n := if raw.None? then NaN else lib.toNumber(raw.value);
    var v := if n.NaN? || n.value == 0 then DefaultLimit else n.value;
    Min(MaxLimit, v)
  }

  /** `sort === "asc" ? 1 : -1` */
  function ParseDirection(raw: Option<string>): (dir: Direction)
    ensures dir == Ascending <==> raw == Some("asc")
  {
    if raw == Some("asc") then Ascending else Descending
  }

  /** The seek clause; an Invalid Date never gets this far (the query fails to cast). */
  predicate SeekMatches(s: Seek, r: Execution)
  {
    && s.ts.Int?
    && r.startTime.Some?
    && match s
       case Below(ts, id) => r.startTime.value < ts.value || (r.startTime.value == ts.value && r.id < id)
       case Above(ts, id) => r.startTime.value > ts.value || (r.startTime.value == ts.value && r.id > id)
  }

  predicate QueryMatches(lib: Lib, q: Query, r: Execution)
  {
    Matches(lib, q.filter, r) && (q.seek.Some? ==> SeekMatches(q.seek.value, r))
  }

  predicate QueryCastable(q: Query)
  {
    Castable(q.filter) && (q.seek.Some? ==> q.seek.value.ts.Int?)
  }

  /** The seek condition for a decoded cursor: `new ObjectId(cursor.id)` throws on bad text and makes a fresh id for undefined. */
  function SeekFor(dir: Direction, c: RawCursor, freshId: ObjectId): (r: Result<Seek, Failure>)
    ensures r.Err? <==> c.id.Some? && ParseObjectId(c.id.value).None?
    ensures r.Err? ==> r.error == InvalidObjectId
    ensures r.Ok? ==> r.value.ts == c.ts && (r.value.Below? <==> dir == Descending)
    ensures r.Ok? ==> r.value.id == if c.id.None? then freshId else ParseObjectId(c.id.value).value
  {
    var id := if c.id.None? then Some(freshId) else ParseObjectId(c.id.value);
    if id.None? then Err(InvalidObjectId)
    else if dir == Descending then Ok(Below(c.ts, id.value))
    else Ok(Above(c.ts, id.value))
  }

  /**
    Everything listExecutions works out before it queries the store, for a given
    page size: the direction, the filter and the seek condition, or the error
    thrown on the way.
   */
  function PlanWith(lib: Lib, req: ListRequest, freshId: ObjectId, limit: int): (r: Result<Plan, Failure>)
    requires limit != 0
    ensures r.Ok? ==> QueryCastable(r.value.query) && r.value.limit == limit
    ensures r.Ok? ==> r.value.dir == ParseDirection(req.sort) && BuildFilters(lib, req.params) == Ok(r.value.query.filter)
    ensures r.Ok? ==> (r.value.query.seek.None? <==> req.cursor.None? || req.cursor.value == "")
    ensures BuildFilters(lib, req.params).Err? ==> r == Err(BuildFilters(lib, req.params).error)
    ensures r.Ok? && r.value.query.seek.Some? ==>
      DecodeCursor(lib, req.cursor).Some? && SeekFor(r.value.dir, DecodeCursor(lib, req.cursor).value, freshId) == Ok(r.value.query.seek.value)
    ensures r == Err(InvalidObjectId) <==>
      && BuildFilters(lib, req.params).Ok?
      && DecodeCursor(lib, req.cursor).Some?
      && DecodeCursor(lib, req.cursor).value.id.Some?
      && ParseObjectId(DecodeCursor(lib, req.cursor).value.id.value).None?
    ensures r == Err(CastError) <==>
      && BuildFilters(lib, req.params).Ok?
      && (DecodeCursor(lib, req.cursor).Some? ==> SeekFor(ParseDirection(req.sort), DecodeCursor(lib, req.cursor).value, freshId).Ok?)
      && (!Castable(BuildFilters(lib, req.params).value) || (DecodeCursor(lib, req.cursor).Some? && DecodeCursor(lib, req.cursor).value.ts.NaN?))
  {
    var cursor := DecodeCursor(lib, req.cursor);
    var dir := ParseDirection(req.sort);
    match BuildFilters(lib, req.params)
    case Err(e) => Err(e)
    case Ok(filter) =>
      if cursor.None? then
        if Castable(filter) then Ok(Plan(Query(filter, None), dir, limit)) else Err(CastError)
      else
        match SeekFor(dir, cursor.value, freshId)
        case Err(e) => Err(e)
        case Ok(seek) =>
          var query := Query(filter, Some(seek));
          if QueryCastable(query) then Ok(Plan(query, dir, limit)) else Err(CastError)
  }

  /** The plan of listExecutions, whose page size comes from the `limit` parameter. */
  function PlanRequest(lib: Lib, req: ListRequest, freshId: ObjectId): Result<Plan, Failure>
  {
    PlanWith(lib, req, freshId, ParseLimit(lib, req.limit))
  }

  /** The records the query selects, in the store's sort order. */
  function Matching(lib: Lib, store: seq<Execution>, q: Query, dir: Direction): seq<Execution>
  {
    SortBy(dir, Where(store, r => QueryMatches(lib, q, r)))
  }

  /** cursor.limit(n): 0 means no limit, and a negative n returns at most -n records. */
  function MongoLimit(s: seq<Execution>, n: int): (r: seq<Execution>)
    ensures n != 0 ==> |r| <= if n > 0 then n else -n
  {
    var k := if n == 0 then |s| else if n > 0 then n else -n;
    if k < |s| then s[..k] else s
  }

  /** find(query).sort({startTime: dir, _id: dir}).limit(n) */
  function Find(lib: Lib, store: seq<Execution>, plan: Plan, n: int): seq<Execution>
  {
    MongoLimit(Matching(lib, store, plan.query, plan.dir), n)
  }

  /** docs[i]: undefined (None) outside the array, negative indexes included. */
  function ElementAt(s: seq<Execution>, i: int): Option<Execution>
  {
    if 0 <= i < |s| then Some(s[i]) else None
  }

  /** What docs.splice(start) leaves in docs: a negative start counts from the end. */
  function Splice(s: seq<Execution>, start: int): (r: seq<Execution>)
    ensures |r| <= |s|
  {
    var k := if start < 0 then (if |s| + start < 0 then 0 else |s| + start) else start;
    if k < |s| then s[..k] else s
  }

  /**
    The page for a sorted result, stated directly: with a positive limit, the
    first `limit` records, and a cursor for the last of them when more follow.
    A limit of -1 fetches without limit and keeps all but the last record; a
    smaller limit keeps nothing.
   */
  function PageOf(lib: Lib, sorted: seq<Execution>, limit: int): Result<Page, Failure>
    requires limit != 0
  {
    if limit < -1 then Ok(Page([], None))
    else if limit == -1 then Ok(Page(if sorted == [] then [] else sorted[..|sorted| - 1], None))
    else if |sorted| <= limit then Ok(Page(sorted, None))
    else
      match EncodeCursor(lib, Some(sorted[limit - 1]))
      case Err(e) => Err(e)
      case Ok(token) => Ok(Page(sorted[..limit], token))
  }

  /** The response for a request served with the given page size. */
  function ResponseWith(lib: Lib, store: seq<Execution>, req: ListRequest, freshId: ObjectId, limit: int): Result<Page, Failure>
    requires limit != 0
  {
    match PlanWith(lib, req, freshId, limit)
    case Err(e) => Err(e)
    case Ok(plan) => PageOf(lib, Matching(lib, store, plan.query, plan.dir), limit)
  }

  /** The response of listExecutions, as a function of the store and the request. */
  function ListResponse(lib: Lib, store: seq<Execution>, req: ListRequest, freshId: ObjectId): Result<Page, Failure>
  {
    ResponseWith(lib, store, req, freshId, ParseLimit(lib, req.limit))
  }

  /** listExecutions: fetch one record more than the limit, then cut the array in place. */
  method ListExecutions(lib: Lib, store: seq<Execution>, req: ListRequest, freshId: ObjectId)
    returns (r: Result<Page, Failure>)
    ensures r == ListResponse(lib, store, req, freshId)
  {
    var plan := PlanRequest(lib, req, freshId);
    if plan.Err? {
      return Err(plan.error);
    }
    var limit := plan.value.limit;
    var docs := Find(lib, store, plan.value, limit + 1);
    var nextCursor: Option<string> := None;
    if |docs| > limit {
      var last := ElementAt(docs, limit - 1);
      var encoded := EncodeCursor(lib, last);
      if encoded.Err? {
        return Err(encoded.error);
      }
      nextCursor := encoded.value;
      docs := Splice(docs, limit);
    }
    r := Ok(Page(docs, nextCursor));
    FetchAndCut(lib, Matching(lib, store, plan.value.query, plan.value.dir), limit);
  }

  /** Fetching `limit + 1` records, reading `docs[limit - 1]` and splicing at `limit` give the page PageOf describes, for every non-zero limit. */
  lemma FetchAndCut(lib: Lib, sorted: seq<Execution>, limit: int)
    requires limit != 0
    ensures var docs := MongoLimit(sorted, limit + 1);
      var encoded := EncodeCursor(lib, ElementAt(docs, limit - 1));
      if |docs| > limit then
        if encoded.Err? then PageOf(lib, sorted, limit) == Err(encoded.error)
        else PageOf(lib, sorted, limit) == Ok(Page(Splice(docs, limit), encoded.value))
      else PageOf(lib, sorted, limit) == Ok(Page(docs, None))
  {
    if limit >= 1 {
      FetchAndCutPositive(lib, sorted, limit);
    } else if limit == -1 {
      FetchAndCutMinusOne(lib, sorted);
    } else {
      FetchAndCutBelow(lib, sorted, limit);
    }
  }

  lemma FetchAndCutPositive(lib: Lib, sorted: seq<Execution>, limit: int)
    requires limit >= 1
    ensures var docs := MongoLimit(sorted, limit + 1);
      var encoded := EncodeCursor(lib, ElementAt(docs, limit - 1));
      if |docs| > limit then
        if encoded.Err? then PageOf(lib, sorted, limit) == Err(encoded.error)
        else PageOf(lib, sorted, limit) == Ok(Page(Splice(docs, limit), encoded.value))
      else PageOf(lib, sorted, limit) == Ok(Page(docs, None))
  {
    if |sorted| > limit {
      assert MongoLimit(sorted, limit + 1)[..limit] == sorted[..limit];
    }
  }

  /** `limit(0)` fetches everything; `docs[-2]` is undefined and `splice(-1)` drops the last record. */
  lemma FetchAndCutMinusOne(lib: Lib, sorted: seq<Execution>)
    ensures ElementAt(MongoLimit(sorted, 0), -2) == None && EncodeCursor(lib, None) == Ok(None)
    ensures PageOf(lib, sorted, -1) == Ok(Page(Splice(MongoLimit(sorted, 0), -1), None))
  {
    assert MongoLimit(sorted, 0) == sorted;
  }

  /** `limit(limit + 1)` with limit below -1 fetches at most -limit - 1 records, which is never more than limit. */
  lemma FetchAndCutBelow(lib: Lib, sorted: seq<Execution>, limit: int)
    requires limit < -1
    ensures var docs := MongoLimit(sorted, limit + 1);
      var encoded := EncodeCursor(lib, ElementAt(docs, limit - 1));
      if |docs| > limit then
        if encoded.Err? then PageOf(lib, sorted, limit) == Err(encoded.error)
        else PageOf(lib, sorted, limit) == Ok(Page(Splice(docs, limit), encoded.value))
      else PageOf(lib, sorted, limit) == Ok(Page(docs, None))
  {
    assert |MongoLimit(sorted, limit + 1)| <= -limit - 1;
  }

  /** A page holds at most `limit` records, the first ones of the sorted result, and a cursor exactly when more records follow. */
  lemma PageShape(lib: Lib, sorted: seq<Execution>, limit: int)
    requires limit >= 1
    requires PageOf(lib, sorted, limit).Ok?
    ensures var page := PageOf(lib, sorted, limit).value;
      && |page.items| == Min(limit, |sorted|)
      && page.items == sorted[..|page.items|]
      && (page.nextCursor.Some? <==> |sorted| > limit)
      && (page.nextCursor.Some? ==> EncodeCursor(lib, Some(page.items[limit - 1])) == Ok(page.nextCursor))
  {
  }

  /** A page fails only when its last record has no start time to put into the cursor. */
  lemma PageFails(lib: Lib, sorted: seq<Execution>, limit: int)
    requires limit >= 1
    ensures PageOf(lib, sorted, limit).Err? <==> |sorted| > limit && sorted[limit - 1].startTime.None?
  {
  }

  /** The seek condition listExecutions builds from the cursor of a record with a start time. */
  function SeekAfter(dir: Direction, x: Execution): Seek
    requires x.startTime.Some?
  {
    if dir == Descending then Below(Int(x.startTime.value), x.id) else Above(Int(x.startTime.value), x.id)
  }

  /** For a record with a start time, the seek condition built from its cursor holds exactly for the records after it in the sort order. */
  lemma SeekIsAfter(dir: Direction, x: Execution, r: Execution)
    requires x.startTime.Some? && r.startTime.Some?
    ensures SeekMatches(SeekAfter(dir, x), r) <==> Before(dir, x, r)
  {
  }

  /** Every page is a prefix of the sorted result, whatever the limit. */
  lemma PagePrefix(lib: Lib, sorted: seq<Execution>, limit: int)
    requires limit != 0
    requires PageOf(lib, sorted, limit).Ok?
    ensures var items := PageOf(lib, sorted, limit).value.items;
      |items| <= |sorted| && items == sorted[..|items|]
  {
  }

  /** The query's result is in strict sort order and holds only stored records that satisfy the query. */
  lemma MatchingSorted(lib: Lib, store: seq<Execution>, q: Query, dir: Direction)
    requires UniqueIds(store)
    ensures var m := Matching(lib, store, q, dir);
      && StrictlySorted(dir, m)
      && forall i :: 0 <= i < |m| ==> m[i] in store && QueryMatches(lib, q, m[i])
  {
    var p := r => QueryMatches(lib, q, r);
    var m := Matching(lib, store, q, dir);
    WhereUnique(store, p);
    SortBySorted(dir, Where(store, p));
    forall i | 0 <= i < |m| ensures m[i] in store && QueryMatches(lib, q, m[i]) {
      assert m[i] in multiset(Where(store, p));
    }
  }

  /** Every listed record satisfies the query, and the records come in strict sort order. */
  lemma ListedRecords(lib: Lib, store: seq<Execution>, req: ListRequest, freshId: ObjectId)
    requires UniqueIds(store)
    requires ListResponse(lib, store, req, freshId).Ok?
    ensures var plan := PlanRequest(lib, req, freshId).value;
      var items := ListResponse(lib, store, req, freshId).value.items;
      && StrictlySorted(plan.dir, items)
      && forall i :: 0 <= i < |items| ==> items[i] in store && QueryMatches(lib, plan.query, items[i])
  {
    var plan := PlanRequest(lib, req, freshId).value;
    var sorted := Matching(lib, store, plan.query, plan.dir);
    MatchingSorted(lib, store, plan.query, plan.dir);
    PagePrefix(lib, sorted, plan.limit);
  }
}
