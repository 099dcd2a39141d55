# Interface-execution monitoring backend, in Dafny

This project models the core of a monitoring backend for interface executions.
An execution is one run of an integration interface: its name, integration key, status, start and end time, duration, message, severity and tags.
The backend stores executions in MongoDB and serves them over HTTP.
The model covers these parts:

- the `InterfaceExecution` schema: the record, its enumerations, its defaults and its validators (`execution.dfy`);
- the query builder that turns query-string parameters into a MongoDB filter (`filters.dfy`);
- the opaque pagination cursor: the base64 of the UTF-8 bytes of the ISO start time and the hex `_id`, joined by a vertical bar (`cursor.dfy`, with `base64.dfy`, `utf8.dfy` and `object_ids.dfy`);
- `listExecutions`: limit, sort direction, seek condition, the fetch of `limit + 1` sorted records and the cut to one page (`listing.dfy`, `ordering.dfy`);
- a client that follows `nextCursor` from page to page, and what it reads (`pagination.dfy`);
- `getSummary`: the time window, the cache key, `byStatus`, `totals` and `topFailures` (`summary.dfy`, `ranking.dfy`);
- the 30-second Redis cache in front of `getSummary`, as a class whose map of entries the handler updates (`cache.dfy`);
- `getChartData`: time buckets, one row per bucket in ascending key order, and per-status counts in each row (`chart.dfy`);
- the seed script `run`: its batching loop and the documents it builds (`seed.dfy`);
- the `Math.min(2000000, count)` cap of the `generateTestData` handler (`seed.dfy`).

The JavaScript and MongoDB functions the code calls but the model cannot see are passed in as one value of type `Runtime.Lib`:
`toISOString`, `new Date(text)`, `Number(text)`, `new RegExp(text, "i")` and its matching, `$text` search, and `$dateToString`.
The predicate `Runtime.Wf` states the only facts the proofs assume about them:

- parsing an ISO string gives its time back;
- the ISO string is ASCII and never contains the cursor separator `|`;
- the ISO string ends with `Z` and has no other `Z`. This holds for the 24-character form `YYYY-MM-DDTHH:mm:ss.sssZ` and for the 27-character extended-year form `+YYYYYY-MM-DDTHH:mm:ss.sssZ`.

`Runtime.WfSatisfiable` gives a concrete library that meets all three facts, so no contract that requires `Wf` holds vacuously.

The clock (`Date.now()`), the fresh ObjectId made by `new ObjectId(undefined)` and faker's random values are parameters too.

In three places the code behaves differently from what a quick reading suggests. The model follows the code each time:

- **Zero durations.** `minDuration=0` is not treated as absent. Query-string values are strings, and `"0"` is truthy, so the code adds the bound `duration >= 0`.
- **The limit.** The page size is not clamped to 1..100. The code only clamps from above, with `Math.min(100, ...)`, so a negative limit reaches MongoDB. See "Findings".
- **The chart average.** A chart row's `avgDuration` is not the mean over the bucket's records. The code takes the unweighted mean of the per-status means (line 201 of `src/controllers/executionsController.js`).

## Model

| member | source | states |
|---|---|---|
| InterfaceExecution.ParseStatus | src/models/InterfaceExecution.js:6-10 | a status text is accepted exactly when it is one of SUCCESS, FAILED, WARNING, PENDING, and its name reads back |
| InterfaceExecution.ParseSeverity | src/models/InterfaceExecution.js:16-21 | a severity text is accepted exactly when it is one of LOW, MEDIUM, HIGH, CRITICAL, and its name reads back |
| InterfaceExecution.Violations | src/models/InterfaceExecution.js:3-25 | a path is reported exactly when its validator fails: a missing or empty required string, or a status or severity outside its enumeration |
| InterfaceExecution.Create | src/models/InterfaceExecution.js:3-25 | creation fails exactly when some validator fails and reports all failing paths; otherwise the record keeps the document's fields, gets severity LOW and empty tags by default, and createdAt = updatedAt = now |
| InterfaceExecution.CreateToDoc | src/models/InterfaceExecution.js:3-25 | a record written back as a document is accepted exactly when its required strings are non-empty, and then it is recreated unchanged |
| InterfaceExecution.SeverityDefaultsToLow | src/models/InterfaceExecution.js:16-21 | a valid document without status or severity is stored with no status and severity LOW |
| Filters.BuildFilters | src/controllers/executionsController.js:7-30 | the filter has a startTime range iff start or end is truthy, a status list iff status is truthy (a single value becomes a one-element list), a duration range iff minDuration or maxDuration is truthy; an interfaceName that is not a valid regular expression is an error |
| Filters.Matches | src/controllers/executionsController.js:11-28 | MongoDB's reading of the built filter: a record without a start time, duration, status or message never matches a clause on that field |
| Filters.Satisfies | src/controllers/executionsController.js:7-30 | the parameters read directly: a record meeting a date or duration parameter has that field, and a start later than the end selects nothing |
| Filters.BuildFiltersSelects | src/controllers/executionsController.js:7-30 | a record matches the built filter exactly when it meets every truthy parameter read directly: the date bounds, the status list, the case-insensitive regex, the text search and the duration bounds |
| Filters.BuildFiltersCastable | src/controllers/executionsController.js:11-28 | the filter can be cast exactly when every truthy date parses and every truthy duration is a number |
| Filters.NoParamsSelectAll | src/controllers/executionsController.js:7-30 | without truthy parameters the filter is empty and selects every record |
| ObjectIds.ParseObjectId | src/controllers/executionsController.js:60 | `new ObjectId(text)` accepts exactly the texts of 24 hexadecimal digits |
| ObjectIds.ToHex | src/controllers/executionsController.js:40 | `_id.toString()` is 24 hexadecimal digits, all ASCII and none of them the cursor separator |
| ObjectIds.ParseToHex | src/controllers/executionsController.js:40 | reading back the text of an ObjectId gives the same ObjectId |
| Base64.Encode | src/controllers/executionsController.js:41 | base64 text has 4 characters per started group of 3 bytes |
| Base64.DecodeEncode | src/controllers/executionsController.js:35-41 | decoding the base64 of any bytes gives those bytes back |
| Utf8.EncodeChar | src/controllers/executionsController.js:41 | a character takes 1 to 4 bytes, and exactly the ASCII characters take one byte equal to their code |
| Utf8.DecodeEncodeAscii | src/controllers/executionsController.js:35-41 | an ASCII text survives the trip through UTF-8 bytes unchanged |
| Cursor.Split | src/controllers/executionsController.js:35 | splitting at the cursor separator gives at least one part, no part holds the separator, and joining the parts gives the text back |
| Cursor.SplitJoin | src/controllers/executionsController.js:35 | splitting the join of separator-free parts gives those parts |
| Cursor.PayloadFields | src/controllers/executionsController.js:35 | the id field of a decoded cursor is undefined exactly when the text has no separator |
| Cursor.PayloadRoundTrip | src/controllers/executionsController.js:35-40 | the two fields of a cursor text come back as written exactly when the id has no separator; otherwise the id is cut at its first separator |
| Cursor.DecodeCursor | src/controllers/executionsController.js:33-37 | decodeCursor gives null exactly for a missing or empty token |
| Cursor.EncodeCursor | src/controllers/executionsController.js:38-42 | encodeCursor gives null for no record, fails exactly for a record without startTime, and otherwise gives a non-empty token |
| Cursor.PayloadAscii | src/controllers/executionsController.js:40 | the cursor text of a record is ASCII and its two fields hold no separator |
| Cursor.CursorRoundTrip | src/controllers/executionsController.js:33-42 | decoding the cursor of a record with a start time gives back its start time and the text of its id |
| Ordering.BeforeIrreflexive | src/controllers/executionsController.js:75 | no record comes before itself in the (startTime, _id) order |
| Ordering.BeforeTransitive | src/controllers/executionsController.js:75 | the (startTime, _id) order is transitive in both directions |
| Ordering.BeforeTotal | src/controllers/executionsController.js:75 | records with different ids are always ordered one way or the other |
| Ordering.SortBy | src/controllers/executionsController.js:75 | the store's sort is a permutation of its input |
| Ordering.SortBySorted | src/controllers/executionsController.js:75 | with unique ids, the sorted result is strictly ordered by (startTime, _id) |
| Ordering.SortedUnique | src/controllers/executionsController.js:75 | two strictly sorted sequences with the same elements are equal, so the sort order is deterministic |
| Ordering.SortWhere | src/controllers/executionsController.js:74-75 | filtering after sorting gives the same as sorting after filtering |
| Ordering.AfterIsSuffix | src/controllers/executionsController.js:53-75 | in a sorted result, the records after position k - 1 are exactly the suffix from k |
| Listing.ParseLimit | src/controllers/executionsController.js:46 | the limit is at most 100 and never 0; missing, NaN or 0 gives 50; it is negative exactly when the parameter is a negative number; a positive number n gives min(100, n) |
| Listing.ParseDirection | src/controllers/executionsController.js:48 | the sort is ascending exactly when the parameter is "asc" |
| Listing.SeekFor | src/controllers/executionsController.js:53-72 | a cursor with an id text that is not an ObjectId is an error; otherwise the seek keeps the cursor time, takes the parsed cursor id (or the fresh id when the cursor has none), and is the "below" form exactly for a descending sort |
| Listing.PlanWith | src/controllers/executionsController.js:46-72 | a successful plan can be cast, uses the built filter and the parsed direction, and has a seek exactly when a non-empty cursor was given, namely the seek of the decoded cursor; a filter error propagates; the result is InvalidObjectId exactly when the filter builds and the cursor's id text is not an ObjectId, and CastError exactly when the filter builds, the seek builds, and a date or number bound or the cursor time is NaN |
| Listing.MongoLimit | src/controllers/executionsController.js:76 | `limit(n)` returns at most n records for a positive n and at most -n for a negative one |
| Listing.Splice | src/controllers/executionsController.js:86 | `splice(start)` never lengthens the array |
| Listing.ListExecutions | src/controllers/executionsController.js:44-92 | the handler's steps (fetch limit + 1, read docs[limit - 1], encode, splice) give exactly the response `ListResponse` describes |
| Listing.FetchAndCut | src/controllers/executionsController.js:74-87 | for every non-zero limit, fetching limit + 1 records and cutting at limit gives the page `PageOf` states directly |
| Listing.FetchAndCutMinusOne | src/controllers/executionsController.js:46-87 | with limit -1 the fetch has no limit, `docs[-2]` is undefined so no cursor is encoded, and `splice(-1)` leaves all records but the last |
| Listing.PageShape | src/controllers/executionsController.js:82-87 | with a positive limit a page holds the first min(limit, n) records, and has a cursor exactly when more records follow; the cursor is that of its last record |
| Listing.PageFails | src/controllers/executionsController.js:82-87 | a page fails exactly when more records follow and its last record has no start time |
| Listing.SeekIsAfter | src/controllers/executionsController.js:53-72 | for records with a start time, the seek condition built from the cursor of x holds exactly for the records after x in the sort order |
| Listing.PagePrefix | src/controllers/executionsController.js:74-87 | every page, whatever the limit, is a prefix of the sorted result |
| Listing.MatchingSorted | src/controllers/executionsController.js:74-80 | the query result is strictly sorted and holds only stored records that satisfy the query |
| Listing.ListedRecords | src/controllers/executionsController.js:44-92 | every listed record is stored and satisfies the query, and the items come in strict sort order |
| Pagination.SelectedFromStore | src/controllers/executionsController.js:50-80 | the selected records are stored records that match the filter, no more than the store holds |
| Pagination.SelectedTimed | src/controllers/executionsController.js:50-80 | when every stored record has a start time, so does every selected one |
| Pagination.MatchingAll | src/controllers/executionsController.js:50-80 | without a cursor the query returns all selected records in order |
| Pagination.MatchingAfter | src/controllers/executionsController.js:53-80 | with the cursor of the k-th selected record the query returns exactly the selected records after it |
| Pagination.PlanAfter | src/controllers/executionsController.js:47-72 | the cursor of a selected record decodes into the seek condition built from that record |
| Pagination.ResumeAt | src/controllers/executionsController.js:44-92 | resuming from the cursor of the k-th selected record serves the page of the records after it |
| Pagination.ChaseFrom | src/controllers/executionsController.js:82-88 | a client that follows cursors from the k-th record, where every position serves its page, reads the rest of the records in order |
| Pagination.ServesFromPages | src/controllers/executionsController.js:82-88 | the page at each position, as the handler serves it, has the shape the traversal needs |
| Pagination.PageWithCursor | src/controllers/executionsController.js:82-87 | a page cut at limit carries the cursor of its last record |
| Pagination.PageAt | src/controllers/executionsController.js:44-92 | the page served from the cursor of the j-th selected record is the one the traversal needs |
| Pagination.ResumeServes | src/controllers/executionsController.js:44-92 | resuming serves the page of the remaining records, for the client that replaces only the cursor |
| Pagination.PageShapeAt | src/controllers/executionsController.js:82-87 | the page of the records after position j is stated in terms of the cursors of the selection |
| Pagination.Follow | src/controllers/executionsController.js:82-88 | a client that re-sends the request with each nextCursor: what it reads begins with the first response's items, and is exactly those items when that response has no cursor |
| Pagination.PaginationComplete | src/controllers/executionsController.js:44-92 | starting without a cursor and following nextCursor with a positive limit, a client reads exactly the selected records, in order |
| Pagination.UniqueOnce | src/controllers/executionsController.js:75 | with unique ids each record occurs at most once |
| Pagination.ExactlyOnce | src/controllers/executionsController.js:44-92 | the traversal reads every stored record the filter selects exactly once and nothing else |
| Pagination.ListingComplete | src/controllers/executionsController.js:44-92 | the handler as written gives a complete traversal whenever its limit parameter parses to a positive page size |
| Pagination.MinusOneDropsLast | src/controllers/executionsController.js:46-87 | with `limit=-1` the whole selection but its last record is returned with no cursor, so that record is never read |
| Pagination.ClampedLimit | src/controllers/executionsController.js:46 | the intended page size is within 1..100 and agrees with the handler whenever the handler's value is positive |
| Pagination.ClampedListingComplete | src/controllers/executionsController.js:44-92 | with the clamped page size the traversal is complete for every value of the limit parameter |
| Summary.RangeSpan | src/controllers/executionsController.js:100-108 | the span is 1 hour, 7 days or 30 days for "1h", "7d", "30d", and 24 hours for anything else |
| Summary.ResolveWindow | src/controllers/executionsController.js:96-111 | start and end come from the truthy parameters, otherwise end = now and start = now minus the span; an unparsable date is an error (toISOString throws) |
| Summary.DefaultWindow | src/controllers/executionsController.js:96-109 | without start and end the window is the span before now |
| Summary.ComputeSummary | src/controllers/executionsController.js:117-158 | the uncached summary of a window: the total is the number of records in the window, the byStatus counts add up to it, and topFailures has at most 10 entries |
| Summary.SummaryResponse | src/controllers/executionsController.js:94-158 | getSummary without its cache fails with InvalidTime exactly when the window cannot be resolved; otherwise its range is the window's ISO texts, its total the window's record count, and the byStatus counts add up to that total |
| Summary.CacheKeyInjective | src/controllers/executionsController.js:111 | two windows share a cache key only if they are the same window; the start's ISO text is recovered as the key text up to its first `Z` |
| Summary.AverageOf | src/controllers/executionsController.js:124 | `$avg` is null exactly when no record has a duration, and otherwise is the sum and the count of the durations of exactly the records that have one |
| Summary.GroupsOver | src/controllers/executionsController.js:119-126 | every group carries one of the grouped statuses |
| Summary.Names | src/controllers/executionsController.js:148 | the interface names of the records, position by position |
| Summary.Distinct | src/controllers/executionsController.js:148 | each name of the input exactly once |
| Summary.CountsFor | src/controllers/executionsController.js:148 | each group counts the failed records with its name |
| Summary.GroupsOverSum | src/controllers/executionsController.js:119-126 | the group counts add up to the number of records whose status is grouped |
| Summary.StatusKeysComplete | src/models/InterfaceExecution.js:6-10 | every status a record can have, a missing one included, is grouped |
| Summary.GroupsTotal | src/controllers/executionsController.js:119-126 | grouping by status puts every record in exactly one group |
| Summary.ByStatusTotal | src/controllers/executionsController.js:118-129 | the byStatus counts add up to the number of records in the window |
| Summary.ByStatusPresent | src/controllers/executionsController.js:118-129 | a status has a group exactly when some record in the window has it |
| Summary.ByStatusSpec | src/controllers/executionsController.js:118-141 | byStatus is sorted by count, highest first; each group counts and averages exactly its status; no status appears twice; the counts add up to totals.total |
| Summary.GroupsOverCounts | src/controllers/executionsController.js:121-126 | every group counts and averages exactly the records with its status, and is non-empty |
| Summary.GroupsOverDistinct | src/controllers/executionsController.js:121-126 | no two groups share a status |
| Summary.GroupsOverHas | src/controllers/executionsController.js:121-126 | a status with records has a group |
| Summary.RankedCounts | src/controllers/executionsController.js:144-149 | every ranked entry counts the failures of its interface in the window, at least one |
| Summary.RankedEntry | src/controllers/executionsController.js:144-149 | every interface with a failure in the window is ranked with its count |
| Summary.RankedDistinct | src/controllers/executionsController.js:148 | no interface is ranked twice |
| Summary.TopFailuresSpec | src/controllers/executionsController.js:144-151 | topFailures has at most 10 entries, distinct interfaces, each with its failure count (never zero), highest first; an interface with failures is left out only when 10 others are listed, each with at least as many |
| Ranking.InsertDesc | src/controllers/executionsController.js:127 | inserting into the ranking adds exactly that element |
| Ranking.SortDesc | src/controllers/executionsController.js:127 | `$sort: {count: -1}` is a permutation of its input |
| Ranking.SortDescSorted | src/controllers/executionsController.js:127 | the ranking is sorted by key, highest first |
| Ranking.Take | src/controllers/executionsController.js:150 | `$limit: n` keeps the first min(n, length) entries |
| Ranking.LeftOutRanksLower | src/controllers/executionsController.js:149-150 | an entry cut by the limit means the limit is reached and every kept key is at least its key |
| Ranking.SortDescSum | src/controllers/executionsController.js:127 | ranking neither adds nor loses any count |
| Ranking.PermutationDistinct | src/controllers/executionsController.js:127 | reordering keeps the keys distinct |
| SummaryCache.Cache.constructor | src/controllers/executionsController.js:112 | the cache starts empty |
| SummaryCache.Cache.GetSummary | src/controllers/executionsController.js:94-165 | an unparsable window leaves the cache alone; a live entry is returned as stored; a miss aggregates, stores the response for 30 seconds under the window's key and returns it; while the executions do not change, the response equals the uncached one and every entry stays faithful |
| SummaryCache.StoreFaithful | src/controllers/executionsController.js:111-160 | storing a fresh aggregation under its window's key keeps every cached entry equal to the aggregation for its own window |
| SummaryCache.DefaultEndKeys | src/controllers/executionsController.js:99-111 | two requests without `end` made at different milliseconds never share a cache entry |
| Chart.ParseBucket | src/controllers/executionsController.js:169-186 | "minute" picks the minute format; a missing bucket or "hour" the hour format; anything else the day format |
| Chart.ChartResponse | src/controllers/executionsController.js:167-212 | getChartData fails exactly when its window does; otherwise its rows come in strictly ascending key order, every record of the window lands in a row with its bucket key, and the row counts add up to the number of records in the window |
| Chart.ChartWindow | src/controllers/executionsController.js:169-173 | start defaults to 24 hours before now and end to now; a given date is parsed |
| Chart.Stamps | src/controllers/executionsController.js:192 | each record's bucket key, in order |
| Chart.StrLessIrreflexive | src/controllers/executionsController.js:204 | no key sorts before itself |
| Chart.StrLessTransitive | src/controllers/executionsController.js:204 | the key order is transitive |
| Chart.StrLessTotal | src/controllers/executionsController.js:204 | any two different keys are ordered one way or the other |
| Chart.InsertKey | src/controllers/executionsController.js:198-204 | inserting a key adds exactly that key |
| Chart.InsertKeyAscending | src/controllers/executionsController.js:198-204 | inserting keeps the keys strictly ascending |
| Chart.SortedKeys | src/controllers/executionsController.js:198-204 | the grouped keys are exactly the keys of the records |
| Chart.SortedKeysAscending | src/controllers/executionsController.js:204 | the grouped keys are strictly ascending |
| Chart.StatusCounts | src/controllers/executionsController.js:200 | each pushed `{status, count}` is that of a first-stage group |
| Chart.RowsFor | src/controllers/executionsController.js:197-204 | one row per key, in the order of the keys |
| Chart.StatusCountsSum | src/controllers/executionsController.js:200 | pushing keeps the sum of the counts |
| Chart.StampedBucket | src/controllers/executionsController.js:190-199 | a key taken from a record never has an empty bucket |
| Chart.RowsAscending | src/controllers/executionsController.js:204 | rows come in strictly ascending key order, so no bucket appears twice |
| Chart.RowsCover | src/controllers/executionsController.js:188-205 | every record of the window lands in a row, and every row's bucket holds at least one record |
| Chart.RowCounts | src/controllers/executionsController.js:190-203 | a row lists each status seen in its bucket once, with that status's count there (at least one), and the counts add up to the bucket's size |
| Chart.RowsForTotal | src/controllers/executionsController.js:188-205 | the counts over the rows of ascending keys add up to the number of records whose key is among them |
| Chart.RowsTotalCount | src/controllers/executionsController.js:188-205 | every record of the window is counted in exactly one row: all row counts add up to the window's size |
| Seed.Lower | src/seed/generateTestData.js:45 | `toLowerCase` on ASCII maps A..Z to a..z and keeps every other character |
| Seed.Decimal | src/seed/generateTestData.js:45-48 | the decimal text of a number is non-empty and made of digits |
| Seed.DecimalValue | src/seed/generateTestData.js:45-48 | reading the decimal text back gives the number |
| Seed.GeneratedValid | src/seed/generateTestData.js:33-69 | every generated document passes the schema's validators |
| Seed.GeneratedDoc | src/seed/generateTestData.js:33-69 | the document carries the drawn interface, status and times, with end = start + duration; message "OK" and no error details exactly when not FAILED; the tag "generated"; a key of the lower-cased interface, "_" and a number |
| Seed.GeneratedRecord | src/seed/generateTestData.js:33-69 | the stored record has severity LOW exactly when it did not fail, a duration within 100..10000, end = start + duration, a message and error details only on failure, and the tag "generated" |
| Seed.Docs | src/seed/generateTestData.js:32-69 | one document per draw, in order |
| Seed.DocsAppend | src/seed/generateTestData.js:32-69 | the documents of two runs of draws are those of each, in order |
| Seed.Run | src/seed/generateTestData.js:7-90 | the loop ends with created = max(n, 0), or 0 for NaN; the batches, in order, hold exactly the documents of the first `created` draws; every batch holds 1..batchSize documents and all but the last are full |
| Seed.FillBatch | src/seed/generateTestData.js:30-68 | one batch stops after batchSize documents or when created reaches n; it holds the documents of the draws from the old `created` to the new one, in order, and at least one |
| Seed.SeedCount | src/controllers/executionsController.js:216-219 | the count handed to run is 1000 when absent, NaN exactly when the body's count is not a number, never above 2000000, and the count itself when it is at most 2000000 |

## Left out

- I/O: the MongoDB queries are functions over a sequence of stored records, and Redis is the `entries` map of `SummaryCache.Cache`. HTTP, `res.json`, `next(err)`, logging, the 50 ms pause, `connectDB`, `mongoose.connection.close` and `process.exit` are left out.
- The `.select(...)` projection and `.lean()` of `listExecutions`: items are whole records.
- JSON serialisation of the cached summary. The cache stores the response value, and `JSON.parse(JSON.stringify(x))` is taken to give `x` back.
- Floating point. Averages are kept as `(sum, count)`. The chart row's `avgDuration`, a floating-point mean of the per-status means, is left out of `Chart.ChartRow`.
- getSummary and getChartData read the clock twice (`new Date()` and `Date.now()`). The model reads it once, as the `now` parameter.
- Filters.BuildFilters: `new Date(text)`, `Number(text)` and `$text` search are abstract (`Runtime.Lib`). Only their results are modelled: a time, NaN, match or no match.
- Filters.BuildFilters: duration bounds and stored durations are integers or NaN. A fractional bound such as `?minDuration=150.5` (`$gte: 150.5`) is not modelled. Neither is an infinite bound: `?maxDuration=Infinity` selects every timed record and `?minDuration=Infinity` selects none. A fractional `duration`, which the schema's `Number` type allows, is not modelled either.
- Utf8.Decode: every non-ASCII byte decodes to U+FFFD. Node decodes well-formed multi-byte sequences. The cursor payloads the handler writes are ASCII, so round trips are unaffected.
- Base64.Decode: Node's lenient decoding is modelled as skipping characters outside the alphabet and stopping at the first `=`.
- Chart.ChartWindow: an unparsable `start` or `end` is an error in the model. What the driver does with an Invalid Date in an aggregation pipeline is not modelled.
- Chart.Row: the order of the statuses within a row is unspecified after `$group`. The model lists them in a fixed status order.
- Summary.ByStatus: MongoDB leaves the order of groups with equal counts unspecified. The model breaks ties with a fixed, stable order.
- Summary.TopFailures: as for byStatus, ties are broken by a fixed, stable order. The contract states only what holds for every tie order.
- Summary.TotalsOf: the `{total: 0, avgDuration: 0}` of an empty window is `Totals(0, Mean(0, 1))`, a mean of 0.
- Pagination.PaginationComplete: the traversal theorem assumes every stored record has a start time and ids are unique. `encodeCursor` throws on a record without a start time, and `Listing.PageFails` states when.
- Pagination.ListingComplete: requires the parsed limit to be positive. For negative limits, see "Findings".
- Listing.ListExecutions: a non-integer or infinite `limit` (for example `2.5`) is not modelled, because numbers are integers or NaN.
- Seed.SeedCount: a fractional or infinite count is not modelled, because numbers are integers or NaN. For example, `{count: 2.5}` makes `run` create 3 records.
- Seed.Run: `n` is an integer or NaN. A fractional `n` runs the loop up to the next integer, which is not modelled.
- Times: `Runtime.Time` is an unbounded integer. A JavaScript Date holds at most 8.64e15 ms either side of the epoch, and `toISOString` throws beyond that. The model treats every integer as a valid time.
- InterfaceExecution.Create: Mongoose calls `Date.now` once for `createdAt` and once for `updatedAt`, so the two can differ by a millisecond. The model reads the clock once, as `now`.
- Seed.Run: faker's random values are the `draws` parameter, and `Seed.Drawn` states faker's range guarantees. `insertMany` is left out. A failing batch is only logged and `created` has already advanced, so the loop does not depend on the insert.
- Seed.Run: requires `batchSize >= 1`. With 0, a negative value or NaN, the inner loop adds nothing and the outer loop never ends. `batchSize` is an integer in the model. The command line passes `Number(process.argv[3] || 1000)`, so a fractional `batchSize` such as `2.5` gives batches of 3 records, and that is not modelled.
- Seed.SeedCount: a JSON `null` count (`Number(null)` is 0) is not distinguished from a numeric text.
- The `faker.date.recent` window, and `startTime` within the last 30 days, are not stated: the start time is a free parameter.
- Indexes (`index: true` and the two compound indexes) affect only speed and are left out.
- Concurrency: two requests that miss the cache at the same time both aggregate and both write. Each call of `GetSummary` is modelled as atomic.

## Findings

| source | as written | input that shows it | evidently intended | confidence | as-written member | corrected member |
|---|---|---|---|---|---|---|
| src/controllers/executionsController.js:46 | the limit is `Math.min(100, n)`, where n is `Number(limit)` or 50 when that is falsy; it clamps only from above, so a negative limit reaches `.limit(limit + 1)` and `docs[limit - 1]` | `GET /executions?limit=-1`: `limit(0)` means "no limit", all selected records are fetched, `splice(-1)` drops the last one and `nextCursor` stays null, so that record is never listed | the page size is clamped to 1..100, so that every selected record is reachable by following cursors | not executed | Pagination.MinusOneDropsLast | Pagination.ClampedListingComplete |
