/**
  getChartData: the executions that start in a window, grouped into time
  buckets keyed by `$dateToString` of their start time, one row per bucket in
  ascending key order, each row counting the records of every status seen in
  that bucket.
 */
module Chart {
  import opened Wrappers
  import opened Runtime
  import opened InterfaceExecution
  import opened Sequences
  import opened Filters
  import opened Ranking
  import opened Summary
  import Ordering

  datatype Bucket = Minute | Hour | Day

  datatype ChartParams = ChartParams(start: Option<string>, end: Option<string>, bucket: Option<string>)

  /** `{status, count}` pushed into a row by the second `$group`. */
  datatype StatusCount = StatusCount(status: Option<Status>, count: nat)

  datatype ChartRow = ChartRow(bucketKey: string, statuses: seq<StatusCount>)

  /** `bucket = "hour"` when absent; "minute" and "hour" pick their own format, anything else the day format. */
  function ParseBucket(raw: Option<string>): (b: Bucket)
    ensures b == Minute <==> raw == Some("minute")
    ensures b == Hour <==> raw == None || raw == Some("hour")
  {
    match raw
    case None => Hour
    case Some(text) => if text == "minute" then Minute else if text == "hour" then Hour else Day
  }

  function Format(b: Bucket): string
  {
    match b
    case Minute => "%Y-%m-%dT%H:%M"
    case Hour => "%Y-%m-%dT%H:00:00Z"
    case Day => "%Y-%m-%d"
  }

  /** The three bucket sizes use three different key formats. */
  /** The window: `start` defaults to 24 hours before now, `end` to now; an unparsable date is an error. */
  function ChartWindow(lib: Lib, q: ChartParams, now: Time): (r: Result<Window, Failure>)
    ensures r.Err? <==>
      (Truthy(q.start) && lib.parseDate(q.start.value).NaN?) || (Truthy(q.end) && lib.parseDate(q.end.value).NaN?)
    ensures r.Ok? ==> r.value.start == if Truthy(q.start) then lib.parseDate(q.start.value).value else now - DayMs
    ensures r.Ok? ==> r.value.end == if Truthy(q.end) then lib.parseDate(q.end.value).value else now
  {
    var start := if Truthy(q.start) then lib.parseDate(q.start.value) else Int(now - DayMs);
    var end := if Truthy(q.end) then lib.parseDate(q.end.value) else Int(now);
    if start.NaN? || end.NaN? then Err(InvalidTime) else Ok(Window(start.value, end.value))
  }

  /**
    The bucket key of a record: `$dateToString` of its start time. Only records
    in the window are keyed, and they all have a start time; the empty text
    stands for the null `$dateToString` gives a missing date.
   */
  function BucketKey(lib: Lib, fmt: string, r: Execution): string
  {
    match r.startTime
    case None => ""
    case Some(t) => lib.dateToString(fmt, t)
  }

  function Stamps(lib: Lib, fmt: string, rs: seq<Execution>): (keys: seq<string>)
    ensures |keys| == |rs|
    ensures forall i :: 0 <= i < |rs| ==> keys[i] == BucketKey(lib, fmt, rs[i])
  {
    if rs == [] then [] else [BucketKey(lib, fmt, rs[0])] + Stamps(lib, fmt, rs[1..])
  }

  function InBucket(lib: Lib, fmt: string, rs: seq<Execution>, key: string): seq<Execution>
  {
    Where(rs, (r: Execution) => BucketKey(lib, fmt, r) == key)
  }

  // ----- string order of `$sort: {_id: 1}` -----

  /** Lexicographic order by code point, which is also the byte order of the UTF-8 text MongoDB compares. */
  predicate StrLess(a: string, b: string)
  {
    if a == [] then b != []
    else b != [] && (a[0] < b[0] || (a[0] == b[0] && StrLess(a[1..], b[1..])))
  }

  lemma {:induction false} StrLessIrreflexive(a: string)
    ensures !StrLess(a, a)
  {
    if a != [] {
      StrLessIrreflexive(a[1..]);
    }
  }

  lemma {:induction false} StrLessTransitive(a: string, b: string, c: string)
    requires StrLess(a, b) && StrLess(b, c)
    ensures StrLess(a, c)
  {
    if a != [] && a[0] == b[0] && b[0] == c[0] {
      StrLessTransitive(a[1..], b[1..], c[1..]);
    }
  }

  lemma {:induction false} StrLessTotal(a: string, b: string)
    requires a != b
    ensures StrLess(a, b) || StrLess(b, a)
  {
    if a != [] && b != [] && a[0] == b[0] {
      assert a == [a[0]] + a[1..] && b == [b[0]] + b[1..];
      StrLessTotal(a[1..], b[1..]);
    }
  }

  predicate Ascending(s: seq<string>)
  {
    forall i, j :: 0 <= i < j < |s| ==> StrLess(s[i], s[j])
  }

  /** Insert a key into an ascending list of keys unless it is already there. */
  function InsertKey(x: string, s: seq<string>): (r: seq<string>)
    ensures forall k :: k in r <==> k == x || k in s
  {
    if s == [] then [x]
    else if x == s[0] then s
    else if StrLess(x, s[0]) then [x] + s
    else [s[0]] + InsertKey(x, s[1..])
  }

  lemma {:induction false} InsertKeyAscending(x: string, s: seq<string>)
    requires Ascending(s)
    ensures Ascending(InsertKey(x, s))
  {
    if s != [] && x != s[0] {
      var r := InsertKey(x, s);
      if StrLess(x, s[0]) {
        forall j | 0 < j < |r| ensures StrLess(r[0], r[j]) {
          if j > 1 {
            StrLessTransitive(x, s[0], s[j - 1]);
          }
        }
      } else {
        StrLessTotal(x, s[0]);
        InsertKeyAscending(x, s[1..]);
        var tail := InsertKey(x, s[1..]);
        assert r == [s[0]] + tail;
        forall j | 0 <= j < |tail| ensures StrLess(s[0], tail[j]) {
          assert tail[j] in tail;
          if tail[j] != x {
            var m :| 0 <= m < |s[1..]| && s[1..][m] == tail[j];
            assert s[m + 1] == tail[j];
          }
        }
        forall i, j | 0 <= i < j < |r| ensures StrLess(r[i], r[j]) {
          if i == 0 {
            assert r[j] == tail[j - 1];
          } else {
            assert r[i] == tail[i - 1] && r[j] == tail[j - 1];
          }
        }
      }
    }
  }

  /** The distinct keys of `keys`, ascending: `$group` on the key followed by `$sort: {_id: 1}`. */
  function SortedKeys(keys: seq<string>): (r: seq<string>)
    ensures forall k :: k in r <==> k in keys
  {
    if keys == [] then [] else InsertKey(keys[0], SortedKeys(keys[1..]))
  }

  lemma {:induction false} SortedKeysAscending(keys: seq<string>)
    ensures Ascending(SortedKeys(keys))
  {
    if keys != [] {
      SortedKeysAscending(keys[1..]);
      InsertKeyAscending(keys[0], SortedKeys(keys[1..]));
    }
  }

  // ----- the rows -----

  /** The statuses of one bucket: the first `$group` on (time, status), pushed as `{status, count}`. */
  function StatusCounts(gs: seq<StatusGroup>): (cs: seq<StatusCount>)
    ensures |cs| == |gs|
    ensures forall i :: 0 <= i < |gs| ==> cs[i] == StatusCount(gs[i].status, gs[i].count)
  {
    if gs == [] then [] else [StatusCount(gs[0].status, gs[0].count)] + StatusCounts(gs[1..])
  }

  function Row(lib: Lib, fmt: string, rs: seq<Execution>, key: string): ChartRow
  {
    ChartRow(key, StatusCounts(GroupsOver(InBucket(lib, fmt, rs, key), StatusKeys)))
  }

  function RowsFor(lib: Lib, fmt: string, rs: seq<Execution>, keys: seq<string>): (rows: seq<ChartRow>)
    ensures |rows| == |keys|
    ensures forall i :: 0 <= i < |keys| ==> rows[i] == Row(lib, fmt, rs, keys[i])
  {
    if keys == [] then [] else [Row(lib, fmt, rs, keys[0])] + RowsFor(lib, fmt, rs, keys[1..])
  }

  /** The rows over the records of a window, for one key format. */
  function Rows(lib: Lib, fmt: string, rs: seq<Execution>): seq<ChartRow>
  {
    RowsFor(lib, fmt, rs, SortedKeys(Stamps(lib, fmt, rs)))
  }

  /**
    getChartData: `{rows}`, or the error the handler passes on. The rows come in
    ascending key order, every record of the window lands in one of them, and
    their counts add up to the number of records in the window.
   */
  function ChartResponse(lib: Lib, store: seq<Execution>, q: ChartParams, now: Time): (r: Result<seq<ChartRow>, Failure>)
    ensures r.Err? <==> ChartWindow(lib, q, now).Err?
    ensures r.Ok? ==>
      var rs := Windowed(store, ChartWindow(lib, q, now).value);
      var fmt := Format(ParseBucket(q.bucket));
      && (forall i, j :: 0 <= i < j < |r.value| ==> StrLess(r.value[i].bucketKey, r.value[j].bucketKey))
      && (forall i :: 0 <= i < |rs| ==> exists j :: 0 <= j < |r.value| && r.value[j].bucketKey == BucketKey(lib, fmt, rs[i]))
      && RowsTotal(r.value) == |rs|
  {
    match ChartWindow(lib, q, now)
    case Err(e) => Err(e)
    case Ok(w) =>
      var fmt := Format(ParseBucket(q.bucket));
      var rs := Windowed(store, w);
      RowsAscending(lib, fmt, rs);
      RowsCover(lib, fmt, rs);
      RowsTotalCount(lib, fmt, rs);
      Ok(Rows(lib, fmt, rs))
  }

  // ----- properties of the rows -----

  function CountOf(c: StatusCount): nat { c.count }

  function StatusOf(c: StatusCount): Option<Status> { c.status }

  lemma {:induction false} StatusCountsSum(gs: seq<StatusGroup>)
    ensures SumKeys(StatusCounts(gs), CountOf) == SumCounts(gs)
  {
    if gs != [] {
      StatusCountsSum(gs[1..]);
      assert StatusCounts(gs)[1..] == StatusCounts(gs[1..]);
    }
  }

  /** A record's own bucket holds it, so a key taken from a record never has an empty bucket. */
  lemma StampedBucket(lib: Lib, fmt: string, rs: seq<Execution>, key: string)
    requires key in Stamps(lib, fmt, rs)
    ensures |InBucket(lib, fmt, rs, key)| > 0
  {
    var i :| 0 <= i < |rs| && Stamps(lib, fmt, rs)[i] == key;
    assert rs[i] in InBucket(lib, fmt, rs, key);
  }

  /** Rows are in strictly ascending key order, so no bucket key appears twice. */
  lemma RowsAscending(lib: Lib, fmt: string, rs: seq<Execution>)
    ensures forall i, j :: 0 <= i < j < |Rows(lib, fmt, rs)| ==>
      StrLess(Rows(lib, fmt, rs)[i].bucketKey, Rows(lib, fmt, rs)[j].bucketKey)
  {
    SortedKeysAscending(Stamps(lib, fmt, rs));
  }

  /** Every record of the window lands in a row, and every row's bucket holds at least one record. */
  lemma RowsCover(lib: Lib, fmt: string, rs: seq<Execution>)
    ensures forall i :: 0 <= i < |rs| ==>
      exists j :: 0 <= j < |Rows(lib, fmt, rs)| && Rows(lib, fmt, rs)[j].bucketKey == BucketKey(lib, fmt, rs[i])
    ensures forall j :: 0 <= j < |Rows(lib, fmt, rs)| ==> |InBucket(lib, fmt, rs, Rows(lib, fmt, rs)[j].bucketKey)| > 0
  {
    var keys := SortedKeys(Stamps(lib, fmt, rs));
    var rows := Rows(lib, fmt, rs);
    forall i | 0 <= i < |rs|
      ensures exists j :: 0 <= j < |rows| && rows[j].bucketKey == BucketKey(lib, fmt, rs[i])
    {
      assert Stamps(lib, fmt, rs)[i] in Stamps(lib, fmt, rs);
      var j :| 0 <= j < |keys| && keys[j] == BucketKey(lib, fmt, rs[i]);
      assert rows[j].bucketKey == keys[j];
    }
    forall j | 0 <= j < |rows| ensures |InBucket(lib, fmt, rs, rows[j].bucketKey)| > 0 {
      assert keys[j] in keys;
      StampedBucket(lib, fmt, rs, keys[j]);
    }
  }

  /**
    A row lists each status seen in its bucket once, with the number of the
    bucket's records that have it, and these counts add up to the bucket's size.
   */
  lemma RowCounts(lib: Lib, fmt: string, rs: seq<Execution>, key: string)
    ensures var row := Row(lib, fmt, rs, key);
      var bucket := InBucket(lib, fmt, rs, key);
      && row.bucketKey == key
      && DistinctKeys(row.statuses, StatusOf)
      && (forall c :: c in row.statuses ==> c.count == |WithStatus(bucket, c.status)| > 0)
      && (forall k :: |WithStatus(bucket, k)| > 0 ==> exists c :: c in row.statuses && c.status == k)
      && SumKeys(row.statuses, CountOf) == |bucket|
  {
    var bucket := InBucket(lib, fmt, rs, key);
    var gs := GroupsOver(bucket, StatusKeys);
    var cs := StatusCounts(gs);
    StatusKeysDistinct();
    GroupsOverDistinct(bucket, StatusKeys);
    GroupsOverCounts(bucket, StatusKeys);
    forall c | c in cs ensures c.count == |WithStatus(bucket, c.status)| > 0 {
      var i :| 0 <= i < |cs| && cs[i] == c;
      assert gs[i] in gs;
    }
    forall k | |WithStatus(bucket, k)| > 0 ensures exists c :: c in cs && c.status == k {
      StatusKeysComplete(k);
      GroupsOverHas(bucket, StatusKeys, k);
      var a :| 0 <= a < |gs| && gs[a].status == k;
      assert cs[a] in cs;
    }
    GroupsTotal(bucket);
    StatusCountsSum(gs);
  }

  /** The number of records counted over all rows. */
  function RowsTotal(rows: seq<ChartRow>): nat
  {
    if rows == [] then 0 else SumKeys(rows[0].statuses, CountOf) + RowsTotal(rows[1..])
  }

  lemma {:induction false} RowsForTotal(lib: Lib, fmt: string, rs: seq<Execution>, keys: seq<string>)
    requires Ascending(keys)
    ensures RowsTotal(RowsFor(lib, fmt, rs, keys)) == Count(rs, (r: Execution) => BucketKey(lib, fmt, r) in keys)
  {
    var inKeys := (r: Execution) => BucketKey(lib, fmt, r) in keys;
    if keys == [] {
      WhereNone(rs, inKeys);
    } else {
      var rest := keys[1..];
      assert Ascending(rest);
      RowsForTotal(lib, fmt, rs, rest);
      RowCounts(lib, fmt, rs, keys[0]);
      assert RowsFor(lib, fmt, rs, keys)[1..] == RowsFor(lib, fmt, rs, rest);
      forall k | k in rest ensures k != keys[0] {
        var m :| 0 <= m < |rest| && rest[m] == k;
        assert StrLess(keys[0], keys[m + 1]);
        StrLessIrreflexive(k);
      }
      CountSplit(rs, inKeys, (r: Execution) => BucketKey(lib, fmt, r) == keys[0], (r: Execution) => BucketKey(lib, fmt, r) in rest);
    }
  }

  /** Every record of the window is counted in exactly one row: the counts over all rows add up to the window's size. */
  lemma RowsTotalCount(lib: Lib, fmt: string, rs: seq<Execution>)
    ensures RowsTotal(Rows(lib, fmt, rs)) == |rs|
  {
    var keys := SortedKeys(Stamps(lib, fmt, rs));
    SortedKeysAscending(Stamps(lib, fmt, rs));
    RowsForTotal(lib, fmt, rs, keys);
    forall i | 0 <= i < |rs| ensures BucketKey(lib, fmt, rs[i]) in keys {
      assert Stamps(lib, fmt, rs)[i] in Stamps(lib, fmt, rs);
    }
    Ordering.WhereAll(rs, (r: Execution) => BucketKey(lib, fmt, r) in keys);
  }
}
