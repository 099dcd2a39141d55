/**
  getSummary: the time window, the cache key, and the three aggregations over
  the executions whose start time falls in the window (counts per status,
  totals, and the interfaces that failed most).
 */
module Summary {
  import opened Wrappers
  import opened Runtime
  import opened InterfaceExecution
  import opened Sequences
  import opened Filters
  import opened Ranking
  import Ordering

  const HourMs: int := 60 * 60 * 1000
  const DayMs: int := 24 * HourMs
  const TopFailuresLimit: nat := 10

  datatype SummaryParams = SummaryParams(range: Option<string>, start: Option<string>, end: Option<string>)

  datatype Window = Window(start: Time, end: Time)

  /** The look-back span of a `range` value: 1h, 24h, 7d, 30d; "24h" when absent or unknown. */
  function RangeSpan(range: Option<string>): (ms: int)
    ensures ms > 0
    ensures range !in {Some("1h"), Some("7d"), Some("30d")} ==> ms == DayMs
    ensures range == Some("1h") ==> ms == HourMs
    ensures range == Some("7d") ==> ms == 7 * DayMs
    ensures range == Some("30d") ==> ms == 30 * DayMs
  {
    var r := if range.None? then "24h" else range.value;
    if r == "1h" then HourMs
    else if r == "24h" then DayMs
    else if r == "7d" then 7 * DayMs
    else if r == "30d" then 30 * DayMs
    else DayMs
  }

  /**
    The window: an explicit start or end wins; otherwise the end is now and the
    start is `now` minus the range. An unparseable date becomes an Invalid Date,
    and its toISOString throws before the cache is consulted.
   */
  function ResolveWindow(lib: Lib, q: SummaryParams, now: Time): (r: Result<Window, Failure>)
    ensures r.Err? <==>
      (Truthy(q.start) && lib.parseDate(q.start.value).NaN?) || (Truthy(q.end) && lib.parseDate(q.end.value).NaN?)
    ensures r.Err? ==> r.error == InvalidTime
    ensures r.Ok? ==> r.value.end == if Truthy(q.end) then lib.parseDate(q.end.value).value else now
    ensures r.Ok? ==> r.value.start == if Truthy(q.start) then lib.parseDate(q.start.value).value else now - RangeSpan(q.range)
  {
    var startDt := if Truthy(q.start) then lib.parseDate(q.start.value) else Int(now - RangeSpan(q.range));
    var endDt := if Truthy(q.end) then lib.parseDate(q.end.value) else Int(now);
    if startDt.NaN? || endDt.NaN? then Err(InvalidTime) else Ok(Window(startDt.value, endDt.value))
  }

  /** Without explicit dates the window ends now and spans exactly the range. */
  lemma DefaultWindow(lib: Lib, q: SummaryParams, now: Time)
    requires !Truthy(q.start) && !Truthy(q.end)
    ensures ResolveWindow(lib, q, now) == Ok(Window(now - RangeSpan(q.range), now))
  {
  }

  function CacheKey(lib: Lib, w: Window): string
  {
    "summary:" + lib.isoString(w.start) + ":" + lib.isoString(w.end)
  }

  /** The text up to and including its first 'Z' (all of it when there is none). */
  function UpToZ(s: string): (r: string)
    ensures |r| <= |s| && r == s[..|r|]
  {
    if s == [] then [] else if s[0] == 'Z' then [s[0]] else [s[0]] + UpToZ(s[1..])
  }

  /** An ISO text followed by anything is recovered by reading up to the first 'Z'. */
  lemma {:induction false} UpToZPrefix(iso: string, rest: string)
    requires EndsAtZ(iso)
    ensures UpToZ(iso + rest) == iso
  {
    if |iso| > 1 {
      assert (iso + rest)[0] == iso[0] != 'Z';
      assert (iso + rest)[1..] == iso[1..] + rest;
      UpToZPrefix(iso[1..], rest);
    }
  }

  /** Two windows share a cache key only if they are the same window. */
  lemma CacheKeyInjective(lib: Lib, w1: Window, w2: Window)
    requires Wf(lib)
    requires CacheKey(lib, w1) == CacheKey(lib, w2)
    ensures w1 == w2
  {
    var s1, e1 := lib.isoString(w1.start), lib.isoString(w1.end);
    var s2, e2 := lib.isoString(w2.start), lib.isoString(w2.end);
    var k := CacheKey(lib, w1);
    var n := |"summary:"|;
    assert k[n..] == s1 + (":" + e1) == s2 + (":" + e2);
    UpToZPrefix(s1, ":" + e1);
    UpToZPrefix(s2, ":" + e2);
    assert s1 == s2;
    assert ":" + e1 == (s1 + (":" + e1))[|s1|..] == ":" + e2;
    assert e1 == (":" + e1)[1..] == e2;
    assert lib.parseDate(s1) == Int(w1.start) && lib.parseDate(s2) == Int(w2.start);
    assert lib.parseDate(e1) == Int(w1.end) && lib.parseDate(e2) == Int(w2.end);
  }

  /** `{startTime: {$gte: start, $lte: end}}`: a record without a start time never matches. */
  predicate InWindow(w: Window, r: Execution)
  {
    r.startTime.Some? && w.start <= r.startTime.value <= w.end
  }

  function Windowed(store: seq<Execution>, w: Window): seq<Execution>
  {
    Where(store, r => InWindow(w, r))
  }

  /** `$avg` over `duration`: records without one are skipped; null when none has one. */
  datatype Average = Null | Mean(sum: int, count: nat)

  function SumDurations(rs: seq<Execution>): int
  {
    if rs == [] then 0 else (if rs[0].duration.Some? then rs[0].duration.value else 0) + SumDurations(rs[1..])
  }

  function AverageOf(rs: seq<Execution>): (a: Average)
    ensures a.Null? <==> forall i :: 0 <= i < |rs| ==> rs[i].duration.None?
    ensures a.Mean? ==> a.count == Count(rs, (r: Execution) => r.duration.Some?) > 0
    ensures a.Mean? ==> a.sum == SumDurations(Where(rs, (r: Execution) => r.duration.Some?))
  {
    var timed := Where(rs, (r: Execution) => r.duration.Some?);
    if timed == [] then Null else Mean(SumDurations(timed), |timed|)
  }

  datatype StatusGroup = StatusGroup(status: Option<Status>, count: nat, avgDuration: Average)

  datatype Totals = Totals(total: nat, avgDuration: Average)

  datatype FailureCount = FailureCount(interfaceName: string, failCount: nat)

  datatype SummaryResult = SummaryResult(
    start: string,
    end: string,
    totals: Totals,
    byStatus: seq<StatusGroup>,
    topFailures: seq<FailureCount>
  )

  /** Every value `$status` can take, a missing status included (grouped as null). */
  const StatusKeys: seq<Option<Status>> := [Some(Success), Some(Failed), Some(Warning), Some(Pending), None]

  function WithStatus(rs: seq<Execution>, k: Option<Status>): seq<Execution>
  {
    Where(rs, (r: Execution) => r.status == k)
  }

  /** One group per key that occurs, in the order of the keys. */
  function GroupsOver(rs: seq<Execution>, keys: seq<Option<Status>>): (gs: seq<StatusGroup>)
    ensures forall i :: 0 <= i < |gs| ==> gs[i].status in keys
  {
    if keys == [] then []
    else
      var here := WithStatus(rs, keys[0]);
      (if |here| > 0 then [StatusGroup(keys[0], |here|, AverageOf(here))] else []) + GroupsOver(rs, keys[1..])
  }

  /** byStatus: group by status, then sort by count, highest first. */
  function ByStatus(rs: seq<Execution>): seq<StatusGroup>
  {
    SortDesc(GroupsOver(rs, StatusKeys), (g: StatusGroup) => g.count)
  }

  /** totals, or `{total: 0, avgDuration: 0}` when the aggregation returns no document. */
  function TotalsOf(rs: seq<Execution>): Totals
  {
    if rs == [] then Totals(0, Mean(0, 1)) else Totals(|rs|, AverageOf(rs))
  }

  function Failing(rs: seq<Execution>): seq<Execution>
  {
    Where(rs, (r: Execution) => r.status == Some(Failed))
  }

  function Names(rs: seq<Execution>): (names: seq<string>)
    ensures |names| == |rs|
    ensures forall i :: 0 <= i < |rs| ==> names[i] == rs[i].interfaceName
  {
    if rs == [] then [] else [rs[0].interfaceName] + Names(rs[1..])
  }

  /** Each name once. */
  function Distinct(s: seq<string>): (r: seq<string>)
    ensures forall x :: x in r <==> x in s
    ensures forall i, j :: 0 <= i < j < |r| ==> r[i] != r[j]
  {
    if s == [] then []
    else if s[0] in s[1..] then Distinct(s[1..])
    else [s[0]] + Distinct(s[1..])
  }

  function NamedIn(rs: seq<Execution>, name: string): seq<Execution>
  {
    Where(rs, (r: Execution) => r.interfaceName == name)
  }

  function CountsFor(rs: seq<Execution>, names: seq<string>): (cs: seq<FailureCount>)
    ensures |cs| == |names|
    ensures forall i :: 0 <= i < |cs| ==> cs[i] == FailureCount(names[i], |NamedIn(rs, names[i])|)
  {
    if names == [] then [] else [FailureCount(names[0], |NamedIn(rs, names[0])|)] + CountsFor(rs, names[1..])
  }

  function FailKey(c: FailureCount): nat { c.failCount }

  function NameOf(c: FailureCount): string { c.interfaceName }

  /** topFailures: failed executions grouped by interface, sorted by count, highest first, at most 10. */
  function TopFailures(rs: seq<Execution>): seq<FailureCount>
  {
    var failing := Failing(rs);
    Take(SortDesc(CountsFor(failing, Distinct(Names(failing))), FailKey), TopFailuresLimit)
  }

  /** The response of getSummary for a window, before it is cached. */
  function ComputeSummary(lib: Lib, store: seq<Execution>, w: Window): (r: SummaryResult)
    ensures r.totals.total == |Windowed(store, w)|
    ensures SumCounts(r.byStatus) == r.totals.total
    ensures |r.topFailures| <= TopFailuresLimit
  {
    var rs := Windowed(store, w);
    ByStatusTotal(rs);
    SummaryResult(lib.isoString(w.start), lib.isoString(w.end), TotalsOf(rs), ByStatus(rs), TopFailures(rs))
  }

  /** getSummary without its cache. */
  function SummaryResponse(lib: Lib, store: seq<Execution>, q: SummaryParams, now: Time): (r: Result<SummaryResult, Failure>)
    ensures r.Err? <==> ResolveWindow(lib, q, now).Err?
    ensures r.Err? ==> r.error == InvalidTime
    ensures r.Ok? ==>
      var w := ResolveWindow(lib, q, now).value;
      && r.value.start == lib.isoString(w.start) && r.value.end == lib.isoString(w.end)
      && r.value.totals.total == |Windowed(store, w)|
      && SumCounts(r.value.byStatus) == r.value.totals.total
  {
    match ResolveWindow(lib, q, now)
    case Err(e) => Err(e)
    case Ok(w) => Ok(ComputeSummary(lib, store, w))
  }

  // ----- properties of byStatus and totals -----

  function SumCounts(gs: seq<StatusGroup>): nat
  {
    SumKeys(gs, (g: StatusGroup) => g.count)
  }

  lemma {:induction false} GroupsOverSum(rs: seq<Execution>, keys: seq<Option<Status>>)
    requires Unrepeated(keys)
    ensures SumCounts(GroupsOver(rs, keys)) == Count(rs, (r: Execution) => r.status in keys)
  {
    if keys == [] {
      WhereNone(rs, (r: Execution) => r.status in keys);
    } else {
      var here := WithStatus(rs, keys[0]);
      var head: seq<StatusGroup> := if |here| > 0 then [StatusGroup(keys[0], |here|, AverageOf(here))] else [];
      var rest := keys[1..];
      UnrepeatedTail(keys);
      GroupsOverSum(rs, rest);
      SumKeysAppend(head, GroupsOver(rs, rest), (g: StatusGroup) => g.count);
      CountSplit(rs, (r: Execution) => r.status in keys, (r: Execution) => r.status == keys[0], (r: Execution) => r.status in rest);
    }
  }

  lemma {:induction false} SumKeysAppend<T>(a: seq<T>, b: seq<T>, key: T -> nat)
    ensures SumKeys(a + b, key) == SumKeys(a, key) + SumKeys(b, key)
  {
    if a == [] {
      assert a + b == b;
    } else {
      SumKeysAppend(a[1..], b, key);
      assert (a + b)[1..] == a[1..] + b;
    }
  }

  /** The status groups account for every record in the window exactly once. */
  lemma StatusKeysComplete(k: Option<Status>)
    ensures k in StatusKeys
  {
    match k
    case None => assert StatusKeys[4] == k;
    case Some(s) =>
      match s
      case Success => assert StatusKeys[0] == k;
      case Failed => assert StatusKeys[1] == k;
      case Warning => assert StatusKeys[2] == k;
      case Pending => assert StatusKeys[3] == k;
  }

  /** No key occurs twice. */
  predicate Unrepeated(keys: seq<Option<Status>>)
  {
    forall i, j :: 0 <= i < j < |keys| ==> keys[i] != keys[j]
  }

  lemma UnrepeatedTail(keys: seq<Option<Status>>)
    requires Unrepeated(keys) && keys != []
    ensures Unrepeated(keys[1..]) && keys[0] !in keys[1..]
  {
    var rest := keys[1..];
    forall i | 0 <= i < |rest| ensures rest[i] != keys[0] {
      assert rest[i] == keys[i + 1];
    }
    forall i, j | 0 <= i < j < |rest| ensures rest[i] != rest[j] {
      assert rest[i] == keys[i + 1] && rest[j] == keys[j + 1];
    }
  }

  lemma StatusKeysDistinct()
    ensures Unrepeated(StatusKeys)
  {
  }

  /** Grouping by status puts every record in exactly one group. */
  lemma GroupsTotal(rs: seq<Execution>)
    ensures SumCounts(GroupsOver(rs, StatusKeys)) == |rs|
  {
    StatusKeysDistinct();
    forall i | 0 <= i < |rs| ensures rs[i].status in StatusKeys {
      StatusKeysComplete(rs[i].status);
    }
    GroupsOverSum(rs, StatusKeys);
    Ordering.WhereAll(rs, (r: Execution) => r.status in StatusKeys);
  }

  lemma ByStatusTotal(rs: seq<Execution>)
    ensures SumCounts(ByStatus(rs)) == |rs|
  {
    GroupsTotal(rs);
    SortDescSum(GroupsOver(rs, StatusKeys), (g: StatusGroup) => g.count);
  }

  /** A status has a group exactly when some record in the window has that status. */
  lemma ByStatusPresent(rs: seq<Execution>, k: Option<Status>)
    ensures (exists g :: g in ByStatus(rs) && g.status == k) <==> |WithStatus(rs, k)| > 0
  {
    var raw := GroupsOver(rs, StatusKeys);
    var gs := ByStatus(rs);
    if |WithStatus(rs, k)| > 0 {
      StatusKeysComplete(k);
      GroupsOverHas(rs, StatusKeys, k);
      var a :| 0 <= a < |raw| && raw[a].status == k;
      assert raw[a] in multiset(gs);
    }
    if exists g :: g in gs && g.status == k {
      var g :| g in gs && g.status == k;
      assert g in multiset(raw);
      GroupsOverCounts(rs, StatusKeys);
      assert CountsStatus(rs, g);
    }
  }

  /**
    byStatus holds one group per status present in the window, each counting
    the records with that status, highest count first, and its counts add up
    to totals.total.
   */
  lemma ByStatusSpec(rs: seq<Execution>)
    ensures var gs := ByStatus(rs);
      && Descending(gs, (g: StatusGroup) => g.count)
      && (forall g :: g in gs ==> CountsStatus(rs, g))
      && DistinctKeys(gs, (g: StatusGroup) => g.status)
      && SumCounts(gs) == TotalsOf(rs).total
  {
    var gs := ByStatus(rs);
    var raw := GroupsOver(rs, StatusKeys);
    SortDescSorted(raw, (g: StatusGroup) => g.count);
    ByStatusTotal(rs);
    GroupsOverCounts(rs, StatusKeys);
    forall g | g in gs ensures CountsStatus(rs, g) {
      assert g in multiset(raw);
    }
    StatusKeysDistinct();
    GroupsOverDistinct(rs, StatusKeys);
    PermutationDistinct(raw, gs, (g: StatusGroup) => g.status);
  }

  /** The group counts, and averages, exactly the records with its status. */
  predicate CountsStatus(rs: seq<Execution>, g: StatusGroup)
  {
    && g.count == |WithStatus(rs, g.status)| > 0
    && g.avgDuration == AverageOf(WithStatus(rs, g.status))
  }

  lemma {:induction false} GroupsOverCounts(rs: seq<Execution>, keys: seq<Option<Status>>)
    ensures forall g :: g in GroupsOver(rs, keys) ==> CountsStatus(rs, g)
  {
    if keys != [] {
      GroupsOverCounts(rs, keys[1..]);
      var tail := GroupsOver(rs, keys[1..]);
      var here := WithStatus(rs, keys[0]);
      if |here| > 0 {
        var gs := GroupsOver(rs, keys);
        assert gs == [StatusGroup(keys[0], |here|, AverageOf(here))] + tail;
        assert CountsStatus(rs, gs[0]);
      }
    }
  }

  lemma {:induction false} GroupsOverDistinct(rs: seq<Execution>, keys: seq<Option<Status>>)
    requires Unrepeated(keys)
    ensures DistinctKeys(GroupsOver(rs, keys), (g: StatusGroup) => g.status)
  {
    if keys != [] {
      var rest := keys[1..];
      UnrepeatedTail(keys);
      GroupsOverDistinct(rs, rest);
      var tail := GroupsOver(rs, rest);

      var here := WithStatus(rs, keys[0]);
      if |here| > 0 {
        var gs := GroupsOver(rs, keys);
        assert gs == [StatusGroup(keys[0], |here|, AverageOf(here))] + tail;
        forall i | 0 <= i < |tail| ensures tail[i].status != keys[0] {
          assert tail[i].status in rest;
        }
        forall i, j | 0 <= i < j < |gs| ensures gs[i].status != gs[j].status {
          assert gs[j] == tail[j - 1];
          if i > 0 {
            assert gs[i] == tail[i - 1];
            assert tail[i - 1].status != tail[j - 1].status;
          } else {
            assert gs[0].status == keys[0];
            assert tail[j - 1].status != keys[0];
          }
        }
      }
    }
  }

  lemma {:induction false} GroupsOverHas(rs: seq<Execution>, keys: seq<Option<Status>>, k: Option<Status>)
    requires k in keys && |WithStatus(rs, k)| > 0
    ensures exists a :: 0 <= a < |GroupsOver(rs, keys)| && GroupsOver(rs, keys)[a].status == k
  {
    if keys[0] == k {
      assert GroupsOver(rs, keys)[0].status == k;
    } else {
      GroupsOverHas(rs, keys[1..], k);
      var tail := GroupsOver(rs, keys[1..]);
      var a :| 0 <= a < |tail| && tail[a].status == k;
      var gs := GroupsOver(rs, keys);
      var off := |gs| - |tail|;
      assert gs[off + a] == tail[a];
    }
  }


  // ----- properties of topFailures -----

  /** The number of failed executions of an interface in the window. */
  function FailuresOf(rs: seq<Execution>, name: string): nat
  {
    |NamedIn(Failing(rs), name)|
  }

  /** An entry of the ranking that counts the failures of its own interface, at least one. */
  predicate Tallied(rs: seq<Execution>, c: FailureCount)
  {
    c.failCount == FailuresOf(rs, c.interfaceName) > 0
  }

  /** The ranking before it is cut to ten. */
  function Ranked(rs: seq<Execution>): seq<FailureCount>
  {
    var failing := Failing(rs);
    SortDesc(CountsFor(failing, Distinct(Names(failing))), FailKey)
  }

  lemma HasName(rs: seq<Execution>, name: string)
    ensures |NamedIn(rs, name)| > 0 <==> name in Names(rs)
  {
    if |NamedIn(rs, name)| > 0 {
      var r := NamedIn(rs, name)[0];
      var m :| 0 <= m < |rs| && rs[m] == r;
      assert Names(rs)[m] == name;
    }
    if name in Names(rs) {
      var m :| 0 <= m < |rs| && Names(rs)[m] == name;
      assert rs[m] in NamedIn(rs, name);
    }
  }

  lemma RankedCounts(rs: seq<Execution>)
    ensures forall c :: c in Ranked(rs) ==> Tallied(rs, c)
  {
    var failing := Failing(rs);
    var names := Distinct(Names(failing));
    var all := CountsFor(failing, names);
    assert Ranked(rs) == SortDesc(all, FailKey);
    forall c | c in Ranked(rs) ensures Tallied(rs, c) {
      assert c in multiset(all);
      var d :| 0 <= d < |all| && all[d] == c;
      assert names[d] in Names(failing);
      HasName(failing, names[d]);
    }
  }

  lemma RankedEntry(rs: seq<Execution>, name: string)
    requires FailuresOf(rs, name) > 0
    ensures FailureCount(name, FailuresOf(rs, name)) in Ranked(rs)
  {
    var failing := Failing(rs);
    var names := Distinct(Names(failing));
    var all := CountsFor(failing, names);
    HasName(failing, name);
    var d :| 0 <= d < |names| && names[d] == name;
    assert all[d] == FailureCount(name, FailuresOf(rs, name));
    assert all[d] in multiset(SortDesc(all, FailKey));
  }

  lemma RankedDistinct(rs: seq<Execution>)
    ensures DistinctKeys(Ranked(rs), NameOf)
  {
    var failing := Failing(rs);
    var names := Distinct(Names(failing));
    var all := CountsFor(failing, names);
    assert DistinctKeys(all, NameOf);
    PermutationDistinct(all, Ranked(rs), NameOf);
  }

  /**
    topFailures: at most ten interfaces, each once, each with its number of
    failures in the window, highest first; an interface with failures is left
    out only when ten others are listed, each with at least as many failures.
   */
  lemma TopFailuresSpec(rs: seq<Execution>, name: string)
    ensures |TopFailures(rs)| <= TopFailuresLimit
    ensures Descending(TopFailures(rs), FailKey)
    ensures DistinctKeys(TopFailures(rs), NameOf)
    ensures forall i :: 0 <= i < |TopFailures(rs)| ==> Tallied(rs, TopFailures(rs)[i])
    ensures FailuresOf(rs, name) > 0 && (forall i :: 0 <= i < |TopFailures(rs)| ==> TopFailures(rs)[i].interfaceName != name) ==>
              |TopFailures(rs)| == TopFailuresLimit &&
              forall i :: 0 <= i < |TopFailures(rs)| ==> TopFailures(rs)[i].failCount >= FailuresOf(rs, name)
  {
    var ranked := Ranked(rs);
    var top := TopFailures(rs);
    assert top == Take(ranked, TopFailuresLimit);
    assert top == ranked[..|top|];
    SortDescSorted(CountsFor(Failing(rs), Distinct(Names(Failing(rs)))), FailKey);
    RankedCounts(rs);
    RankedDistinct(rs);
    forall i | 0 <= i < |top| ensures Tallied(rs, top[i]) {
      assert top[i] == ranked[i];
    }
    if FailuresOf(rs, name) > 0 && (forall i :: 0 <= i < |top| ==> top[i].interfaceName != name) {
      var x := FailureCount(name, FailuresOf(rs, name));
      RankedEntry(rs, name);
      assert x !in top;
      LeftOutRanksLower(ranked, FailKey, TopFailuresLimit, x);
    }
  }
}
