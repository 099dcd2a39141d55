/**
  The query builder: loose query-string parameters become a MongoDB filter on
  execution records, and `Matches` says which records that filter selects.
 */
module Filters {
  import opened Wrappers
  import opened Runtime
  import opened InterfaceExecution

  /** A `status` parameter: one value, or a list when the parameter is repeated. */
  datatype StatusParam = One(value: string) | Many(values: seq<string>)

  /** The filter parameters of a request; every query-string value is a string. */
  datatype FilterParams = FilterParams(
    start: Option<string>,
    end: Option<string>,
    status: Option<StatusParam>,
    interfaceName: Option<string>,
    qtext: Option<string>,
    minDuration: Option<string>,
    maxDuration: Option<string>
  )

  const NoParams := FilterParams(None, None, None, None, None, None, None)

  /** JavaScript truthiness of a string parameter: present and not empty ("0" is truthy). */
  predicate Truthy(p: Option<string>)
  {
    p.Some? && p.value != ""
  }

  /** A list is truthy even when empty; a single value only when non-empty. */
  predicate StatusTruthy(p: Option<StatusParam>)
  {
    p.Some? && (p.value.Many? || p.value.value != "")
  }

  /** `$gte` and `$lte` bounds; NaN stands for an Invalid Date or a non-numeric text. */
  datatype Range = Range(gte: Option<JsNumber>, lte: Option<JsNumber>)

  datatype Filter = Filter(
    startTime: Option<Range>,
    status: Option<seq<string>>,   // $in
    interfaceName: Option<string>, // $regex, case-insensitive
    text: Option<string>,          // $text: {$search}
    duration: Option<Range>
  )

  const EmptyFilter := Filter(None, None, None, None, None)

  function StatusList(p: StatusParam): seq<string>
  {
    match p
    case One(s) => [s]
    case Many(ss) => ss
  }

  function DurationSoFar(f: Filter): Range
  {
    if f.duration.None? then Range(None, None) else f.duration.value
  }

  /**
    buildFilters: each truthy parameter adds its clause, in the source's order;
    the duration bounds are merged into one range. A pattern that is not a valid
    regular expression makes `new RegExp` throw.
   */
  function BuildFilters(lib: Lib, q: FilterParams): (r: Result<Filter, Failure>)
    ensures r.Err? <==> Truthy(q.interfaceName) && !lib.regexCompiles(q.interfaceName.value)
    ensures r.Err? ==> r.error == InvalidRegex
    ensures r.Ok? ==> (r.value.startTime.Some? <==> Truthy(q.start) || Truthy(q.end))
    ensures r.Ok? && r.value.startTime.Some? ==>
      && (r.value.startTime.value.gte.Some? <==> Truthy(q.start))
      && (r.value.startTime.value.lte.Some? <==> Truthy(q.end))
    ensures r.Ok? ==> (r.value.status.Some? <==> StatusTruthy(q.status))
    ensures r.Ok? && StatusTruthy(q.status) ==>
      r.value.status.value == (if q.status.value.One? then [q.status.value.value] else q.status.value.values)
    ensures r.Ok? ==> (r.value.duration.Some? <==> Truthy(q.minDuration) || Truthy(q.maxDuration))
    ensures r.Ok? && r.value.duration.Some? ==>
      && (r.value.duration.value.gte.Some? <==> Truthy(q.minDuration))
      && (r.value.duration.value.lte.Some? <==> Truthy(q.maxDuration))
  {
    var f0 := EmptyFilter;
    var f1 :=
      if Truthy(q.start) || Truthy(q.end) then
        f0.(startTime := Some(Range(
          if Truthy(q.start) then Some(lib.parseDate(q.start.value)) else None,
          if Truthy(q.end) then Some(lib.parseDate(q.end.value)) else None)))
      else f0;
    var f2 := if StatusTruthy(q.status) then f1.(status := Some(StatusList(q.status.value))) else f1;
    if Truthy(q.interfaceName) && !lib.regexCompiles(q.interfaceName.value) then Err(InvalidRegex)
    else
      var f3 := if Truthy(q.interfaceName) then f2.(interfaceName := Some(q.interfaceName.value)) else f2;
      var f4 := if Truthy(q.qtext) then f3.(text := Some(q.qtext.value)) else f3;
      var f5 :=
        if Truthy(q.minDuration) then
          f4.(duration := Some(DurationSoFar(f4).(gte := Some(lib.toNumber(q.minDuration.value)))))
        else f4;
      var f6 :=
        if Truthy(q.maxDuration) then
          f5.(duration := Some(DurationSoFar(f5).(lte := Some(lib.toNumber(q.maxDuration.value)))))
        else f5;
      Ok(f6)
  }

  /** A value lies within the bounds; a missing value or a NaN bound never does. */
  predicate InRange(range: Range, v: Option<int>)
  {
    && v.Some?
    && (range.gte.Some? ==> range.gte.value.Int? && range.gte.value.value <= v.value)
    && (range.lte.Some? ==> range.lte.value.Int? && v.value <= range.lte.value.value)
  }

  /** The records a filter selects. */
  predicate Matches(lib: Lib, f: Filter, r: Execution)
    ensures Matches(lib, f, r) && f.startTime.Some? ==> r.startTime.Some?
    ensures Matches(lib, f, r) && f.duration.Some? ==> r.duration.Some?
    ensures Matches(lib, f, r) && f.status.Some? ==> r.status.Some?
    ensures Matches(lib, f, r) && f.text.Some? ==> r.message.Some?
  {
    && (f.startTime.Some? ==> InRange(f.startTime.value, r.startTime))
    && (f.status.Some? ==> r.status.Some? && StatusName(r.status.value) in f.status.value)
    && (f.interfaceName.Some? ==> lib.regexMatches(f.interfaceName.value, r.interfaceName))
    && (f.text.Some? ==> r.message.Some? && lib.textMatches(f.text.value, r.message.value))
    && (f.duration.Some? ==> InRange(f.duration.value, r.duration))
  }

  predicate RangeCastable(range: Option<Range>)
  {
    range.Some? ==>
      && (range.value.gte.Some? ==> range.value.gte.value.Int?)
      && (range.value.lte.Some? ==> range.value.lte.value.Int?)
  }

  /** Mongoose can cast the filter: no Invalid Date and no NaN among its bounds. */
  predicate Castable(f: Filter)
  {
    RangeCastable(f.startTime) && RangeCastable(f.duration)
  }

  /** A number parameter parses to an integer at most (or at least) the given value. */
  predicate NumberAtMost(n: JsNumber, v: int)
  {
    n.Int? && n.value <= v
  }

  predicate NumberAtLeast(n: JsNumber, v: int)
  {
    n.Int? && v <= n.value
  }

  /** What each parameter asks of a record, read directly off the parameters. */
  predicate Satisfies(lib: Lib, q: FilterParams, r: Execution)
    ensures Satisfies(lib, q, r) && (Truthy(q.start) || Truthy(q.end)) ==> r.startTime.Some?
    ensures Satisfies(lib, q, r) && (Truthy(q.minDuration) || Truthy(q.maxDuration)) ==> r.duration.Some?
    ensures && Truthy(q.start) && Truthy(q.end)
            && lib.parseDate(q.start.value).Int? && lib.parseDate(q.end.value).Int?
            && lib.parseDate(q.end.value).value < lib.parseDate(q.start.value).value
            ==> !Satisfies(lib, q, r)
  {
    && (Truthy(q.start) ==> r.startTime.Some? && NumberAtMost(lib.parseDate(q.start.value), r.startTime.value))
    && (Truthy(q.end) ==> r.startTime.Some? && NumberAtLeast(lib.parseDate(q.end.value), r.startTime.value))
    && (StatusTruthy(q.status) ==> r.status.Some? && StatusName(r.status.value) in StatusList(q.status.value))
    && (Truthy(q.interfaceName) ==> lib.regexMatches(q.interfaceName.value, r.interfaceName))
    && (Truthy(q.qtext) ==> r.message.Some? && lib.textMatches(q.qtext.value, r.message.value))
    && (Truthy(q.minDuration) ==> r.duration.Some? && NumberAtMost(lib.toNumber(q.minDuration.value), r.duration.value))
    && (Truthy(q.maxDuration) ==> r.duration.Some? && NumberAtLeast(lib.toNumber(q.maxDuration.value), r.duration.value))
  }

  /**
    The filter selects exactly the records that satisfy every given parameter:
    start and end are inclusive bounds on startTime, min and max duration
    inclusive bounds on duration, and a status outside the list never matches.
   */
  lemma BuildFiltersSelects(lib: Lib, q: FilterParams, r: Execution)
    requires BuildFilters(lib, q).Ok?
    ensures Matches(lib, BuildFilters(lib, q).value, r) <==> Satisfies(lib, q, r)
  {
  }

  /** The filter can be cast exactly when every given date and number parses. */
  lemma BuildFiltersCastable(lib: Lib, q: FilterParams)
    requires BuildFilters(lib, q).Ok?
    ensures Castable(BuildFilters(lib, q).value) <==>
      && (Truthy(q.start) ==> lib.parseDate(q.start.value).Int?)
      && (Truthy(q.end) ==> lib.parseDate(q.end.value).Int?)
      && (Truthy(q.minDuration) ==> lib.toNumber(q.minDuration.value).Int?)
      && (Truthy(q.maxDuration) ==> lib.toNumber(q.maxDuration.value).Int?)
  {
  }

  /** Without a truthy parameter the filter is empty and selects every record. */
  lemma NoParamsSelectAll(lib: Lib, q: FilterParams, r: Execution)
    requires !Truthy(q.start) && !Truthy(q.end) && !StatusTruthy(q.status) && !Truthy(q.interfaceName)
    requires !Truthy(q.qtext) && !Truthy(q.minDuration) && !Truthy(q.maxDuration)
    ensures BuildFilters(lib, q) == Ok(EmptyFilter)
    ensures Matches(lib, EmptyFilter, r) && Castable(EmptyFilter)
  {
  }
}
