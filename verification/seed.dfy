/**
  The test-data generator: `run(n, batchSize)` builds n execution documents in
  batches of batchSize and hands each batch to `insertMany`. The random choices
  faker makes for one record are passed in as one `Draw`.
 */
module Seed {
  import opened Wrappers
  import opened Runtime
  import opened ObjectIds
  import opened InterfaceExecution

  const Interfaces: seq<string> := [
    "SF_EmployeeSync_To_ECP",
    "SF_ManagerSync",
    "SF_TimeOffExport",
    "SF_PayrollExport",
    "SF_3rdParty_RMS",
    "SF_BenefitsSync"
  ]

  /** The largest count the HTTP handler passes on to `run`. */
  const MaxSeed: int := 2000000

  /** The random values faker yields for one record. */
  datatype Draw = Draw(
    iface: string,     // faker.helpers.arrayElement(interfaces)
    status: Status,    // faker.helpers.arrayElement(statuses)
    severity: Severity, // faker.helpers.arrayElement(severities.slice(1)); drawn only for FAILED
    duration: int,     // faker.number.int({min: 100, max: 10000})
    startTime: Time,   // faker.date.recent({days: 30})
    keyNumber: nat,    // faker.number.int({min: 1, max: 2000000})
    errorCode: nat,    // faker.number.int({min: 1, max: 999}) in the message
    phrase: string,    // faker.hacker.phrase()
    detailCode: nat,   // faker.number.int({min: 1, max: 999}) in errorDetails.code
    trace: string      // faker.lorem.sentence()
  )

  /** What faker guarantees about its values: list elements, and integers within the requested bounds. */
  predicate Drawn(d: Draw)
  {
    && d.iface in Interfaces
    && d.severity != Low      // severities.slice(1): MEDIUM, HIGH or CRITICAL
    && 100 <= d.duration <= 10000
    && 1 <= d.keyNumber <= 2000000
    && 1 <= d.errorCode <= 999
    && 1 <= d.detailCode <= 999
  }

  /** `String.prototype.toLowerCase` on ASCII text. */
  function Lower(s: string): (r: string)
    ensures |r| == |s|
    ensures forall i :: 0 <= i < |s| ==> r[i] == if 'A' <= s[i] <= 'Z' then (s[i] as int + 32) as char else s[i]
  {
    if s == [] then [] else [if 'A' <= s[0] <= 'Z' then (s[0] as int + 32) as char else s[0]] + Lower(s[1..])
  }

  function Digit(d: nat): char
    requires d < 10
  {
    ('0' as int + d) as char
  }

  /** The decimal text of a non-negative integer, as a template literal writes it. */
  function Decimal(n: nat): (s: string)
    ensures |s| >= 1
    ensures forall i :: 0 <= i < |s| ==> '0' <= s[i] <= '9'
  {
    if n < 10 then [Digit(n)] else Decimal(n / 10) + [Digit(n % 10)]
  }

  /** The value of a text of decimal digits. */
  function DigitsValue(s: string): int
  {
    if s == [] then 0 else DigitsValue(s[..|s| - 1]) * 10 + (s[|s| - 1] as int - '0' as int)
  }

  /** Reading the decimal text back gives the number. */
  lemma {:induction false} DecimalValue(n: nat)
    ensures DigitsValue(Decimal(n)) == n
  {
    if n >= 10 {
      DecimalValue(n / 10);
      var s := Decimal(n);
      assert s[..|s| - 1] == Decimal(n / 10);
    }
  }

  /** The document `run` pushes for one draw. */
  function MakeDoc(d: Draw): Doc
  {
    var iface := d.iface;
    var failed := d.status == Failed;
    Doc(
      Some(iface),
      Some(Lower(iface) + "_" + Decimal(d.keyNumber)),
      Some(StatusName(d.status)),
      Some(d.startTime),
      Some(d.startTime + d.duration),
      Some(d.duration),
      Some(if failed then "Error code " + Decimal(d.errorCode) + " - " + d.phrase else "OK"),
      if failed then Some(ErrorDetails("E" + Decimal(d.detailCode), d.trace)) else None,
      Some(SeverityName(if failed then d.severity else Low)),
      Some(["generated"]))
  }

  lemma StatusRoundTrip(st: Status)
    ensures ParseStatus(StatusName(st)) == Some(st)
  {
    match st
    case Success =>
    case Failed =>
    case Warning =>
    case Pending =>
  }

  lemma SeverityRoundTrip(sv: Severity)
    ensures ParseSeverity(SeverityName(sv)) == Some(sv)
  {
    match sv
    case Low =>
    case Medium =>
    case High =>
    case Critical =>
  }

  lemma NamedInterface(name: string)
    requires name in Interfaces
    ensures name != ""
  {
  }

  /** A document whose required strings are present and whose enum values parse has no violation. */
  lemma Clean(doc: Doc)
    requires Present(doc.interfaceName) && Present(doc.integrationKey)
    requires doc.status.Some? && ParseStatus(doc.status.value).Some?
    requires doc.severity.Some? && ParseSeverity(doc.severity.value).Some?
    ensures Violations(doc) == {}
  {
    var paths := Violations(doc);
    forall p: Path ensures p !in paths {
    }
  }

  /** Every generated document passes the schema's validators. */
  lemma GeneratedValid(d: Draw)
    requires Drawn(d)
    ensures Violations(MakeDoc(d)) == {}
  {
    var doc := MakeDoc(d);
    GeneratedDoc(d);
    NamedInterface(d.iface);
    StatusRoundTrip(d.status);
    SeverityRoundTrip(if d.status == Failed then d.severity else Low);
    assert Present(doc.integrationKey) by {
      assert |doc.integrationKey.value| >= 1;
    }
    Clean(doc);
  }

  /**
    A generated document: severity LOW exactly when the status is not FAILED,
    an end `duration` after the start, a message and error details only for a
    failure, the tag "generated", and a key made of the lower-cased interface
    name and a number.
   */
  lemma GeneratedDoc(d: Draw)
    ensures MakeDoc(d).interfaceName == Some(d.iface)
    ensures MakeDoc(d).status == Some(StatusName(d.status))
    ensures MakeDoc(d).severity == Some(SeverityName(if d.status == Failed then d.severity else Low))
    ensures MakeDoc(d).duration == Some(d.duration)
    ensures MakeDoc(d).startTime == Some(d.startTime) && MakeDoc(d).endTime == Some(d.startTime + d.duration)
    ensures MakeDoc(d).message == Some("OK") <==> d.status != Failed
    ensures MakeDoc(d).errorDetails.None? <==> d.status != Failed
    ensures MakeDoc(d).tags == Some(["generated"])
    ensures MakeDoc(d).integrationKey == Some(Lower(d.iface) + "_" + Decimal(d.keyNumber))
  {
    if d.status == Failed {
      assert MakeDoc(d).message.value[0] == 'E';
    }
  }

  /**
    The record a generated document becomes has severity LOW exactly when it
    did not fail, ends `duration` after it starts, carries a message and error
    details only when it failed, and is tagged "generated".
   */
  lemma GeneratedRecord(d: Draw, id: ObjectId, now: Time)
    requires Drawn(d)
    ensures Create(MakeDoc(d), id, now).Ok?
    ensures var e := Create(MakeDoc(d), id, now).value;
      && e.interfaceName in Interfaces
      && e.status == Some(d.status)
      && (e.severity == Low <==> e.status != Some(Failed))
      && e.startTime == Some(d.startTime) && e.duration == Some(d.duration) && 100 <= d.duration <= 10000
      && e.endTime == Some(d.startTime + d.duration)
      && (e.message == Some("OK") <==> e.status != Some(Failed))
      && (e.errorDetails.None? <==> e.status != Some(Failed))
      && e.tags == ["generated"]
      && e.integrationKey == Lower(e.interfaceName) + "_" + Decimal(d.keyNumber)
  {
    GeneratedDoc(d);
    GeneratedValid(d);
    StatusRoundTrip(d.status);
    SeverityRoundTrip(if d.status == Failed then d.severity else Low);
    var e := Create(MakeDoc(d), id, now).value;
    assert e.startTime == Some(d.startTime) && e.duration == Some(d.duration);
    assert e.endTime == Some(d.startTime + d.duration);
  }

  /** The documents of a sequence of draws, in order. */
  function Docs(draws: seq<Draw>): (docs: seq<Doc>)
    ensures |docs| == |draws|
    ensures forall i :: 0 <= i < |draws| ==> docs[i] == MakeDoc(draws[i])
  {
    if draws == [] then [] else Docs(draws[..|draws| - 1]) + [MakeDoc(draws[|draws| - 1])]
  }

  /** The batches, concatenated in the order they were inserted. */
  function Flatten(batches: seq<seq<Doc>>): seq<Doc>
  {
    if batches == [] then [] else Flatten(batches[..|batches| - 1]) + batches[|batches| - 1]
  }

  /** Every batch holds between 1 and `size` documents, and all but the last hold exactly `size`. */
  predicate Batched(batches: seq<seq<Doc>>, size: int)
  {
    && (forall i :: 0 <= i < |batches| ==> 1 <= |batches[i]| <= size)
    && (forall i :: 0 <= i < |batches| - 1 ==> |batches[i]| == size)
  }

  lemma DocsAppend(a: seq<Draw>, b: seq<Draw>)
    ensures Docs(a + b) == Docs(a) + Docs(b)
  {
    var ab := a + b;
    assert forall i :: 0 <= i < |ab| ==> Docs(ab)[i] == (Docs(a) + Docs(b))[i];
  }

  /** One more turn of the inner loop: the batch gains the next draw's document. */
  lemma NextDoc(draws: seq<Draw>, from: nat, to: nat)
    requires from <= to < |draws|
    ensures Docs(draws[from..to + 1]) == Docs(draws[from..to]) + [MakeDoc(draws[to])]
  {
    assert draws[from..to + 1] == draws[from..to] + [draws[to]];
  }

  /** One more turn of the outer loop: the finished batch follows the earlier ones. */
  lemma NextBatch(draws: seq<Draw>, batches: seq<seq<Doc>>, from: nat, to: nat)
    requires from <= to <= |draws|
    requires Flatten(batches) == Docs(draws[..from])
    ensures Flatten(batches + [Docs(draws[from..to])]) == Docs(draws[..to])
  {
    assert (batches + [Docs(draws[from..to])])[..|batches|] == batches;
    DocsAppend(draws[..from], draws[from..to]);
    assert draws[..to] == draws[..from] + draws[from..to];
  }

  /**
    run(n, batchSize): the loop over `created` and `i`. It ends with
    `created == max(n, 0)` (no record at all when n is NaN), having handed to insertMany, batch by batch, the
    documents of the first `created` draws in order. A batch whose insert
    fails is logged and skipped, so the loop does not depend on the outcome.
   */
  method Run(n: JsNumber, batchSize: int, draws: seq<Draw>) returns (batches: seq<seq<Doc>>, created: int)
    requires batchSize >= 1
    requires n.Int? ==> |draws| >= n.value
    ensures created == if n.Int? && n.value > 0 then n.value else 0
    ensures Flatten(batches) == Docs(draws[..created])
    ensures Batched(batches, batchSize)
  {
    batches := [];
    created := 0;
    while Below(created, n)
      invariant 0 <= created <= |draws|
      invariant n.Int? && n.value >= 0 ==> created <= n.value
      invariant n.NaN? || n.value < 0 ==> created == 0
      invariant Flatten(batches) == Docs(draws[..created])
      invariant Batched(batches, batchSize)
      invariant Below(created, n) ==> Full(batches, batchSize)
      decreases if n.Int? then n.value - created else 0
    {
      var before := created;
      var batch;
      batch, created := FillBatch(draws, n.value, before, batchSize);
      NextBatch(draws, batches, before, created);
      BatchedAppend(batches, batch, batchSize);
      batches := batches + [batch];
    }
  }

  /**
    One batch of run: the inner loop over `i`, which stops after `batchSize`
    documents or when `created` reaches n, whichever comes first.
   */
  method FillBatch(draws: seq<Draw>, n: int, start: int, batchSize: int) returns (batch: seq<Doc>, created: int)
    requires 0 <= start < n <= |draws| && batchSize >= 1
    ensures start < created <= n
    ensures created - start == batchSize || (created == n && created - start < batchSize)
    ensures batch == Docs(draws[start..created])
  {
    batch := [];
    created := start;
    var i := 0;
    while i < batchSize && created < n
      invariant 0 <= i <= batchSize
      invariant created == start + i <= n
      invariant batch == Docs(draws[start..created])
      decreases batchSize - i
    {
      NextDoc(draws, start, created);
      batch := batch + [MakeDoc(draws[created])];
      i := i + 1;
      created := created + 1;
    }
  }

  /** `created < n`: false for every count when n is NaN. */
  predicate Below(created: int, n: JsNumber)
  {
    n.Int? && created < n.value
  }

  predicate Full(batches: seq<seq<Doc>>, size: int)
  {
    forall i :: 0 <= i < |batches| ==> |batches[i]| == size
  }

  lemma BatchedAppend(batches: seq<seq<Doc>>, batch: seq<Doc>, size: int)
    requires Batched(batches, size) && Full(batches, size)
    requires 1 <= |batch| <= size
    ensures Batched(batches + [batch], size)
    ensures |batch| == size ==> Full(batches + [batch], size)
  {
  }

  /** `Math.min(2000000, Number(count))` with `count = 1000` when absent: never more than two million. */
  function SeedCount(lib: Lib, count: Option<string>): (n: JsNumber)
    ensures count.None? ==> n == Int(1000)
    ensures count.Some? ==> (n.NaN? <==> lib.toNumber(count.value).NaN?)
    ensures n.Int? ==> n.value <= MaxSeed
    ensures count.Some? && lib.toNumber(count.value).Int? && lib.toNumber(count.value).value <= MaxSeed ==>
              n == lib.toNumber(count.value)
  {
    match count
    case None => Int(1000)
    case Some(text) =>
      match lib.toNumber(text)
      case NaN => NaN
      case Int(v) => Int(if v < MaxSeed then v else MaxSeed)
  }
}
