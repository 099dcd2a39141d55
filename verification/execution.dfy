/**
  The InterfaceExecution schema: the shape of one execution record, its two
  enumerations, which fields are required, and the defaults Mongoose fills in
  when a document is created.
 */
module InterfaceExecution {
  import opened Wrappers
  import opened Runtime
  import opened ObjectIds

  datatype Status = Success | Failed | Warning | Pending

  datatype Severity = Low | Medium | High | Critical

  function StatusName(s: Status): string
  {
    match s
    case Success => "SUCCESS"
    case Failed => "FAILED"
    case Warning => "WARNING"
    case Pending => "PENDING"
  }

  function SeverityName(s: Severity): string
  {
    match s
    case Low => "LOW"
    case Medium => "MEDIUM"
    case High => "HIGH"
    case Critical => "CRITICAL"
  }

  /** The status enumeration check: the text must be one of the four names. */
  function ParseStatus(text: string): (r: Option<Status>)
    ensures r.Some? <==> text in {"SUCCESS", "FAILED", "WARNING", "PENDING"}
    ensures r.Some? ==> StatusName(r.value) == text
  {
    if text == "SUCCESS" then Some(Success)
    else if text == "FAILED" then Some(Failed)
    else if text == "WARNING" then Some(Warning)
    else if text == "PENDING" then Some(Pending)
    else None
  }

  /** The severity enumeration check: the text must be one of the four names. */
  function ParseSeverity(text: string): (r: Option<Severity>)
    ensures r.Some? <==> text in {"LOW", "MEDIUM", "HIGH", "CRITICAL"}
    ensures r.Some? ==> SeverityName(r.value) == text
  {
    if text == "LOW" then Some(Low)
    else if text == "MEDIUM" then Some(Medium)
    else if text == "HIGH" then Some(High)
    else if text == "CRITICAL" then Some(Critical)
    else None
  }

  /** The free-form errorDetails payload, in the shape the seed script writes. */
  datatype ErrorDetails = ErrorDetails(code: string, trace: string)

  /** A document as handed to the model before validation: every field may be missing. */
  datatype Doc = Doc(
    interfaceName: Option<string>,
    integrationKey: Option<string>,
    status: Option<string>,
    startTime: Option<Time>,
    endTime: Option<Time>,
    duration: Option<int>,
    message: Option<string>,
    errorDetails: Option<ErrorDetails>,
    severity: Option<string>,
    tags: Option<seq<string>>
  )

  /** A stored execution record. */
  datatype Execution = Execution(
    id: ObjectId,
    interfaceName: string,
    integrationKey: string,
    status: Option<Status>,
    startTime: Option<Time>,
    endTime: Option<Time>,
    duration: Option<int>,
    message: Option<string>,
    errorDetails: Option<ErrorDetails>,
    severity: Severity,
    tags: seq<string>,
    createdAt: Time,
    updatedAt: Time
  )

  /** The schema paths whose validators can fail. */
  datatype Path = InterfaceNamePath | IntegrationKeyPath | StatusPath | SeverityPath

  /** Mongoose's required check on a String path: present and not the empty string. */
  predicate Present(s: Option<string>)
  {
    s.Some? && s.value != ""
  }

  /** A stored record meets the schema: both required strings are non-empty. */
  predicate Valid(e: Execution)
  {
    e.interfaceName != "" && e.integrationKey != ""
  }

  /** The paths whose validator rejects the document; Mongoose reports all of them at once. */
  function Violations(doc: Doc): (paths: set<Path>)
    ensures InterfaceNamePath in paths <==> !Present(doc.interfaceName)
    ensures IntegrationKeyPath in paths <==> !Present(doc.integrationKey)
    ensures StatusPath in paths <==> doc.status.Some? && ParseStatus(doc.status.value).None?
    ensures SeverityPath in paths <==> doc.severity.Some? && ParseSeverity(doc.severity.value).None?
  {
    (if Present(doc.interfaceName) then {} else {InterfaceNamePath})
    + (if Present(doc.integrationKey) then {} else {IntegrationKeyPath})
    + (if doc.status.Some? && ParseStatus(doc.status.value).None? then {StatusPath} else {})
    + (if doc.severity.Some? && ParseSeverity(doc.severity.value).None? then {SeverityPath} else {})
  }

  /**
    Creating a record from a document: validation first, then the defaults
    (severity LOW, tags empty, createdAt and updatedAt the creation time).
   */
  function Create(doc: Doc, id: ObjectId, now: Time): (r: Result<Execution, set<Path>>)
    ensures r.Err? <==> Violations(doc) != {}
    ensures r.Err? ==> r.error == Violations(doc)
    ensures r.Ok? ==> Valid(r.value) && r.value.id == id
    ensures r.Ok? ==> r.value.createdAt == now && r.value.updatedAt == now
    ensures r.Ok? ==> r.value.severity == if doc.severity.None? then Low else ParseSeverity(doc.severity.value).value
    ensures r.Ok? ==> r.value.status == if doc.status.None? then None else ParseStatus(doc.status.value)
    ensures r.Ok? ==> r.value.tags == if doc.tags.None? then [] else doc.tags.value
    ensures r.Ok? ==> r.value.interfaceName == doc.interfaceName.value && r.value.integrationKey == doc.integrationKey.value
    ensures r.Ok? ==> r.value.startTime == doc.startTime && r.value.endTime == doc.endTime && r.value.duration == doc.duration
    ensures r.Ok? ==> r.value.message == doc.message && r.value.errorDetails == doc.errorDetails
  {
    if Violations(doc) != {} then Err(Violations(doc))
    else
      Ok(Execution(
        id,
        doc.interfaceName.value,
        doc.integrationKey.value,
        if doc.status.None? then None else ParseStatus(doc.status.value),
        doc.startTime,
        doc.endTime,
        doc.duration,
        doc.message,
        doc.errorDetails,
        if doc.severity.None? then Low else ParseSeverity(doc.severity.value).value,
        if doc.tags.None? then [] else doc.tags.value,
        now,
        now))
  }

  /** The document that writes every field of a record explicitly. */
  function ToDoc(e: Execution): Doc
  {
    Doc(Some(e.interfaceName), Some(e.integrationKey),
        if e.status.None? then None else Some(StatusName(e.status.value)),
        e.startTime, e.endTime, e.duration, e.message, e.errorDetails,
        Some(SeverityName(e.severity)), Some(e.tags))
  }

  /** Every record that meets the schema is accepted back exactly, and nothing else is. */
  lemma CreateToDoc(e: Execution)
    ensures Create(ToDoc(e), e.id, e.createdAt).Ok? <==> Valid(e)
    ensures Valid(e) && e.updatedAt == e.createdAt ==> Create(ToDoc(e), e.id, e.createdAt) == Ok(e)
  {
    if e.status.Some? {
      match e.status.value
      case Success =>
      case Failed =>
      case Warning =>
      case Pending =>
    }
    match e.severity
    case Low =>
    case Medium =>
    case High =>
    case Critical =>
  }

  /** A document that omits status and severity is stored without a status and with severity LOW. */
  lemma SeverityDefaultsToLow(doc: Doc, id: ObjectId, now: Time)
    requires Present(doc.interfaceName) && Present(doc.integrationKey)
    requires doc.status.None? && doc.severity.None?
    ensures Create(doc, id, now).Ok?
    ensures Create(doc, id, now).value.severity == Low && Create(doc, id, now).value.status.None?
  {
  }
}
