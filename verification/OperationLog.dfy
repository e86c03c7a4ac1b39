/** Operation-log messages: the versioned event, its headers, and its database row. */
module OperationLog {
  import opened Bits
  import opened Common
  import opened Text

  const EVENT_TYPE := "admin.operation_log.created"
  const SCHEMA_VERSION := 1
  const RETRY_HEADER := "x-retry-count"
  const ERROR_HEADER := "x-error"
  const DEATH_HEADER := "x-death"

  datatype Event = Event(
    eventID: string, eventType: string, schemaVersion: int, occurredAt: int,
    adminID: nat, adminName: string, moduleName: string, action: string, description: string,
    success: bool, httpMethod: string, path: string, clientIP: string, userAgent: string)

  /** A message body, as the JSON decoder sees it: it may report an error and still fill in
      the event. A zero `occurredAt` is the zero time. */
  datatype Body = Body(json: bool, event: Event)

  predicate Valid(e: Event) {
    && !Blank(e.eventID)
    && e.eventType == EVENT_TYPE
    && e.schemaVersion == SCHEMA_VERSION
    && e.occurredAt != 0
    && e.adminID != 0
    && !Blank(e.moduleName)
    && !Blank(e.action)
  }

  /** Decoding succeeds on well-formed JSON with a valid event. */
  predicate Decodes(b: Body) {
    b.json && Valid(b.event)
  }

  datatype Row = Row(
    eventID: string, adminID: nat, adminName: string, moduleName: string, operType: string, operDesc: string,
    requestURL: string, httpMethod: string, ip: string, userAgent: string, status: int)

  /** What the platform decides: its largest uint, and whether its ORM leaves a zero out of an
      insert when the column has a default, so that the default is stored instead. */
  datatype Platform = Platform(maxUint: nat, omitsZero: bool)

  const STATUS_DEFAULT := 1

  /** What a status handed to the insert is stored as. */
  function StoredStatus(status: int, omitsZero: bool): int {
    if status == 0 && omitsZero then STATUS_DEFAULT else status
  }

  /** The row stored for an event. */
  function RowOf(e: Event, omitsZero: bool): Row {
    Row(e.eventID, e.adminID, e.adminName, e.moduleName, e.action, e.description,
        e.path, e.httpMethod, e.clientIP, e.userAgent, StoredStatus(if e.success then 1 else 0, omitsZero))
  }

  // ----- headers

  datatype IntKind = I | I8 | I16 | I32 | I64 | U | U8 | U16 | U32 | U64

  datatype HeaderValue = Number(kind: IntKind, value: int) | Note(text: string) | Table

  type Headers = map<string, HeaderValue>

  /** The retry count as a 64-bit int; anything that is not a number counts as zero. */
  function RetryCount(h: Headers): int {
    if RETRY_HEADER !in h then 0
    else
      match h[RETRY_HEADER]
      case Number(kind, value) => if kind == U || kind == U64 then WrapInt64(value) else value
      case _ => 0
  }

  predicate InKind(kind: IntKind, value: int) {
    match kind
    case I8 => -0x80 <= value < 0x80
    case I16 => -0x8000 <= value < 0x8000
    case I32 => -0x8000_0000 <= value < 0x8000_0000
    case U8 => 0 <= value < 0x100
    case U16 => 0 <= value < 0x1_0000
    case U32 => 0 <= value < 0x1_0000_0000
    case U => 0 <= value < 0x1_0000_0000_0000_0000
    case U64 => 0 <= value < 0x1_0000_0000_0000_0000
    case _ => IsInt64(value)
  }

  /** A count is read whatever integer kind it arrives in, wrapping only beyond 63 bits; without
      a number there, it is zero. */
  lemma RetryCountMeaning(h: Headers, kind: IntKind, value: int, text: string)
    requires InKind(kind, value)
    ensures RetryCount(h[RETRY_HEADER := Number(kind, value)]) ==
            if IsInt64(value) then value else value - 0x1_0000_0000_0000_0000
    ensures RetryCount(h - {RETRY_HEADER}) == 0
    ensures RetryCount(h[RETRY_HEADER := Note(text)]) == 0 && RetryCount(h[RETRY_HEADER := Table]) == 0
  {
  }

  function NextRetry(h: Headers): Headers {
    h[RETRY_HEADER := Number(I32, WrapInt32(RetryCount(h) + 1))]
  }

  /** Raising the count survives the int32 round trip as long as it stays below 2^31. */
  lemma NextRetryAddsOne(h: Headers, max: int)
    requires 0 <= RetryCount(h) < max < 0x8000_0000
    ensures RetryCount(NextRetry(h)) == RetryCount(h) + 1
    ensures forall k :: k in h && k != RETRY_HEADER ==> k in NextRetry(h) && NextRetry(h)[k] == h[k]
  {
  }

  /** Copying headers entry by entry leaves the original alone and loses nothing. */
  method CloneHeaders(source: Headers) returns (result: Headers)
    ensures result == source
  {
    result := map[];
    var todo := source.Keys;
    while todo != {}
      invariant todo <= source.Keys
      invariant result == map k | k in source && k !in todo :: source[k]
      decreases todo
    {
      var key :| key in todo;
      result := result[key := source[key]];
      todo := todo - {key};
    }
  }

  // ----- the database table

  predicate HasEvent(rows: seq<Row>, id: string) {
    exists i :: 0 <= i < |rows| && rows[i].eventID == id
  }

  /** INSERT ... ON CONFLICT (event_id) DO NOTHING. */
  function InsertRow(rows: seq<Row>, row: Row): seq<Row> {
    if HasEvent(rows, row.eventID) then rows else rows + [row]
  }

  ghost predicate UniqueEvents(rows: seq<Row>) {
    forall i, j :: 0 <= i < j < |rows| ==> rows[i].eventID != rows[j].eventID
  }

  datatype HandlerResult = Stored | PermanentError | TransientError

  /** An insert succeeds, fails without effect, or takes effect with its reply lost. */
  datatype Commit = Reported | Aborted | Unreported

  /** Decode the body and hand the event to the handler. */
  function Process(b: Body, rows: seq<Row>, commit: Commit, platform: Platform): (seq<Row>, HandlerResult) {
    if !Decodes(b) then (rows, TransientError)
    else if b.event.adminID > platform.maxUint then (rows, PermanentError)
    else
      (if commit.Aborted? then rows else InsertRow(rows, RowOf(b.event, platform.omitsZero)),
       if commit.Reported? then Stored else TransientError)
  }
}
