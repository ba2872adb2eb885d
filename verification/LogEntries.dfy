/** The records of the audit log, and the library functions the service calls but does not define. */
module LogEntries {

  import opened Wrappers

  /** A JSON value. An object keeps its members in order, because JSON.stringify prints them in order. */
  datatype Json =
    | JNull
    | JBool(value: bool)
    | JNumber(text: string)
    | JString(text: string)
    | JArray(items: seq<Json>)
    | JObject(members: seq<(string, Json)>)

  /** `createdAt` is a Date in the database (milliseconds since 1970) and ISO text after a trip through JSON. */
  datatype Timestamp = DateValue(ms: int) | IsoText(text: string)

  /** One audit record. `previousHash` is None where the column holds null. */
  datatype LogEntry = LogEntry(
    id: string,
    actor: string,
    action: string,
    payload: Option<Json>,
    previousHash: Option<string>,
    currentHash: string,
    createdAt: Timestamp)

  /** A record as the database returns it: `createdAt` is a Date. */
  type Row = entry: LogEntry | entry.createdAt.DateValue?
    witness LogEntry("", "", "", None, None, "", DateValue(0))

  /** What SHA-256 printed in lowercase hexadecimal looks like. */
  predicate IsHexDigest(s: string) {
    |s| == 64 && forall i :: 0 <= i < |s| ==> '0' <= s[i] <= '9' || 'a' <= s[i] <= 'f'
  }

  predicate BarFree(s: string) {
    '|' !in s
  }

  /**
   * The library functions behind the service: SHA-256 over the UTF-8 form of a string, Date.toISOString,
   * JSON.stringify, and what storing a value in a JSONB column and reading it back does to it.
   */
  datatype Env = Env(
    sha256: string -> string,
    iso: int -> string,
    stringify: Json -> string,
    jsonb: Json -> Json)

  predicate DigestOk(e: Env, s: string) {
    IsHexDigest(e.sha256(s))
  }

  predicate IsoOk(e: Env, ms: int) {
    BarFree(e.iso(ms)) && e.iso(ms) != ""
  }

  /** Output formats of SHA-256 and of toISOString. The hash is not assumed injective. */
  ghost predicate WellBehaved(e: Env) {
    (forall s :: DigestOk(e, s)) && (forall ms :: IsoOk(e, ms))
  }

  /** Nothing more is assumed of the hash: it may even map all texts to one digest. */
  lemma HashNeedNotBeInjective(e: Env)
    requires forall ms :: IsoOk(e, ms)
    ensures WellBehaved(e.(sha256 := (s: string) => seq(64, _ => '0')))
  {
    var constant := e.(sha256 := (s: string) => seq(64, _ => '0'));
    assert forall s :: DigestOk(constant, s);
    assert forall ms :: IsoOk(e, ms) ==> IsoOk(constant, ms);
  }

  /** The payload column after a write and a read. */
  function StoredPayload(e: Env, payload: Option<Json>): Option<Json> {
    match payload
    case None => None
    case Some(json) => Some(e.jsonb(json))
  }

  /** JSON.parse(JSON.stringify(entry)): the date becomes its ISO text, the other fields stay. */
  function JsonImage(e: Env, entry: LogEntry): LogEntry {
    match entry.createdAt
    case DateValue(ms) => entry.(createdAt := IsoText(e.iso(ms)))
    case IsoText(_) => entry
  }
}
