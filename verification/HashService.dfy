/** Hash primitives: the joined preimage, its digest, and the check of a single entry. */
module HashService {

  import opened Wrappers
  import opened LogEntries

  const GENESIS_PREVIOUS_HASH := "GENESIS"

  /** The argument of generateHash. `timestamp` is the legacy name of `createdAt`. */
  datatype HashData = HashData(
    previousHash: string,
    actor: string,
    action: string,
    payload: Option<Json>,
    createdAt: Option<Timestamp>,
    timestamp: Option<Timestamp>)

  /** JavaScript truthiness: undefined and the empty string are false, every Date is true. */
  predicate Truthy(t: Option<Timestamp>) {
    t.Some? && t.value != IsoText("")
  }

  function TimestampText(e: Env, data: HashData): string {
    match if Truthy(data.createdAt) then data.createdAt else data.timestamp
    case None => "undefined"
    case Some(DateValue(ms)) => e.iso(ms)
    case Some(IsoText(text)) => text
  }

  function PayloadText(e: Env, payload: Option<Json>): string {
    match payload
    case None => "null"
    case Some(json) => e.stringify(json)
  }

  /** Array.prototype.join with a bar. */
  function JoinBars(parts: seq<string>): string {
    if parts == [] then ""
    else if |parts| == 1 then parts[0]
    else parts[0] + "|" + JoinBars(parts[1..])
  }

  function Preimage(e: Env, data: HashData): string {
    JoinBars([data.previousHash, data.actor, data.action, PayloadText(e, data.payload), TimestampText(e, data)])
  }

  function GenerateHash(e: Env, data: HashData): string {
    e.sha256(Preimage(e, data))
  }

  /** Two different texts with one hash. */
  ghost predicate IsCollision(e: Env, a: string, b: string) {
    a != b && e.sha256(a) == e.sha256(b)
  }

  /** An injective hash has none, so for such a hash "or a collision" falls away everywhere. */
  lemma InjectiveHashHasNoCollision(e: Env, a: string, b: string)
    requires forall x, y :: e.sha256(x) == e.sha256(y) ==> x == y
    ensures !IsCollision(e, a, b)
  {
  }

  /** A digest has 64 hexadecimal digits, no bar, and is never mistaken for the genesis sentinel. */
  lemma DigestFormat(e: Env, data: HashData)
    requires WellBehaved(e)
    ensures var hash := GenerateHash(e, data);
            && |hash| == 64 && (forall c :: c in hash ==> '0' <= c <= '9' || 'a' <= c <= 'f')
            && BarFree(hash) && hash != GENESIS_PREVIOUS_HASH
  {
    assert DigestOk(e, Preimage(e, data));
  }

  function CreateGenesisHash(e: Env, actor: string, action: string, payload: Option<Json>,
                             createdAt: Timestamp): string
  {
    GenerateHash(e, HashData(GENESIS_PREVIOUS_HASH, actor, action, payload, Some(createdAt), None))
  }

  function CalculateCurrentHash(e: Env, actor: string, action: string, payload: Option<Json>, previousHash: string,
                                createdAt: Timestamp): string
  {
    GenerateHash(e, HashData(previousHash, actor, action, payload, Some(createdAt), None))
  }

  /** What is hashed for an entry once its predecessor's hash is resolved. */
  function DataOf(entry: LogEntry, previousHash: string): HashData {
    HashData(previousHash, entry.actor, entry.action, entry.payload, Some(entry.createdAt), None)
  }

  function VerifyEntry(e: Env, entry: LogEntry, resolvedPreviousHash: Option<string>): bool {
    entry.currentHash == GenerateHash(e, DataOf(entry, resolvedPreviousHash.GetOr(GENESIS_PREVIOUS_HASH)))
  }

  /** The status that getLogById reports: the entry is checked against its own stored previousHash. */
  function VerificationStatus(e: Env, entry: LogEntry): bool {
    VerifyEntry(e, entry, Some(entry.previousHash.GetOr(GENESIS_PREVIOUS_HASH)))
  }

  /** The legacy field counts where createdAt is missing or empty, and only there. */
  lemma LegacyTimestamp(e: Env, data: HashData, ts: Timestamp)
    requires ts != IsoText("")
    ensures GenerateHash(e, data.(createdAt := None, timestamp := Some(ts))) ==
            GenerateHash(e, data.(createdAt := Some(ts), timestamp := None))
    ensures GenerateHash(e, data.(createdAt := Some(IsoText("")), timestamp := Some(ts))) ==
            GenerateHash(e, data.(createdAt := Some(ts), timestamp := None))
    ensures GenerateHash(e, data.(createdAt := Some(ts))) ==
            GenerateHash(e, data.(createdAt := Some(ts), timestamp := None))
  {
  }

  /** An entry and its JSON image have the same preimage, whatever previous hash is used. */
  lemma JsonImageKeepsPreimage(e: Env, entry: LogEntry, previousHash: string)
    requires WellBehaved(e)
    ensures Preimage(e, DataOf(JsonImage(e, entry), previousHash)) == Preimage(e, DataOf(entry, previousHash))
  {
    match entry.createdAt
    case DateValue(ms) =>
      assert IsoOk(e, ms);
      assert TimestampText(e, DataOf(JsonImage(e, entry), previousHash)) ==
             TimestampText(e, DataOf(entry, previousHash));
    case IsoText(_) =>
  }

  /** A cached entry gets the verification status of the row it was made from. */
  lemma JsonImageKeepsStatus(e: Env, entry: LogEntry)
    requires WellBehaved(e)
    ensures VerificationStatus(e, JsonImage(e, entry)) == VerificationStatus(e, entry)
  {
    JsonImageKeepsPreimage(e, entry, entry.previousHash.GetOr(GENESIS_PREVIOUS_HASH));
  }
}
