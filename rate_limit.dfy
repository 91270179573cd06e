/**
 * The record stored in the `rate_limits` collection, and the conversions
 * between the handler's clock (whole seconds) and the stored BSON date
 * (milliseconds).
 */
module RateLimits {
  import opened Options
  import opened ObjectIds
  import opened Serde

  const MillisPerSecond := 1000

  /**
   * A per-IP counter. `id` is the MongoDB `_id`; `lastRequestTime` is a
   * BSON date, in milliseconds since the epoch.
   */
  datatype RateLimitEntry = RateLimitEntry(
    id: Option<ObjectId>,
    ip: string,
    requestCount: int,
    lastRequestTime: int)

  /** `DateTime::from_millis(now * 1000)`: a reading in seconds stored as milliseconds. */
  function SecsToMillis(secs: int): (millis: int)
    ensures millis % MillisPerSecond == 0
  {
    secs * MillisPerSecond
  }

  /**
   * `timestamp_millis() / 1000` with Rust's `/` on `i64`, which truncates
   * toward zero: the whole seconds of a date, rounded toward the epoch.
   */
  function MillisToSecs(millis: int): (secs: int)
    ensures millis >= 0 ==> 0 <= secs && secs * MillisPerSecond <= millis < secs * MillisPerSecond + MillisPerSecond
    ensures millis < 0 ==> secs <= 0 && secs * MillisPerSecond - MillisPerSecond < millis <= secs * MillisPerSecond
  {
    if millis >= 0 then millis / MillisPerSecond else -((-millis) / MillisPerSecond)
  }

  /** Storing a reading in milliseconds and reading it back in seconds gives the reading exactly. */
  lemma SecsRoundTrip(secs: int)
    ensures MillisToSecs(SecsToMillis(secs)) == secs
  {
    if secs < 0 {
      assert -SecsToMillis(secs) == SecsToMillis(-secs);
    }
  }

  /** Storing any reading in milliseconds and reading it back in seconds gives that reading. */
  lemma SecsRoundTripAll()
    ensures forall secs :: MillisToSecs(SecsToMillis(secs)) == secs
  {
    forall secs ensures MillisToSecs(SecsToMillis(secs)) == secs {
      SecsRoundTrip(secs);
    }
  }

  /**
   * The document `to_document` writes: `id` carries only `rename = "_id"`,
   * so an absent identifier is written as an `_id` of null.
   */
  function ToDocument(e: RateLimitEntry): (doc: seq<Field>)
    ensures Get(doc, "_id").Some?
    ensures Get(doc, "_id") == Some(Null) <==> e.id.None?
    ensures e.id.Some? ==> Get(doc, "_id") == Some(Oid(e.id.value))
    ensures Get(doc, "ip") == Some(Str(e.ip))
    ensures Get(doc, "request_count") == Some(Int(e.requestCount))
  {
    var rest := [
      ("ip", Str(e.ip)),
      ("request_count", Int(e.requestCount)),
      ("last_request_time", Date(e.lastRequestTime))];
    GetAppend(DefaultId(e.id), rest, "_id");
    GetAppend(DefaultId(e.id), rest, "ip");
    GetAppend(DefaultId(e.id), rest, "request_count");
    DefaultId(e.id) + rest
  }

  /**
   * The document written when `id` also carries
   * `skip_serializing_if = "Option::is_none"`, as the blacklist records' do:
   * an absent identifier leaves the field out.
   */
  function ToDocumentSkippingNoneId(e: RateLimitEntry): (doc: seq<Field>)
    ensures Get(doc, "_id").None? <==> e.id.None?
    ensures e.id.Some? ==> Get(doc, "_id") == Some(Oid(e.id.value))
    ensures Get(doc, "ip") == Some(Str(e.ip))
    ensures Get(doc, "request_count") == Some(Int(e.requestCount))
  {
    var idField := if e.id.None? then [] else DefaultId(e.id);
    var rest := [
      ("ip", Str(e.ip)),
      ("request_count", Int(e.requestCount)),
      ("last_request_time", Date(e.lastRequestTime))];
    GetAppend(idField, rest, "_id");
    GetAppend(idField, rest, "ip");
    GetAppend(idField, rest, "request_count");
    idField + rest
  }

  /** The `_id` value a stored counter carries. */
  function StoredId(e: RateLimitEntry): (v: Value)
    ensures v.Oid? || v.Null?
  {
    match e.id
    case Some(oid) => Oid(oid)
    case None => Null
  }
}
