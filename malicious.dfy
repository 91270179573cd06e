/** The record stored in the `malicious_urls` collection. */
module MaliciousUrls {
  import opened Options
  import opened ObjectIds
  import opened Serde
  import opened Documents

  /**
   * A blacklisted URL. `id` is the MongoDB `_id` (absent until the
   * store assigns one); the two times are clock values.
   */
  datatype MaliciousUrl = MaliciousUrl(
    id: Option<ObjectId>,
    url: string,
    status: string,
    createdAt: int,
    updatedAt: int)

  /** `MaliciousUrl::new`: a blocked entry for the URL, stamped twice with the same clock reading. */
  function New(url: string, now: int): (b: MaliciousUrl)
    ensures b.id == None
    ensures b.url == url
    ensures b.status == Blocked
    ensures b.createdAt == now && b.updatedAt == now
  {
    MaliciousUrl(None, url, Blocked, now, now)
  }

  /**
   * The document serde writes for the record: the `_id` attribute makes an
   * absent identifier disappear and a present one appear as its hex text;
   * the two `DateTime<Utc>` times are written as chrono writes them.
   */
  function Serialize(b: MaliciousUrl): (doc: seq<Field>)
    ensures Get(doc, "_id").None? <==> b.id.None?
    ensures b.id.Some? ==> exists h :: Get(doc, "_id") == Some(Str(h)) && ParseStr(h) == b.id
    ensures Get(doc, "url") == Some(Str(b.url))
    ensures Get(doc, "status") == Some(Str(b.status))
    ensures Get(doc, "created_at") == Some(ChronoTime(b.createdAt))
    ensures Get(doc, "updated_at") == Some(ChronoTime(b.updatedAt))
  {
    var idField := SkippedIfNoneId(b.id);
    var rest := EntryFields("url", b.url, b.status, b.createdAt, b.updatedAt);
    GetAppend(idField, rest, "_id");
    GetAppend(idField, rest, "url");
    GetAppend(idField, rest, "status");
    GetAppend(idField, rest, "created_at");
    GetAppend(idField, rest, "updated_at");
    idField + rest
  }

  /** A new entry goes to the store without an `_id`, so the store assigns the identifier it generates. */
  lemma NewGetsGeneratedId(url: string, now: int, generated: ObjectId)
    ensures InsertedId(Serialize(New(url, now)), generated) == Oid(generated)
  {
  }
}
