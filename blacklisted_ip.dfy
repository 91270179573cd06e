/** The record stored in the `blacklisted_ips` collection. */
module BlacklistedIps {
  import opened Options
  import opened ObjectIds
  import opened Serde
  import opened Documents

  /**
   * A blacklisted IP address. `id` is the MongoDB `_id` (absent until the
   * store assigns one); the two times are clock values.
   */
  datatype BlacklistedIp = BlacklistedIp(
    id: Option<ObjectId>,
    ipAddress: string,
    status: string,
    createdAt: int,
    updatedAt: int)

  /** `BlacklistedIp::new`: a blocked entry for the address, stamped twice with the same clock reading. */
  function New(ipAddress: string, now: int): (b: BlacklistedIp)
    ensures b.id == None
    ensures b.ipAddress == ipAddress
    ensures b.status == Blocked
    ensures b.createdAt == now && b.updatedAt == now
  {
    BlacklistedIp(None, ipAddress, Blocked, now, now)
  }

  /**
   * The document serde writes for the record: the `_id` attribute makes an
   * absent identifier disappear and a present one appear as its hex text;
   * the two `DateTime<Utc>` times are written as chrono writes them.
   */
  function Serialize(b: BlacklistedIp): (doc: seq<Field>)
    ensures Get(doc, "_id").None? <==> b.id.None?
    ensures b.id.Some? ==> exists h :: Get(doc, "_id") == Some(Str(h)) && ParseStr(h) == b.id
    ensures Get(doc, "ip_address") == Some(Str(b.ipAddress))
    ensures Get(doc, "status") == Some(Str(b.status))
    ensures Get(doc, "created_at") == Some(ChronoTime(b.createdAt))
    ensures Get(doc, "updated_at") == Some(ChronoTime(b.updatedAt))
  {
    var idField := SkippedIfNoneId(b.id);
    var rest := EntryFields("ip_address", b.ipAddress, b.status, b.createdAt, b.updatedAt);
    GetAppend(idField, rest, "_id");
    GetAppend(idField, rest, "ip_address");
    GetAppend(idField, rest, "status");
    GetAppend(idField, rest, "created_at");
    GetAppend(idField, rest, "updated_at");
    idField + rest
  }

  /** A new entry goes to the store without an `_id`, so the store assigns the identifier it generates. */
  lemma NewGetsGeneratedId(ipAddress: string, now: int, generated: ObjectId)
    ensures InsertedId(Serialize(New(ipAddress, now)), generated) == Oid(generated)
  {
  }

  /**
   * The document the collection holds for an entry inserted through
   * `Serialize`: the `_id` the driver assigned, then the fields serde wrote.
   */
  function Stored(b: BlacklistedIp): (doc: seq<Field>)
    requires b.id.Some?
    ensures Get(doc, "_id") == Some(Oid(b.id.value))
    ensures Get(doc, "ip_address") == Some(Str(b.ipAddress))
    ensures Get(doc, "status") == Some(Str(b.status))
    ensures Get(doc, "created_at") == Some(ChronoTime(b.createdAt))
    ensures Get(doc, "updated_at") == Some(ChronoTime(b.updatedAt))
  {
    var idField := [("_id", Oid(b.id.value))];
    var fields := Serialize(b.(id := None));
    GetAppend(idField, fields, "_id");
    GetAppend(idField, fields, "ip_address");
    GetAppend(idField, fields, "status");
    GetAppend(idField, fields, "created_at");
    GetAppend(idField, fields, "updated_at");
    idField + fields
  }

  /**
   * How a typed read (`find_one` on `Collection<BlacklistedIp>`, a cursor of
   * them) decodes a stored document: a missing `_id` or a null one is None;
   * each other field must be there with the type the record declares, and a
   * `DateTime<Utc>` only accepts the string chrono writes. Otherwise the read fails.
   */
  function Deserialize(doc: seq<Field>): (r: Option<BlacklistedIp>)
    ensures r.Some? ==>
      && Get(doc, "ip_address") == Some(Str(r.value.ipAddress))
      && Get(doc, "status") == Some(Str(r.value.status))
      && Get(doc, "created_at") == Some(ChronoTime(r.value.createdAt))
      && Get(doc, "updated_at") == Some(ChronoTime(r.value.updatedAt))
    ensures r.Some? && r.value.id.Some? ==> Get(doc, "_id") == Some(Oid(r.value.id.value))
    ensures r.Some? && r.value.id.None? ==> Get(doc, "_id") in {None, Some(Null)}
    ensures Get(doc, "updated_at").Some? && !Get(doc, "updated_at").value.ChronoTime? ==> r.None?
  {
    var id := Get(doc, "_id");
    var ipAddress := Get(doc, "ip_address");
    var status := Get(doc, "status");
    var createdAt := Get(doc, "created_at");
    var updatedAt := Get(doc, "updated_at");
    if && (id.None? || id.value.Oid? || id.value.Null?)
       && ipAddress.Some? && ipAddress.value.Str?
       && status.Some? && status.value.Str?
       && createdAt.Some? && createdAt.value.ChronoTime?
       && updatedAt.Some? && updatedAt.value.ChronoTime?
    then
      Some(BlacklistedIp(
        if id.Some? && id.value.Oid? then Some(id.value.oid) else None,
        ipAddress.value.s, status.value.s, createdAt.value.instant, updatedAt.value.instant))
    else None
  }

  /** A document with every field of an entry, in the types the record declares, reads as that entry. */
  lemma DeserializeFields(doc: seq<Field>, b: BlacklistedIp)
    requires b.id.Some? && Get(doc, "_id") == Some(Oid(b.id.value))
    requires Get(doc, "ip_address") == Some(Str(b.ipAddress)) && Get(doc, "status") == Some(Str(b.status))
    requires Get(doc, "created_at") == Some(ChronoTime(b.createdAt))
    requires Get(doc, "updated_at") == Some(ChronoTime(b.updatedAt))
    ensures Deserialize(doc) == Some(b)
  {
  }

  /** A stored entry reads back as the entry that was stored. */
  lemma ReadStored(b: BlacklistedIp)
    requires b.id.Some?
    ensures Deserialize(Stored(b)) == Some(b)
  {
  }
}
