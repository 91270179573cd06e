/**
 * The handlers of the `blacklisted_ips` collection: add, list the blocked
 * entries newest first, get, delete and edit by identifier.
 *
 * Each handler is specified by a function from the collection's documents
 * (and the request) to the reply and the new documents; the class
 * `IpBlacklist` holds the collection and its methods do what the handlers
 * do, proved against those functions. The clock reading and the ObjectId
 * the driver generates for an insert are parameters.
 */
module BlacklistHandler {
  import opened Options
  import opened ObjectIds
  import opened Serde
  import opened Responses
  import opened Documents
  import opened BlacklistedIps

  function IdOf(b: BlacklistedIp): Option<ObjectId> { b.id }

  function CreatedAt(b: BlacklistedIp): int { b.createdAt }

  predicate IsBlocked(b: BlacklistedIp) { b.status == Blocked }

  /** The addresses of the stored entries, in order. */
  function Addresses(docs: seq<BlacklistedIp>): (r: seq<string>)
    ensures |r| == |docs| && forall i :: 0 <= i < |docs| ==> r[i] == docs[i].ipAddress
  {
    seq(|docs|, i requires 0 <= i < |docs| => docs[i].ipAddress)
  }

  /**
   * An entry as an edit at time `now` leaves it: the address, the status and
   * the update time are the edit's; the identifier and creation time stay.
   */
  function Edited(b: BlacklistedIp, ipAddress: string, status: string, now: int): (e: BlacklistedIp)
    ensures e.id == b.id && e.createdAt == b.createdAt
    ensures e.ipAddress == ipAddress && e.status == status && e.updatedAt == now
  {
    b.(ipAddress := ipAddress, status := status, updatedAt := now)
  }

  /**
   * `add_blacklist_ip`: a new blocked entry for the address goes at the end,
   * whether or not the address is already listed. The insert fails only
   * when the generated identifier is already stored (a duplicate key).
   */
  function AddBlacklistIp(docs: seq<BlacklistedIp>, ipAddress: string, now: int, generated: ObjectId)
    : (res: (Response<()>, seq<BlacklistedIp>))
    ensures HasId(docs, IdOf, generated) ==> res == (InternalServerError, docs)
    ensures !HasId(docs, IdOf, generated) ==>
      && res.0 == Created
      && |res.1| == |docs| + 1
      && res.1[..|docs|] == docs
      && res.1[|docs|].id == Some(generated)
      && res.1[|docs|].ipAddress == ipAddress
      && res.1[|docs|].status == Blocked
      && res.1[|docs|].createdAt == now == res.1[|docs|].updatedAt
  {
    if HasId(docs, IdOf, generated) then
      (InternalServerError, docs)
    else
      var newIp := New(ipAddress, now);
      NewGetsGeneratedId(ipAddress, now, generated);
      (Created, docs + [newIp.(id := ReadId(InsertedId(Serialize(newIp), generated)))])
  }

  /**
   * `get_all_blacklist_ip`: what `find({status: "blocked"})` sorted by
   * `{created_at: -1}` returns — every blocked entry as often as it is
   * stored, no other entry, newest first.
   */
  function GetAllBlacklistIp(docs: seq<BlacklistedIp>): (r: seq<BlacklistedIp>)
    ensures forall d :: multiset(r)[d] == if d.status == Blocked then multiset(docs)[d] else 0
    ensures SortedDescending(r, CreatedAt)
  {
    SortDescending(Filter(docs, IsBlocked), CreatedAt)
  }

  /**
   * `get_blacklist_ip_by_id`: a malformed identifier is refused before any
   * lookup; otherwise the entry with that identifier, or NotFound.
   */
  function GetBlacklistIpById(docs: seq<BlacklistedIp>, idStr: string): (r: Response<BlacklistedIp>)
    ensures !ValidId(idStr) ==> r == BadRequest
    ensures ValidId(idStr) ==> (r.Ok? <==> HasId(docs, IdOf, ParseStr(idStr).value))
    ensures ValidId(idStr) && !r.Ok? ==> r == NotFound
    ensures r.Ok? ==> r.body in docs && r.body.id == ParseStr(idStr)
  {
    match ParseStr(idStr)
    case None => BadRequest
    case Some(oid) =>
      match IndexOfId(docs, IdOf, oid)
      case Some(k) => Ok(docs[k])
      case None => NotFound
  }

  /**
   * `delete_blacklist_ip_by_id`: a malformed identifier is refused and an
   * unknown one is NotFound, both without change; otherwise the entry with
   * that identifier is gone and every other entry stays, in order.
   */
  function DeleteBlacklistIpById(docs: seq<BlacklistedIp>, idStr: string): (res: (Response<()>, seq<BlacklistedIp>))
    ensures !ValidId(idStr) ==> res == (BadRequest, docs)
    ensures ValidId(idStr) && !HasId(docs, IdOf, ParseStr(idStr).value) ==> res == (NotFound, docs)
    ensures ValidId(idStr) && HasId(docs, IdOf, ParseStr(idStr).value) ==>
      && res.0 == Ok(())
      && (forall d :: d in res.1 <==> d in docs && d.id != ParseStr(idStr))
  {
    match ParseStr(idStr)
    case None => (BadRequest, docs)
    case Some(oid) =>
      if HasId(docs, IdOf, oid) then (Ok(()), Without(docs, IdOf, oid)) else (NotFound, docs)
  }

  /**
   * `edit_blacklist_ip_by_id`: a malformed identifier is refused and an
   * unknown one is NotFound, both without change; otherwise the entry with
   * that identifier gets the new address, the new status (any string) and
   * `updated_at = now`, keeping its identifier and `created_at`, and every
   * other entry stays as it was.
   */
  function EditBlacklistIpById(docs: seq<BlacklistedIp>, idStr: string, ipAddress: string, status: string, now: int)
    : (res: (Response<()>, seq<BlacklistedIp>))
    ensures !ValidId(idStr) ==> res == (BadRequest, docs)
    ensures ValidId(idStr) && !HasId(docs, IdOf, ParseStr(idStr).value) ==> res == (NotFound, docs)
    ensures ValidId(idStr) && HasId(docs, IdOf, ParseStr(idStr).value) ==>
      && res.0 == Ok(())
      && |res.1| == |docs|
      && forall i :: 0 <= i < |docs| ==>
           if docs[i].id == ParseStr(idStr) then
             && res.1[i].id == docs[i].id
             && res.1[i].createdAt == docs[i].createdAt
             && res.1[i].ipAddress == ipAddress
             && res.1[i].status == status
             && res.1[i].updatedAt == now
           else res.1[i] == docs[i]
  {
    match ParseStr(idStr)
    case None => (BadRequest, docs)
    case Some(oid) =>
      if HasId(docs, IdOf, oid) then
        (Ok(()), seq(|docs|, i requires 0 <= i < |docs| =>
                       if docs[i].id == Some(oid) then Edited(docs[i], ipAddress, status, now) else docs[i]))
      else
        (NotFound, docs)
  }

  /** Adding an address and then fetching it by the identifier the store assigned gives the new blocked entry. */
  lemma AddThenGet(docs: seq<BlacklistedIp>, ipAddress: string, now: int, generated: ObjectId)
    requires !HasId(docs, IdOf, generated)
    ensures GetBlacklistIpById(AddBlacklistIp(docs, ipAddress, now, generated).1, ToHex(generated))
         == Ok(BlacklistedIp(Some(generated), ipAddress, Blocked, now, now))
  {
    var after := AddBlacklistIp(docs, ipAddress, now, generated).1;
    ParseToHex(generated);
    assert IdOf(after[|docs|]) == Some(generated);
  }

  /** Adding never looks for an existing entry: an address already listed is listed once more. */
  lemma AddKeepsDuplicates(docs: seq<BlacklistedIp>, ipAddress: string, now: int, generated: ObjectId)
    requires !HasId(docs, IdOf, generated)
    ensures multiset(Addresses(AddBlacklistIp(docs, ipAddress, now, generated).1))
         == multiset(Addresses(docs)) + multiset{ipAddress}
  {
    var after := AddBlacklistIp(docs, ipAddress, now, generated).1;
    assert Addresses(after) == Addresses(docs) + [ipAddress];
  }

  /**
   * Deleting an identifier that is stored removes exactly the entry at its
   * position; afterwards both a get and a second delete find nothing.
   */
  lemma DeleteRemovesExactlyOne(docs: seq<BlacklistedIp>, idStr: string)
    requires UniqueIds(docs, IdOf) && ValidId(idStr) && HasId(docs, IdOf, ParseStr(idStr).value)
    ensures var after := DeleteBlacklistIpById(docs, idStr).1;
      && (exists k :: 0 <= k < |docs| && docs[k].id == ParseStr(idStr) && after == docs[..k] + docs[k + 1..])
      && GetBlacklistIpById(after, idStr) == NotFound
      && DeleteBlacklistIpById(after, idStr) == (NotFound, after)
  {
    var oid := ParseStr(idStr).value;
    var after := DeleteBlacklistIpById(docs, idStr).1;
    var k := IndexOfId(docs, IdOf, oid).value;
    WithoutRemovesOnlyAt(docs, IdOf, k);
    assert !HasId(after, IdOf, oid) by {
      forall i | 0 <= i < |after| ensures IdOf(after[i]) != Some(oid) {
        assert after[i] in after;
      }
    }
  }

  /**
   * After an edit of a stored identifier, fetching it shows the new address,
   * status and update time, with the identifier and creation time it had.
   */
  lemma EditThenGet(docs: seq<BlacklistedIp>, idStr: string, ipAddress: string, status: string, now: int)
    requires UniqueIds(docs, IdOf) && ValidId(idStr) && HasId(docs, IdOf, ParseStr(idStr).value)
    ensures var before := GetBlacklistIpById(docs, idStr).body;
      GetBlacklistIpById(EditBlacklistIpById(docs, idStr, ipAddress, status, now).1, idStr)
        == Ok(BlacklistedIp(before.id, ipAddress, status, before.createdAt, now))
  {
    var oid := ParseStr(idStr).value;
    var after := EditBlacklistIpById(docs, idStr, ipAddress, status, now).1;
    var k := IndexOfId(docs, IdOf, oid).value;
    assert IdOf(after[k]) == Some(oid);
  }

  /**
   * The status an edit writes is not checked: the edited entry stays in the
   * listing exactly when the new status is "blocked".
   */
  lemma EditDecidesListing(docs: seq<BlacklistedIp>, idStr: string, ipAddress: string, status: string, now: int)
    requires UniqueIds(docs, IdOf) && ValidId(idStr) && HasId(docs, IdOf, ParseStr(idStr).value)
    ensures var after := EditBlacklistIpById(docs, idStr, ipAddress, status, now).1;
      GetBlacklistIpById(after, idStr).Ok? &&
      (GetBlacklistIpById(after, idStr).body in GetAllBlacklistIp(after) <==> status == Blocked)
  {
    var after := EditBlacklistIpById(docs, idStr, ipAddress, status, now).1;
    EditThenGet(docs, idStr, ipAddress, status, now);
    var e := GetBlacklistIpById(after, idStr).body;
    assert multiset(after)[e] > 0;
    assert e in GetAllBlacklistIp(after) <==> multiset(GetAllBlacklistIp(after))[e] > 0;
  }

  /**
   * The reply of `get_blacklist_ip_by_id` once `find_one` has found a
   * document: the entry it decodes to, or 500 when the typed read fails.
   */
  function FoundReply(doc: seq<Field>): (r: Response<BlacklistedIp>)
    ensures r.Ok? <==> Deserialize(doc).Some?
    ensures r.Ok? ==> r.body == Deserialize(doc).value
    ensures !r.Ok? ==> r == InternalServerError
  {
    match Deserialize(doc)
    case Some(b) => Ok(b)
    case None => InternalServerError
  }

  /**
   * The `$set` of `edit_blacklist_ip_by_id` applied to a stored document, as
   * written: `updated_at` gets `bson::DateTime::now()`, a BSON date. The
   * `_id` and `created_at` stay as they were.
   */
  function EditSetAsWritten(doc: seq<Field>, ipAddress: string, status: string, now: int): (r: seq<Field>)
    ensures Get(r, "_id") == Get(doc, "_id")
    ensures Get(r, "ip_address") == Some(Str(ipAddress))
    ensures Get(r, "status") == Some(Str(status))
    ensures Get(r, "created_at") == Get(doc, "created_at")
    ensures Get(r, "updated_at") == Some(Date(now))
  {
    var d1 := SetField(doc, "ip_address", Str(ipAddress));
    var d2 := SetField(d1, "status", Str(status));
    SetFieldKeepsOthers(doc, "ip_address", Str(ipAddress), "_id");
    SetFieldKeepsOthers(doc, "ip_address", Str(ipAddress), "created_at");
    SetFieldKeepsOthers(d1, "status", Str(status), "_id");
    SetFieldKeepsOthers(d1, "status", Str(status), "created_at");
    SetFieldKeepsOthers(d1, "status", Str(status), "ip_address");
    SetFieldKeepsOthers(d2, "updated_at", Date(now), "_id");
    SetFieldKeepsOthers(d2, "updated_at", Date(now), "created_at");
    SetFieldKeepsOthers(d2, "updated_at", Date(now), "ip_address");
    SetFieldKeepsOthers(d2, "updated_at", Date(now), "status");
    SetField(d2, "updated_at", Date(now))
  }

  /**
   * The same `$set` with `updated_at` written the way the record's own
   * `DateTime<Utc>` field is serialized.
   */
  function EditSet(doc: seq<Field>, ipAddress: string, status: string, now: int): (r: seq<Field>)
    ensures Get(r, "_id") == Get(doc, "_id")
    ensures Get(r, "ip_address") == Some(Str(ipAddress))
    ensures Get(r, "status") == Some(Str(status))
    ensures Get(r, "created_at") == Get(doc, "created_at")
    ensures Get(r, "updated_at") == Some(ChronoTime(now))
  {
    var d1 := SetField(doc, "ip_address", Str(ipAddress));
    var d2 := SetField(d1, "status", Str(status));
    SetFieldKeepsOthers(doc, "ip_address", Str(ipAddress), "_id");
    SetFieldKeepsOthers(doc, "ip_address", Str(ipAddress), "created_at");
    SetFieldKeepsOthers(d1, "status", Str(status), "_id");
    SetFieldKeepsOthers(d1, "status", Str(status), "created_at");
    SetFieldKeepsOthers(d1, "status", Str(status), "ip_address");
    SetFieldKeepsOthers(d2, "updated_at", ChronoTime(now), "_id");
    SetFieldKeepsOthers(d2, "updated_at", ChronoTime(now), "created_at");
    SetFieldKeepsOthers(d2, "updated_at", ChronoTime(now), "ip_address");
    SetFieldKeepsOthers(d2, "updated_at", ChronoTime(now), "status");
    SetField(d2, "updated_at", ChronoTime(now))
  }

  /**
   * As written, an edited entry can no longer be read as a `BlacklistedIp`:
   * its `updated_at` is a BSON date where the record expects chrono's text,
   * so a later get of it answers 500.
   */
  lemma EditedEntryUnreadableAsWritten(b: BlacklistedIp, ipAddress: string, status: string, now: int)
    requires b.id.Some?
    ensures Deserialize(EditSetAsWritten(Stored(b), ipAddress, status, now)).None?
    ensures FoundReply(EditSetAsWritten(Stored(b), ipAddress, status, now)) == InternalServerError
  {
  }

  /** The `{status: "blocked"}` filter on a stored document. */
  predicate StatusBlocked(doc: seq<Field>) {
    Get(doc, "status") == Some(Str(Blocked))
  }

  /**
   * The reply of `get_all_blacklist_ip` for the documents its cursor yields:
   * the entries they decode to, in order, or 500 when one of them does not
   * decode.
   */
  function ListReply(cursor: seq<seq<Field>>): (r: Response<seq<BlacklistedIp>>)
    ensures r.Ok? <==> forall i :: 0 <= i < |cursor| ==> Deserialize(cursor[i]).Some?
    ensures !r.Ok? ==> r == InternalServerError
    ensures r.Ok? ==> |r.body| == |cursor| && forall i :: 0 <= i < |cursor| ==> Some(r.body[i]) == Deserialize(cursor[i])
    decreases |cursor|
  {
    if cursor == [] then Ok([])
    else
      var rest := ListReply(cursor[1..]);
      assert forall i :: 0 < i < |cursor| ==> cursor[i] == cursor[1..][i - 1];
      match (Deserialize(cursor[0]), rest)
      case (Some(e), Ok(tail)) =>
        assert forall i :: 0 < i < |cursor| ==> ([e] + tail)[i] == tail[i - 1];
        Ok([e] + tail)
      case _ => InternalServerError
  }

  /**
   * As written, once an entry is edited with status "blocked", the listing
   * answers 500 whatever order the cursor yields the blocked documents in:
   * the edited document is among them and does not decode.
   */
  lemma ListingFailsAfterEditAsWritten(
    docs: seq<seq<Field>>, cursor: seq<seq<Field>>, k: nat, b: BlacklistedIp, ipAddress: string, now: int)
    requires b.id.Some? && k < |docs|
    requires docs[k] == EditSetAsWritten(Stored(b), ipAddress, Blocked, now)
    requires multiset(cursor) == multiset(Filter(docs, StatusBlocked))
    ensures ListReply(cursor) == InternalServerError
  {
    var d := docs[k];
    assert StatusBlocked(d);
    assert multiset(docs)[d] > 0;
    assert multiset(cursor)[d] > 0;
    assert d in cursor;
    var i :| 0 <= i < |cursor| && cursor[i] == d;
    EditedEntryUnreadableAsWritten(b, ipAddress, Blocked, now);
  }

  /**
   * With `updated_at` written as the record serializes it, the edited
   * document reads back as `Edited` of the stored entry, which is what the
   * rest of this model stores.
   */
  lemma EditedEntryReadsBack(b: BlacklistedIp, ipAddress: string, status: string, now: int)
    requires b.id.Some?
    ensures Deserialize(EditSet(Stored(b), ipAddress, status, now)) == Some(Edited(b, ipAddress, status, now))
    ensures FoundReply(EditSet(Stored(b), ipAddress, status, now)) == Ok(Edited(b, ipAddress, status, now))
  {
    DeserializeFields(EditSet(Stored(b), ipAddress, status, now), Edited(b, ipAddress, status, now));
  }

  /** The `blacklisted_ips` collection. */
  class IpBlacklist {
    var docs: seq<BlacklistedIp>

    /** Every stored entry has an `_id` and no two share one. */
    ghost predicate Valid()
      reads this
    {
      UniqueIds(docs, IdOf)
    }

    constructor ()
      ensures Valid() && docs == []
    {
      docs := [];
    }

    /** `add_blacklist_ip`, with the ObjectId the driver generates for the insert. */
    method Add(ipAddress: string, now: int, generated: ObjectId) returns (r: Response<()>)
      requires Valid()
      modifies this
      ensures Valid()
      ensures (r, docs) == AddBlacklistIp(old(docs), ipAddress, now, generated)
    {
      var newIp := New(ipAddress, now);
      if HasId(docs, IdOf, generated) {
        return InternalServerError;
      }
      NewGetsGeneratedId(ipAddress, now, generated);
      var stored := newIp.(id := ReadId(InsertedId(Serialize(newIp), generated)));
      AppendKeepsUniqueIds(docs, IdOf, stored);
      docs := docs + [stored];
      r := Created;
    }

    /** `get_all_blacklist_ip`: drains the sorted cursor into the reply, one entry at a time. */
    method GetAll() returns (results: seq<BlacklistedIp>)
      ensures results == GetAllBlacklistIp(docs)
    {
      var cursor := GetAllBlacklistIp(docs);
      results := Drain(cursor);
    }

    /** `get_blacklist_ip_by_id`. */
    method GetById(idStr: string) returns (r: Response<BlacklistedIp>)
      ensures r == GetBlacklistIpById(docs, idStr)
    {
      var parsed := ParseStr(idStr);
      if parsed.None? {
        return BadRequest;
      }
      var found := IndexOfId(docs, IdOf, parsed.value);
      if found.None? {
        return NotFound;
      }
      r := Ok(docs[found.value]);
    }

    /** `delete_blacklist_ip_by_id`: `delete_one` removes the entry in place. */
    method DeleteById(idStr: string) returns (r: Response<()>)
      requires Valid()
      modifies this
      ensures Valid()
      ensures (r, docs) == DeleteBlacklistIpById(old(docs), idStr)
    {
      var parsed := ParseStr(idStr);
      if parsed.None? {
        return BadRequest;
      }
      var found := IndexOfId(docs, IdOf, parsed.value);
      if found.None? {
        return NotFound;
      }
      var k := found.value;
      WithoutRemovesOnlyAt(docs, IdOf, k);
      RemoveAtKeepsUniqueIds(docs, IdOf, k);
      docs := docs[..k] + docs[k + 1..];
      r := Ok(());
    }

    /** `edit_blacklist_ip_by_id`: `update_one` with `$set` of the address, status and `updated_at`. */
    method EditById(idStr: string, ipAddress: string, status: string, now: int) returns (r: Response<()>)
      requires Valid()
      modifies this
      ensures Valid()
      ensures (r, docs) == EditBlacklistIpById(old(docs), idStr, ipAddress, status, now)
    {
      var parsed := ParseStr(idStr);
      if parsed.None? {
        return BadRequest;
      }
      var found := IndexOfId(docs, IdOf, parsed.value);
      if found.None? {
        return NotFound;
      }
      var k := found.value;
      var edited := Edited(docs[k], ipAddress, status, now);
      ReplaceKeepsUniqueIds(docs, IdOf, k, edited);
      assert forall i :: 0 <= i < |docs| ==> (docs[i].id == parsed <==> i == k);
      ghost var expected := EditBlacklistIpById(docs, idStr, ipAddress, status, now);
      assert expected.1 == docs[k := edited] by {
        forall i | 0 <= i < |docs| ensures expected.1[i] == docs[k := edited][i] { }
      }
      docs := docs[k := edited];
      r := Ok(());
    }
  }
}
