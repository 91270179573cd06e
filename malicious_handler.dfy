/**
 * The handlers of the `malicious_urls` collection: add, list the blocked
 * entries newest first, get and delete by identifier.
 *
 * Each handler is specified by a function from the collection's documents
 * (and the request) to the reply and the new documents; the class
 * `UrlBlacklist` holds the collection and its methods do what the handlers
 * do, proved against those functions. The clock reading and the ObjectId
 * the driver generates for an insert are parameters.
 */
module MaliciousHandler {
  import opened Options
  import opened ObjectIds
  import opened Serde
  import opened Responses
  import opened Documents
  import opened MaliciousUrls

  function IdOf(b: MaliciousUrl): Option<ObjectId> { b.id }

  function CreatedAt(b: MaliciousUrl): int { b.createdAt }

  predicate IsBlocked(b: MaliciousUrl) { b.status == Blocked }

  /** The URLs of the stored entries, in order. */
  function Urls(docs: seq<MaliciousUrl>): (r: seq<string>)
    ensures |r| == |docs| && forall i :: 0 <= i < |docs| ==> r[i] == docs[i].url
  {
    seq(|docs|, i requires 0 <= i < |docs| => docs[i].url)
  }

  /**
   * `add_blacklist_url`: a new blocked entry for the URL goes at the end,
   * whether or not the URL is already listed. The insert fails only
   * when the generated identifier is already stored (a duplicate key).
   */
  function AddBlacklistUrl(docs: seq<MaliciousUrl>, url: string, now: int, generated: ObjectId)
    : (res: (Response<()>, seq<MaliciousUrl>))
    ensures HasId(docs, IdOf, generated) ==> res == (InternalServerError, docs)
    ensures !HasId(docs, IdOf, generated) ==>
      && res.0 == Created
      && |res.1| == |docs| + 1
      && res.1[..|docs|] == docs
      && res.1[|docs|].id == Some(generated)
      && res.1[|docs|].url == url
      && res.1[|docs|].status == Blocked
      && res.1[|docs|].createdAt == now == res.1[|docs|].updatedAt
  {
    if HasId(docs, IdOf, generated) then
      (InternalServerError, docs)
    else
      var newUrl := New(url, now);
      NewGetsGeneratedId(url, now, generated);
      (Created, docs + [newUrl.(id := ReadId(InsertedId(Serialize(newUrl), generated)))])
  }

  /**
   * `get_all_blacklist_url`: what `find({status: "blocked"})` sorted by
   * `{created_at: -1}` returns — every blocked entry as often as it is
   * stored, no other entry, newest first.
   */
  function GetAllBlacklistUrl(docs: seq<MaliciousUrl>): (r: seq<MaliciousUrl>)
    ensures forall d :: multiset(r)[d] == if d.status == Blocked then multiset(docs)[d] else 0
    ensures SortedDescending(r, CreatedAt)
  {
    SortDescending(Filter(docs, IsBlocked), CreatedAt)
  }

  /**
   * `get_blacklist_url_by_id`: a malformed identifier is refused before any
   * lookup; otherwise the entry with that identifier, or NotFound.
   */
  function GetBlacklistUrlById(docs: seq<MaliciousUrl>, idStr: string): (r: Response<MaliciousUrl>)
    ensures !ValidId(idStr) ==> r == BadRequest
    ensures ValidId(idStr) ==> (r.Ok? <==> HasId(docs, IdOf, ParseStr(idStr).value))
    ensures ValidId(idStr) && !r.Ok? ==> r == NotFound
    ensures r.Ok? ==> r.body in docs && r.body.id == ParseStr(idStr)
  {
    match ParseStr(idStr)
    case None => BadRequest
    case Some(oid) =>
      match IndexOfId(docs, IdOf, oid)
      case Some(k) => Ok(docs[k])
      case None => NotFound
  }

  /**
   * `delete_blacklist_url_by_id`: a malformed identifier is refused and an
   * unknown one is NotFound, both without change; otherwise the entry with
   * that identifier is gone and every other entry stays, in order.
   */
  function DeleteBlacklistUrlById(docs: seq<MaliciousUrl>, idStr: string): (res: (Response<()>, seq<MaliciousUrl>))
    ensures !ValidId(idStr) ==> res == (BadRequest, docs)
    ensures ValidId(idStr) && !HasId(docs, IdOf, ParseStr(idStr).value) ==> res == (NotFound, docs)
    ensures ValidId(idStr) && HasId(docs, IdOf, ParseStr(idStr).value) ==>
      && res.0 == Ok(())
      && (forall d :: d in res.1 <==> d in docs && d.id != ParseStr(idStr))
  {
    match ParseStr(idStr)
    case None => (BadRequest, docs)
    case Some(oid) =>
      if HasId(docs, IdOf, oid) then (Ok(()), Without(docs, IdOf, oid)) else (NotFound, docs)
  }

  /** Adding a URL and then fetching it by the identifier the store assigned gives the new blocked entry. */
  lemma AddThenGet(docs: seq<MaliciousUrl>, url: string, now: int, generated: ObjectId)
    requires !HasId(docs, IdOf, generated)
    ensures GetBlacklistUrlById(AddBlacklistUrl(docs, url, now, generated).1, ToHex(generated))
         == Ok(MaliciousUrl(Some(generated), url, Blocked, now, now))
  {
    var after := AddBlacklistUrl(docs, url, now, generated).1;
    ParseToHex(generated);
    assert IdOf(after[|docs|]) == Some(generated);
  }

  /** Adding never looks for an existing entry: a URL already listed is listed once more. */
  lemma AddKeepsDuplicates(docs: seq<MaliciousUrl>, url: string, now: int, generated: ObjectId)
    requires !HasId(docs, IdOf, generated)
    ensures multiset(Urls(AddBlacklistUrl(docs, url, now, generated).1))
         == multiset(Urls(docs)) + multiset{url}
  {
    var after := AddBlacklistUrl(docs, url, now, generated).1;
    assert Urls(after) == Urls(docs) + [url];
  }

  /**
   * Deleting an identifier that is stored removes exactly the entry at its
   * position; afterwards both a get and a second delete find nothing.
   */
  lemma DeleteRemovesExactlyOne(docs: seq<MaliciousUrl>, idStr: string)
    requires UniqueIds(docs, IdOf) && ValidId(idStr) && HasId(docs, IdOf, ParseStr(idStr).value)
    ensures var after := DeleteBlacklistUrlById(docs, idStr).1;
      && (exists k :: 0 <= k < |docs| && docs[k].id == ParseStr(idStr) && after == docs[..k] + docs[k + 1..])
      && GetBlacklistUrlById(after, idStr) == NotFound
      && DeleteBlacklistUrlById(after, idStr) == (NotFound, after)
  {
    var oid := ParseStr(idStr).value;
    var after := DeleteBlacklistUrlById(docs, idStr).1;
    var k := IndexOfId(docs, IdOf, oid).value;
    WithoutRemovesOnlyAt(docs, IdOf, k);
    assert !HasId(after, IdOf, oid) by {
      forall i | 0 <= i < |after| ensures IdOf(after[i]) != Some(oid) {
        assert after[i] in after;
      }
    }
  }

  /** The `malicious_urls` collection. */
  class UrlBlacklist {
    var docs: seq<MaliciousUrl>

    /** Every stored entry has an `_id` and no two share one. */
    ghost predicate Valid()
      reads this
    {
      UniqueIds(docs, IdOf)
    }

    constructor ()
      ensures Valid() && docs == []
    {
      docs := [];
    }

    /** `add_blacklist_url`, with the ObjectId the driver generates for the insert. */
    method Add(url: string, now: int, generated: ObjectId) returns (r: Response<()>)
      requires Valid()
      modifies this
      ensures Valid()
      ensures (r, docs) == AddBlacklistUrl(old(docs), url, now, generated)
    {
      var newUrl := New(url, now);
      if HasId(docs, IdOf, generated) {
        return InternalServerError;
      }
      NewGetsGeneratedId(url, now, generated);
      var stored := newUrl.(id := ReadId(InsertedId(Serialize(newUrl), generated)));
      AppendKeepsUniqueIds(docs, IdOf, stored);
      docs := docs + [stored];
      r := Created;
    }

    /** `get_all_blacklist_url`: drains the sorted cursor into the reply, one entry at a time. */
    method GetAll() returns (results: seq<MaliciousUrl>)
      ensures results == GetAllBlacklistUrl(docs)
    {
      var cursor := GetAllBlacklistUrl(docs);
      results := Drain(cursor);
    }

    /** `get_blacklist_url_by_id`. */
    method GetById(idStr: string) returns (r: Response<MaliciousUrl>)
      ensures r == GetBlacklistUrlById(docs, idStr)
    {
      var parsed := ParseStr(idStr);
      if parsed.None? {
        return BadRequest;
      }
      var found := IndexOfId(docs, IdOf, parsed.value);
      if found.None? {
        return NotFound;
      }
      r := Ok(docs[found.value]);
    }

    /** `delete_blacklist_url_by_id`: `delete_one` removes the entry in place. */
    method DeleteById(idStr: string) returns (r: Response<()>)
      requires Valid()
      modifies this
      ensures Valid()
      ensures (r, docs) == DeleteBlacklistUrlById(old(docs), idStr)
    {
      var parsed := ParseStr(idStr);
      if parsed.None? {
        return BadRequest;
      }
      var found := IndexOfId(docs, IdOf, parsed.value);
      if found.None? {
        return NotFound;
      }
      var k := found.value;
      WithoutRemovesOnlyAt(docs, IdOf, k);
      RemoveAtKeepsUniqueIds(docs, IdOf, k);
      docs := docs[..k] + docs[k + 1..];
      r := Ok(());
    }
  }
}
