/**
 * What the blacklist handlers rely on from a MongoDB collection, for a
 * collection held as the sequence of its documents in insertion order:
 * lookup and deletion by `_id`, the `{status: "blocked"}` filter and the
 * `{created_at: -1}` sort. The record type is a parameter; the handlers
 * pass named accessor functions for its `_id`, status and creation time.
 */
module Documents {
  import opened Options
  import opened ObjectIds

  /** The status a new entry gets and the one the listing keeps. */
  const Blocked: string := "blocked"

  /** Some document carries the identifier. */
  predicate HasId<D>(docs: seq<D>, idOf: D -> Option<ObjectId>, oid: ObjectId) {
    exists i :: 0 <= i < |docs| && idOf(docs[i]) == Some(oid)
  }

  /** Every stored document has an `_id` and no two share one (the unique `_id` index). */
  ghost predicate UniqueIds<D>(docs: seq<D>, idOf: D -> Option<ObjectId>) {
    && (forall i :: 0 <= i < |docs| ==> idOf(docs[i]).Some?)
    && (forall i, j :: 0 <= i < j < |docs| ==> idOf(docs[i]) != idOf(docs[j]))
  }

  /** The position of the first document with the identifier, as `find_one({_id})` locates it. */
  function IndexOfId<D>(docs: seq<D>, idOf: D -> Option<ObjectId>, oid: ObjectId): (r: Option<nat>)
    ensures r.None? <==> !HasId(docs, idOf, oid)
    ensures r.Some? ==> r.value < |docs| && idOf(docs[r.value]) == Some(oid)
    decreases |docs|
  {
    if docs == [] then None
    else if idOf(docs[0]) == Some(oid) then Some(0)
    else
      var r := IndexOfId(docs[1..], idOf, oid);
      assert forall i :: 0 < i < |docs| ==> docs[i] == docs[1..][i - 1];
      match r
      case None => None
      case Some(k) => Some(k + 1)
  }

  /** The documents that do not carry the identifier, in their order: what `delete_one({_id})` leaves. */
  function Without<D(==,!new)>(docs: seq<D>, idOf: D -> Option<ObjectId>, oid: ObjectId): (r: seq<D>)
    ensures forall d :: d in r <==> d in docs && idOf(d) != Some(oid)
    ensures !HasId(docs, idOf, oid) ==> r == docs
    decreases |docs|
  {
    if docs == [] then []
    else
      var rest := Without(docs[1..], idOf, oid);
      assert !HasId(docs, idOf, oid) ==> !HasId(docs[1..], idOf, oid);
      assert docs == [docs[0]] + docs[1..];
      if idOf(docs[0]) == Some(oid) then rest else [docs[0]] + rest
  }

  /** With unique ids, no document after the first carries the first one's identifier. */
  lemma TailLacksHeadId<D>(docs: seq<D>, idOf: D -> Option<ObjectId>)
    requires UniqueIds(docs, idOf) && |docs| > 0
    ensures !HasId(docs[1..], idOf, idOf(docs[0]).value)
  {
    forall i | 0 <= i < |docs| - 1 ensures idOf(docs[1..][i]) != idOf(docs[0]) {
      assert docs[1..][i] == docs[i + 1];
    }
  }

  /** Dropping the first document keeps identifiers unique. */
  lemma TailKeepsUniqueIds<D>(docs: seq<D>, idOf: D -> Option<ObjectId>)
    requires UniqueIds(docs, idOf) && |docs| > 0
    ensures UniqueIds(docs[1..], idOf)
  {
    assert forall i :: 0 <= i < |docs| - 1 ==> docs[1..][i] == docs[i + 1];
  }

  /** Deleting by an identifier the first document does not carry keeps that document in front. */
  lemma WithoutKeepsHead<D(!new)>(docs: seq<D>, idOf: D -> Option<ObjectId>, oid: ObjectId)
    requires |docs| > 0 && idOf(docs[0]) != Some(oid)
    ensures Without(docs, idOf, oid) == [docs[0]] + Without(docs[1..], idOf, oid)
  {
  }

  /** Removing position k from a sequence is keeping its head and removing position k - 1 from its tail. */
  lemma SpliceOfTail<D>(docs: seq<D>, k: nat)
    requires 0 < k < |docs|
    ensures docs[..k] + docs[k + 1..] == [docs[0]] + (docs[1..][..k - 1] + docs[1..][k..])
  {
    assert docs[1..][..k - 1] == docs[1..k];
    assert docs[1..][k..] == docs[k + 1..];
    assert docs[..k] == [docs[0]] + docs[1..k];
  }

  /** Deleting the document at position k by its `_id` removes that one document and nothing else. */
  lemma {:induction false} WithoutRemovesOnlyAt<D(!new)>(docs: seq<D>, idOf: D -> Option<ObjectId>, k: nat)
    requires UniqueIds(docs, idOf) && k < |docs|
    ensures Without(docs, idOf, idOf(docs[k]).value) == docs[..k] + docs[k + 1..]
  {
    var oid := idOf(docs[k]).value;
    var tail := docs[1..];
    if k == 0 {
      TailLacksHeadId(docs, idOf);
      assert Without(tail, idOf, oid) == tail;
      assert docs[..k] + docs[k + 1..] == tail;
    } else {
      TailKeepsUniqueIds(docs, idOf);
      assert tail[k - 1] == docs[k];
      WithoutRemovesOnlyAt(tail, idOf, k - 1);
      WithoutKeepsHead(docs, idOf, oid);
      SpliceOfTail(docs, k);
    }
  }

  /** Inserting a document under an identifier no stored document has keeps identifiers unique. */
  lemma AppendKeepsUniqueIds<D>(docs: seq<D>, idOf: D -> Option<ObjectId>, d: D)
    requires UniqueIds(docs, idOf) && idOf(d).Some? && !HasId(docs, idOf, idOf(d).value)
    ensures UniqueIds(docs + [d], idOf)
  {
    var r := docs + [d];
    forall i, j | 0 <= i < j < |r| ensures idOf(r[i]) != idOf(r[j]) {
      assert r[i] == docs[i];
      if j < |docs| {
        assert r[j] == docs[j];
      }
    }
  }

  /** Removing one document keeps identifiers unique. */
  lemma RemoveAtKeepsUniqueIds<D>(docs: seq<D>, idOf: D -> Option<ObjectId>, k: nat)
    requires UniqueIds(docs, idOf) && k < |docs|
    ensures UniqueIds(docs[..k] + docs[k + 1..], idOf)
  {
    var r := docs[..k] + docs[k + 1..];
    assert forall i :: 0 <= i < |r| ==> r[i] == if i < k then docs[i] else docs[i + 1];
  }

  /** Replacing a document by one with the same identifier keeps identifiers unique. */
  lemma ReplaceKeepsUniqueIds<D>(docs: seq<D>, idOf: D -> Option<ObjectId>, k: nat, d: D)
    requires UniqueIds(docs, idOf) && k < |docs| && idOf(d) == idOf(docs[k])
    ensures UniqueIds(docs[k := d], idOf)
  {
  }

  /** The documents the filter keeps, in their order: each kept document as often as it is stored, no other. */
  function Filter<D(==,!new)>(docs: seq<D>, keep: D -> bool): (r: seq<D>)
    ensures forall d :: multiset(r)[d] == if keep(d) then multiset(docs)[d] else 0
    decreases |docs|
  {
    if docs == [] then []
    else
      var rest := Filter(docs[1..], keep);
      assert docs == [docs[0]] + docs[1..];
      if keep(docs[0]) then [docs[0]] + rest else rest
  }

  /** Reads a cursor to its end, one document at a time, collecting what it yields. */
  method Drain<D>(cursor: seq<D>) returns (results: seq<D>)
    ensures results == cursor
  {
    results := [];
    var i := 0;
    while i < |cursor|
      invariant 0 <= i <= |cursor|
      invariant results == cursor[..i]
    {
      results := results + [cursor[i]];
      i := i + 1;
    }
  }

  /** Non-increasing in the key: the order `sort({key: -1})` promises. */
  ghost predicate SortedDescending<D>(s: seq<D>, key: D -> int) {
    forall i, j :: 0 <= i < j < |s| ==> key(s[i]) >= key(s[j])
  }

  /** Inserts a document into a non-increasing sequence ahead of those with an equal key. */
  function InsertDescending<D(==,!new)>(d: D, s: seq<D>, key: D -> int): (r: seq<D>)
    requires SortedDescending(s, key)
    ensures SortedDescending(r, key)
    ensures multiset(r) == multiset(s) + multiset{d}
    ensures |r| > 0 && (r[0] == d || (|s| > 0 && r[0] == s[0]))
    decreases |s|
  {
    if s == [] || key(d) >= key(s[0]) then
      [d] + s
    else
      var rest := InsertDescending(d, s[1..], key);
      assert s == [s[0]] + s[1..];
      PrependKeepsDescending(s[0], rest, key);
      [s[0]] + rest
  }

  /** A sequence stays non-increasing when an element no smaller than its head is put in front. */
  lemma PrependKeepsDescending<D>(x: D, s: seq<D>, key: D -> int)
    requires SortedDescending(s, key)
    requires |s| > 0 ==> key(x) >= key(s[0])
    ensures SortedDescending([x] + s, key)
  {
    var r := [x] + s;
    forall i, j | 0 <= i < j < |r| ensures key(r[i]) >= key(r[j]) {
      assert r[j] == s[j - 1];
      if i > 0 {
        assert r[i] == s[i - 1];
      } else if j > 1 {
        assert key(s[0]) >= key(s[j - 1]);
      }
    }
  }

  /** The documents in non-increasing key order, a permutation of the input. */
  function SortDescending<D(==,!new)>(docs: seq<D>, key: D -> int): (r: seq<D>)
    ensures SortedDescending(r, key)
    ensures multiset(r) == multiset(docs)
    decreases |docs|
  {
    if docs == [] then []
    else
      assert docs == [docs[0]] + docs[1..];
      InsertDescending(docs[0], SortDescending(docs[1..], key), key)
  }
}
