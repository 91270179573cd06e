/**
 * The serialized form of records, as far as the handlers depend on it: the
 * names and values of a document's fields, the custom serializer both
 * blacklist records attach to their `_id`, and the rule by which the
 * MongoDB driver gives an inserted document its `_id`.
 */
module Serde {
  import opened Options
  import opened ObjectIds

  /**
   * A serialized value: a string, null, a BSON ObjectId, an integer, a BSON
   * date, or the string chrono's serde writes for a `DateTime<Utc>` (its
   * RFC 3339 text, held here as the instant it spells).
   */
  datatype Value = Str(s: string) | Null | Oid(oid: ObjectId) | Int(n: int) | Date(millis: int) | ChronoTime(instant: int)

  /** A named field of a serialized document. */
  type Field = (string, Value)

  /** The value of the first field with the given name, if the document has one. */
  function Get(doc: seq<Field>, name: string): (r: Option<Value>)
    ensures r.None? <==> forall i :: 0 <= i < |doc| ==> doc[i].0 != name
    ensures r.Some? ==> exists i :: 0 <= i < |doc| && doc[i] == (name, r.value)
    decreases |doc|
  {
    if doc == [] then None
    else if doc[0].0 == name then Some(doc[0].1)
    else
      var r := Get(doc[1..], name);
      assert forall i :: 0 < i < |doc| ==> doc[i] == doc[1..][i - 1];
      r
  }

  /** Looking a field up in two concatenated field lists finds it in the first when it is there. */
  lemma {:induction false} GetAppend(a: seq<Field>, b: seq<Field>, name: string)
    ensures Get(a + b, name) == if Get(a, name).Some? then Get(a, name) else Get(b, name)
    decreases |a|
  {
    if a != [] {
      assert (a + b)[1..] == a[1..] + b;
      GetAppend(a[1..], b, name);
    } else {
      assert a + b == b;
    }
  }

  /** Looking a field up in a document that starts with a given field. */
  lemma GetFirst(f: Field, rest: seq<Field>, name: string)
    ensures Get([f] + rest, name) == if f.0 == name then Some(f.1) else Get(rest, name)
  {
    assert ([f] + rest)[1..] == rest;
  }

  /**
   * The fields both blacklist records write after their `_id`: the listed
   * value under its key, the status, and the two `DateTime<Utc>` times.
   */
  function EntryFields(key: string, value: string, status: string, createdAt: int, updatedAt: int): (doc: seq<Field>)
    requires key != "_id" && key != "status" && key != "created_at" && key != "updated_at"
    ensures Get(doc, "_id").None?
    ensures Get(doc, key) == Some(Str(value))
    ensures Get(doc, "status") == Some(Str(status))
    ensures Get(doc, "created_at") == Some(ChronoTime(createdAt))
    ensures Get(doc, "updated_at") == Some(ChronoTime(updatedAt))
  {
    var last := [("updated_at", ChronoTime(updatedAt))];
    var times := [("created_at", ChronoTime(createdAt))] + last;
    var tail := [("status", Str(status))] + times;
    forall name ensures Get(last, name) == if name == "updated_at" then Some(ChronoTime(updatedAt)) else None {
      GetFirst(last[0], [], name);
      assert [last[0]] + [] == last;
    }
    forall name ensures Get(times, name) == if name == "created_at" then Some(ChronoTime(createdAt)) else Get(last, name) {
      GetFirst(("created_at", ChronoTime(createdAt)), last, name);
    }
    forall name ensures Get(tail, name) == if name == "status" then Some(Str(status)) else Get(times, name) {
      GetFirst(("status", Str(status)), times, name);
    }
    forall name ensures Get([(key, Str(value))] + tail, name) == if name == key then Some(Str(value)) else Get(tail, name) {
      GetFirst((key, Str(value)), tail, name);
    }
    [(key, Str(value))] + tail
  }

  /** Every field named `name` given the value `v`, in place. */
  function Replace(doc: seq<Field>, name: string, v: Value): (r: seq<Field>)
    ensures Get(doc, name).Some? ==> Get(r, name) == Some(v)
    ensures Get(doc, name).None? ==> r == doc
    decreases |doc|
  {
    if doc == [] then []
    else
      var head := if doc[0].0 == name then (name, v) else doc[0];
      var rest := Replace(doc[1..], name, v);
      assert ([head] + rest)[1..] == rest;
      assert Get(doc, name).None? ==> Get(doc[1..], name).None?;
      assert Get(doc, name).None? ==> doc == [doc[0]] + doc[1..];
      [head] + rest
  }

  /** Giving the fields named `name` a value leaves every other field as it was. */
  lemma {:induction false} ReplaceKeepsOthers(doc: seq<Field>, name: string, v: Value, other: string)
    requires other != name
    ensures Get(Replace(doc, name, v), other) == Get(doc, other)
    decreases |doc|
  {
    if doc != [] {
      var head := if doc[0].0 == name then (name, v) else doc[0];
      var rest := Replace(doc[1..], name, v);
      ReplaceKeepsOthers(doc[1..], name, v, other);
      GetFirst(head, rest, other);
      GetFirst(doc[0], doc[1..], other);
      assert [doc[0]] + doc[1..] == doc;
    }
  }

  /**
   * One field of an `update_one` `$set`: the field takes the value, in place
   * when the document has it and appended when it does not.
   */
  function SetField(doc: seq<Field>, name: string, v: Value): (r: seq<Field>)
    ensures Get(r, name) == Some(v)
  {
    if Get(doc, name).Some? then Replace(doc, name, v)
    else
      assert Get([(name, v)], name) == Some(v);
      GetAppend(doc, [(name, v)], name);
      doc + [(name, v)]
  }

  /** A `$set` of one field leaves every other field as it was. */
  lemma SetFieldKeepsOthers(doc: seq<Field>, name: string, v: Value, other: string)
    requires other != name
    ensures Get(SetField(doc, name, v), other) == Get(doc, other)
  {
    if Get(doc, name).Some? {
      ReplaceKeepsOthers(doc, name, v, other);
    } else {
      GetAppend(doc, [(name, v)], other);
      assert Get([(name, v)], other).None?;
    }
  }

  /**
   * `serialize_objectid_as_string`: a present identifier becomes its hex
   * text, which parses back to the same identifier; an absent one becomes none.
   */
  function SerializeObjectIdAsString(value: Option<ObjectId>): (v: Value)
    ensures v == Null <==> value.None?
    ensures value.Some? ==> v.Str? && ParseStr(v.s) == value
  {
    match value
    case Some(oid) => ParseToHex(oid); Str(ToHex(oid))
    case None => Null
  }

  /**
   * The `_id` field of a record declared with `rename = "_id"`,
   * `skip_serializing_if = "Option::is_none"` and
   * `serialize_with = "serialize_objectid_as_string"`: omitted when absent.
   */
  function SkippedIfNoneId(id: Option<ObjectId>): (doc: seq<Field>)
    ensures Get(doc, "_id").None? <==> id.None?
    ensures id.Some? ==> exists h :: Get(doc, "_id") == Some(Str(h)) && ParseStr(h) == id
  {
    match id
    case None => []
    case Some(_) =>
      var v := SerializeObjectIdAsString(id);
      assert Get([("_id", v)], "_id") == Some(v);
      [("_id", v)]
  }

  /**
   * The `_id` field of a record declared with `rename = "_id"` only: serde
   * writes an absent identifier as null rather than leaving the field out.
   */
  function DefaultId(id: Option<ObjectId>): (doc: seq<Field>)
    ensures Get(doc, "_id").Some?
    ensures Get(doc, "_id") == Some(Null) <==> id.None?
    ensures id.Some? ==> Get(doc, "_id") == Some(Oid(id.value))
  {
    [("_id", match id case Some(oid) => Oid(oid) case None => Null)]
  }

  /**
   * The `_id` the driver stores for an inserted document: one the document
   * already has is kept as it is, whatever it is; otherwise the freshly
   * generated ObjectId.
   */
  function InsertedId(doc: seq<Field>, generated: ObjectId): (v: Value)
    ensures Get(doc, "_id").Some? ==> Some(v) == Get(doc, "_id")
    ensures Get(doc, "_id").None? ==> v == Oid(generated)
    ensures v == Null <==> Get(doc, "_id") == Some(Null)
  {
    match Get(doc, "_id")
    case Some(v) => v
    case None => Oid(generated)
  }

  /** How `from_document` reads a stored `_id` back into `Option<ObjectId>`. */
  function ReadId(v: Value): (id: Option<ObjectId>)
    requires v.Oid? || v.Null?
    ensures id.None? <==> v == Null
    ensures id.Some? ==> v == Oid(id.value)
  {
    if v.Oid? then Some(v.oid) else None
  }
}
