/**
 * MongoDB object identifiers, as far as the handlers rely on them.
 *
 * An ObjectId is twelve bytes; the model represents it by its canonical
 * text, the 24 lower-case hexadecimal digits that `to_hex` prints, which is
 * in one-to-one correspondence with the bytes. `ObjectId::parse_str` accepts
 * exactly 24 hexadecimal digits of either case.
 */
module ObjectIds {
  import opened Options

  const IdLength := 24

  predicate IsHexDigit(c: char) {
    '0' <= c <= '9' || 'a' <= c <= 'f' || 'A' <= c <= 'F'
  }

  predicate IsLowerHexDigit(c: char) {
    '0' <= c <= '9' || 'a' <= c <= 'f'
  }

  /** The strings `ObjectId::parse_str` accepts. */
  predicate ValidId(s: string) {
    |s| == IdLength && forall i :: 0 <= i < |s| ==> IsHexDigit(s[i])
  }

  predicate IsCanonical(s: string) {
    |s| == IdLength && forall i :: 0 <= i < |s| ==> IsLowerHexDigit(s[i])
  }

  type ObjectId = s: string | IsCanonical(s) witness "000000000000000000000000"

  function LowerHexDigit(c: char): (d: char)
    requires IsHexDigit(c)
    ensures IsLowerHexDigit(d)
    ensures IsLowerHexDigit(c) ==> d == c
  {
    if 'A' <= c <= 'F' then (c as int - 'A' as int + 'a' as int) as char else c
  }

  /** Two strings that spell the same hexadecimal digits, ignoring case. */
  predicate SameHex(a: string, b: string)
    requires ValidId(a) && ValidId(b)
  {
    forall i :: 0 <= i < IdLength ==> LowerHexDigit(a[i]) == LowerHexDigit(b[i])
  }

  /** `ObjectId::parse_str`: the identifier a string denotes, or None if it is malformed. */
  function ParseStr(s: string): (r: Option<ObjectId>)
    ensures r.Some? <==> ValidId(s)
    ensures r.Some? ==> SameHex(r.value, s)
  {
    if ValidId(s) then
      var t := seq(|s|, i requires 0 <= i < |s| => LowerHexDigit(s[i]));
      assert IsCanonical(t);
      Some(t)
    else
      None
  }

  /** `ObjectId::to_hex`: the canonical text, which `parse_str` accepts. */
  function ToHex(oid: ObjectId): (h: string)
    ensures ValidId(h) && IsCanonical(h)
  {
    oid
  }

  /** Printing an identifier and parsing it again gives the identifier back. */
  lemma ParseToHex(oid: ObjectId)
    ensures ParseStr(ToHex(oid)) == Some(oid)
  {
    var t := ParseStr(ToHex(oid)).value;
    assert forall i :: 0 <= i < IdLength ==> t[i] == oid[i];
    assert t == oid;
  }

  /** Two well-formed strings name the same identifier exactly when they agree up to case. */
  lemma ParseStrIgnoresCase(a: string, b: string)
    requires ValidId(a) && ValidId(b)
    ensures ParseStr(a) == ParseStr(b) <==> SameHex(a, b)
  {
    var ta, tb := ParseStr(a).value, ParseStr(b).value;
    if SameHex(a, b) {
      assert forall i :: 0 <= i < IdLength ==> ta[i] == tb[i];
      assert ta == tb;
    } else {
      var i :| 0 <= i < IdLength && LowerHexDigit(a[i]) != LowerHexDigit(b[i]);
      assert ta[i] != tb[i];
    }
  }
}
