/**
 * Document identifiers. Parsing a string as an identifier stands for
 * `bson.ObjectId(text)`: the text must be 24 hexadecimal digits, in either
 * case. An identifier's string form (`str(oid)`) is always lower-case.
 */
module ObjectIds {
  import opened Optional
  import Text

  /** The number of hexadecimal digits in an identifier's text. */
  const IdDigits := 24

  predicate IsHexDigit(c: char) {
    '0' <= c <= '9' || 'a' <= c <= 'f' || 'A' <= c <= 'F'
  }

  predicate IsLowerHexDigit(c: char) {
    '0' <= c <= '9' || 'a' <= c <= 'f'
  }

  /** Text that `bson.ObjectId(text)` accepts. */
  predicate IsIdText(s: string) {
    |s| == IdDigits && forall i :: 0 <= i < |s| ==> IsHexDigit(s[i])
  }

  /** Text that `str(oid)` can produce. */
  predicate IsCanonical(s: string) {
    |s| == IdDigits && forall i :: 0 <= i < |s| ==> IsLowerHexDigit(s[i])
  }

  /** An identifier, represented by its canonical string form. */
  type ObjectId = s: string | IsCanonical(s) witness "000000000000000000000000"

  /** `ObjectId(text)`: `None` where the library raises `InvalidId`. */
  function Parse(s: string): (r: Option<ObjectId>)
    ensures r.Some? <==> IsIdText(s)
    ensures r.Some? ==> |r.value| == |s| && forall i :: 0 <= i < |s| ==> Text.LowerChar(r.value[i]) == Text.LowerChar(s[i])
  {
    if IsIdText(s) then Some(Text.Lower(s)) else None
  }

  /** The string form of an identifier parses back to the same identifier. */
  lemma ParseFormat(id: ObjectId)
    ensures Parse(id) == Some(id)
  {
    assert Text.Lower(id) == id;
  }

  /** Parsing ignores the case of the hexadecimal letters. */
  lemma ParseIgnoresCase(s: string)
    ensures Parse(Text.Lower(s)) == Parse(s)
  {
    var l := Text.Lower(s);
    if IsIdText(s) {
      assert Text.Lower(l) == l;
    }
  }

  function HexDigit(d: nat): (c: char)
    requires d < 16
    ensures IsLowerHexDigit(c)
  {
    if d < 10 then ('0' as int + d) as char else ('a' as int + d - 10) as char
  }

  function DigitValue(c: char): nat
    requires IsLowerHexDigit(c)
  {
    if c <= '9' then c as int - '0' as int else c as int - 'a' as int + 10
  }

  function Pow16(n: nat): nat {
    if n == 0 then 1 else 16 * Pow16(n - 1)
  }

  /** The lowest `width` hexadecimal digits of `n`, most significant first. */
  function HexText(n: nat, width: nat): (r: string)
    ensures |r| == width
    ensures forall i :: 0 <= i < |r| ==> IsLowerHexDigit(r[i])
  {
    if width == 0 then [] else HexText(n / 16, width - 1) + [HexDigit(n % 16)]
  }

  /** The number a string of lower-case hexadecimal digits denotes. */
  function HexValue(s: string): nat
    requires forall i :: 0 <= i < |s| ==> IsLowerHexDigit(s[i])
  {
    if s == [] then 0 else 16 * HexValue(s[..|s| - 1]) + DigitValue(s[|s| - 1])
  }

  lemma {:induction false} HexRoundTrip(n: nat, width: nat)
    requires n < Pow16(width)
    ensures HexValue(HexText(n, width)) == n
  {
    if width > 0 {
      var h := HexText(n, width);
      assert h[..|h| - 1] == HexText(n / 16, width - 1);
      HexRoundTrip(n / 16, width - 1);
    }
  }

  /** The number of identifiers the store can hand out. */
  const IdSpace := Pow16(IdDigits)

  /** The identifier the store assigns to the document with serial number `serial`. */
  function MintId(serial: nat): ObjectId {
    HexText(serial, IdDigits)
  }
}
