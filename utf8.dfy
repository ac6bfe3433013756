/**
 * Bytes and the UTF-8 well-formedness rule of section 4 of RFC 3629
 * ("UTF-8, a transformation format of ISO 10646"), which is what
 * `std::str::from_utf8` accepts.
 */
module Utf8 {

  type Byte = b: int | 0 <= b < 0x100

  predicate IsTail(b: Byte) { 0x80 <= b <= 0xBF }

  /**
   * Number of bytes of the well-formed UTF-8 character at the front of `s`,
   * or 0 when `s` does not start with one. The cases are the alternatives
   * UTF8-1 .. UTF8-4 of the RFC 3629 grammar.
   */
  function CharWidth(s: seq<Byte>): (w: nat)
    ensures w <= |s| && w <= 4
    ensures w > 0 ==> s != []
  {
    if |s| == 0 then 0
    else
      var b := s[0];
      if b <= 0x7F then 1
      else if 0xC2 <= b <= 0xDF then
        if |s| >= 2 && IsTail(s[1]) then 2 else 0
      else if b == 0xE0 then
        if |s| >= 3 && 0xA0 <= s[1] <= 0xBF && IsTail(s[2]) then 3 else 0
      else if 0xE1 <= b <= 0xEC || 0xEE <= b <= 0xEF then
        if |s| >= 3 && IsTail(s[1]) && IsTail(s[2]) then 3 else 0
      else if b == 0xED then
        if |s| >= 3 && 0x80 <= s[1] <= 0x9F && IsTail(s[2]) then 3 else 0
      else if b == 0xF0 then
        if |s| >= 4 && 0x90 <= s[1] <= 0xBF && IsTail(s[2]) && IsTail(s[3]) then 4 else 0
      else if 0xF1 <= b <= 0xF3 then
        if |s| >= 4 && IsTail(s[1]) && IsTail(s[2]) && IsTail(s[3]) then 4 else 0
      else if b == 0xF4 then
        if |s| >= 4 && 0x80 <= s[1] <= 0x8F && IsTail(s[2]) && IsTail(s[3]) then 4 else 0
      else 0
  }

  /** `s` is a sequence of well-formed UTF-8 characters (UTF8-octets). */
  predicate Valid(s: seq<Byte>)
    decreases |s|
  {
    s == [] || (CharWidth(s) > 0 && Valid(s[CharWidth(s)..]))
  }

  /** The character at the front is decided by the front bytes alone. */
  lemma CharWidthOfPrefix(a: seq<Byte>, b: seq<Byte>)
    requires CharWidth(a) > 0
    ensures CharWidth(a + b) == CharWidth(a)
  {
    assert forall i | 0 <= i < |a| :: (a + b)[i] == a[i];
  }

  /** Well-formed UTF-8 is closed under concatenation. */
  lemma {:induction false} ValidAppend(a: seq<Byte>, b: seq<Byte>)
    requires Valid(a) && Valid(b)
    ensures Valid(a + b)
    decreases |a|
  {
    if a == [] {
      assert a + b == b;
    } else {
      var w := CharWidth(a);
      CharWidthOfPrefix(a, b);
      assert (a + b)[w..] == a[w..] + b;
      ValidAppend(a[w..], b);
    }
  }

  predicate IsAscii(s: seq<Byte>) { forall i | 0 <= i < |s| :: s[i] < 0x80 }

  /** Every ASCII byte string is well-formed UTF-8 (UTF8-1 characters only). */
  lemma {:induction false} AsciiValid(s: seq<Byte>)
    requires IsAscii(s)
    ensures Valid(s)
    decreases |s|
  {
    if s != [] {
      assert CharWidth(s) == 1;
      assert IsAscii(s[1..]) by {
        forall i | 0 <= i < |s[1..]| ensures s[1..][i] < 0x80 {
          assert s[1..][i] == s[i + 1];
        }
      }
      AsciiValid(s[1..]);
    }
  }

  /** The bytes of a string literal made of ASCII characters. */
  function Ascii(s: string): (r: seq<Byte>)
    requires forall i | 0 <= i < |s| :: s[i] as int < 0x80
    ensures |r| == |s| && IsAscii(r)
    ensures forall i | 0 <= i < |s| :: r[i] == s[i] as int
  {
    seq(|s|, i requires 0 <= i < |s| => s[i] as int)
  }

  lemma AsciiConcat(a: string, b: string)
    requires forall i | 0 <= i < |a| :: a[i] as int < 0x80
    requires forall i | 0 <= i < |b| :: b[i] as int < 0x80
    ensures Ascii(a + b) == Ascii(a) + Ascii(b)
  {
  }

  lemma AsciiDrop(a: string, k: nat)
    requires k <= |a| && forall i | 0 <= i < |a| :: a[i] as int < 0x80
    ensures Ascii(a)[k..] == Ascii(a[k..])
  {
  }
}
