/**
 * The line-framing codec of src/codec.rs: `LineCodec::decode` cuts the first
 * line off the front of the receive buffer, `LineCodec::encode` appends one
 * framed line to the send buffer. A line ends at the first two-byte window
 * that is CR LF or LF CR.
 */
module Codec {
  import opened Wrappers
  import opened Utf8

  const CR: Byte := 0x0D
  const LF: Byte := 0x0A
  const CRLF: seq<Byte> := [CR, LF]

  /** Largest buffer the decoder keeps while no line terminator has arrived. */
  const MAX_PENDING: nat := 1024

  datatype CodecError =
    | InvalidString(bytes: seq<Byte>)  // the cut-off line is not UTF-8
    | BufferTooLong(len: nat)          // no terminator and more than MAX_PENDING bytes

  /** `BytesMut`: a growable byte buffer changed in place by the codec. */
  class BytesMut {
    var bytes: seq<Byte>

    constructor (init: seq<Byte>)
      ensures bytes == init
    {
      bytes := init;
    }

    /** Removes the first `at` bytes and returns them. */
    method SplitTo(at: nat) returns (head: seq<Byte>)
      requires at <= |bytes|
      modifies this
      ensures head + bytes == old(bytes)
      ensures |head| == at
    {
      head := bytes[..at];
      bytes := bytes[at..];
    }

    method ExtendFromSlice(xs: seq<Byte>)
      modifies this
      ensures bytes == old(bytes) + xs
    {
      bytes := bytes + xs;
    }
  }

  /** The window starting at `i` is CR LF or LF CR. */
  predicate MarkerAt(s: seq<Byte>, i: int) {
    0 <= i && i + 1 < |s| &&
    ((s[i] == CR && s[i + 1] == LF) || (s[i] == LF && s[i + 1] == CR))
  }

  predicate IsFirstMarker(s: seq<Byte>, n: nat) {
    MarkerAt(s, n) && forall j | 0 <= j < n :: !MarkerAt(s, j)
  }

  predicate NoMarker(s: seq<Byte>) {
    forall j | 0 <= j < |s| :: !MarkerAt(s, j)
  }

  /** `windows(2).position(..)` started at window `from`. */
  function FindMarkerFrom(s: seq<Byte>, from: nat): (r: Option<nat>)
    ensures r.Some? ==> from <= r.value && MarkerAt(s, r.value)
    ensures r.Some? ==> forall j | from <= j < r.value :: !MarkerAt(s, j)
    ensures r.None? ==> forall j | from <= j < |s| :: !MarkerAt(s, j)
    decreases |s| - from
  {
    if from + 1 >= |s| then None
    else if MarkerAt(s, from) then Some(from)
    else FindMarkerFrom(s, from + 1)
  }

  /** Index of the first terminator window of `s`, if any (codec.rs:12-15). */
  function FirstMarker(s: seq<Byte>): (r: Option<nat>)
    ensures r.Some? <==> !NoMarker(s)
    ensures r.Some? ==> IsFirstMarker(s, r.value)
  {
    FindMarkerFrom(s, 0)
  }

  /** What one call of `decode` returns, and the buffer it leaves behind. */
  datatype Decoded = Decoded(result: Result<Option<seq<Byte>>, CodecError>, rest: seq<Byte>)

  /**
   * One call of `decode` on a buffer holding `s`. Whatever happens, what is
   * left is a suffix of `s`; a returned line is exactly the bytes removed;
   * "nothing yet" and the overflow error leave the buffer untouched.
   */
  function DecodeFrame(s: seq<Byte>): (d: Decoded)
    ensures |d.rest| <= |s| && d.rest == s[|s| - |d.rest|..]
    ensures d.result.Ok? && d.result.value.Some? ==>
              s == d.result.value.value + d.rest && Valid(d.result.value.value)
    ensures d.result.Err? && d.result.error.InvalidString? ==>
              s == d.result.error.bytes + d.rest && !Valid(d.result.error.bytes)
    ensures d.result.Err? && d.result.error.BufferTooLong? ==> d.rest == s && |s| > MAX_PENDING
    ensures d.result == Ok(None) ==> d.rest == s && |s| <= MAX_PENDING
  {
    match FirstMarker(s)
    case Some(n) =>
      var line := s[..n + 2];
      assert s == line + s[n + 2..];
      Decoded(if Valid(line) then Ok(Some(line)) else Err(InvalidString(line)), s[n + 2..])
    case None =>
      if |s| > MAX_PENDING then Decoded(Err(BufferTooLong(|s|)), s)
      else Decoded(Ok(None), s)
  }

  /** `LineCodec::decode`: changes `src` in place (codec.rs:11-34). */
  method Decode(src: BytesMut) returns (r: Result<Option<seq<Byte>>, CodecError>)
    modifies src
    ensures r == DecodeFrame(old(src.bytes)).result
    ensures src.bytes == DecodeFrame(old(src.bytes)).rest
  {
    var newline := FirstMarker(src.bytes);
    if newline.Some? {
      var line := src.SplitTo(newline.value + 2);
      assert line == old(src.bytes)[..newline.value + 2];
      if Valid(line) {
        return Ok(Some(line));
      } else {
        return Err(InvalidString(line));
      }
    }
    if |src.bytes| > MAX_PENDING {
      return Err(BufferTooLong(|src.bytes|));
    }
    return Ok(None);
  }

  predicate EndsWithCrlf(s: seq<Byte>) {
    |s| >= 2 && s[|s| - 2] == CR && s[|s| - 1] == LF
  }

  /**
   * The bytes `encode` appends for `item`: the item, then CR LF unless the
   * item already ends with it.
   */
  function Framed(item: seq<Byte>): (r: seq<Byte>)
    ensures EndsWithCrlf(r)
    ensures |r| >= |item| && r[..|item|] == item
    ensures |r| == |item| <==> EndsWithCrlf(item)
    ensures !EndsWithCrlf(item) ==> r[|item|..] == CRLF
  {
    if EndsWithCrlf(item) then item else item + CRLF
  }

  /** `LineCodec::encode`: appends to `dst` in place (codec.rs:40-49). */
  method Encode(item: seq<Byte>, dst: BytesMut)
    modifies dst
    ensures dst.bytes == old(dst.bytes) + Framed(item)
  {
    if EndsWithCrlf(item) {
      dst.ExtendFromSlice(item);
    } else {
      dst.ExtendFromSlice(item);
      dst.ExtendFromSlice(CRLF);
      assert dst.bytes == old(dst.bytes) + (item + CRLF);
    }
  }

  // ---------------------------------------------------------------------
  // Properties of decoding

  lemma FirstMarkerUnique(s: seq<Byte>, n: nat)
    requires IsFirstMarker(s, n)
    ensures FirstMarker(s) == Some(n)
  {
    var r := FirstMarker(s);
    assert !NoMarker(s) by { assert MarkerAt(s, n); }
    assert !(r.value < n);
  }

  /**
   * With a terminator, decode removes exactly the bytes up to and including
   * the first terminator window, and returns them when they are UTF-8. When
   * they are not, it errs, but the bytes are gone from the buffer all the
   * same. The buffer length plays no part.
   */
  lemma {:induction false} DecodeAtFirstMarker(s: seq<Byte>, n: nat)
    requires IsFirstMarker(s, n)
    ensures DecodeFrame(s).rest == s[n + 2..]
    ensures Valid(s[..n + 2]) ==> DecodeFrame(s).result == Ok(Some(s[..n + 2]))
    ensures !Valid(s[..n + 2]) ==> DecodeFrame(s).result == Err(InvalidString(s[..n + 2]))
  {
    FirstMarkerUnique(s, n);
  }

  /**
   * Without a terminator, decode reports "nothing yet" up to MAX_PENDING
   * bytes and the overflow error beyond; in both cases nothing is removed.
   */
  lemma DecodeWithoutMarker(s: seq<Byte>)
    requires NoMarker(s)
    ensures DecodeFrame(s).rest == s
    ensures |s| <= MAX_PENDING ==> DecodeFrame(s).result == Ok(None)
    ensures |s| > MAX_PENDING ==> DecodeFrame(s).result == Err(BufferTooLong(|s|))
  {
  }

  /** The earliest window wins: "X\n\r\n" yields "X\n\r" and keeps "\n". */
  lemma FirstWindowWins(s: seq<Byte>)
    requires s == Ascii("X\n\r\n")
    ensures DecodeFrame(s) == Decoded(Ok(Some([0x58, LF, CR])), [LF])
  {
    assert s == [0x58, LF, CR, LF];
    assert IsFirstMarker(s, 1) by { assert !MarkerAt(s, 0); }
    DecodeAtFirstMarker(s, 1);
    assert s[..3] == [0x58, LF, CR] && s[3..] == [LF];
    AsciiValid(s[..3]);
  }

  // ---------------------------------------------------------------------
  // Properties of encoding

  /** Framing an already framed item adds nothing. */
  lemma FramedIdempotent(item: seq<Byte>)
    ensures Framed(Framed(item)) == Framed(item)
  {
  }

  /**
   * An item without the terminator and the same item with it appended are
   * framed identically.
   */
  lemma FramedAbsorbsTerminator(item: seq<Byte>)
    requires !EndsWithCrlf(item)
    ensures Framed(item + CRLF) == Framed(item)
  {
  }

  /** The previous lemma needs its premise: "\r\n" and "\r\n\r\n" frame differently. */
  lemma FramedKeepsSecondTerminator()
    ensures Framed(CRLF + CRLF) != Framed(CRLF)
  {
    assert |Framed(CRLF + CRLF)| == 4;
  }

  // ---------------------------------------------------------------------
  // Encode, then decode

  predicate EndsWithLf(s: seq<Byte>) { |s| > 0 && s[|s| - 1] == LF }

  /** A line the decoder gives back unchanged after `encode`. */
  predicate Framable(item: seq<Byte>) {
    Valid(item) && NoMarker(item) && !EndsWithLf(item)
  }

  lemma FramableIsUnterminated(item: seq<Byte>)
    requires Framable(item)
    ensures Framed(item) == item + CRLF
  {
  }

  /** In `item + CRLF + more` the first terminator is the appended one. */
  lemma FirstMarkerAfterItem(item: seq<Byte>, more: seq<Byte>)
    requires NoMarker(item) && !EndsWithLf(item)
    ensures IsFirstMarker(item + CRLF + more, |item|)
  {
    var f := item + CRLF + more;
    assert f[|item|] == CR && f[|item| + 1] == LF;
    forall j | 0 <= j < |item|
      ensures !MarkerAt(f, j)
    {
      assert f[j] == item[j];
      if j + 1 < |item| {
        assert f[j + 1] == item[j + 1];
        assert !MarkerAt(item, j);
      }
    }
  }

  /**
   * Round trip: after `encode` of a framable item onto a buffer, `decode`
   * returns the item with CR LF appended, and leaves behind exactly what
   * followed it.
   */
  lemma {:induction false} RoundTrip(item: seq<Byte>, more: seq<Byte>)
    requires Framable(item)
    ensures DecodeFrame(Framed(item) + more) == Decoded(Ok(Some(item + CRLF)), more)
  {
    FramableIsUnterminated(item);
    var f := item + CRLF + more;
    FirstMarkerAfterItem(item, more);
    DecodeAtFirstMarker(f, |item|);
    assert f[..|item| + 2] == item + CRLF;
    assert f[|item| + 2..] == more;
    AsciiValid(CRLF);
    ValidAppend(item, CRLF);
  }

  /**
   * Partial frames: any proper prefix of a framed line, up to MAX_PENDING
   * bytes, yields nothing and stays in the buffer; once the rest has been
   * appended the whole line comes out and the buffer is empty.
   */
  lemma {:induction false} PartialFrame(item: seq<Byte>, k: nat)
    requires Framable(item)
    requires k < |item| + 2 && k <= MAX_PENDING
    ensures DecodeFrame(Framed(item)[..k]) == Decoded(Ok(None), Framed(item)[..k])
    ensures DecodeFrame(Framed(item)[..k] + Framed(item)[k..]) == Decoded(Ok(Some(item + CRLF)), [])
  {
    FramableIsUnterminated(item);
    var f := item + CRLF;
    var p := f[..k];
    forall j | 0 <= j < |p|
      ensures !MarkerAt(p, j)
    {
      if j + 1 < |p| {
        assert p[j] == f[j] && p[j + 1] == f[j + 1];
        if j + 1 < |item| {
          assert f[j] == item[j] && f[j + 1] == item[j + 1];
          assert !MarkerAt(item, j);
        } else {
          assert j + 1 == |item| && f[j] == item[j] && f[j + 1] == CR;
        }
      }
    }
    DecodeWithoutMarker(p);
    assert p + f[k..] == f + [];
    RoundTrip(item, []);
  }

  /** Scenario: "OK\r\n" decodes in one call to the line "OK\r\n". */
  lemma DecodeWholeLine(line: seq<Byte>)
    requires line == Ascii("OK\r\n")
    ensures DecodeFrame(line) == Decoded(Ok(Some(line)), [])
  {
    assert line == [0x4F, 0x4B, CR, LF];
    assert IsFirstMarker(line, 2) by { assert !MarkerAt(line, 0) && !MarkerAt(line, 1); }
    DecodeAtFirstMarker(line, 2);
    assert line[..4] == line;
    AsciiValid(line);
  }

  /**
   * Scenario: a buffer holding "OK" yields nothing and keeps its bytes; once
   * "\r\n" has been appended it yields "OK\r\n" and is empty.
   */
  lemma DecodeLineInTwoParts(pending: seq<Byte>)
    requires pending == Ascii("OK")
    ensures DecodeFrame(pending) == Decoded(Ok(None), pending)
    ensures DecodeFrame(pending + CRLF) == Decoded(Ok(Some(pending + CRLF)), [])
  {
    assert pending == [0x4F, 0x4B];
    assert NoMarker(pending) by { assert !MarkerAt(pending, 0); }
    DecodeWithoutMarker(pending);
    var whole := pending + CRLF;
    assert whole == Ascii("OK\r\n") by {
      assert Ascii("OK\r\n") == [0x4F, 0x4B, CR, LF];
    }
    DecodeWholeLine(whole);
  }
}
