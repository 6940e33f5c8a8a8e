/**
 * UTF-8, as Node's `Buffer.from(s, 'utf8')` and `buffer.toString('utf8')` use it: every
 * Unicode scalar value becomes one to four bytes, and decoding turns each byte that does
 * not start a well-formed sequence into U+FFFD.
 */
module Utf8 {
  import opened Wrappers

  newtype byte = x: int | 0 <= x < 256

  const Replacement: char := '\U{FFFD}'

  /** Length of the sequence a lead byte announces; 0 for a byte that cannot lead one. */
  function SequenceLength(b: byte): (n: nat)
    ensures n <= 4
  {
    if b < 0x80 then 1
    else if 0xC2 <= b <= 0xDF then 2
    else if 0xE0 <= b <= 0xEF then 3
    else if 0xF0 <= b <= 0xF4 then 4
    else 0
  }

  predicate IsContinuation(b: byte)
  {
    0x80 <= b <= 0xBF
  }

  /** The bytes of one character. */
  function EncodeChar(c: char): (r: seq<byte>)
    ensures 1 <= |r| <= 4 && SequenceLength(r[0]) == |r|
    ensures forall i :: 1 <= i < |r| ==> IsContinuation(r[i])
  {
    var n := c as int;
    if n < 0x80 then [n as byte]
    else if n < 0x800 then [(0xC0 + n / 64) as byte, (0x80 + n % 64) as byte]
    else if n < 0x10000 then
      [(0xE0 + n / 4096) as byte, (0x80 + (n / 64) % 64) as byte, (0x80 + n % 64) as byte]
    else
      [(0xF0 + n / 262144) as byte, (0x80 + (n / 4096) % 64) as byte,
       (0x80 + (n / 64) % 64) as byte, (0x80 + n % 64) as byte]
  }

  /** `Buffer.from(s, 'utf8')` */
  function Encode(s: string): (r: seq<byte>)
    ensures |s| <= |r| <= 4 * |s|
    decreases |s|
  {
    if s == [] then [] else EncodeChar(s[0]) + Encode(s[1..])
  }

  /** The code point a well-formed sequence of `n` bytes at the start of `bs` spells. */
  function CodePoint(bs: seq<byte>, n: nat): int
    requires 1 <= n <= 4 && n <= |bs|
  {
    if n == 1 then bs[0] as int
    else if n == 2 then (bs[0] as int - 0xC0) * 64 + (bs[1] as int - 0x80)
    else if n == 3 then
      (bs[0] as int - 0xE0) * 4096 + (bs[1] as int - 0x80) * 64 + (bs[2] as int - 0x80)
    else
      (bs[0] as int - 0xF0) * 262144 + (bs[1] as int - 0x80) * 4096 +
      (bs[2] as int - 0x80) * 64 + (bs[3] as int - 0x80)
  }

  /**
   * Decodes the character at the start of `bs`, with the number of bytes it took, or
   * None when the bytes there are not a well-formed (shortest, non-surrogate) sequence.
   */
  function DecodeChar(bs: seq<byte>): (r: Option<(char, nat)>)
    ensures r.Some? ==> bs != [] && r.value.1 == SequenceLength(bs[0]) && 1 <= r.value.1 <= |bs|
  {
    if bs == [] then None
    else
      var n := SequenceLength(bs[0]);
      if n == 0 || |bs| < n then None
      else if !(forall i :: 1 <= i < n ==> IsContinuation(bs[i])) then None
      else
        var cp := CodePoint(bs, n);
        if n == 3 && (cp < 0x800 || (0xD800 <= cp && cp <= 0xDFFF)) then None
        else if n == 4 && (cp < 0x10000 || cp > 0x10FFFF) then None
        else Some((cp as char, n))
  }

  /** `buffer.toString('utf8')` */
  function Decode(bs: seq<byte>): (r: string)
    ensures |r| <= |bs|
    decreases |bs|
  {
    if bs == [] then []
    else match DecodeChar(bs)
      case Some((c, n)) => [c] + Decode(bs[n..])
      case None => [Replacement] + Decode(bs[1..])
  }

  /** The bytes of a character decode back to the character, whatever follows them. */
  lemma DecodeEncodeChar(c: char, rest: seq<byte>)
    ensures DecodeChar(EncodeChar(c) + rest) == Some((c, |EncodeChar(c)|))
  {
    var e := EncodeChar(c);
    var bs := e + rest;
    var n := c as int;
    assert bs[..|e|] == e;
    if n < 0x80 {
      assert CodePoint(bs, 1) == n;
    } else if n < 0x800 {
      assert CodePoint(bs, 2) == (n / 64) * 64 + n % 64 == n;
    } else if n < 0x10000 {
      assert n / 4096 == (n / 64) / 64;
      assert CodePoint(bs, 3) == (n / 4096) * 4096 + ((n / 64) % 64) * 64 + n % 64 == n;
    } else {
      assert n / 262144 == ((n / 64) / 64) / 64;
      assert (n / 4096) == (n / 64) / 64;
      assert CodePoint(bs, 4) == (n / 262144) * 262144 + ((n / 4096) % 64) * 4096 + ((n / 64) % 64) * 64 + n % 64 == n;
    }
  }

  /** Decoding the bytes of a string gives the string back. */
  lemma {:induction false} DecodeEncode(s: string)
    ensures Decode(Encode(s)) == s
    decreases |s|
  {
    if s != [] {
      var e := EncodeChar(s[0]);
      DecodeEncodeChar(s[0], Encode(s[1..]));
      assert (e + Encode(s[1..]))[|e|..] == Encode(s[1..]);
      DecodeEncode(s[1..]);
      assert s == [s[0]] + s[1..];
    }
  }
}
