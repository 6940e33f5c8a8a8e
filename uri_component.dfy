/**
 * `encodeURIComponent` and `decodeURIComponent`: characters outside the unreserved set are
 * written as the `%XX` escapes of their UTF-8 bytes, and decoding reverses that, failing
 * (JavaScript's URIError) on a malformed escape or on escaped bytes that are not UTF-8.
 */
module UriComponent {
  import opened Wrappers
  import Utf8

  /** The characters encodeURIComponent leaves as they are. */
  predicate IsUnreserved(c: char)
  {
    ('A' <= c <= 'Z') || ('a' <= c <= 'z') || ('0' <= c <= '9') ||
    c == '-' || c == '_' || c == '.' || c == '!' || c == '~' || c == '*' || c == '\'' ||
    c == '(' || c == ')'
  }

  function HexDigit(d: nat): (c: char)
    requires d < 16
    ensures c != '%' && c != '/'
  {
    if d < 10 then ('0' as int + d) as char else ('A' as int + d - 10) as char
  }

  /** The value of a hexadecimal digit of either case. */
  function HexValue(c: char): Option<nat>
  {
    if '0' <= c <= '9' then Some(c as int - '0' as int)
    else if 'A' <= c <= 'F' then Some(c as int - 'A' as int + 10)
    else if 'a' <= c <= 'f' then Some(c as int - 'a' as int + 10)
    else None
  }

  function Escape(b: Utf8.byte): (r: string)
    ensures |r| == 3 && r[0] == '%' && '/' !in r
  {
    ['%', HexDigit(b as int / 16), HexDigit(b as int % 16)]
  }

  function EscapeAll(bs: seq<Utf8.byte>): (r: string)
    ensures |r| == 3 * |bs| && '/' !in r
    decreases |bs|
  {
    if bs == [] then [] else Escape(bs[0]) + EscapeAll(bs[1..])
  }

  function EncodeChar(c: char): (r: string)
    ensures r != [] && '/' !in r
  {
    if IsUnreserved(c) then [c] else EscapeAll(Utf8.EncodeChar(c))
  }

  /** `encodeURIComponent(s)`; its result never contains '/'. */
  function Encode(s: string): (r: string)
    ensures '/' !in r
    decreases |s|
  {
    if s == [] then [] else EncodeChar(s[0]) + Encode(s[1..])
  }

  /** The byte of the escape `%XX` at the start of `s`, if there is one. */
  function ReadEscape(s: string): Option<Utf8.byte>
  {
    if |s| < 3 || s[0] != '%' then None
    else match (HexValue(s[1]), HexValue(s[2]))
      case (Some(h), Some(l)) => Some((h * 16 + l) as Utf8.byte)
      case _ => None
  }

  /** The bytes of `n` consecutive escapes at the start of `s`. */
  function ReadEscapes(s: string, n: nat): (r: Option<seq<Utf8.byte>>)
    ensures r.Some? ==> |r.value| == n && 3 * n <= |s|
    decreases n
  {
    if n == 0 then Some([])
    else match ReadEscape(s)
      case None => None
      case Some(b) =>
        match ReadEscapes(s[3..], n - 1)
        case None => None
        case Some(bs) => Some([b] + bs)
  }

  /**
   * The character a run of escapes at the start of `s` spells, with the number of
   * characters of `s` it took.
   */
  function DecodeEscaped(s: string): (r: Option<(char, nat)>)
    ensures r.Some? ==> 3 <= r.value.1 <= |s|
  {
    match ReadEscape(s)
    case None => None
    case Some(b0) =>
      var n := Utf8.SequenceLength(b0);
      if n == 0 then None
      else match ReadEscapes(s, n)
        case None => None
        case Some(bs) =>
          match Utf8.DecodeChar(bs)
          case None => None
          case Some((c, _)) => Some((c, 3 * n))
  }

  /** `decodeURIComponent(s)`; None where JavaScript throws URIError. */
  function Decode(s: string): (r: Option<string>)
    ensures r.Some? ==> |r.value| <= |s|
    decreases |s|
  {
    if s == [] then Some([])
    else if s[0] != '%' then
      match Decode(s[1..])
      case None => None
      case Some(t) => Some([s[0]] + t)
    else
      match DecodeEscaped(s)
      case None => None
      case Some((c, k)) =>
        match Decode(s[k..])
        case None => None
        case Some(t) => Some([c] + t)
  }

  lemma ReadEscapeOfEscape(b: Utf8.byte, rest: string)
    ensures ReadEscape(Escape(b) + rest) == Some(b)
  {
    var s := Escape(b) + rest;
    var h, l := b as int / 16, b as int % 16;
    assert s[1] == HexDigit(h) && s[2] == HexDigit(l);
    assert HexValue(HexDigit(h)) == Some(h);
    assert HexValue(HexDigit(l)) == Some(l);
  }

  lemma {:induction false} ReadEscapesOfEscapeAll(bs: seq<Utf8.byte>, rest: string)
    ensures ReadEscapes(EscapeAll(bs) + rest, |bs|) == Some(bs)
    decreases |bs|
  {
    if bs != [] {
      var s := EscapeAll(bs) + rest;
      assert s == Escape(bs[0]) + (EscapeAll(bs[1..]) + rest);
      ReadEscapeOfEscape(bs[0], EscapeAll(bs[1..]) + rest);
      assert s[3..] == EscapeAll(bs[1..]) + rest;
      ReadEscapesOfEscapeAll(bs[1..], rest);
      assert [bs[0]] + bs[1..] == bs;
    }
  }

  /** The encoding of one character decodes back to it, whatever follows. */
  lemma DecodeEncodeChar(c: char, rest: string)
    ensures Decode(EncodeChar(c) + rest) == (match Decode(rest) case None => None case Some(t) => Some([c] + t))
  {
    var s := EncodeChar(c) + rest;
    if IsUnreserved(c) {
      assert s[1..] == rest;
    } else {
      var bs := Utf8.EncodeChar(c);
      assert s == Escape(bs[0]) + (EscapeAll(bs[1..]) + rest);
      ReadEscapeOfEscape(bs[0], EscapeAll(bs[1..]) + rest);
      ReadEscapesOfEscapeAll(bs, rest);
      Utf8.DecodeEncodeChar(c, []);
      assert bs + [] == bs;
      assert DecodeEscaped(s) == Some((c, 3 * |bs|));
      assert s[3 * |bs|..] == rest;
    }
  }

  /** decodeURIComponent undoes encodeURIComponent. */
  lemma {:induction false} DecodeEncode(s: string)
    ensures Decode(Encode(s)) == Some(s)
    decreases |s|
  {
    if s != [] {
      DecodeEncodeChar(s[0], Encode(s[1..]));
      DecodeEncode(s[1..]);
      assert [s[0]] + s[1..] == s;
    }
  }

  /** A string with no '%' decodes to itself. */
  lemma {:induction false} DecodeWithoutEscapes(s: string)
    requires '%' !in s
    ensures Decode(s) == Some(s)
    decreases |s|
  {
    if s != [] {
      assert '%' !in s[1..] by {
        forall i | 0 <= i < |s[1..]| ensures s[1..][i] != '%' { assert s[1..][i] == s[i + 1]; }
      }
      DecodeWithoutEscapes(s[1..]);
      assert [s[0]] + s[1..] == s;
    }
  }
}
