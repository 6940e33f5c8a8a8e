/**
 * The string primitives the extension relies on, written out: ASCII case folding
 * (`toLowerCase`), substring search (`indexOf`/`includes`), the slash-stripping regular
 * expressions `/\/+$/` and `/^\/+/`, `String.prototype.trim`, `split('/')` and the
 * `Number(..)` / template-literal conversions between numbers and text.
 */
module Strings {

  // ---------------------------------------------------------------------------
  // Case folding, restricted to the ASCII letters

  function LowerChar(c: char): (r: char)
    ensures 'A' <= c <= 'Z' ==> r as int == c as int + 32
    ensures !('A' <= c <= 'Z') ==> r == c
  {
    if 'A' <= c <= 'Z' then (c as int + 32) as char else c
  }

  function Lower(s: string): (r: string)
    ensures |r| == |s|
    ensures forall i :: 0 <= i < |s| ==> r[i] == LowerChar(s[i])
  {
    seq(|s|, i requires 0 <= i < |s| => LowerChar(s[i]))
  }

  // ---------------------------------------------------------------------------
  // Substring search

  /** `n` occurs in `h` starting at index `i`. */
  predicate OccursAt(h: string, n: string, i: int)
  {
    0 <= i && i + |n| <= |h| && h[i..i + |n|] == n
  }

  /** `h.indexOf(n, from)`: the first occurrence at or after `from`, or -1. */
  function IndexFrom(h: string, n: string, from: nat): (r: int)
    requires from <= |h|
    ensures r == -1 || (from <= r && OccursAt(h, n, r))
    ensures forall j :: from <= j && (r == -1 || j < r) ==> !OccursAt(h, n, j)
    decreases |h| - from
  {
    if from + |n| > |h| then -1
    else if h[from..from + |n|] == n then from
    else IndexFrom(h, n, from + 1)
  }

  /** `h.indexOf(n)` */
  function IndexOf(h: string, n: string): (r: int)
    ensures r == -1 || OccursAt(h, n, r)
    ensures forall j :: 0 <= j && (r == -1 || j < r) ==> !OccursAt(h, n, j)
  {
    IndexFrom(h, n, 0)
  }

  /** `h.includes(n)` */
  function Includes(h: string, n: string): (r: bool)
    ensures r <==> exists j :: OccursAt(h, n, j)
  {
    IndexOf(h, n) >= 0
  }

  /** The regular expression test `/^https?:\/\//i`: "http", an optional "s", then "://", in any case. */
  predicate StartsWithHttpScheme(s: string)
  {
    |s| >= 7 &&
    LowerChar(s[0]) == 'h' && LowerChar(s[1]) == 't' && LowerChar(s[2]) == 't' && LowerChar(s[3]) == 'p' &&
    ((s[4] == ':' && s[5] == '/' && s[6] == '/') ||
     (|s| >= 8 && LowerChar(s[4]) == 's' && s[5] == ':' && s[6] == '/' && s[7] == '/'))
  }

  // ---------------------------------------------------------------------------
  // The regular expressions /\/+$/ and /^\/+/ replaced by ''

  /** `s.replace(/\/+$/, '')`: drops every trailing '/'. */
  function TrimRightSlash(s: string): (r: string)
    ensures r <= s
    ensures r == [] || r[|r| - 1] != '/'
    ensures forall i :: |r| <= i < |s| ==> s[i] == '/'
    decreases |s|
  {
    if s != [] && s[|s| - 1] == '/' then TrimRightSlash(s[..|s| - 1]) else s
  }

  /** `s.replace(/^\/+/, '')`: drops every leading '/'. */
  function TrimLeftSlash(s: string): (r: string)
    ensures |r| <= |s| && r == s[|s| - |r|..]
    ensures r == [] || r[0] != '/'
    ensures forall i :: 0 <= i < |s| - |r| ==> s[i] == '/'
    decreases |s|
  {
    if s != [] && s[0] == '/' then TrimLeftSlash(s[1..]) else s
  }

  /** A non-empty prefix starts as the whole does. */
  lemma PrefixHead(s: string, p: string)
    requires p <= s && p != []
    ensures p[0] == s[0]
  {
  }

  /** `s.replace(/^\/+/, '').replace(/\/+$/, '')` */
  function StripSlashes(s: string): (r: string)
    ensures r == [] || (r[0] != '/' && r[|r| - 1] != '/')
  {
    var l := TrimLeftSlash(s);
    var t := TrimRightSlash(l);
    if t != [] then PrefixHead(l, t); t else t
  }

  /** The three properties that define TrimRightSlash single out one string. */
  lemma TrimRightSlashUnique(s: string, p: string)
    requires p <= s
    requires p == [] || p[|p| - 1] != '/'
    requires forall i :: |p| <= i < |s| ==> s[i] == '/'
    ensures TrimRightSlash(s) == p
  {
    var r := TrimRightSlash(s);
    if |r| < |p| {
      assert false;
    } else if |p| < |r| {
      assert false;
    }
  }

  lemma TrimRightSlashIdempotent(s: string)
    ensures TrimRightSlash(TrimRightSlash(s)) == TrimRightSlash(s)
  {
    var r := TrimRightSlash(s);
    TrimRightSlashUnique(r, r);
  }

  /** Appending slashes does not change what TrimRightSlash keeps. */
  lemma TrimRightSlashAppendSlash(s: string)
    ensures TrimRightSlash(s + "/") == TrimRightSlash(s)
  {
    assert (s + "/")[..|s|] == s;
  }

  /** A string that does not start with '/' is its own TrimLeftSlash. */
  lemma TrimLeftSlashNoop(s: string)
    requires s == [] || s[0] != '/'
    ensures TrimLeftSlash(s) == s
  {
  }

  lemma StripSlashesNoop(s: string)
    requires s == [] || (s[0] != '/' && s[|s| - 1] != '/')
    ensures StripSlashes(s) == s
  {
    TrimLeftSlashNoop(s);
    TrimRightSlashUnique(s, s);
  }

  /**
   * StripSlashes keeps the one stretch of `s` that lies between its leading and its
   * trailing slashes; `k` is where that stretch starts.
   */
  lemma StripSlashesSpan(s: string) returns (k: nat)
    ensures var p := StripSlashes(s);
      OccursAt(s, p, k) &&
      (forall i :: 0 <= i < k ==> s[i] == '/') &&
      (forall i :: k + |p| <= i < |s| ==> s[i] == '/')
  {
    var l := TrimLeftSlash(s);
    k := |s| - |l|;
    TrimmedSlashesAt(s, l, TrimRightSlash(l), k);
  }

  /** A prefix `p` of the tail `l` of `s` that starts at `k`, followed in `l` by slashes only. */
  lemma TrimmedSlashesAt(s: string, l: string, p: string, k: nat)
    requires k + |l| == |s| && l == s[k..]
    requires p <= l && forall i :: |p| <= i < |l| ==> l[i] == '/'
    ensures OccursAt(s, p, k)
    ensures forall i :: k + |p| <= i < |s| ==> s[i] == '/'
  {
    assert s[k..k + |p|] == p by {
      forall j | 0 <= j < |p|
        ensures s[k + j] == p[j]
      {
        assert p[j] == l[j];
      }
    }
    forall i | k + |p| <= i < |s|
      ensures s[i] == '/'
    {
      assert s[i] == l[i - k];
    }
  }

  /** Stripping is idempotent. */
  lemma StripSlashesIdempotent(s: string)
    ensures StripSlashes(StripSlashes(s)) == StripSlashes(s)
  {
    StripSlashesNoop(StripSlashes(s));
  }

  /** `StripSlashes(p + "/")` gives back a stripped `p`. */
  lemma StripSlashesOfStrippedPlusSlash(p: string)
    requires p == [] || (p[0] != '/' && p[|p| - 1] != '/')
    ensures StripSlashes(p + "/") == p
  {
    if p == [] {
      assert TrimLeftSlash("/") == TrimLeftSlash("");
    } else {
      TrimLeftSlashNoop(p + "/");
      TrimRightSlashAppendSlash(p);
      TrimRightSlashUnique(p, p);
    }
  }

  // ---------------------------------------------------------------------------
  // String.prototype.trim

  /** ECMAScript WhiteSpace and LineTerminator code points. */
  predicate IsJsSpace(c: char)
  {
    c == '\t' || c == '\n' || c == '\U{B}' || c == '\U{C}' || c == '\r' || c == ' ' ||
    c == '\U{A0}' || c == '\U{1680}' || ('\U{2000}' <= c <= '\U{200A}') ||
    c == '\U{2028}' || c == '\U{2029}' || c == '\U{202F}' || c == '\U{205F}' ||
    c == '\U{3000}' || c == '\U{FEFF}'
  }

  function TrimStart(s: string): (r: string)
    ensures |r| <= |s| && r == s[|s| - |r|..]
    ensures r == [] || !IsJsSpace(r[0])
    ensures forall i :: 0 <= i < |s| - |r| ==> IsJsSpace(s[i])
    decreases |s|
  {
    if s != [] && IsJsSpace(s[0]) then TrimStart(s[1..]) else s
  }

  function TrimEnd(s: string): (r: string)
    ensures r <= s
    ensures r == [] || !IsJsSpace(r[|r| - 1])
    ensures forall i :: |r| <= i < |s| ==> IsJsSpace(s[i])
    decreases |s|
  {
    if s != [] && IsJsSpace(s[|s| - 1]) then TrimEnd(s[..|s| - 1]) else s
  }

  /** `s.trim()` */
  function Trim(s: string): (r: string)
    ensures |r| <= |s|
    ensures r == [] || (!IsJsSpace(r[0]) && !IsJsSpace(r[|r| - 1]))
    ensures exists i ::
      OccursAt(s, r, i) &&
      (forall k :: 0 <= k < i ==> IsJsSpace(s[k])) &&
      (forall k :: i + |r| <= k < |s| ==> IsJsSpace(s[k]))
  {
    var a := TrimStart(s);
    var t := TrimEnd(a);
    TrimmedSpaceAt(s, a, t, |s| - |a|);
    t
  }

  /**
   * Cutting white space off the end of the suffix `a` of `s` leaves a piece of `s` with
   * only white space before and after it.
   */
  lemma TrimmedSpaceAt(s: string, a: string, t: string, i: nat)
    requires i + |a| == |s| && a == s[i..]
    requires forall k :: 0 <= k < i ==> IsJsSpace(s[k])
    requires t <= a && forall k :: |t| <= k < |a| ==> IsJsSpace(a[k])
    ensures exists j ::
      OccursAt(s, t, j) &&
      (forall k :: 0 <= k < j ==> IsJsSpace(s[k])) &&
      (forall k :: j + |t| <= k < |s| ==> IsJsSpace(s[k]))
  {
    forall k | i + |t| <= k < |s| ensures IsJsSpace(s[k]) {
      assert s[k] == a[k - i];
    }
    assert s[i..i + |t|] == t;
    assert OccursAt(s, t, i);
  }

  /** A string with no white space at either end is left as it is by trim. */
  lemma TrimNoop(s: string)
    requires s == [] || (!IsJsSpace(s[0]) && !IsJsSpace(s[|s| - 1]))
    ensures Trim(s) == s
  {
    var r := TrimEnd(s);
    if |r| < |s| {
      assert false;
    }
  }

  /** Trim is idempotent, so trimming a field twice, as the submit handler does, is harmless. */
  lemma TrimIdempotent(s: string)
    ensures Trim(Trim(s)) == Trim(s)
  {
    var t := Trim(s);
    var l := TrimStart(s);
    assert t <= l;
    assert t == [] || t[0] == l[0];
    TrimNoop(t);
  }

  // ---------------------------------------------------------------------------
  // s.split('/') and its inverse, join('/')

  function Split(s: string): (r: seq<string>)
    ensures |r| >= 1
    ensures forall i :: 0 <= i < |r| ==> '/' !in r[i]
    decreases |s|
  {
    if s == [] then [[]]
    else
      var rest := Split(s[1..]);
      if s[0] == '/' then [[]] + rest else [[s[0]] + rest[0]] + rest[1..]
  }

  function Join(parts: seq<string>): string
    requires |parts| >= 1
  {
    if |parts| == 1 then parts[0] else parts[0] + "/" + Join(parts[1..])
  }

  /** Splitting at '/' loses nothing: joining the pieces gives the string back. */
  lemma {:induction false} JoinSplit(s: string)
    ensures Join(Split(s)) == s
    decreases |s|
  {
    if s != [] {
      JoinSplit(s[1..]);
      var rest := Split(s[1..]);
      if s[0] == '/' {
        assert s == "/" + s[1..];
      } else if |rest| == 1 {
        assert s == [s[0]] + s[1..];
      } else {
        assert rest == [rest[0]] + rest[1..];
        assert s == [s[0]] + s[1..];
      }
    }
  }

  /** A piece without '/' splits to itself. */
  lemma {:induction false} SplitNoSlash(a: string)
    requires '/' !in a
    ensures Split(a) == [a]
    decreases |a|
  {
    if a != [] {
      assert '/' !in a[1..] by {
        forall i | 0 <= i < |a[1..]| ensures a[1..][i] != '/' { assert a[1..][i] == a[i + 1]; }
      }
      SplitNoSlash(a[1..]);
      assert [a[0]] + a[1..] == a;
    }
  }

  /** Splitting distributes over one '/'. */
  lemma {:induction false} SplitAtSlash(a: string, b: string)
    ensures Split(a + "/" + b) == Split(a) + Split(b)
    decreases |a|
  {
    if a == [] {
      assert a + "/" + b == "/" + b;
      assert ("/" + b)[1..] == b;
    } else {
      var s := a + "/" + b;
      assert s[0] == a[0];
      assert s[1..] == a[1..] + "/" + b;
      SplitAtSlash(a[1..], b);
    }
  }

  /** The four segments of an absolute path `/a/b/c/d` without further slashes. */
  lemma SplitFourSegments(a: string, b: string, c: string, d: string)
    requires '/' !in a && '/' !in b && '/' !in c && '/' !in d
    ensures Split("/" + a + "/" + b + "/" + c + "/" + d) == ["", a, b, c, d]
  {
    var cd := c + "/" + d;
    var bcd := b + "/" + cd;
    var abcd := a + "/" + bcd;
    assert Split(cd) == [c, d] by {
      SplitNoSlash(c);
      SplitNoSlash(d);
      SplitAtSlash(c, d);
    }
    assert Split(bcd) == [b, c, d] by {
      SplitNoSlash(b);
      SplitAtSlash(b, cd);
    }
    assert Split(abcd) == [a, b, c, d] by {
      SplitNoSlash(a);
      SplitAtSlash(a, bcd);
    }
    assert Split("" + "/" + abcd) == ["", a, b, c, d] by {
      SplitAtSlash("", abcd);
    }
    SlashPathNesting(a, b, c, d);
  }

  lemma SlashPathNesting(a: string, b: string, c: string, d: string)
    ensures "/" + a + "/" + b + "/" + c + "/" + d == "" + "/" + (a + "/" + (b + "/" + (c + "/" + d)))
  {
  }

  // ---------------------------------------------------------------------------
  // Numbers and their text: Number(s) and `${n}`

  /** A JavaScript number as far as this model needs one: an integer or NaN. */
  datatype Num = Int(value: int) | NaN

  predicate IsDigit(c: char)
  {
    '0' <= c <= '9'
  }

  predicate AllDigits(s: string)
  {
    forall i :: 0 <= i < |s| ==> IsDigit(s[i])
  }

  function DigitsValue(s: string): nat
    requires AllDigits(s)
    decreases |s|
  {
    if s == [] then 0 else DigitsValue(s[..|s| - 1]) * 10 + (s[|s| - 1] as int - '0' as int)
  }

  /** Decimal text of a natural number, without leading zeros. */
  function NatText(n: nat): (r: string)
    ensures r != [] && AllDigits(r)
    decreases n
  {
    if n < 10 then [('0' as int + n) as char] else NatText(n / 10) + [('0' as int + n % 10) as char]
  }

  lemma {:induction false} DigitsValueOfNatText(n: nat)
    ensures DigitsValue(NatText(n)) == n
    decreases n
  {
    if n >= 10 {
      var t := NatText(n);
      assert t[..|t| - 1] == NatText(n / 10);
      DigitsValueOfNatText(n / 10);
    }
  }

  /** The text a template literal gives a number: `${n}`. */
  function NumberText(x: Num): string
  {
    match x
    case NaN => "NaN"
    case Int(i) => if i < 0 then "-" + NatText(-i) else NatText(i)
  }

  /**
   * `Number(s)` for the inputs the model covers: white space around the text is ignored,
   * the empty string is 0, an optional sign followed by decimal digits is that integer,
   * and everything else is NaN.
   */
  function NumberOf(s: string): (r: Num)
    ensures Trim(s) == [] ==> r == Int(0)
    ensures r.Int? && Trim(s) != [] ==> IsDigit(Trim(s)[|Trim(s)| - 1])
  {
    NumberOfTrimmed(Trim(s))
  }

  /** `Number(s)` once the white space around `s` is gone. */
  function NumberOfTrimmed(t: string): (r: Num)
    ensures r.Int? && t != [] ==> IsDigit(t[|t| - 1])
  {
    if t == [] then Int(0)
    else if AllDigits(t) then Int(DigitsValue(t))
    else if |t| > 1 && (t[0] == '-' || t[0] == '+') && AllDigits(t[1..]) then
      var v: int := DigitsValue(t[1..]);
      Int(if t[0] == '-' then -v else v)
    else NaN
  }

  /** Text that starts with a letter is not a number. */
  lemma NumberOfLetterIsNaN(s: string)
    requires s != [] && ('a' <= s[0] <= 'z' || 'A' <= s[0] <= 'Z')
    ensures NumberOf(s) == NaN
  {
    assert !IsJsSpace(s[0]);
    assert TrimStart(s) == s;
    var t := TrimEnd(s);
    assert |t| > 0 by {
      assert forall i :: |t| <= i < |s| ==> IsJsSpace(s[i]);
    }
    assert t[0] == s[0];
    assert !IsDigit(t[0]) && t[0] != '-' && t[0] != '+';
    assert !AllDigits(t);
  }

  /** Digits alone read as their value. */
  lemma NumberOfDigits(d: string)
    requires d != [] && AllDigits(d)
    ensures NumberOf(d) == Int(DigitsValue(d))
  {
    assert IsDigit(d[0]) && IsDigit(d[|d| - 1]);
    TrimNoop(d);
  }

  /** A minus sign followed by digits reads as the negated value. */
  lemma NumberOfMinusDigits(d: string)
    requires d != [] && AllDigits(d)
    ensures NumberOf("-" + d) == Int(-(DigitsValue(d) as int))
  {
    var t := "-" + d;
    assert t[0] == '-' && t[1..] == d;
    assert Trim(t) == t by {
      assert t[|t| - 1] == d[|d| - 1] && IsDigit(d[|d| - 1]);
      TrimNoop(t);
    }
    NumberOfTrimmedNegative(t);
  }

  /** Text made of '-' and digits reads as the negated value of the digits. */
  lemma NumberOfTrimmedNegative(t: string)
    requires |t| > 1 && t[0] == '-' && AllDigits(t[1..])
    ensures NumberOfTrimmed(t) == Int(-(DigitsValue(t[1..]) as int))
  {
    SignedNotAllDigits(t);
  }

  /** Text that starts with '-' is not all digits. */
  lemma SignedNotAllDigits(t: string)
    requires t != [] && t[0] == '-'
    ensures !AllDigits(t)
  {
    assert !IsDigit('-');
  }

  /** Reading back the text of an integer gives the integer. */
  lemma NumberOfNumberText(i: int)
    ensures NumberOf(NumberText(Int(i))) == Int(i)
  {
    var d := if i < 0 then NatText(-i) else NatText(i);
    assert DigitsValue(d) == if i < 0 then -i else i by {
      DigitsValueOfNatText(if i < 0 then -i else i);
    }
    if i < 0 {
      assert NumberText(Int(i)) == "-" + d;
      NumberOfMinusDigits(d);
    } else {
      assert NumberText(Int(i)) == d;
      NumberOfDigits(d);
    }
  }

  /** The text of a number never contains '/' and is never empty. */
  lemma NumberTextShape(x: Num)
    ensures NumberText(x) != [] && '/' !in NumberText(x)
  {
    match x
    case NaN =>
    case Int(i) =>
      var d := if i < 0 then NatText(-i) else NatText(i);
      assert forall k :: 0 <= k < |d| ==> d[k] != '/';
  }
}
