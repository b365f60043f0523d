/**
 * String operations the source takes from its languages' standard libraries: prefix tests,
 * Python `str.strip()` and JavaScript `String.prototype.trim()`, decimal rendering of numbers,
 * upper-casing a first letter, Python's ordering of `str`, `split("?")[0]` and
 * JavaScript's `encodeURIComponent`.
 */
module Text {

  /** `s.startsWith(prefix)` in JavaScript, `s.startswith(prefix)` in Python. */
  predicate StartsWith(s: string, prefix: string) {
    |prefix| <= |s| && s[..|prefix|] == prefix
  }

  // ---------------------------------------------------------------------------
  // Trimming
  // ---------------------------------------------------------------------------

  /** The characters JavaScript's `trim` removes: WhiteSpace and LineTerminator of ECMAScript. */
  predicate IsJsSpace(c: char) {
    c == '\t' || c == '\n' || c == '\U{000B}' || c == '\U{000C}' || c == '\r' || c == ' '
    || c == '\U{00A0}' || c == '\U{1680}' || ('\U{2000}' <= c <= '\U{200A}')
    || c == '\U{2028}' || c == '\U{2029}' || c == '\U{202F}' || c == '\U{205F}'
    || c == '\U{3000}' || c == '\U{FEFF}'
  }

  /** The characters Python's argument-less `str.strip()` removes (those for which `isspace()` holds). */
  predicate IsPySpace(c: char) {
    c == '\t' || c == '\n' || c == '\U{000B}' || c == '\U{000C}' || c == '\r'
    || ('\U{001C}' <= c <= '\U{001F}') || c == ' ' || c == '\U{0085}' || c == '\U{00A0}'
    || c == '\U{1680}' || ('\U{2000}' <= c <= '\U{200A}') || c == '\U{2028}' || c == '\U{2029}'
    || c == '\U{202F}' || c == '\U{205F}' || c == '\U{3000}'
  }

  /** Drops leading characters satisfying `ws`: the result is the longest suffix not starting with one. */
  function TrimStart(s: string, ws: char -> bool): (r: string)
    ensures |r| <= |s| && r == s[|s| - |r|..]
    ensures forall k :: 0 <= k < |s| - |r| ==> ws(s[k])
    ensures r != [] ==> !ws(r[0])
  {
    if s != [] && ws(s[0]) then
      var r := TrimStart(s[1..], ws);
      assert s[1..][|s| - 1 - |r|..] == s[|s| - |r|..];
      assert forall k :: 0 < k < |s| - |r| ==> s[k] == s[1..][k - 1];
      r
    else s
  }

  /** Drops trailing characters satisfying `ws`: the result is the longest prefix not ending in one. */
  function TrimEnd(s: string, ws: char -> bool): (r: string)
    ensures |r| <= |s| && r == s[..|r|]
    ensures forall k :: |r| <= k < |s| ==> ws(s[k])
    ensures r != [] ==> !ws(r[|r| - 1])
  {
    if s != [] && ws(s[|s| - 1]) then TrimEnd(s[..|s| - 1], ws) else s
  }

  /** Both ends trimmed. */
  function Trim(s: string, ws: char -> bool): string {
    TrimEnd(TrimStart(s, ws), ws)
  }

  /** JavaScript `s.trim()`. */
  function JsTrim(s: string): string { Trim(s, IsJsSpace) }

  /** Python `s.strip()`. */
  function PyStrip(s: string): string { Trim(s, IsPySpace) }

  /** How many leading characters `Trim` drops. */
  function Leading(s: string, ws: char -> bool): nat {
    |s| - |TrimStart(s, ws)|
  }

  /**
   * The trimmed string is the slice of `s` between a run of leading and a run of trailing
   * whitespace, and neither of its ends is whitespace.
   */
  lemma TrimIsCore(s: string, ws: char -> bool)
    ensures var i := Leading(s, ws); var j := i + |Trim(s, ws)|;
            && j <= |s| && Trim(s, ws) == s[i..j]
            && (forall k :: 0 <= k < i ==> ws(s[k]))
            && (forall k :: j <= k < |s| ==> ws(s[k]))
    ensures Trim(s, ws) != [] ==> !ws(Trim(s, ws)[0]) && !ws(Trim(s, ws)[|Trim(s, ws)| - 1])
  {
    TrimSlice(s, ws);
    TrimTrailingBlank(s, ws);
    TrimEndsNotBlank(s, ws);
  }

  lemma TrimSlice(s: string, ws: char -> bool)
    ensures Leading(s, ws) + |Trim(s, ws)| <= |s|
    ensures Trim(s, ws) == s[Leading(s, ws)..Leading(s, ws) + |Trim(s, ws)|]
  {
    var t := TrimStart(s, ws);
    assert t == s[Leading(s, ws)..];
  }

  lemma TrimTrailingBlank(s: string, ws: char -> bool)
    ensures forall k :: Leading(s, ws) + |Trim(s, ws)| <= k < |s| ==> ws(s[k])
  {
    var t := TrimStart(s, ws);
    var r := TrimEnd(t, ws);
    var i := |s| - |t|;
    assert t == s[i..];
    forall k | i + |r| <= k < |s| ensures ws(s[k]) {
      assert |r| <= k - i < |t| && s[k] == t[k - i];
    }
  }

  lemma TrimEndsNotBlank(s: string, ws: char -> bool)
    ensures Trim(s, ws) != [] ==> !ws(Trim(s, ws)[0]) && !ws(Trim(s, ws)[|Trim(s, ws)| - 1])
  {
    var t := TrimStart(s, ws);
    if Trim(s, ws) != [] {
      assert Trim(s, ws)[0] == t[0];
    }
  }

  /** Trimming an already trimmed string changes nothing. */
  lemma TrimIdempotent(s: string, ws: char -> bool)
    ensures Trim(Trim(s, ws), ws) == Trim(s, ws)
  {
    var r := Trim(s, ws);
    TrimIsCore(s, ws);
    if r != [] {
      assert TrimStart(r, ws) == r;
      assert TrimEnd(r, ws) == r;
    }
  }

  /** A string trims to nothing exactly when every character of it is whitespace. */
  lemma TrimEmptyIffBlank(s: string, ws: char -> bool)
    ensures Trim(s, ws) == [] <==> forall k :: 0 <= k < |s| ==> ws(s[k])
  {
    if Trim(s, ws) == [] {
      TrimmedAwayIsBlank(s, ws);
    } else {
      TrimmedKeepsNonBlank(s, ws);
    }
  }

  lemma TrimmedAwayIsBlank(s: string, ws: char -> bool)
    requires Trim(s, ws) == []
    ensures forall k :: 0 <= k < |s| ==> ws(s[k])
  {
    var t := TrimStart(s, ws);
    forall k | 0 <= k < |s| ensures ws(s[k]) {
      if k >= |s| - |t| {
        assert s[k] == t[k - (|s| - |t|)];
      }
    }
  }

  lemma TrimmedKeepsNonBlank(s: string, ws: char -> bool)
    requires Trim(s, ws) != []
    ensures exists k :: 0 <= k < |s| && !ws(s[k])
  {
    TrimIsCore(s, ws);
    var r := Trim(s, ws);
    assert s[Leading(s, ws)] == r[0];
  }

  // ---------------------------------------------------------------------------
  // Decimal numbers
  // ---------------------------------------------------------------------------

  predicate IsDigit(c: char) { '0' <= c <= '9' }

  function DigitChar(d: nat): (c: char)
    requires d < 10
    ensures IsDigit(c) && c as int - '0' as int == d
  {
    (d + '0' as int) as char
  }

  /** The decimal rendering of a natural number, as a template literal or `str()` writes it. */
  function NatToString(n: nat): (r: string)
    ensures r != [] && forall k :: 0 <= k < |r| ==> IsDigit(r[k])
  {
    if n < 10 then [DigitChar(n)] else NatToString(n / 10) + [DigitChar(n % 10)]
  }

  /** The number a string of decimal digits denotes. */
  function DecimalValue(s: string): nat
    requires forall k :: 0 <= k < |s| ==> IsDigit(s[k])
  {
    if s == [] then 0
    else
      var last := s[|s| - 1];
      assert IsDigit(last);
      10 * DecimalValue(s[..|s| - 1]) + (last as int - '0' as int)
  }

  /** Reading back the rendering of `n` gives `n`; so distinct numbers render differently. */
  lemma {:induction false} NatToStringRoundTrip(n: nat)
    ensures DecimalValue(NatToString(n)) == n
  {
    if n >= 10 {
      var r := NatToString(n);
      NatToStringRoundTrip(n / 10);
      assert r[..|r| - 1] == NatToString(n / 10);
    }
  }

  lemma NatToStringInjective(m: nat, n: nat)
    ensures NatToString(m) == NatToString(n) ==> m == n
  {
    NatToStringRoundTrip(m);
    NatToStringRoundTrip(n);
  }

  // ---------------------------------------------------------------------------
  // Upper case
  // ---------------------------------------------------------------------------

  /** `toUpperCase` on one character, for the ASCII letters; every other character is kept. */
  function UpperChar(c: char): (u: char)
    ensures 'a' <= c <= 'z' ==> u as int == c as int - 32
    ensures !('a' <= c <= 'z') ==> u == c
  {
    if 'a' <= c <= 'z' then (c as int - 32) as char else c
  }

  /** `s.toUpperCase()` over `UpperChar`. */
  function Upper(s: string): (r: string)
    ensures |r| == |s| && forall k :: 0 <= k < |s| ==> r[k] == UpperChar(s[k])
  {
    seq(|s|, k requires 0 <= k < |s| => UpperChar(s[k]))
  }

  // ---------------------------------------------------------------------------
  // Python's ordering of str
  // ---------------------------------------------------------------------------

  /** `a <= b` on Python strings: lexicographic by code point, a proper prefix first. */
  predicate LexLe(a: string, b: string) {
    a == [] || (b != [] && (a[0] < b[0] || (a[0] == b[0] && LexLe(a[1..], b[1..]))))
  }

  lemma {:induction false} LexLeTotal(a: string, b: string)
    ensures LexLe(a, b) || LexLe(b, a)
  {
    if a != [] && b != [] && a[0] == b[0] {
      LexLeTotal(a[1..], b[1..]);
    }
  }

  lemma {:induction false} LexLeTransitive(a: string, b: string, c: string)
    requires LexLe(a, b) && LexLe(b, c)
    ensures LexLe(a, c)
  {
    if a != [] && a[0] == b[0] && b[0] == c[0] {
      LexLeTransitive(a[1..], b[1..], c[1..]);
    }
  }

  lemma {:induction false} LexLeAntisymmetric(a: string, b: string)
    requires LexLe(a, b) && LexLe(b, a)
    ensures a == b
  {
    if a != [] {
      LexLeAntisymmetric(a[1..], b[1..]);
    }
  }

  // ---------------------------------------------------------------------------
  // split
  // ---------------------------------------------------------------------------

  /** `s.split(c)[0]`: everything before the first `c`, or all of `s` when it has none. */
  function BeforeFirst(s: string, c: char): (r: string)
    ensures StartsWith(s, r) && c !in r
    ensures |r| < |s| ==> s[|r|] == c
  {
    if s == [] then [] else if s[0] == c then [] else [s[0]] + BeforeFirst(s[1..], c)
  }

  /** Splitting `p + c + rest` at `c` gives back `p` when `p` has no `c`. */
  lemma {:induction false} BeforeFirstOfJoin(p: string, c: char, rest: string)
    requires c !in p
    ensures BeforeFirst(p + [c] + rest, c) == p
  {
    if p != [] {
      assert (p + [c] + rest)[1..] == p[1..] + [c] + rest;
      BeforeFirstOfJoin(p[1..], c, rest);
    }
  }

  // ---------------------------------------------------------------------------
  // encodeURIComponent
  // ---------------------------------------------------------------------------

  /** The characters `encodeURIComponent` leaves as they are. */
  predicate IsUnreserved(c: char) {
    ('A' <= c <= 'Z') || ('a' <= c <= 'z') || ('0' <= c <= '9')
    || c == '-' || c == '_' || c == '.' || c == '!' || c == '~' || c == '*' || c == '\'' || c == '(' || c == ')'
  }

  /** The UTF-8 encoding of one Unicode scalar value. */
  function Utf8(c: char): (bytes: seq<nat>)
    ensures 1 <= |bytes| <= 4 && forall k :: 0 <= k < |bytes| ==> bytes[k] < 256
  {
    var v := c as int;
    if v < 0x80 then [v]
    else if v < 0x800 then [0xC0 + v / 64, 0x80 + v % 64]
    else if v < 0x10000 then [0xE0 + v / 4096, 0x80 + (v / 64) % 64, 0x80 + v % 64]
    else [0xF0 + v / 262144, 0x80 + (v / 4096) % 64, 0x80 + (v / 64) % 64, 0x80 + v % 64]
  }

  function HexDigit(d: nat): (c: char)
    requires d < 16
    ensures ('0' <= c <= '9') || ('A' <= c <= 'F')
  {
    "0123456789ABCDEF"[d]
  }

  /** `%XX` for each byte, upper-case hexadecimal. */
  function PercentBytes(bytes: seq<nat>): (r: string)
    requires forall k :: 0 <= k < |bytes| ==> bytes[k] < 256
    ensures |r| == 3 * |bytes|
    ensures forall k :: 0 <= k < |r| ==> r[k] == '%' || IsUnreserved(r[k])
  {
    if bytes == [] then []
    else ['%', HexDigit(bytes[0] / 16), HexDigit(bytes[0] % 16)] + PercentBytes(bytes[1..])
  }

  function EncodeChar(c: char): string {
    if IsUnreserved(c) then [c] else PercentBytes(Utf8(c))
  }

  /** JavaScript `encodeURIComponent(s)`. */
  function EncodeURIComponent(s: string): string {
    if s == [] then [] else EncodeChar(s[0]) + EncodeURIComponent(s[1..])
  }

  /**
   * The encoded text holds only unreserved characters and `%`, so a value placed after
   * `?projectId=` can never add a `&`, `=`, `#`, `?`, `/` or space to the URL.
   */
  lemma {:induction false} EncodedIsQuerySafe(s: string)
    ensures forall k :: 0 <= k < |EncodeURIComponent(s)| ==>
              EncodeURIComponent(s)[k] == '%' || IsUnreserved(EncodeURIComponent(s)[k])
  {
    if s != [] {
      EncodedIsQuerySafe(s[1..]);
      var head := EncodeChar(s[0]);
      var tail := EncodeURIComponent(s[1..]);
      assert EncodeURIComponent(s) == head + tail;
      forall k | 0 <= k < |head + tail|
        ensures (head + tail)[k] == '%' || IsUnreserved((head + tail)[k])
      {
        if k >= |head| {
          assert (head + tail)[k] == tail[k - |head|];
        }
      }
    }
  }

  /** A string made only of unreserved characters is sent unchanged. */
  lemma {:induction false} EncodeUnreservedIdentity(s: string)
    requires forall k :: 0 <= k < |s| ==> IsUnreserved(s[k])
    ensures EncodeURIComponent(s) == s
  {
    if s != [] {
      EncodeUnreservedIdentity(s[1..]);
      assert s == [s[0]] + s[1..];
    }
  }
}
