/**
 Text primitives shared by the browser controller, the Flask backend and the
 audit scripts: optional values, the two whitespace classes (JavaScript's
 `trim` and Python's `strip`), lower-casing, substring search, joining and
 decimal rendering of indices.
 */
module Text {

  datatype Option<+T> = None | Some(value: T) {
    function GetOr(default: T): T {
      match this
      case Some(v) => v
      case None => default
    }
  }

  /** JavaScript truthiness of an optional string: absent and "" are falsy. */
  predicate Truthy(s: Option<string>) {
    s.Some? && s.value != ""
  }

  // ---------------------------------------------------------------------
  // Whitespace classes

  /** Characters removed by JavaScript's String.prototype.trim: the
      WhiteSpace and LineTerminator productions of ECMA-262. */
  predicate IsJsSpace(c: char) {
    || c == '\t' || c == '\n' || c == '\U{000B}' || c == '\U{000C}' || c == '\r'
    || c == ' ' || c == '\U{00A0}' || c == '\U{1680}'
    || ('\U{2000}' <= c <= '\U{200A}')
    || c == '\U{2028}' || c == '\U{2029}' || c == '\U{202F}' || c == '\U{205F}'
    || c == '\U{3000}' || c == '\U{FEFF}'
  }

  /** Characters removed by Python's str.strip() (those for which
      str.isspace() holds). Unlike JavaScript it strips U+001C..U+001F and
      U+0085, and keeps U+FEFF. */
  predicate IsPySpace(c: char) {
    || ('\t' <= c <= '\r')
    || ('\U{001C}' <= c <= '\U{001F}')
    || c == ' ' || c == '\U{0085}' || c == '\U{00A0}' || c == '\U{1680}'
    || ('\U{2000}' <= c <= '\U{200A}')
    || c == '\U{2028}' || c == '\U{2029}' || c == '\U{202F}' || c == '\U{205F}'
    || c == '\U{3000}'
  }

  predicate AllSatisfy(s: string, p: char -> bool) {
    forall i :: 0 <= i < |s| ==> p(s[i])
  }

  // ---------------------------------------------------------------------
  // Trimming

  /** Length of the longest prefix of s made of characters in ws. */
  function LeadingCount(s: string, ws: char -> bool): (k: nat)
    ensures k <= |s|
    ensures forall i :: 0 <= i < k ==> ws(s[i])
    ensures k < |s| ==> !ws(s[k])
  {
    if |s| == 0 || !ws(s[0]) then 0 else 1 + LeadingCount(s[1..], ws)
  }

  /** Length of the longest suffix of s made of characters in ws. */
  function TrailingCount(s: string, ws: char -> bool): (k: nat)
    ensures k <= |s|
    ensures forall i :: |s| - k <= i < |s| ==> ws(s[i])
    ensures k < |s| ==> !ws(s[|s| - k - 1])
  {
    if |s| == 0 || !ws(s[|s| - 1]) then 0 else 1 + TrailingCount(s[..|s| - 1], ws)
  }

  /** Removes leading and trailing characters of class ws. */
  function Trim(s: string, ws: char -> bool): (r: string)
    ensures |r| <= |s|
    ensures r == "" <==> AllSatisfy(s, ws)
    ensures r != "" ==> !ws(r[0]) && !ws(r[|r| - 1])
    ensures LeadingCount(s, ws) + |r| <= |s|
    ensures forall i :: 0 <= i < |r| ==> r[i] == s[LeadingCount(s, ws) + i]
    ensures forall i :: 0 <= i < LeadingCount(s, ws) ==> ws(s[i])
    ensures forall i :: LeadingCount(s, ws) + |r| <= i < |s| ==> ws(s[i])
  {
    var a := LeadingCount(s, ws);
    var b := TrailingCount(s[a..], ws);
    if a == |s| then
      assert AllSatisfy(s, ws);
      ""
    else
      assert !ws(s[a]);
      assert b < |s| - a;
      var r := s[a..|s| - b];
      assert !AllSatisfy(s, ws) by { assert !ws(s[a]); }
      r
  }

  /** A string with no surrounding whitespace is its own trim. */
  lemma TrimFixed(s: string, ws: char -> bool)
    requires s == "" || (!ws(s[0]) && !ws(s[|s| - 1]))
    ensures Trim(s, ws) == s
  {
    if s != "" {
      assert LeadingCount(s, ws) == 0;
      assert TrailingCount(s, ws) == 0;
    }
  }

  /** Trimming removes exactly the padding around a trimmed core. */
  lemma TrimPadded(pre: string, core: string, post: string, ws: char -> bool)
    requires AllSatisfy(pre, ws) && AllSatisfy(post, ws)
    requires core != "" && !ws(core[0]) && !ws(core[|core| - 1])
    ensures Trim(pre + core + post, ws) == core
  {
    var s := pre + core + post;
    var a := LeadingCount(s, ws);
    assert s[|pre|] == core[0];
    assert a == |pre|;
    var rest := s[a..];
    assert rest == core + post;
    var b := TrailingCount(rest, ws);
    assert rest[|core| - 1] == core[|core| - 1];
    assert b == |post|;
    assert s[a..|s| - b] == core;
  }

  lemma TrimIdempotent(s: string, ws: char -> bool)
    ensures Trim(Trim(s, ws), ws) == Trim(s, ws)
  {
    TrimFixed(Trim(s, ws), ws);
  }

  /** JavaScript's s.trim(). */
  function JsTrim(s: string): string {
    Trim(s, IsJsSpace)
  }

  /** Python's s.strip(). */
  function PyStrip(s: string): string {
    Trim(s, IsPySpace)
  }

  // ---------------------------------------------------------------------
  // Lower-casing

  predicate IsUpper(c: char) {
    ('A' <= c <= 'Z') || ('\U{00C0}' <= c <= '\U{00DE}' && c != '\U{00D7}')
  }

  /** Lower-case mapping of one character, as JavaScript's toLowerCase and
      Python's lower() do for ASCII and Latin-1 letters. */
  function LowerChar(c: char): (r: char)
    ensures !IsUpper(r)
    ensures !IsUpper(c) ==> r == c
  {
    if IsUpper(c) then (c as int + 32) as char else c
  }

  function ToLower(s: string): (r: string)
    ensures |r| == |s|
    ensures forall i :: 0 <= i < |s| ==> r[i] == LowerChar(s[i])
  {
    seq(|s|, i requires 0 <= i < |s| => LowerChar(s[i]))
  }

  predicate IsLower(c: char) {
    ('a' <= c <= 'z') || ('\U{00E0}' <= c <= '\U{00FE}' && c != '\U{00F7}')
  }

  /** Upper-case mapping of one character, the inverse of LowerChar on the
      letters it covers. */
  function UpperChar(c: char): (r: char)
    ensures !IsLower(r)
    ensures !IsLower(c) ==> r == c
    ensures IsLower(c) ==> IsUpper(r) && LowerChar(r) == c
  {
    if IsLower(c) then (c as int - 32) as char else c
  }

  predicate IsAsciiLetter(c: char) {
    ('a' <= c <= 'z') || ('A' <= c <= 'Z')
  }

  lemma ToLowerIdempotent(s: string)
    ensures ToLower(ToLower(s)) == ToLower(s)
  {
  }

  /** Lower-casing never turns a non-space into a space or back. */
  lemma LowerKeepsSpaces(c: char)
    ensures IsJsSpace(LowerChar(c)) == IsJsSpace(c)
    ensures IsPySpace(LowerChar(c)) == IsPySpace(c)
  {
  }

  // ---------------------------------------------------------------------
  // Substring search

  /** First index at or after k where sub occurs in s. */
  function FindFrom(s: string, sub: string, k: nat): (r: Option<nat>)
    requires k <= |s|
    ensures r.Some? ==> k <= r.value && r.value + |sub| <= |s| && sub <= s[r.value..]
    ensures r.Some? ==> forall j :: k <= j < r.value ==> !(sub <= s[j..])
    ensures r.None? ==> forall j :: k <= j <= |s| ==> !(sub <= s[j..])
    decreases |s| - k
  {
    if sub <= s[k..] then Some(k)
    else if k == |s| then None
    else FindFrom(s, sub, k + 1)
  }

  /** Python's s.find(sub) and JavaScript's s.indexOf(sub), with -1 as None. */
  function Find(s: string, sub: string): (r: Option<nat>)
    ensures r.Some? ==> r.value + |sub| <= |s| && sub <= s[r.value..]
    ensures r.Some? ==> forall j :: 0 <= j < r.value ==> !(sub <= s[j..])
    ensures r.None? ==> forall j :: 0 <= j <= |s| ==> !(sub <= s[j..])
  {
    FindFrom(s, sub, 0)
  }

  /** Python's `sub in s` and JavaScript's s.includes(sub). */
  predicate Contains(s: string, sub: string) {
    Find(s, sub).Some?
  }

  lemma ContainsAt(s: string, sub: string, i: nat)
    requires i <= |s| && sub <= s[i..]
    ensures Contains(s, sub)
  {
  }

  /** Python's any(w in s for w in words). */
  predicate ContainsAny(s: string, words: seq<string>) {
    exists w :: w in words && Contains(s, w)
  }

  // ---------------------------------------------------------------------
  // Joining and numbers

  /** Python's sep.join(parts) and JavaScript's parts.join(sep). */
  function Join(parts: seq<string>, sep: string): (r: string)
    ensures |parts| > 0 ==> parts[0] <= r
    ensures |parts| == 0 ==> r == ""
  {
    if |parts| == 0 then ""
    else if |parts| == 1 then parts[0]
    else parts[0] + sep + Join(parts[1..], sep)
  }

  /** A substring of a suffix is a substring of the whole. */
  lemma ContainsInSuffix(pre: string, s: string, sub: string)
    requires Contains(s, sub)
    ensures Contains(pre + s, sub)
  {
    var k := Find(s, sub).value;
    assert (pre + s)[|pre| + k..] == s[k..];
    ContainsAt(pre + s, sub, |pre| + k);
  }

  /** A substring of a prefix is a substring of the whole. */
  lemma ContainsInPrefix(s: string, post: string, sub: string)
    requires Contains(s, sub)
    ensures Contains(s + post, sub)
  {
    var k := Find(s, sub).value;
    assert (s + post)[k..] == s[k..] + post;
    ContainsAt(s + post, sub, k);
  }

  /** Every part occurs in the joined text. */
  lemma {:induction false} JoinContainsParts(parts: seq<string>, sep: string, i: nat)
    requires i < |parts|
    ensures Contains(Join(parts, sep), parts[i])
  {
    if i == 0 {
      ContainsAt(Join(parts, sep), parts[0], 0);
    } else {
      JoinContainsParts(parts[1..], sep, i - 1);
      ContainsInSuffix(parts[0] + sep, Join(parts[1..], sep), parts[i]);
    }
  }

  /** a keeps some of b's elements, in b's order. */
  predicate Subsequence<T(==)>(a: seq<T>, b: seq<T>)
    decreases |b|
  {
    if |a| == 0 then true
    else if |b| == 0 then false
    else (a[0] == b[0] && Subsequence(a[1..], b[1..])) || Subsequence(a, b[1..])
  }

  predicate Distinct<T(==)>(s: seq<T>) {
    forall i, j :: 0 <= i < j < |s| ==> s[i] != s[j]
  }

  function DigitChar(d: nat): (c: char)
    requires d < 10
  {
    ('0' as int + d) as char
  }

  /** Decimal rendering of a natural number, as Python's f"{i}". */
  function NatToString(n: nat): (r: string)
    ensures |r| > 0
    ensures forall i :: 0 <= i < |r| ==> '0' <= r[i] <= '9'
  {
    if n < 10 then [DigitChar(n)] else NatToString(n / 10) + [DigitChar(n % 10)]
  }

  predicate AllDigits(s: string) {
    forall i :: 0 <= i < |s| ==> '0' <= s[i] <= '9'
  }

  /** The number a string of decimal digits denotes (int("0042") == 42). */
  function DigitsValue(s: string): nat
    requires AllDigits(s)
  {
    if |s| == 0 then 0 else 10 * DigitsValue(s[..|s| - 1]) + (s[|s| - 1] as int - '0' as int)
  }

  /** Reading a rendered number back gives the number. */
  lemma {:induction false} NatToStringRoundTrip(n: nat)
    ensures AllDigits(NatToString(n))
    ensures DigitsValue(NatToString(n)) == n
  {
    var s := NatToString(n);
    if n >= 10 {
      NatToStringRoundTrip(n / 10);
      assert s[..|s| - 1] == NatToString(n / 10);
    }
  }

  // ---------------------------------------------------------------------
  // Arithmetic

  function Min(a: int, b: int): (m: int)
    ensures m <= a && m <= b
    ensures m == a || m == b
  {
    if a <= b then a else b
  }

  function Max(a: int, b: int): (m: int)
    ensures m >= a && m >= b
    ensures m == a || m == b
  {
    if a >= b then a else b
  }

  // ---------------------------------------------------------------------
  // UTF-16

  /** A character JavaScript stores as a surrogate pair. */
  predicate IsAstral(c: char) {
    c as int >= 0x1_0000
  }

  /** Length in UTF-16 code units, which is what JavaScript's `length`
      counts: characters outside the Basic Multilingual Plane count twice. */
  function Utf16Length(s: string): (n: nat)
    ensures |s| <= n <= 2 * |s|
    ensures n == |s| <==> forall i :: 0 <= i < |s| ==> !IsAstral(s[i])
    ensures n == 2 * |s| <==> forall i :: 0 <= i < |s| ==> IsAstral(s[i])
    ensures |s| == 1 ==> n == (if IsAstral(s[0]) then 2 else 1)
  {
    if |s| == 0 then 0
    else
      var rest := Utf16Length(s[1..]);
      assert forall i :: 1 <= i < |s| ==> s[i] == s[1..][i - 1];
      (if IsAstral(s[0]) then 2 else 1) + rest
  }

  /** The code-unit length of a concatenation is the sum of the lengths, so
      a string's length is the sum over its characters of 1 or 2. */
  lemma {:induction false} Utf16LengthAppend(a: string, b: string)
    ensures Utf16Length(a + b) == Utf16Length(a) + Utf16Length(b)
  {
    if |a| > 0 {
      assert (a + b)[1..] == a[1..] + b;
      Utf16LengthAppend(a[1..], b);
    } else {
      assert a + b == b;
    }
  }
}
