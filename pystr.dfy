/** The Python `str` built-ins the sanitizer and the controllers rely on:
    `strip`, `lower`, substring search, `str(int)` and `int(str)`.
    Case conversion is restricted to ASCII letters; whitespace is Python's
    full `str.isspace` set. */
module PyStr {
  import opened Wrappers

  /** Python's `str.isspace` for a single character. */
  predicate IsSpace(c: char) {
    c == ' ' || ('\t' <= c <= '\r') || ('\U{001C}' <= c <= '\U{001F}')
    || c == '\U{0085}' || c == '\U{00A0}' || c == '\U{1680}'
    || ('\U{2000}' <= c <= '\U{200A}') || c == '\U{2028}' || c == '\U{2029}'
    || c == '\U{202F}' || c == '\U{205F}' || c == '\U{3000}'
  }

  predicate IsUpper(c: char) { 'A' <= c <= 'Z' }
  predicate IsLower(c: char) { 'a' <= c <= 'z' }
  predicate IsDigit(c: char) { '0' <= c <= '9' }
  predicate IsAlpha(c: char) { IsUpper(c) || IsLower(c) }
  predicate IsAlnum(c: char) { IsAlpha(c) || IsDigit(c) }

  /** Drops leading whitespace. */
  function StripLeft(s: string): (r: string)
    ensures |r| <= |s| && r == s[|s| - |r|..]
    ensures r == [] || !IsSpace(r[0])
    ensures forall k :: 0 <= k < |s| - |r| ==> IsSpace(s[k])
  {
    if s != [] && IsSpace(s[0]) then StripLeft(s[1..]) else s
  }

  /** Drops trailing whitespace. */
  function StripRight(s: string): (r: string)
    ensures |r| <= |s| && r == s[..|r|]
    ensures r == [] || !IsSpace(r[|r| - 1])
    ensures forall k :: |r| <= k < |s| ==> IsSpace(s[k])
  {
    if s != [] && IsSpace(s[|s| - 1]) then StripRight(s[..|s| - 1]) else s
  }

  /** Python's `str.strip()` with no argument. */
  function Strip(s: string): (r: string)
  {
    StripRight(StripLeft(s))
  }

  /** Every character of `s` is whitespace. */
  predicate AllSpace(s: string) {
    forall k :: 0 <= k < |s| ==> IsSpace(s[k])
  }

  lemma StripLeftCut(s: string)
    ensures AllSpace(s[..|s| - |StripLeft(s)|])
  {
  }

  lemma StripRightCut(l: string)
    ensures AllSpace(l[|StripRight(l)|..])
  {
    var r := StripRight(l);
    forall k | 0 <= k < |l| - |r|
      ensures IsSpace(l[|r|..][k])
    {
      assert l[|r|..][k] == l[|r| + k];
    }
  }

  lemma SliceOfSuffix(s: string, lo: nat, n: nat)
    requires lo + n <= |s|
    ensures s[lo..][..n] == s[lo..lo + n]
  {
  }

  lemma AllSpaceOfSuffix(s: string, lo: nat, n: nat)
    requires lo + n <= |s| && AllSpace(s[lo..][n..])
    ensures AllSpace(s[lo + n..])
  {
    assert s[lo..][n..] == s[lo + n..];
  }

  /** What `Strip` keeps is a contiguous piece of the input. */
  lemma StripKeepsSlice(s: string)
    ensures var lo, r := |s| - |StripLeft(s)|, Strip(s);
      lo + |r| <= |s| && r == s[lo..lo + |r|]
  {
    var l := StripLeft(s);
    var r := StripRight(l);
    var lo := |s| - |l|;
    assert l == s[lo..] && r == l[..|r|];
    SliceOfSuffix(s, lo, |r|);
  }

  /** What `Strip` cuts away after the kept piece is whitespace. */
  lemma StripCutsTrailingSpace(s: string)
    ensures var lo, r := |s| - |StripLeft(s)|, Strip(s);
      lo + |r| <= |s| && AllSpace(s[lo + |r|..])
  {
    var l := StripLeft(s);
    var r := StripRight(l);
    var lo := |s| - |l|;
    StripRightCut(l);
    AllSpaceOfSuffix(s, lo, |r|);
  }

  /** The result of `Strip` neither starts nor ends with whitespace. */
  lemma StripEnds(s: string)
    ensures var r := Strip(s); r == [] || (!IsSpace(r[0]) && !IsSpace(r[|r| - 1]))
  {
    var l := StripLeft(s);
    var r := StripRight(l);
    if r != [] {
      assert l[0] == r[0];
    }
  }

  /** Strip removes only surrounding whitespace: the result is the piece of
      the input that starts at the first non-space character, everything cut
      away on either side is whitespace, and the result neither starts nor
      ends with whitespace. */
  lemma StripCharacterised(s: string)
    ensures var lo, r := |s| - |StripLeft(s)|, Strip(s);
      && lo + |r| <= |s| && r == s[lo..lo + |r|]
      && AllSpace(s[..lo]) && AllSpace(s[lo + |r|..])
      && (r == [] || (!IsSpace(r[0]) && !IsSpace(r[|r| - 1])))
  {
    StripKeepsSlice(s);
    StripLeftCut(s);
    StripCutsTrailingSpace(s);
    StripEnds(s);
  }

  /** Stripping twice is stripping once. */
  lemma {:induction false} StripIdempotent(s: string)
    ensures Strip(Strip(s)) == Strip(s)
  {
    StripCharacterised(s);
    var r := Strip(s);
    if r != [] {
      assert StripLeft(r) == r;
      assert StripRight(r) == r;
    }
  }

  /** ASCII `lower()` of one character. */
  function LowerChar(c: char): (r: char)
    ensures IsUpper(c) ==> IsLower(r)
    ensures !IsUpper(c) ==> r == c
  {
    if IsUpper(c) then (c as int + 32) as char else c
  }

  /** Text with no leading or trailing whitespace strips to itself. */
  lemma StripOfStripped(s: string)
    requires s == [] || (!IsSpace(s[0]) && !IsSpace(s[|s| - 1]))
    ensures Strip(s) == s
  {
    if s != [] {
      assert StripLeft(s) == s;
      assert StripRight(s) == s;
    }
  }

  /** `str.lower()`, ASCII letters only. */
  function Lower(s: string): (r: string)
    ensures |r| == |s|
    ensures forall k :: 0 <= k < |s| ==> r[k] == LowerChar(s[k])
  {
    seq(|s|, k requires 0 <= k < |s| => LowerChar(s[k]))
  }

  /** Lower-casing never turns a character into whitespace or back. */
  lemma LowerKeepsEnds(t: string)
    requires t == [] || (!IsSpace(t[0]) && !IsSpace(t[|t| - 1]))
    ensures var l := Lower(t); l == [] || (!IsSpace(l[0]) && !IsSpace(l[|l| - 1]))
  {
    if t != [] {
      assert Lower(t)[0] == LowerChar(t[0]);
      assert Lower(t)[|t| - 1] == LowerChar(t[|t| - 1]);
    }
  }

  lemma LowerHasNoUpper(s: string)
    ensures forall k :: 0 <= k < |Lower(s)| ==> !IsUpper(Lower(s)[k])
  {
  }

  lemma LowerOfLowerCase(s: string)
    requires forall k :: 0 <= k < |s| ==> !IsUpper(s[k])
    ensures Lower(s) == s
  {
  }

  /** `needle in haystack` for strings: a contiguous occurrence. */
  predicate Contains(haystack: string, needle: string)
    decreases |haystack|
  {
    |needle| <= |haystack| &&
    (haystack[..|needle|] == needle || Contains(haystack[1..], needle))
  }

  /** The number of occurrences of `c` in `s` (`s.count(c)`). */
  function Count(s: string, c: char): (n: nat)
    ensures n <= |s|
    ensures n == 0 <==> c !in s
  {
    if s == [] then 0 else (if s[0] == c then 1 else 0) + Count(s[1..], c)
  }

  lemma {:induction false} CountConcat(a: string, b: string, c: char)
    ensures Count(a + b, c) == Count(a, c) + Count(b, c)
  {
    if a == [] {
      assert a + b == b;
    } else {
      assert (a + b)[1..] == a[1..] + b;
      CountConcat(a[1..], b, c);
    }
  }

  /** Counting around one position. */
  lemma CountAround(s: string, i: nat, c: char)
    requires i < |s|
    ensures Count(s, c) == Count(s[..i], c) + (if s[i] == c then 1 else 0) + Count(s[i + 1..], c)
  {
    assert s == s[..i] + [s[i]] + s[i + 1..];
    CountConcat(s[..i] + [s[i]], s[i + 1..], c);
    CountConcat(s[..i], [s[i]], c);
  }

  /** The decimal digit character for `d`. */
  function DigitChar(d: nat): (c: char)
    requires d < 10
    ensures IsDigit(c)
  {
    ('0' as int + d) as char
  }

  /** The value of a decimal digit character. */
  function DigitValue(c: char): (d: nat)
    requires IsDigit(c)
    ensures d < 10
  {
    c as int - '0' as int
  }

  /** Decimal representation of a natural number, without leading zeros. */
  function NatToString(n: nat): (s: string)
    ensures |s| >= 1
    ensures forall k :: 0 <= k < |s| ==> IsDigit(s[k])
    decreases n
  {
    (if n < 10 then [] else NatToString(n / 10)) + [DigitChar(n % 10)]
  }

  /** Python's `str(n)` (also what an f-string prints) for an `int`. */
  function IntToString(n: int): (s: string)
  {
    if n < 0 then "-" + NatToString(-n) else NatToString(n)
  }

  /** `str(n)` has no surrounding whitespace. */
  lemma IntToStringIsStripped(n: int)
    ensures Strip(IntToString(n)) == IntToString(n)
  {
    var s := IntToString(n);
    assert s[0] == '-' || IsDigit(s[0]);
    assert IsDigit(s[|s| - 1]);
    StripOfStripped(s);
  }

  /** The value of a string of decimal digits and underscores, most significant
      digit first; underscores are skipped. */
  function DigitsValue(s: string): nat
    requires forall k :: 0 <= k < |s| ==> IsDigit(s[k]) || s[k] == '_'
  {
    if s == [] then 0
    else if s[|s| - 1] == '_' then DigitsValue(s[..|s| - 1])
    else DigitsValue(s[..|s| - 1]) * 10 + DigitValue(s[|s| - 1])
  }

  /** The body of a Python integer literal: digits, where single underscores
      may separate two digits. */
  predicate DigitBody(s: string) {
    |s| >= 1 && IsDigit(s[0]) && IsDigit(s[|s| - 1])
    && (forall k :: 0 <= k < |s| ==> IsDigit(s[k]) || s[k] == '_')
    && (forall k :: 0 <= k < |s| - 1 ==> !(s[k] == '_' && s[k + 1] == '_'))
  }

  /** Python's `int(s)` for a string `s` that was already stripped: an optional
      sign followed by a digit body; anything else raises `ValueError` (None). */
  function ParseInt(s: string): (r: Option<int>)
    ensures r.Some? ==> s != []
  {
    if s != [] && (s[0] == '-' || s[0] == '+') then
      if DigitBody(s[1..]) then
        Some(if s[0] == '-' then -(DigitsValue(s[1..]) as int) else DigitsValue(s[1..]))
      else None
    else if DigitBody(s) then Some(DigitsValue(s))
    else None
  }

  lemma {:induction false} DigitsValueOfNatToString(n: nat)
    ensures DigitsValue(NatToString(n)) == n
    decreases n
  {
    var s := NatToString(n);
    var p := if n < 10 then [] else NatToString(n / 10);
    assert s == p + [DigitChar(n % 10)];
    assert s[..|s| - 1] == p;
    if n >= 10 {
      DigitsValueOfNatToString(n / 10);
    }
  }

  lemma {:induction false} NatToStringIsDigitBody(n: nat)
    ensures DigitBody(NatToString(n))
  {
    var s := NatToString(n);
    assert forall k :: 0 <= k < |s| ==> s[k] != '_';
  }

  /** A digit body parses to its value. */
  lemma ParseIntOfDigitBody(d: string)
    requires DigitBody(d)
    ensures ParseInt(d) == Some(DigitsValue(d) as int)
  {
    assert d[0] != '-' && d[0] != '+';
  }

  /** A minus sign followed by a digit body parses to the negated value. */
  lemma ParseIntOfNegated(d: string)
    requires DigitBody(d)
    ensures ParseInt("-" + d) == Some(-(DigitsValue(d) as int))
  {
    var s := "-" + d;
    assert s[0] == '-' && s[1..] == d;
  }

  /** `int(str(n)) == n`: printing an integer and parsing it back is the identity. */
  lemma {:induction false} ParseIntOfIntToString(n: int)
    ensures ParseInt(IntToString(n)) == Some(n)
  {
    var m := if n < 0 then -n else n;
    NatToStringIsDigitBody(m);
    DigitsValueOfNatToString(m);
    if n < 0 {
      ParseIntOfNegated(NatToString(m));
    } else {
      ParseIntOfDigitBody(NatToString(m));
    }
  }
}
