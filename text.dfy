/**
 * The Python `str` operations the bot and the installer rely on, over
 * `string` (a sequence of Unicode scalar values, as Python's `str` is a
 * sequence of code points): `strip`, `lower`, `replace`, `split`, `int()`,
 * `str()` of an integer, slicing for truncation and `<` on strings.
 */
module Text {
  import opened Common

  // ---------------------------------------------------------------------
  // Whitespace and strip()

  /** `str.isspace` of one character: what `strip()` and `int()` discard. */
  predicate IsSpace(c: char) {
    || c == ' '
    || '\t' <= c <= '\r'
    || '\U{1c}' <= c <= '\U{1f}'
    || c == '\U{85}' || c == '\U{a0}' || c == '\U{1680}'
    || '\U{2000}' <= c <= '\U{200a}'
    || c == '\U{2028}' || c == '\U{2029}' || c == '\U{202f}'
    || c == '\U{205f}' || c == '\U{3000}'
  }

  /** Nothing but whitespace: what `strip()` turns into the empty string. */
  predicate Blank(s: string) {
    forall i :: 0 <= i < |s| ==> IsSpace(s[i])
  }

  /** `str.lstrip()`: drops the leading whitespace and nothing else. */
  function StripStart(s: string): (r: string)
    ensures |r| <= |s| && r == s[|s| - |r|..]
    ensures r == [] || !IsSpace(r[0])
    ensures forall i :: 0 <= i < |s| - |r| ==> IsSpace(s[i])
    decreases |s|
  {
    if |s| > 0 && IsSpace(s[0]) then StripStart(s[1..]) else s
  }

  /** `str.rstrip()`: drops the trailing whitespace and nothing else. */
  function StripEnd(s: string): (r: string)
    ensures |r| <= |s| && r == s[..|r|]
    ensures r == [] || !IsSpace(r[|r| - 1])
    ensures forall i :: |r| <= i < |s| ==> IsSpace(s[i])
    decreases |s|
  {
    if |s| > 0 && IsSpace(s[|s| - 1]) then StripEnd(s[..|s| - 1]) else s
  }

  /** `str.strip()`. */
  function Strip(s: string): (r: string)
    ensures |r| <= |s|
    ensures r == [] || (!IsSpace(r[0]) && !IsSpace(r[|r| - 1]))
    ensures r == [] <==> Blank(s)
  {
    var t := StripStart(s);
    var r := StripEnd(t);
    assert r != [] ==> r[0] == t[0];
    r
  }

  /** A string whose ends are not whitespace is its own `strip()`. */
  lemma StripUnchanged(s: string)
    requires s == [] || (!IsSpace(s[0]) && !IsSpace(s[|s| - 1]))
    ensures Strip(s) == s
  {
  }

  /** `strip()` only drops characters: what remains is a run of the original string. */
  lemma StripChars(s: string)
    ensures forall i :: 0 <= i < |Strip(s)| ==> Strip(s)[i] in s
  {
    var t := StripStart(s);
    var r := StripEnd(t);
    assert Strip(s) == r;
    forall i | 0 <= i < |r| ensures r[i] in s {
      assert r[i] == t[i] == s[|s| - |t| + i];
    }
  }

  // ---------------------------------------------------------------------
  // lower() and replace(' ', '_')

  /**
   * `str.lower()` of one character, for Basic Latin and the basic Cyrillic
   * block (the letters of the Russian alphabet, with Ё and its neighbours).
   */
  function LowerChar(c: char): char {
    if 'A' <= c <= 'Z' || '\U{410}' <= c <= '\U{42f}' then (c as int + 32) as char
    else if '\U{400}' <= c <= '\U{40f}' then (c as int + 80) as char
    else c
  }

  function Lower(s: string): string {
    seq(|s|, i requires 0 <= i < |s| => LowerChar(s[i]))
  }

  /** `s.replace(' ', '_')`. */
  function SpacesToUnderscores(s: string): string {
    seq(|s|, i requires 0 <= i < |s| => if s[i] == ' ' then '_' else s[i])
  }

  // ---------------------------------------------------------------------
  // Substrings: `in`, startswith, split(sep)[-1], replace(pat, "")

  predicate OccursAt(s: string, pat: string, i: int) {
    0 <= i && i + |pat| <= |s| && s[i..i + |pat|] == pat
  }

  /** `pat in s`. */
  predicate Contains(s: string, pat: string) {
    exists i | 0 <= i <= |s| - |pat| :: OccursAt(s, pat, i)
  }

  /** `s.startswith(pat)`. */
  predicate StartsWith(s: string, pat: string) {
    |pat| <= |s| && s[..|pat|] == pat
  }

  lemma ContainsTail(s: string, pat: string)
    requires |s| > 0 && Contains(s, pat) && !OccursAt(s, pat, 0)
    ensures Contains(s[1..], pat)
  {
    var i :| 0 <= i <= |s| - |pat| && OccursAt(s, pat, i);
    assert i > 0;
    assert s[1..][i - 1..i - 1 + |pat|] == s[i..i + |pat|];
    assert OccursAt(s[1..], pat, i - 1);
  }

  lemma ContainsShift(s: string, pat: string, k: nat)
    requires k <= |s| && Contains(s[k..], pat)
    ensures Contains(s, pat)
  {
    var i :| 0 <= i <= |s[k..]| - |pat| && OccursAt(s[k..], pat, i);
    assert s[k..][i..i + |pat|] == s[k + i..k + i + |pat|];
    assert OccursAt(s, pat, k + i);
  }

  /**
   * `s.split(sep)[-1]`: the text after the last cut, where the cuts are the
   * non-overlapping occurrences of `sep` found scanning from the left.
   */
  function LastSegment(s: string, sep: string): (r: string)
    requires |sep| > 0
    ensures |r| <= |s| && !Contains(r, sep)
    ensures !Contains(s, sep) ==> r == s
    decreases |s|
  {
    if !Contains(s, sep) then s
    else if s[..|sep|] == sep then LastSegment(s[|sep|..], sep)
    else LastSegment(s[1..], sep)
  }

  /** The last segment is a suffix of `s` that holds no separator. */
  lemma {:induction false} LastSegmentSuffix(s: string, sep: string)
    requires |sep| > 0
    ensures var r := LastSegment(s, sep);
      |r| <= |s| && r == s[|s| - |r|..] && !Contains(r, sep)
    decreases |s|
  {
    var r := LastSegment(s, sep);
    if Contains(s, sep) {
      var k := if s[..|sep|] == sep then |sep| else 1;
      var rest := s[k..];
      assert r == LastSegment(rest, sep);
      LastSegmentSuffix(rest, sep);
      assert |r| <= |rest| <= |s|;
      assert rest[|rest| - |r|..] == s[|s| - |r|..];
    } else {
      assert r == s && s[|s| - |r|..] == s;
    }
  }

  /** An occurrence in a tail of `s` is an occurrence in `s`, shifted. */
  lemma OccursShift(s: string, pat: string, k: nat, j: int)
    requires k <= |s| && OccursAt(s[k..], pat, j)
    ensures OccursAt(s, pat, k + j)
  {
    assert s[k..][j..j + |pat|] == s[k + j..k + j + |pat|];
  }

  /**
   * One step of the scan: with a separator in `s`, the last segment is that
   * of `s` after its leading separator, or after its first character.
   */
  lemma LastSegmentStep(s: string, sep: string) returns (k: nat)
    requires |sep| > 0 && Contains(s, sep)
    ensures 1 <= k <= |s| && LastSegment(s, sep) == LastSegment(s[k..], sep)
    ensures OccursAt(s, sep, 0) ==> k == |sep|
    ensures !OccursAt(s, sep, 0) ==> k == 1 && Contains(s[1..], sep)
  {
    if s[..|sep|] == sep {
      k := |sep|;
    } else {
      ContainsTail(s, sep);
      k := 1;
    }
  }

  /**
   * When `s` holds the separator, the last segment follows an occurrence of
   * it: the one at the returned index `m`.
   */
  lemma {:induction false} LastSegmentFollows(s: string, sep: string) returns (m: nat)
    requires |sep| > 0 && Contains(s, sep)
    ensures m + |sep| + |LastSegment(s, sep)| == |s| && OccursAt(s, sep, m)
    decreases |s|
  {
    var k := LastSegmentStep(s, sep);
    var rest := s[k..];
    if Contains(rest, sep) {
      var m' := LastSegmentFollows(rest, sep);
      OccursShift(s, sep, k, m');
      m := k + m';
    } else {
      assert LastSegment(rest, sep) == rest;
      m := 0;
    }
  }

  /**
   * The last segment is a suffix of `s` that holds no separator; when `s`
   * holds one, the segment follows an occurrence of it, and otherwise it is
   * all of `s`.
   */
  lemma LastSegmentSpec(s: string, sep: string)
    requires |sep| > 0
    ensures var r := LastSegment(s, sep);
      && |r| <= |s| && r == s[|s| - |r|..]
      && !Contains(r, sep)
      && (!Contains(s, sep) ==> r == s)
      && (Contains(s, sep) ==> |r| + |sep| <= |s| && OccursAt(s, sep, |s| - |r| - |sep|))
  {
    LastSegmentSuffix(s, sep);
    if Contains(s, sep) {
      var m := LastSegmentFollows(s, sep);
      assert m == |s| - |LastSegment(s, sep)| - |sep|;
    }
  }

  /**
   * The cuts are found scanning from the left and do not overlap: in
   * `" - - - "` they are at 0 and 4, so the last segment is empty, although
   * the occurrence at 2 is also followed by no separator.
   */
  lemma LastSegmentOverlapping()
    ensures LastSegment(" - - - ", " - ") == ""
    ensures OccursAt(" - - - ", " - ", 2) && !Contains(" - - - "[5..], " - ")
  {
    var s, sep := " - - - ", " - ";
    assert OccursAt(s, sep, 0) && s[3..] == "- - ";
    var t := "- - ";
    assert OccursAt(t, sep, 1) && t[..3][0] == '-' && t[1..] == sep;
    assert OccursAt(sep, sep, 0) && sep[3..] == "";
    assert LastSegment(sep, sep) == LastSegment("", sep) == "";
    assert LastSegment(t, sep) == LastSegment(sep, sep);
    assert LastSegment(s, sep) == LastSegment(t, sep);
    assert s[2..5] == sep && s[5..] == "- ";
  }

  /** `s.replace(pat, "")`: every non-overlapping occurrence, scanning from the left, removed. */
  function RemoveAll(s: string, pat: string): (r: string)
    requires |pat| > 0
    ensures forall i :: 0 <= i < |r| ==> r[i] in s
    decreases |s|
  {
    if |s| < |pat| then s
    else if s[..|pat|] == pat then RemoveAll(s[|pat|..], pat)
    else [s[0]] + RemoveAll(s[1..], pat)
  }

  /** Removing the occurrences of `pat` never lengthens `s`, and a string without any is unchanged. */
  lemma {:induction false} RemoveAllSpec(s: string, pat: string)
    requires |pat| > 0
    ensures |RemoveAll(s, pat)| <= |s|
    ensures !Contains(s, pat) ==> RemoveAll(s, pat) == s
    decreases |s|
  {
    if |s| < |pat| {
    } else if s[..|pat|] == pat {
      RemoveAllSpec(s[|pat|..], pat);
      assert OccursAt(s, pat, 0);
    } else {
      RemoveAllSpec(s[1..], pat);
      if !Contains(s, pat) && Contains(s[1..], pat) {
        ContainsShift(s, pat, 1);
      }
    }
  }

  // ---------------------------------------------------------------------
  // Truncation with an ellipsis

  /** `s if len(s) <= limit else s[:limit - 3] + "..."`. */
  function Shorten(s: string, limit: nat): (r: string)
    requires limit >= 3
    ensures |r| <= limit
    ensures |s| <= limit ==> r == s
    ensures |s| > limit ==> |r| == limit && r[..limit - 3] == s[..limit - 3] && r[limit - 3..] == "..."
  {
    if |s| > limit then s[..limit - 3] + "..." else s
  }

  /** `sep.join(parts)`. */
  function Join(parts: seq<string>, sep: string): string
    decreases |parts|
  {
    if |parts| == 0 then ""
    else if |parts| == 1 then parts[0]
    else parts[0] + sep + Join(parts[1..], sep)
  }

  // ---------------------------------------------------------------------
  // Decimal numerals: str(n) and int(s)

  predicate IsDigit(c: char) {
    '0' <= c <= '9'
  }

  predicate AllDigits(s: string) {
    forall i :: 0 <= i < |s| ==> IsDigit(s[i])
  }

  function DigitChar(d: nat): char
    requires d < 10
  {
    ('0' as int + d) as char
  }

  function DigitValue(c: char): nat
    requires IsDigit(c)
  {
    c as int - '0' as int
  }

  /** `str(n)` for a non-negative integer. */
  function NatToDecimal(n: nat): (r: string)
    ensures |r| > 0 && AllDigits(r)
    decreases n
  {
    (if n < 10 then "" else NatToDecimal(n / 10)) + [DigitChar(n % 10)]
  }

  /** `str(i)`. */
  function IntToDecimal(i: int): (r: string)
    ensures |r| > 0
  {
    if i < 0 then "-" + NatToDecimal(-i) else NatToDecimal(i)
  }

  predicate DigitsOrUnderscores(s: string) {
    forall i :: 0 <= i < |s| ==> IsDigit(s[i]) || s[i] == '_'
  }

  /**
   * The value of a string of decimal digits, most significant first; the
   * underscores `int()` allows between digits carry no value.
   */
  function DigitsValue(s: string): nat
    requires DigitsOrUnderscores(s)
    decreases |s|
  {
    if s == [] then 0
    else if s[|s| - 1] == '_' then DigitsValue(s[..|s| - 1])
    else DigitsValue(s[..|s| - 1]) * 10 + DigitValue(s[|s| - 1])
  }

  /** Reading back the digits `str` wrote gives the number. */
  lemma {:induction false} DecimalValue(n: nat)
    ensures DigitsValue(NatToDecimal(n)) == n
  {
    var r := NatToDecimal(n);
    if n < 10 {
      assert r == [DigitChar(n)];
    } else {
      DecimalValue(n / 10);
      assert r[..|r| - 1] == NatToDecimal(n / 10);
    }
  }

  /** `str(n)` never starts with a zero unless `n` is zero. */
  lemma {:induction false} NoLeadingZero(n: nat)
    ensures NatToDecimal(n)[0] == '0' ==> n == 0 && NatToDecimal(n) == "0"
  {
    if n >= 10 {
      NoLeadingZero(n / 10);
      assert NatToDecimal(n)[0] == NatToDecimal(n / 10)[0];
    }
  }

  lemma NatToDecimalInjective(a: nat, b: nat)
    requires NatToDecimal(a) == NatToDecimal(b)
    ensures a == b
  {
    DecimalValue(a);
    DecimalValue(b);
  }

  /** `str(i)` starts with a minus sign exactly when `i` is negative. */
  lemma DecimalSign(i: int)
    ensures (IntToDecimal(i)[0] == '-') <==> i < 0
  {
    if i >= 0 {
      assert IsDigit(NatToDecimal(i)[0]);
    }
  }

  /** Distinct integers have distinct `str()`: the rendering is injective. */
  lemma IntToDecimalInjective(a: int, b: int)
    requires IntToDecimal(a) == IntToDecimal(b)
    ensures a == b
  {
    DecimalSign(a);
    DecimalSign(b);
    if a < 0 {
      assert NatToDecimal(-a) == IntToDecimal(a)[1..];
      assert NatToDecimal(-b) == IntToDecimal(b)[1..];
      NatToDecimalInjective(-a, -b);
    } else {
      NatToDecimalInjective(a, b);
    }
  }

  /**
   * The body of an integer literal that `int()` accepts in base 10: ASCII
   * digits, where single underscores may separate two digits.
   */
  predicate DigitRun(s: string) {
    && |s| > 0
    && IsDigit(s[0])
    && DigitsOrUnderscores(s)
    && forall i :: 0 <= i < |s| && s[i] == '_' ==> i + 1 < |s| && IsDigit(s[i + 1])
  }

  /**
   * `int(s)` in base 10 for ASCII input: surrounding whitespace is ignored,
   * one optional sign, then a digit run; anything else is a ValueError
   * (`None`).
   */
  function ParseInt(s: string): (r: Option<int>)
    ensures Strip(s) == "" ==> r == None
    ensures r.Some? ==> IsDigit(Strip(s)[|Strip(s)| - 1])
  {
    var t := Strip(s);
    assert DigitRun(t) ==> IsDigit(t[|t| - 1]);
    assert |t| > 1 && DigitRun(t[1..]) ==> IsDigit(t[1..][|t| - 2]);
    ParseSigned(t)
  }

  /** `int()` of a string without surrounding whitespace. */
  function ParseSigned(t: string): Option<int> {
    if |t| > 0 && (t[0] == '-' || t[0] == '+') then
      if DigitRun(t[1..]) then
        Some(if t[0] == '-' then -(DigitsValue(t[1..]) as int) else DigitsValue(t[1..]))
      else None
    else if DigitRun(t) then Some(DigitsValue(t))
    else None
  }

  lemma DecimalIsDigitRun(n: nat)
    ensures DigitRun(NatToDecimal(n)) && DigitsValue(NatToDecimal(n)) == n
  {
    DecimalValue(n);
  }

  /** `str(i)` is its own `strip()`. */
  lemma DecimalStripped(i: int)
    ensures Strip(IntToDecimal(i)) == IntToDecimal(i)
  {
    var s := IntToDecimal(i);
    var d := NatToDecimal(if i < 0 then -i else i);
    DecimalSign(i);
    assert s[|s| - 1] == d[|d| - 1];
    assert !IsSpace(s[0]) && !IsSpace(s[|s| - 1]);
    StripUnchanged(s);
  }

  lemma ParseSignedNegative(d: string)
    requires DigitRun(d)
    ensures ParseSigned("-" + d) == Some(-(DigitsValue(d) as int))
  {
    assert ("-" + d)[1..] == d;
  }

  lemma ParseSignedUnsigned(d: string)
    requires DigitRun(d)
    ensures ParseSigned(d) == Some(DigitsValue(d))
  {
  }

  /** `int(str(i)) == i`. */
  lemma ParseIntOfDecimal(i: int)
    ensures ParseInt(IntToDecimal(i)) == Some(i)
  {
    var n: nat := if i < 0 then -i else i;
    DecimalIsDigitRun(n);
    DecimalStripped(i);
    if i < 0 {
      ParseSignedNegative(NatToDecimal(n));
    } else {
      ParseSignedUnsigned(NatToDecimal(n));
    }
  }

  // ---------------------------------------------------------------------
  // Ordering of strings

  /** Python's `a < b` on `str`: lexicographic by code point. */
  predicate StrLess(a: string, b: string)
    decreases |a|
  {
    if |a| == 0 then |b| > 0
    else if |b| == 0 then false
    else if a[0] != b[0] then a[0] < b[0]
    else StrLess(a[1..], b[1..])
  }

  lemma {:induction false} StrLessIrreflexive(a: string)
    ensures !StrLess(a, a)
    decreases |a|
  {
    if |a| > 0 {
      StrLessIrreflexive(a[1..]);
    }
  }

  lemma {:induction false} StrLessTransitive(a: string, b: string, c: string)
    requires StrLess(a, b) && StrLess(b, c)
    ensures StrLess(a, c)
    decreases |a|
  {
    if |a| > 0 && |b| > 0 && |c| > 0 && a[0] == b[0] == c[0] {
      StrLessTransitive(a[1..], b[1..], c[1..]);
    }
  }

  lemma {:induction false} StrLessTotal(a: string, b: string)
    requires a != b
    ensures StrLess(a, b) || StrLess(b, a)
    decreases |a|
  {
    if |a| > 0 && |b| > 0 && a[0] == b[0] {
      assert a == [a[0]] + a[1..] && b == [b[0]] + b[1..];
      StrLessTotal(a[1..], b[1..]);
    }
  }

  lemma {:induction false} StrLessAsymmetric(a: string, b: string)
    requires StrLess(a, b)
    ensures !StrLess(b, a)
    decreases |a|
  {
    if |a| > 0 && |b| > 0 && a[0] == b[0] {
      StrLessAsymmetric(a[1..], b[1..]);
    }
  }
}
