/**
 * Character classes and string slicing with the meaning JavaScript gives them.
 * A string is a sequence of characters; see README for how this differs from
 * JavaScript's UTF-16 code units.
 */
module Chars {

  /** An ASCII decimal digit: the class `[0-9]` of a JavaScript regular expression. */
  predicate IsDigit(c: char) {
    '0' <= c <= '9'
  }

  predicate AllDigits(s: string) {
    forall i | 0 <= i < |s| :: IsDigit(s[i])
  }

  /**
   * The WhiteSpace and LineTerminator code points of ECMA-262 (sections 12.2
   * and 12.3): the characters that `Number()` ignores around a numeral and that
   * `parseInt()` skips at the start. The Zs category is that of Unicode 15.
   */
  predicate IsJsWhiteSpace(c: char) {
    c == '\t' || c == '\U{000B}' || c == '\U{000C}' || c == ' ' || c == '\U{00A0}'
    || c == '\U{1680}' || ('\U{2000}' <= c <= '\U{200A}') || c == '\U{202F}'
    || c == '\U{205F}' || c == '\U{3000}' || c == '\U{FEFF}'
    || c == '\n' || c == '\r' || c == '\U{2028}' || c == '\U{2029}'
  }

  /** The value of c as a digit of a radix up to 36 (0-9, then a-z or A-Z); 36 if c is no such digit. */
  function DigitValue(c: char): (v: nat)
    ensures v <= 36
    ensures v < 10 <==> IsDigit(c)
  {
    if '0' <= c <= '9' then c as int - '0' as int
    else if 'a' <= c <= 'z' then c as int - 'a' as int + 10
    else if 'A' <= c <= 'Z' then c as int - 'A' as int + 10
    else 36
  }

  /** The length of the longest prefix of s made of digits of the given radix. */
  function LeadingDigitCount(s: string, radix: nat): (k: nat)
    ensures k <= |s|
  {
    if s == [] || DigitValue(s[0]) >= radix then 0 else 1 + LeadingDigitCount(s[1..], radix)
  }

  /** The length of the longest suffix of s made of decimal digits. */
  function TrailingDigitCount(s: string): (k: nat)
    ensures k <= |s|
  {
    if s == [] || !IsDigit(s[|s| - 1]) then 0 else 1 + TrailingDigitCount(s[..|s| - 1])
  }

  /** The index of the first 'e' or 'E' in s, or |s| when there is none. */
  function ExponentIndex(s: string): (k: nat)
    ensures k <= |s|
  {
    if s == [] || s[0] == 'e' || s[0] == 'E' then 0 else 1 + ExponentIndex(s[1..])
  }

  /** s without its leading white space, as `String.prototype.trimStart` gives it. */
  function TrimStart(s: string): (r: string)
    ensures |r| <= |s|
  {
    if s != [] && IsJsWhiteSpace(s[0]) then TrimStart(s[1..]) else s
  }

  /** s without its trailing white space, as `String.prototype.trimEnd` gives it. */
  function TrimEnd(s: string): (r: string)
    ensures |r| <= |s|
  {
    if s != [] && IsJsWhiteSpace(s[|s| - 1]) then TrimEnd(s[..|s| - 1]) else s
  }

  /** The leading run of radix digits ends at the first character that is no such digit. */
  lemma {:induction false} LeadingDigitCountSpec(s: string, radix: nat)
    ensures var k := LeadingDigitCount(s, radix);
            (forall i | 0 <= i < k :: DigitValue(s[i]) < radix)
            && (k < |s| ==> DigitValue(s[k]) >= radix)
  {
    if s != [] && DigitValue(s[0]) < radix {
      LeadingDigitCountSpec(s[1..], radix);
    }
  }

  /** The trailing run of digits starts just after the last character that is no digit. */
  lemma {:induction false} TrailingDigitCountSpec(s: string)
    ensures var k := TrailingDigitCount(s);
            (forall i | |s| - k <= i < |s| :: IsDigit(s[i]))
            && (k < |s| ==> !IsDigit(s[|s| - 1 - k]))
  {
    if s != [] && IsDigit(s[|s| - 1]) {
      var init := s[..|s| - 1];
      TrailingDigitCountSpec(init);
      assert forall i | 0 <= i < |init| :: init[i] == s[i];
    }
  }

  /** A string of ASCII digits is one leading run of decimal digits. */
  lemma {:induction false} DigitsAreLeadingDigits(s: string)
    requires AllDigits(s)
    ensures LeadingDigitCount(s, 10) == |s|
  {
    if s != [] {
      assert IsDigit(s[0]);
      DigitsAreLeadingDigits(s[1..]);
    }
  }

  /** A string of ASCII digits holds no exponent marker. */
  lemma {:induction false} DigitsHaveNoExponent(s: string)
    requires AllDigits(s)
    ensures ExponentIndex(s) == |s|
  {
    if s != [] {
      assert IsDigit(s[0]);
      DigitsHaveNoExponent(s[1..]);
    }
  }

  /** Trimming the end keeps a prefix, and keeps at least the first character when that is no white space. */
  lemma {:induction false} TrimEndKeepsStart(s: string)
    ensures TrimEnd(s) == s[..|TrimEnd(s)|]
    ensures s != [] && !IsJsWhiteSpace(s[0]) ==> TrimEnd(s) != []
  {
    if s != [] && IsJsWhiteSpace(s[|s| - 1]) {
      var init := s[..|s| - 1];
      TrimEndKeepsStart(init);
      assert init[..|TrimEnd(init)|] == s[..|TrimEnd(init)|];
      if |s| > 1 {
        assert init[0] == s[0];
      }
    }
  }

  /** `s.substring(start, end)`: both bounds clamped to the length, swapped when start > end. */
  function Substring(s: string, start: nat, end: nat): (r: string)
    ensures |r| <= |s|
    ensures start <= end ==> r == s[Min(start, |s|)..Min(end, |s|)]
  {
    var a := Min(start, |s|);
    var b := Min(end, |s|);
    if a <= b then s[a..b] else s[b..a]
  }

  /** `substring` does not care in which order its bounds are given. */
  lemma SubstringIgnoresBoundOrder(s: string, a: nat, b: nat)
    ensures Substring(s, a, b) == Substring(s, b, a)
  {
  }

  /** For ordered bounds, the text before, the substring and the text after make up s again. */
  lemma SubstringSplits(s: string, a: nat, b: nat)
    requires a <= b
    ensures s[..Min(a, |s|)] + Substring(s, a, b) + s[Min(b, |s|)..] == s
  {
    var i, j := Min(a, |s|), Min(b, |s|);
    assert s[..i] + s[i..j] == s[..j];
    assert s[..j] + s[j..] == s;
  }

  /** `s.substring(start)` */
  function SubstringFrom(s: string, start: nat): (r: string)
    ensures r == s[Min(start, |s|)..]
  {
    Substring(s, start, |s|)
  }

  function Min(a: nat, b: nat): nat {
    if a <= b then a else b
  }
}
