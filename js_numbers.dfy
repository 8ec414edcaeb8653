/**
 * The part of JavaScript's number semantics the duration pipeline touches:
 * integers or NaN, the arithmetic on them, `String(x)`, `Number(s)` as
 * acceptance test (whether it yields NaN) and `parseInt(s)` without radix.
 */
module JsNumbers {

  import opened Chars
  import opened Decimal

  /** A JavaScript number as the pipeline produces it: an integer or NaN. */
  datatype Num = Int(value: int) | NaN

  /** `a + b`; NaN is absorbing. */
  function Add(a: Num, b: Num): (r: Num)
    ensures r.Int? <==> a.Int? && b.Int?
  {
    if a.Int? && b.Int? then Int(a.value + b.value) else NaN
  }

  /** `a - b`; NaN is absorbing. */
  function Sub(a: Num, b: Num): (r: Num)
    ensures r.Int? <==> a.Int? && b.Int?
  {
    if a.Int? && b.Int? then Int(a.value - b.value) else NaN
  }

  /** `a * b`; NaN is absorbing. */
  function Mul(a: Num, b: Num): (r: Num)
    ensures r.Int? <==> a.Int? && b.Int?
  {
    if a.Int? && b.Int? then Int(a.value * b.value) else NaN
  }

  /** `-a` */
  function Negate(a: Num): (r: Num)
    ensures r.Int? <==> a.Int?
  {
    if a.Int? then Int(-a.value) else NaN
  }

  /** `String(x)`, also what a template literal `${x}` inserts. */
  function ToString(x: Num): string {
    match x
    case Int(n) => IntToString(n)
    case NaN => "NaN"
  }

  /*
   * Number(s) is NaN exactly when s, with white space removed at both ends,
   * is neither empty nor a StringNumericLiteral (section 7.1.4.1 of ECMA-262).
   */

  /** `!isNaN(Number(s))` for a string s. */
  predicate IsNumericString(s: string) {
    var t := TrimEnd(TrimStart(s));
    t == [] || IsNonDecimalIntegerLiteral(t) || IsStrDecimalLiteral(t)
  }

  predicate AllRadixDigits(s: string, radix: nat) {
    forall i | 0 <= i < |s| :: DigitValue(s[i]) < radix
  }

  /** `0x1F`, `0o17`, `0b11` and their upper-case prefixes. */
  predicate IsNonDecimalIntegerLiteral(t: string) {
    |t| >= 3 && t[0] == '0'
    && ((t[1] in "xX" && AllRadixDigits(t[2..], 16))
        || (t[1] in "oO" && AllRadixDigits(t[2..], 8))
        || (t[1] in "bB" && AllRadixDigits(t[2..], 2)))
  }

  /** An optional sign before an unsigned decimal literal. */
  predicate IsStrDecimalLiteral(t: string) {
    if t != [] && (t[0] == '+' || t[0] == '-') then IsStrUnsignedDecimalLiteral(t[1..])
    else IsStrUnsignedDecimalLiteral(t)
  }

  /** `Infinity`, or a mantissa followed by an optional exponent. */
  predicate IsStrUnsignedDecimalLiteral(u: string) {
    u == "Infinity" || (var e := ExponentIndex(u); IsMantissa(u[..e]) && IsExponentPart(u[e..]))
  }

  /** `12`, `12.`, `12.5` or `.5`: digits with at most one point and at least one digit. */
  predicate IsMantissa(m: string) {
    var d := LeadingDigitCount(m, 10);
    var rest := m[d..];
    (rest == [] && d > 0)
    || (rest != [] && rest[0] == '.' && AllDigits(rest[1..]) && (d > 0 || |rest| > 1))
  }

  /** Nothing, or `e`/`E`, an optional sign and at least one digit. */
  predicate IsExponentPart(x: string) {
    x == []
    || (x[0] in "eE"
        && var y := x[1..];
           var z := if y != [] && (y[0] == '+' || y[0] == '-') then y[1..] else y;
           z != [] && AllDigits(z))
  }

  /**
   * `parseInt(s)` (section 19.2.5 of ECMA-262): skip leading white space, take
   * an optional sign, read radix 16 after `0x`/`0X` and radix 10 otherwise, and
   * convert the longest run of digits that follows; NaN when that run is empty.
   */
  function ParseInt(s: string): Num {
    ParseSigned(TrimStart(s))
  }

  function ParseSigned(t: string): Num {
    if t != [] && t[0] == '-' then Negate(ParseUnsigned(t[1..]))
    else if t != [] && t[0] == '+' then ParseUnsigned(t[1..])
    else ParseUnsigned(t)
  }

  function ParseUnsigned(u: string): Num {
    if |u| >= 2 && u[0] == '0' && (u[1] == 'x' || u[1] == 'X') then ParseDigits(u[2..], 16)
    else ParseDigits(u, 10)
  }

  /** The value of the longest prefix of v made of digits of the radix; NaN when it is empty. */
  function ParseDigits(v: string, radix: nat): Num {
    var z := v[..LeadingDigitCount(v, radix)];
    if z == [] then NaN else Int(DigitsValue(z, radix))
  }

  /** A digit string is left alone by trimming. */
  lemma TrimDigits(s: string)
    requires s != [] && AllDigits(s)
    ensures TrimStart(s) == s && TrimEnd(s) == s
  {
    assert !IsJsWhiteSpace(s[0]) && !IsJsWhiteSpace(s[|s| - 1]);
  }

  /** Every non-empty digit string is a numeral for `Number()`. */
  lemma DigitsAreNumeric(s: string)
    requires s != [] && AllDigits(s)
    ensures IsNumericString(s)
  {
    TrimDigits(s);
    DigitsHaveNoExponent(s);
    DigitsAreLeadingDigits(s);
    assert s[..|s|] == s;
  }

  /** `Number("")` is 0, not NaN: the empty string passes the numeric test. */
  lemma EmptyIsNumeric()
    ensures IsNumericString("")
  {
  }

  /** A string that starts with '#', such as a date header, is not a numeral. */
  lemma HashIsNotNumeric(s: string)
    requires s != [] && s[0] == '#'
    ensures !IsNumericString(s)
  {
    assert TrimStart(s) == s;
    assert !IsJsWhiteSpace(s[0]);
    var t := TrimEnd(s);
    TrimEndKeepsStart(s);
    assert t[0] == '#';
    var e := ExponentIndex(t);
    assert e > 0;
    assert t[..e][0] == '#';
    assert LeadingDigitCount(t[..e], 10) == 0;
  }

  lemma ParseUnsignedOfDigits(z: string)
    requires z != [] && AllDigits(z)
    ensures ParseUnsigned(z) == Int(DigitsValue(z, 10))
  {
    assert |z| >= 2 ==> IsDigit(z[1]);
    DigitsAreLeadingDigits(z);
    assert z[..|z|] == z;
  }

  /** `parseInt` of a non-empty digit string is its decimal value. */
  lemma ParseIntOfDigits(z: string)
    requires z != [] && AllDigits(z)
    ensures ParseInt(z) == Int(DigitsValue(z, 10))
  {
    TrimDigits(z);
    assert z[0] != '-' && z[0] != '+';
    ParseUnsignedOfDigits(z);
  }

  /** `parseInt` of a minus sign before a non-empty digit string is the negated value. */
  lemma ParseIntOfNegatedDigits(z: string)
    requires z != [] && AllDigits(z)
    ensures ParseInt("-" + z) == Int(-(DigitsValue(z, 10) as int))
  {
    var s := "-" + z;
    assert s[0] == '-' && s[1..] == z;
    assert TrimStart(s) == s;
    ParseUnsignedOfDigits(z);
    assert ParseSigned(s) == Negate(ParseUnsigned(z));
  }

  /** `parseInt` of the empty string is NaN. */
  lemma ParseIntOfEmpty()
    ensures ParseInt("") == NaN
  {
  }

  /** `parseInt(String(n)) === n` for every integer n: the rendered number reads back. */
  lemma ParseIntOfToString(n: int)
    ensures ParseInt(ToString(Int(n))) == Int(n)
  {
    if n < 0 {
      var d := NatToString(-n);
      assert ToString(Int(n)) == "-" + d;
      ParseIntOfNegatedDigits(d);
      NatToStringRoundTrip(-n);
    } else {
      var d := NatToString(n);
      assert ToString(Int(n)) == d;
      ParseIntOfDigits(d);
      NatToStringRoundTrip(n);
    }
  }
}
