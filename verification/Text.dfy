/** Textual forms of numbers as they travel through Redis: digits in a base, integers,
    and floating-point numbers, with parsers in the manner of Python's int() and float(). */
module Text {

  datatype Option<+T> = None | Some(value: T)

  function Pow(base: nat, width: nat): nat {
    if width == 0 then 1 else base * Pow(base, width - 1)
  }

  function DigitChar(d: nat): (c: char)
    requires d < 16
    ensures c != '-' && c != '+' && c != '.' && c != ':' && !IsSpace(c)
  {
    if d < 10 then '0' + d as char else 'a' + (d - 10) as char
  }

  predicate IsSpace(c: char) {
    c == ' ' || '\t' <= c <= '\r' || '\U{1c}' <= c <= '\U{1f}'
  }

  /** The value of a digit; letters of either case count from ten. */
  function DigitValue(c: char, base: nat): (r: Option<nat>)
    ensures r.Some? ==> r.value < base
  {
    var v := if '0' <= c <= '9' then (c - '0') as nat
             else if 'a' <= c <= 'f' then 10 + (c - 'a') as nat
             else if 'A' <= c <= 'F' then 10 + (c - 'A') as nat
             else base;
    if v < base then Some(v) else None
  }

  lemma DigitValueInvertsDigitChar(d: nat, base: nat)
    requires d < base <= 16
    ensures DigitValue(DigitChar(d), base) == Some(d)
  {
  }

  /** The number a string of digits denotes; None when some character is not a digit. */
  function DigitsValue(s: string, base: nat): Option<nat> {
    if s == "" then Some(0)
    else
      match (DigitsValue(s[..|s| - 1], base), DigitValue(s[|s| - 1], base))
      case (Some(high), Some(low)) => Some(high * base + low)
      case _ => None
  }

  /** Exactly `width` digits, most significant first. */
  function Padded(n: nat, base: nat, width: nat): (s: string)
    requires 2 <= base <= 16
    ensures |s| == width
  {
    if width == 0 then "" else Padded(n / base, base, width - 1) + [DigitChar(n % base)]
  }

  /** Decimal digits without leading zeros. */
  function NatText(n: nat): (s: string)
    ensures |s| > 0
  {
    if n < 10 then [DigitChar(n)] else NatText(n / 10) + [DigitChar(n % 10)]
  }

  predicate Plain(s: string) {
    forall c :: c in s ==> c != '-' && c != '+' && c != '.' && c != ':' && !IsSpace(c)
  }

  lemma {:induction false} PaddedReadsBack(n: nat, base: nat, width: nat)
    requires 2 <= base <= 16 && n < Pow(base, width)
    ensures DigitsValue(Padded(n, base, width), base) == Some(n)
    ensures Plain(Padded(n, base, width))
    decreases width
  {
    if width > 0 {
      var high, low := SplitDigit(n, base, Pow(base, width - 1));
      PaddedReadsBack(high, base, width - 1);
      LastDigit(Padded(high, base, width - 1), low, base);
    }
  }

  lemma SplitDigit(n: nat, base: nat, bound: nat) returns (high: nat, low: nat)
    requires base > 0 && n < base * bound
    ensures high == n / base && low == n % base
    ensures high < bound && low < base
    ensures high * base + low == n
  {
    high, low := n / base, n % base;
    DivMod(n, base, bound);
  }

  lemma LastDigit(s: string, low: nat, base: nat)
    requires low < base <= 16 && DigitsValue(s, base).Some?
    ensures DigitsValue(s + [DigitChar(low)], base) == Some(DigitsValue(s, base).value * base + low)
  {
    DigitValueInvertsDigitChar(low, base);
    assert (s + [DigitChar(low)])[..|s|] == s;
  }

  lemma DivMod(n: nat, base: nat, bound: nat)
    requires base > 0 && n < base * bound
    ensures n / base < bound
    ensures (n / base) * base + n % base == n
  {
    Cancel(base, n / base, bound);
  }

  lemma Cancel(base: nat, x: nat, y: nat)
    requires base > 0 && base * x < base * y
    ensures x < y
  {
  }

  lemma {:induction false} NatTextReadsBack(n: nat)
    ensures DigitsValue(NatText(n), 10) == Some(n)
    ensures Plain(NatText(n))
  {
    DigitValueInvertsDigitChar(n % 10, 10);
    if n < 10 {
      assert NatText(n)[..0] == "";
    } else {
      NatTextReadsBack(n / 10);
      assert NatText(n)[..|NatText(n)| - 1] == NatText(n / 10);
    }
  }

  // ----- Whitespace, signs and separators

  function StripLeft(s: string): string {
    if s != "" && IsSpace(s[0]) then StripLeft(s[1..]) else s
  }

  function StripRight(s: string): string {
    if s != "" && IsSpace(s[|s| - 1]) then StripRight(s[..|s| - 1]) else s
  }

  function Strip(s: string): string { StripRight(StripLeft(s)) }

  /** `not (val and val.strip())` for a present value. */
  predicate Blank(s: string) { Strip(s) == "" }

  /** Everything before the first occurrence of c: `s.split(c)[0]`. */
  function Before(s: string, c: char): string {
    if s == "" || s[0] == c then "" else [s[0]] + Before(s[1..], c)
  }

  lemma {:induction false} BeforeSeparator(a: string, c: char, b: string)
    requires c !in a
    ensures Before(a + [c] + b, c) == a
  {
    var s := a + [c] + b;
    if a == "" {
      assert s[0] == c;
    } else {
      assert s[1..] == a[1..] + [c] + b;
      BeforeSeparator(a[1..], c, b);
    }
  }

  lemma BeforeIsPrefix(s: string, c: char)
    ensures Before(s, c) <= s && c !in Before(s, c)
  {
    if s != "" && s[0] != c { BeforeIsPrefix(s[1..], c); }
  }

  // ----- Integers

  function Signed(negative: bool, body: string): string {
    (if negative then "-" else "") + body
  }

  function IntText(v: int): string {
    if v < 0 then Signed(true, NatText(-v)) else Signed(false, NatText(v))
  }

  /** Sign and magnitude text of a stripped numeral. */
  function Unsigned(s: string): (r: (bool, string)) {
    if s != "" && s[0] == '-' then (true, s[1..])
    else if s != "" && s[0] == '+' then (false, s[1..])
    else (false, s)
  }

  /** `int(val)`: None stands for the ValueError. */
  function ParseInt(s: string): Option<int> {
    var (negative, digits) := Unsigned(Strip(s));
    if digits == "" then None
    else
      match DigitsValue(digits, 10)
      case None => None
      case Some(n) => var v: int := n; Some(if negative then -v else v)
  }

  lemma StripSolid(s: string)
    requires s != "" && !IsSpace(s[0]) && !IsSpace(s[|s| - 1])
    ensures Strip(s) == s && !Blank(s)
  {
  }

  lemma SignedReadsBack(negative: bool, body: string)
    requires body != "" && !IsSpace(body[0]) && body[0] != '-' && body[0] != '+' && !IsSpace(body[|body| - 1])
    ensures var text := Signed(negative, body);
      Strip(text) == text && !Blank(text) && Unsigned(text) == (negative, body)
  {
    var text := Signed(negative, body);
    assert negative ==> text[1..] == body;
    assert !negative ==> text == body;
    StripSolid(text);
  }

  lemma IntTextReadsBack(v: int)
    ensures ParseInt(IntText(v)) == Some(v)
    ensures !Blank(IntText(v))
  {
    var digits := NatText(if v < 0 then -v else v);
    NatTextReadsBack(if v < 0 then -v else v);
    assert digits[0] in digits && digits[|digits| - 1] in digits;
    SignedReadsBack(v < 0, digits);
  }

  // ----- Floating-point numbers

  /** A finite float as repr() sees it: a sign and the shortest digits that identify it, times a power of ten. */
  datatype Number = Number(negative: bool, digits: nat, exponent: int) {
    /** No trailing zeros; both zeros have exponent zero. */
    predicate Normal() { if digits == 0 then exponent == 0 else digits % 10 != 0 }
  }

  type Decimal = v: Number | v.Normal() witness Number(false, 0, 0)

  function Ten(e: int): (r: real)
    ensures r > 0.0
    decreases if e < 0 then -e else e
  {
    if e == 0 then 1.0 else if e > 0 then 10.0 * Ten(e - 1) else Ten(e + 1) / 10.0
  }

  function Scaled(n: nat, e: int): real { n as real * Ten(e) }

  function Negated(negative: bool, x: real): real { if negative then -x else x }

  function ToReal(v: Number): real { Negated(v.negative, Scaled(v.digits, v.exponent)) }

  function Zeros(n: nat): (s: string)
    ensures |s| == n && forall c :: c in s ==> c == '0'
  {
    seq(n, _ => '0')
  }

  function Pointed(whole: string, rest: string): string { whole + "." + rest }

  /** Digits with the decimal point after the given number of them. */
  function Positional(s: string, point: int): string
    requires s != ""
  {
    if point <= 0 then Pointed("0", Zeros(-point) + s)
    else if point >= |s| then Pointed(s + Zeros(point - |s|), "0")
    else Pointed(s[..point], s[point..])
  }

  /** At least two digits. */
  function ExponentText(n: nat): string { if n < 10 then "0" + NatText(n) else NatText(n) }

  function ExponentTail(e: int): string { (if e < 0 then "-" else "+") + ExponentText(if e < 0 then -e else e) }

  function Scientific(s: string, e: int): string
    requires s != ""
  {
    (if |s| == 1 then s else s[..1] + "." + s[1..])
    + "e" + ExponentTail(e)
  }

  /** Magnitudes from 1e-4 up to 1e16 are written without an exponent. */
  function MagnitudeText(n: nat, e: int): string {
    var s := NatText(n);
    var point := |s| + e;
    if -4 < point <= 16 then Positional(s, point) else Scientific(s, point - 1)
  }

  /** `repr()` of a finite float. */
  function FloatText(v: Decimal): string { Signed(v.negative, MagnitudeText(v.digits, v.exponent)) }

  function ParseExponent(s: string): Option<int> {
    var (negative, digits) := Unsigned(s);
    if digits == "" then None
    else
      match DigitsValue(digits, 10)
      case None => None
      case Some(n) => var v: int := n; Some(if negative then -v else v)
  }

  /** The digits before and after the decimal point. */
  function Parts(mantissa: string): (string, string) {
    BeforeIsPrefix(mantissa, '.');
    var whole := Before(mantissa, '.');
    (whole, if |whole| == |mantissa| then "" else mantissa[|whole| + 1..])
  }

  /** Digits with an optional point, then an optional exponent. */
  function ParseMagnitude(body: string): Option<real> {
    BeforeIsPrefix(body, 'e');
    var mantissa := Before(body, 'e');
    var exponent := if |mantissa| == |body| then Some(0) else ParseExponent(body[|mantissa| + 1..]);
    var (whole, rest) := Parts(mantissa);
    match (DigitsValue(whole + rest, 10), exponent)
    case (Some(n), Some(e)) => if whole + rest == "" then None else Some(Scaled(n, e - |rest|))
    case _ => None
  }

  /** `float(val)` on decimal numerals: None stands for the ValueError. */
  function ParseFloat(s: string): Option<real> {
    var (negative, body) := Unsigned(Strip(s));
    match ParseMagnitude(body)
    case None => None
    case Some(x) => Some(Negated(negative, x))
  }

  // ----- Digits

  predicate AllDigits(s: string) { forall c :: c in s ==> '0' <= c <= '9' }

  lemma {:induction false} NatTextDigits(n: nat)
    ensures AllDigits(NatText(n))
  {
    if n >= 10 { NatTextDigits(n / 10); }
  }

  /** Appending digits shifts the number and adds theirs. */
  predicate Shifts(a: string, b: string)
    requires DigitsValue(a, 10).Some? && DigitsValue(b, 10).Some?
  {
    DigitsValue(a + b, 10) == Some(DigitsValue(a, 10).value * Pow(10, |b|) + DigitsValue(b, 10).value)
  }

  lemma {:induction false} DigitsConcat(a: string, b: string)
    requires DigitsValue(a, 10).Some? && DigitsValue(b, 10).Some?
    ensures Shifts(a, b)
  {
    if b == "" {
      assert a + b == a;
    } else {
      hide Shifts, DigitValue;
      var init, last := b[..|b| - 1], b[|b| - 1];
      assert b == init + [last];
      OneMoreDigit(init, last);
      DigitsConcat(a, init);
      ShiftsOnce(a, init, last);
    }
  }

  lemma ShiftsOnce(a: string, b: string, c: char)
    requires DigitsValue(a, 10).Some? && DigitsValue(b, 10).Some? && DigitsValue(b + [c], 10).Some? && Shifts(a, b)
    ensures Shifts(a, b + [c])
  {
    hide DigitsValue, DigitValue;
    OneMoreDigit(b, c);
    OneMoreDigit(a + b, c);
    assert a + (b + [c]) == a + b + [c];
    Distribute(DigitsValue(a, 10).value, Pow(10, |b|), DigitsValue(b, 10).value);
  }

  lemma OneMoreDigit(s: string, c: char)
    ensures DigitsValue(s + [c], 10).Some? <==> DigitsValue(s, 10).Some? && DigitValue(c, 10).Some?
    ensures DigitsValue(s + [c], 10).Some? ==>
      DigitsValue(s + [c], 10).value == DigitsValue(s, 10).value * 10 + DigitValue(c, 10).value
  {
    hide DigitValue;
    assert (s + [c])[..|s|] == s;
  }

  lemma Distribute(a: nat, p: nat, b: nat)
    ensures (a * p + b) * 10 == a * (10 * p) + b * 10
  {
  }

  lemma {:induction false} ZerosAreZero(n: nat)
    ensures DigitsValue(Zeros(n), 10) == Some(0)
  {
    if n > 0 {
      ZerosAreZero(n - 1);
      assert Zeros(n)[..n - 1] == Zeros(n - 1);
    }
  }

  lemma LeadingZeros(n: nat, s: string)
    requires DigitsValue(s, 10).Some?
    ensures DigitsValue("0" + (Zeros(n) + s), 10) == DigitsValue(s, 10)
  {
    hide DigitsValue, Pow;
    assert "0" + (Zeros(n) + s) == Zeros(n + 1) + s;
    ZerosAreZero(n + 1);
    DigitsConcat(Zeros(n + 1), s);
  }

  lemma TrailingZeros(s: string, n: nat)
    requires DigitsValue(s, 10).Some?
    ensures DigitsValue((s + Zeros(n)) + "0", 10) == Some(DigitsValue(s, 10).value * Pow(10, n + 1))
  {
    hide DigitsValue, Pow;
    assert (s + Zeros(n)) + "0" == s + Zeros(n + 1);
    ZerosAreZero(n + 1);
    DigitsConcat(s, Zeros(n + 1));
  }

  // ----- Powers of ten

  lemma TenUp(e: int)
    ensures Ten(e + 1) == 10.0 * Ten(e)
  {
  }

  lemma {:induction false} ScaledUp(n: nat, k: nat, e: int)
    ensures Scaled(n * Pow(10, k), e) == Scaled(n, e + k)
  {
    if k > 0 {
      ScaledUp(n, k - 1, e);
      ScaledOnce(n * Pow(10, k - 1), n, e, e + k - 1);
      TenTimes(n, Pow(10, k - 1));
    } else {
      assert n * Pow(10, 0) == n;
    }
  }

  lemma ScaledOnce(m: nat, n: nat, d: int, e: int)
    requires Scaled(m, d) == Scaled(n, e)
    ensures Scaled(10 * m, d) == Scaled(n, e + 1)
  {
    hide Ten;
    TenUp(e);
    ScaleByTen(m, Ten(d), n, Ten(e));
  }

  lemma TenTimes(n: nat, p: nat)
    ensures n * (10 * p) == 10 * (n * p)
  {
  }

  lemma ScaleByTen(m: nat, x: real, n: nat, y: real)
    requires m as real * x == n as real * y
    ensures (10 * m) as real * x == n as real * (10.0 * y)
  {
    assert (10 * m) as real == 10.0 * m as real;
    assert (10.0 * m as real) * x == 10.0 * (m as real * x);
    assert n as real * (10.0 * y) == 10.0 * (n as real * y);
  }

  // ----- float(repr(x)) == x

  /** What a numeral is made of. */
  predicate Numeral(s: string) {
    forall c :: c in s ==> '0' <= c <= '9' || c == '.' || c == 'e' || c == '+' || c == '-'
  }

  /** What there is to know of a magnitude's text: it parses, and it begins with a digit. */
  predicate WellFormed(body: string, x: real) {
    ParseMagnitude(body) == Some(x) && Numeral(body) && body != "" && '0' <= body[0] <= '9'
  }

  lemma NumeralEdges(body: string)
    requires Numeral(body) && body != "" && '0' <= body[0] <= '9'
    ensures !IsSpace(body[0]) && body[0] != '-' && body[0] != '+' && !IsSpace(body[|body| - 1]) && ':' !in body
  {
    assert body[|body| - 1] in body;
  }

  lemma {:induction false} BeforeWhole(s: string, c: char)
    requires c !in s
    ensures Before(s, c) == s
  {
    if s != "" { BeforeWhole(s[1..], c); }
  }

  lemma PartsOf(whole: string, rest: string)
    requires AllDigits(whole)
    ensures Parts(whole) == (whole, "") && Parts(whole + "." + rest) == (whole, rest)
  {
    BeforeWhole(whole, '.');
    BeforeSeparator(whole, '.', rest);
    assert (whole + "." + rest)[|whole| + 1..] == rest;
  }

  lemma PointParses(whole: string, rest: string, n: nat)
    requires AllDigits(whole) && AllDigits(rest) && whole != "" && rest != ""
    requires DigitsValue(whole + rest, 10) == Some(n)
    ensures WellFormed(Pointed(whole, rest), Scaled(n, -|rest|))
  {
    hide DigitsValue, Scaled, Parts, Before;
    var body := Pointed(whole, rest);
    BeforeWhole(body, 'e');
    PartsOf(whole, rest);
    assert whole[0] in whole;
  }

  lemma PositionalParses(s: string, n: nat, e: int)
    requires s != "" && AllDigits(s) && DigitsValue(s, 10) == Some(n)
    ensures WellFormed(Positional(s, |s| + e), Scaled(n, e))
  {
    hide DigitsValue, Scaled, WellFormed, AllDigits, Zeros, Pointed;
    if |s| + e <= 0 {
      SmallParses(s, n, -(|s| + e));
      assert -(-(|s| + e) + |s|) == e;
    } else if e >= 0 {
      LargeParses(s, n, e);
    } else {
      SplitParses(s, n, |s| + e);
    }
  }

  lemma SmallParses(s: string, n: nat, zeros: nat)
    requires s != "" && AllDigits(s) && DigitsValue(s, 10) == Some(n)
    ensures WellFormed(Pointed("0", Zeros(zeros) + s), Scaled(n, -(zeros + |s|)))
  {
    hide DigitsValue, Scaled, WellFormed;
    LeadingZeros(zeros, s);
    PointParses("0", Zeros(zeros) + s, n);
  }

  lemma LargeParses(s: string, n: nat, e: nat)
    requires s != "" && AllDigits(s) && DigitsValue(s, 10) == Some(n)
    ensures WellFormed(Pointed(s + Zeros(e), "0"), Scaled(n, e))
  {
    hide DigitsValue, Scaled, WellFormed, Pow;
    TrailingZeros(s, e);
    PointParses(s + Zeros(e), "0", n * Pow(10, e + 1));
    ScaledUp(n, e + 1, -1);
  }

  lemma SplitParses(s: string, n: nat, point: nat)
    requires 0 < point < |s| && AllDigits(s) && DigitsValue(s, 10) == Some(n)
    ensures WellFormed(Pointed(s[..point], s[point..]), Scaled(n, point - |s|))
  {
    hide DigitsValue, Scaled, WellFormed;
    assert s[..point] + s[point..] == s;
    SplitDigits(s, point);
    PointParses(s[..point], s[point..], n);
  }

  lemma SplitDigits(s: string, k: nat)
    requires k <= |s| && AllDigits(s)
    ensures AllDigits(s[..k]) && AllDigits(s[k..])
  {
    forall c | c in s[..k] || c in s[k..] ensures c in s { assert s == s[..k] + s[k..] && c in s[..k] + s[k..]; }
  }

  lemma ExponentTextReadsBack(m: nat)
    ensures DigitsValue(ExponentText(m), 10) == Some(m) && AllDigits(ExponentText(m)) && ExponentText(m) != ""
  {
    NatTextReadsBack(m);
    NatTextDigits(m);
    if m < 10 {
      assert "0" + (Zeros(0) + NatText(m)) == ExponentText(m);
      LeadingZeros(0, NatText(m));
    }
  }

  lemma ExponentReadsBack(e: int)
    ensures ParseExponent(ExponentTail(e)) == Some(e) && Numeral(ExponentTail(e))
  {
    hide DigitsValue, ExponentText;
    var m := if e < 0 then -e else e;
    ExponentTextReadsBack(m);
    assert ExponentTail(e)[1..] == ExponentText(m);
  }

  lemma ExponentParses(mantissa: string, whole: string, rest: string, n: nat, tail: string, e: int)
    requires AllDigits(whole) && AllDigits(rest) && whole != "" && DigitsValue(whole + rest, 10) == Some(n)
    requires mantissa == if rest == "" then whole else whole + "." + rest
    requires ParseExponent(tail) == Some(e) && Numeral(tail)
    ensures WellFormed(mantissa + "e" + tail, Scaled(n, e - |rest|))
  {
    hide DigitsValue, Scaled, ParseExponent, Parts, Before;
    var body := mantissa + "e" + tail;
    assert 'e' !in mantissa;
    BeforeSeparator(mantissa, 'e', tail);
    assert body[|mantissa| + 1..] == tail;
    PartsOf(whole, rest);
    assert whole[0] in whole && body[0] == whole[0];
  }

  lemma ScientificParses(s: string, n: nat, e: int)
    requires s != "" && AllDigits(s) && DigitsValue(s, 10) == Some(n)
    ensures WellFormed(Scientific(s, |s| + e - 1), Scaled(n, e))
  {
    hide DigitsValue, Scaled, WellFormed, ParseExponent, ExponentText;
    var x := |s| + e - 1;
    ExponentReadsBack(x);
    assert s[..1] + s[1..] == s;
    SplitDigits(s, 1);
    ExponentParses(if |s| == 1 then s else s[..1] + "." + s[1..], s[..1], s[1..], n, ExponentTail(x), x);
  }

  lemma MagnitudeParses(n: nat, e: int)
    ensures WellFormed(MagnitudeText(n, e), Scaled(n, e))
  {
    hide DigitsValue, Scaled, WellFormed, Positional, Scientific, AllDigits;
    NatTextReadsBack(n);
    NatTextDigits(n);
    PositionalParses(NatText(n), n, e);
    ScientificParses(NatText(n), n, e);
  }

  /** float(repr(x)) == x, and the text is never blank and never holds a colon. */
  lemma FloatTextReadsBack(v: Decimal)
    ensures ParseFloat(FloatText(v)) == Some(ToReal(v))
    ensures !Blank(FloatText(v))
    ensures ':' !in FloatText(v)
  {
    hide Scaled, ParseMagnitude, MagnitudeText, Strip, Unsigned;
    MagnitudeParses(v.digits, v.exponent);
    NumeralEdges(MagnitudeText(v.digits, v.exponent));
    SignedReadsBack(v.negative, MagnitudeText(v.digits, v.exponent));
  }

  // ----- The text determines the number

  lemma SameScale(a: nat, b: nat, x: real)
    requires x > 0.0 && a as real * x == b as real * x
    ensures a == b
  {
    var d := a as real - b as real;
    assert d * x == 0.0;
    assert d == 0.0;
  }

  lemma NotLonger(a: nat, d: int, b: nat, e: int)
    requires d < e && Scaled(a, d) == Scaled(b, e)
    ensures a % 10 == 0
  {
    hide Scaled;
    var k := e - d;
    ScaledUp(b, k, d);
    SameScaled(a, b * Pow(10, k), d);
    TenTimes(b, Pow(10, k - 1));
    assert b * Pow(10, k) == 10 * (b * Pow(10, k - 1));
  }

  lemma SameScaled(a: nat, b: nat, d: int)
    requires Scaled(a, d) == Scaled(b, d)
    ensures a == b
  {
    SameScale(a, b, Ten(d));
  }

  lemma NormalUnique(a: nat, d: int, b: nat, e: int)
    requires Number(false, a, d).Normal() && Number(false, b, e).Normal()
    requires Scaled(a, d) == Scaled(b, e)
    ensures a == b && d == e
  {
    hide Ten;
    if a == 0 || b == 0 {
      ZeroIsZero(a, d);
      ZeroIsZero(b, e);
    } else if d < e {
      NotLonger(a, d, b, e);
    } else if e < d {
      NotLonger(b, e, a, d);
    } else {
      SameScaled(a, b, d);
    }
  }

  lemma ZeroIsZero(a: nat, d: int)
    ensures Scaled(a, d) == 0.0 <==> a == 0
  {
    if a != 0 { SameScaleAsZero(a, Ten(d)); }
  }

  lemma SameScaleAsZero(a: nat, x: real)
    requires x > 0.0 && a > 0
    ensures a as real * x > 0.0
  {
  }

  /** The exact text determines the float, down to the sign of zero. */
  lemma FloatTextInjective(a: Decimal, b: Decimal)
    requires FloatText(a) == FloatText(b)
    ensures a == b
  {
    hide Scaled, ParseMagnitude, MagnitudeText, Number.Normal;
    MagnitudeParses(a.digits, a.exponent);
    MagnitudeParses(b.digits, b.exponent);
    var text, s, t := FloatText(a), MagnitudeText(a.digits, a.exponent), MagnitudeText(b.digits, b.exponent);
    assert (text[0] == '-') <==> a.negative;
    assert (text[0] == '-') <==> b.negative;
    assert s == t by {
      if a.negative { assert text[1..] == s && text[1..] == t; } else { assert text == s && text == t; }
    }
    assert Number(false, a.digits, a.exponent).Normal() && Number(false, b.digits, b.exponent).Normal() by {
      NormalIgnoresSign(a);
      NormalIgnoresSign(b);
    }
    NormalUnique(a.digits, a.exponent, b.digits, b.exponent);
  }

  lemma NormalIgnoresSign(v: Number)
    ensures v.Normal() <==> Number(false, v.digits, v.exponent).Normal()
  {
  }

  /** repr() around the turning points of its notation, as in Python. */
  lemma ReprExamples()
    ensures FloatText(Number(false, 15, -1)) == "1.5" && FloatText(Number(true, 25, -2)) == "-0.25"
    ensures FloatText(Number(false, 12, 1)) == "120.0"
    ensures FloatText(Number(false, 1, -4)) == "0.0001" && FloatText(Number(false, 1, -5)) == "1e-05"
    ensures FloatText(Number(false, 15, -6)) == "1.5e-05" && FloatText(Number(false, 1, 16)) == "1e+16"
  {
    hide NatText, Zeros, Padded;
    SmallNumerals();
    assert Positional("15", 1) == "1.5";
    assert "0" + "." + ("" + "25") == "0.25" && Signed(true, "0.25") == "-0.25";
    assert Positional("12", 3) == "120.0";
    assert Positional("1", -3) == "0.0001";
    assert Scientific("1", -5) == "1e-05";
    assert Scientific("15", -5) == "1.5e-05";
    assert Scientific("1", 16) == "1e+16";
  }

  lemma SmallNumerals()
    ensures NatText(1) == "1" && NatText(5) == "5" && NatText(12) == "12" && NatText(15) == "15" && NatText(16) == "16"
    ensures NatText(25) == "25" && Zeros(0) == "" && Zeros(1) == "0" && Zeros(3) == "000"
  {
  }

  /** What counts as digits: decimal digits and nothing else. */
  lemma {:induction false} DigitsExactly(s: string)
    ensures DigitsValue(s, 10).Some? <==> AllDigits(s)
  {
    if s != "" {
      var init, last := s[..|s| - 1], s[|s| - 1];
      assert s == init + [last];
      assert last in s && forall c :: c in s <==> c in init || c == last;
      DigitsExactly(init);
    }
  }

  /** A text is an integer exactly if, blanks around it and one sign aside, it is digits and not empty. */
  lemma IntegersExactly(s: string)
    ensures ParseInt(s) == None <==> Unsigned(Strip(s)).1 == "" || !AllDigits(Unsigned(Strip(s)).1)
  {
    DigitsExactly(Unsigned(Strip(s)).1);
  }

  /** A measurement is missing exactly if its text is whitespace: blanks, and the control characters 9 to 13 and 28 to
      31. */
  lemma BlankExactly(s: string)
    ensures Blank(s) <==> forall c :: c in s ==> c == ' ' || c as int in {9, 10, 11, 12, 13, 28, 29, 30, 31}
  {
    StripLeftKeeps(s);
    StripRightKeeps(StripLeft(s));
  }

  lemma {:induction false} StripLeftKeeps(s: string)
    ensures (forall c :: c in StripLeft(s) ==> IsSpace(c)) <==> (forall c :: c in s ==> IsSpace(c))
    ensures StripLeft(s) != "" ==> !IsSpace(StripLeft(s)[0])
  {
    if s != "" && IsSpace(s[0]) {
      assert s == [s[0]] + s[1..];
      StripLeftKeeps(s[1..]);
    }
  }

  lemma {:induction false} StripRightKeeps(s: string)
    ensures StripRight(s) == "" <==> forall c :: c in s ==> IsSpace(c)
  {
    if s != "" {
      var init, last := s[..|s| - 1], s[|s| - 1];
      assert s == init + [last];
      if IsSpace(last) { StripRightKeeps(init); } else { assert last in s; }
    }
  }

  /** str() of integers: no plus sign and no leading zeros. */
  lemma IntegerTexts(v: int)
    ensures v >= 0 ==> AllDigits(IntText(v)) && (v > 0 ==> IntText(v)[0] != '0')
    ensures v < 0 ==> IntText(v) == "-" + IntText(-v)
    ensures IntText(0) == "0" && IntText(42) == "42" && IntText(-7) == "-7"
  {
    NatTextDigits(if v < 0 then -v else v);
    if v > 0 { NoLeadingZero(v); }
    assert NatText(4) == "4";
  }

  lemma {:induction false} NoLeadingZero(n: nat)
    requires n > 0
    ensures NatText(n)[0] != '0'
  {
    if n >= 10 { NoLeadingZero(n / 10); }
  }
}
