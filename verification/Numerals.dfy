/** Numbers as text: digits in a base, integers, and finite decimals. */
module Numerals {
  import opened Options

  type Base = b: nat | b == 10 || b == 16 witness 10

  function DigitChar(d: nat): char
    requires d < 16
  {
    if d < 10 then ('0' as int + d) as char else ('A' as int + d - 10) as char
  }

  function DigitValue(c: char): nat {
    if '0' <= c <= '9' then c as int - '0' as int
    else if 'A' <= c <= 'F' then c as int - 'A' as int + 10
    else if 'a' <= c <= 'f' then c as int - 'a' as int + 10
    else 16
  }

  predicate AllDigits(s: string, base: Base) {
    forall c :: c in s ==> DigitValue(c) < base
  }

  function DigitsValue(s: string, base: Base): nat {
    if s == "" then 0 else DigitsValue(s[..|s| - 1], base) * base + DigitValue(s[|s| - 1])
  }

  function ParseNat(s: string, base: Base): Option<nat> {
    if s != "" && AllDigits(s, base) then Some(DigitsValue(s, base)) else None
  }

  function NatText(n: nat, base: Base): string {
    if n < base then [DigitChar(n)] else NatText(n / base, base) + [DigitChar(n % base)]
  }

  lemma DivMod(n: nat, base: Base)
    ensures n / base * base + n % base == n
  {}

  lemma {:induction false} NatTextParses(n: nat, base: Base)
    ensures ParseNat(NatText(n, base), base) == Some(n)
  {
    var s := NatText(n, base);
    if n < base {
      assert s[..0] == "";
      assert DigitsValue(s, base) == DigitValue(s[0]);
    } else {
      var init := NatText(n / base, base);
      NatTextParses(n / base, base);
      DivMod(n, base);
      assert s == init + [DigitChar(n % base)] && s[..|s| - 1] == init;
    }
  }

  /** Different numbers have different texts. */
  lemma NatTextInjective(m: nat, n: nat, base: Base)
    requires NatText(m, base) == NatText(n, base)
    ensures m == n
  {
    NatTextParses(m, base);
    NatTextParses(n, base);
  }

  function PadLeft(s: string, width: nat): string
    decreases width - |s|
  {
    if |s| < width then PadLeft("0" + s, width) else s
  }

  lemma {:induction false} LeadingZero(s: string, base: Base)
    ensures DigitsValue("0" + s, base) == DigitsValue(s, base)
    ensures AllDigits(s, base) ==> AllDigits("0" + s, base)
  {
    if s == "" {
      assert ("0" + s)[..0] == "";
    } else {
      LeadingZero(s[..|s| - 1], base);
      assert ("0" + s)[..|s|] == "0" + s[..|s| - 1];
    }
  }

  lemma {:induction false} PadLeftParses(s: string, width: nat, base: Base, n: nat)
    requires ParseNat(s, base) == Some(n)
    ensures ParseNat(PadLeft(s, width), base) == Some(n) && |PadLeft(s, width)| >= width
    decreases width - |s|
  {
    if |s| < width {
      LeadingZero(s, base);
      PadLeftParses("0" + s, width, base, n);
    }
  }

  // ----------------------------------------------------------------------
  // Integers

  predicate Signed(s: string) {
    s != "" && (s[0] == '-' || s[0] == '+')
  }

  function Unsigned(s: string): string {
    if Signed(s) then s[1..] else s
  }

  function WithSign(s: string, n: nat): int {
    if s != "" && s[0] == '-' then -(n as int) else n
  }

  function ParseInt(s: string, base: Base): Option<int> {
    match ParseNat(Unsigned(s), base)
    case Some(n) => Some(WithSign(s, n))
    case None => None
  }

  function IntText(n: int): string {
    if n < 0 then "-" + NatText(-n, 10) else NatText(n, 10)
  }

  lemma NatTextDigits(n: nat, base: Base)
    ensures NatText(n, base) != "" && AllDigits(NatText(n, base), base)
  {
    NatTextParses(n, base);
  }

  lemma IntTextParses(n: int)
    ensures ParseInt(IntText(n), 10) == Some(n)
  {
    var k: nat := if n < 0 then -n else n;
    NatTextParses(k, 10);
    NatTextDigits(k, 10);
    assert NatText(k, 10)[0] in NatText(k, 10);
    if n < 0 {
      assert IntText(n)[1..] == NatText(k, 10);
    }
  }

  // ----------------------------------------------------------------------
  // Decimals

  function Pow10(n: nat): nat {
    if n == 0 then 1 else 10 * Pow10(n - 1)
  }

  /** mantissa / 10^scale, in lowest terms. */
  datatype Decimal = Decimal(mantissa: int, scale: nat) {
    predicate Reduced() {
      scale == 0 || mantissa % 10 != 0
    }

    predicate Integral() {
      scale == 0
    }
  }

  function Reduce(mantissa: int, scale: nat): (d: Decimal)
    ensures d.Reduced()
    decreases scale
  {
    if scale > 0 && mantissa % 10 == 0 then Reduce(mantissa / 10, scale - 1) else Decimal(mantissa, scale)
  }

  /** 100 - d, as for the position of an inverted actuator. */
  function HundredMinus(d: Decimal): Decimal {
    Decimal(100 * Pow10(d.scale) - d.mantissa, d.scale)
  }

  lemma HundredMinusTwice(d: Decimal)
    ensures HundredMinus(HundredMinus(d)) == d
    ensures d.Reduced() ==> HundredMinus(d).Reduced()
  {
    if d.scale > 0 {
      assert Pow10(d.scale) == 10 * Pow10(d.scale - 1);
    }
  }

  /** The powers of ten. */
  lemma Pow10Is(n: nat)
    ensures Pow10(0) == 1 && Pow10(1) == 10 && Pow10(n + 1) == 10 * Pow10(n)
  {
    assert Pow10(1) == 10 * Pow10(0);
  }

  /** It is 100 - d in numbers: on one scale the two add up to 100. */
  lemma HundredMinusIs(d: Decimal)
    ensures HundredMinus(d).scale == d.scale && HundredMinus(d).mantissa + d.mantissa == 100 * Pow10(d.scale)
    ensures d.scale == 0 ==> HundredMinus(d) == Decimal(100 - d.mantissa, 0)
  {}

  /** Towards zero. */
  function Truncate(d: Decimal): int
    ensures d.scale == 0 ==> Truncate(d) == d.mantissa
  {
    Pow10Positive(d.scale);
    if d.mantissa < 0 then -(-d.mantissa / Pow10(d.scale)) else d.mantissa / Pow10(d.scale)
  }

  lemma {:induction false} Pow10Positive(n: nat)
    ensures Pow10(n) > 0
  {
    if n == 0 {
    } else {
      Pow10Positive(n - 1);
    }
  }

  /** The digits with a point before the last `scale` of them; an integral float shows one zero. */
  function DecimalText(d: Decimal): string {
    if d.Integral() then IntText(d.mantissa) + ".0"
    else
      var digits := PointDigits(d);
      (if d.mantissa < 0 then "-" else "") + digits[..|digits| - d.scale] + "." + digits[|digits| - d.scale..]
  }

  function PointDigits(d: Decimal): (s: string)
    ensures |s| > d.scale
  {
    var k: nat := if d.mantissa < 0 then -d.mantissa else d.mantissa;
    NatTextParses(k, 10);
    PadLeftParses(NatText(k, 10), d.scale + 1, 10, k);
    PadLeft(NatText(k, 10), d.scale + 1)
  }

  function PointAt(s: string): nat
    ensures PointAt(s) <= |s|
  {
    if s == "" || s[0] == '.' then 0 else 1 + PointAt(s[1..])
  }

  /** Positional notation with a point somewhere, or none. */
  function ParseDecimal(s: string): Option<Decimal> {
    var u := Unsigned(s);
    var p := PointAt(u);
    var whole, fraction := u[..p], if p == |u| then "" else u[p + 1..];
    match ParseNat(whole + fraction, 10)
    case Some(n) => Some(Reduce(WithSign(s, n), |fraction|))
    case None => None
  }

  lemma {:induction false} PointFound(whole: string, rest: string)
    requires AllDigits(whole, 10) && rest != "" && rest[0] == '.'
    ensures PointAt(whole + rest) == |whole|
  {
    if whole == "" {
      assert whole + rest == rest;
    } else {
      assert whole[0] in whole;
      assert (whole + rest)[1..] == whole[1..] + rest;
      PointFound(whole[1..], rest);
    }
  }

  /** Digits with a point in between read back as those digits with that many after the point. */
  lemma PointTextParses(whole: string, fraction: string, minus: bool)
    requires whole != "" && AllDigits(whole, 10) && AllDigits(fraction, 10)
    ensures var s := (if minus then "-" else "") + whole + "." + fraction;
      var n: int := DigitsValue(whole + fraction, 10);
      && ParseDecimal(s) == Some(Reduce(if minus then -n else n, |fraction|))
      && !AllDigits(Unsigned(s), 10)
      && (s[0] == '-' || DigitValue(s[0]) < 10)
  {
    var u := whole + ("." + fraction);
    var s := (if minus then "-" else "") + whole + "." + fraction;
    hide DigitsValue;
    assert whole[0] in whole && u[0] == whole[0];
    PointFound(whole, "." + fraction);
    assert u[..|whole|] == whole && u[|whole| + 1..] == fraction && u[|whole|] == '.';
    if minus {
      assert s == "-" + u && s[1..] == u;
    } else {
      assert s == u;
    }
    assert Unsigned(s) == u;
    assert AllDigits(whole + fraction, 10) && '.' in u;
  }

  lemma PointDigitsParse(d: Decimal, k: nat)
    requires k == if d.mantissa < 0 then -d.mantissa else d.mantissa
    ensures ParseNat(PointDigits(d), 10) == Some(k)
  {
    NatTextParses(k, 10);
    PadLeftParses(NatText(k, 10), d.scale + 1, 10, k);
  }

  lemma DecimalTextParses(d: Decimal)
    requires d.Reduced() && !d.Integral()
    ensures ParseDecimal(DecimalText(d)) == Some(d)
    ensures !AllDigits(Unsigned(DecimalText(d)), 10)
    ensures DecimalText(d)[0] == '-' || DigitValue(DecimalText(d)[0]) < 10
  {
    hide PointDigits, ParseDecimal, DigitsValue, DigitValue;
    var k: nat := if d.mantissa < 0 then -d.mantissa else d.mantissa;
    PointDigitsParse(d, k);
    var digits := PointDigits(d);
    var p := |digits| - d.scale;
    var whole, fraction := digits[..p], digits[p..];
    assert whole + fraction == digits;
    PointTextParses(whole, fraction, d.mantissa < 0);
  }

  lemma DecimalTextEnds(d: Decimal)
    requires !d.Integral()
    ensures DecimalText(d) != "" && DigitValue(DecimalText(d)[|DecimalText(d)| - 1]) < 10
  {
    hide PointDigits, DigitValue, DigitsValue;
    var k: nat := if d.mantissa < 0 then -d.mantissa else d.mantissa;
    PointDigitsParse(d, k);
    var digits := PointDigits(d);
    assert digits[|digits| - 1] in digits;
    assert digits[|digits| - d.scale..][d.scale - 1] == digits[|digits| - 1];
  }
}
