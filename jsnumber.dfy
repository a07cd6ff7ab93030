/**
 * JavaScript numbers as the ledger uses them: a value is a finite real, NaN or a signed
 * infinity. Arithmetic is exact on the reals (the binary64 rounding of each operation is
 * not modelled) and negative zero is not distinguished from zero.
 *
 * `StringToNumber` is `Number(str)` (StringToNumber, section 7.1.4.1.1 of ECMA-262) and
 * `ToFixed2` is `Number(x.toFixed(2))` (Number.prototype.toFixed, section 21.1.3.3 of
 * ECMA-262, 2022 edition).
 */
module JsNumber {
  import JsText

  datatype Num = Finite(value: real) | NaN | Infinity(negative: bool)

  /** A number used as a condition (`x ? … : …`, `x || 0`): false for 0 and NaN. */
  predicate Truthy(n: Num) { n != NaN && n != Finite(0.0) }

  /** `n > 0`: NaN compares false, +Infinity is greater than every finite value. */
  predicate GreaterThanZero(n: Num) { (n.Finite? && n.value > 0.0) || n == Infinity(false) }

  function Neg(a: Num): Num
  {
    match a
    case Finite(x) => Finite(-x)
    case NaN => NaN
    case Infinity(neg) => Infinity(!neg)
  }

  /** `a + b`: NaN if either is NaN or the infinities have opposite signs. */
  function Add(a: Num, b: Num): (r: Num)
    ensures a.Finite? && b.Finite? ==> r == Finite(a.value + b.value)
    ensures r.Finite? <==> a.Finite? && b.Finite?
    ensures (a.NaN? || b.NaN?) ==> r.NaN?
  {
    match (a, b)
    case (NaN, _) => NaN
    case (_, NaN) => NaN
    case (Infinity(p), Infinity(q)) => if p == q then a else NaN
    case (Infinity(_), _) => a
    case (_, Infinity(_)) => b
    case (Finite(x), Finite(y)) => Finite(x + y)
  }

  /** `a - b`. */
  function Sub(a: Num, b: Num): (r: Num)
    ensures a.Finite? && b.Finite? ==> r == Finite(a.value - b.value)
    ensures r.Finite? <==> a.Finite? && b.Finite?
  {
    Add(a, Neg(b))
  }

  /** `a / b`: a finite non-zero divisor gives the real quotient; zero never divides. */
  function Div(a: Num, b: Num): (r: Num)
    ensures a.Finite? && b.Finite? && b.value != 0.0 ==> r == Finite(a.value / b.value)
    ensures b == Finite(0.0) ==> !r.Finite?
    ensures (a.NaN? || b.NaN?) ==> r.NaN?
  {
    match (a, b)
    case (NaN, _) => NaN
    case (_, NaN) => NaN
    case (Infinity(_), Infinity(_)) => NaN
    case (Infinity(p), Finite(y)) => Infinity(if y < 0.0 then !p else p)
    case (Finite(_), Infinity(_)) => Finite(0.0)
    case (Finite(x), Finite(y)) =>
      if y != 0.0 then Finite(x / y)
      else if x == 0.0 then NaN
      else Infinity(x < 0.0)
  }

  /** Exact addition on the extended reals with NaN is associative. */
  lemma AddAssociates(a: Num, b: Num, c: Num)
    ensures Add(Add(a, b), c) == Add(a, Add(b, c))
  {
  }

  // ---------------------------------------------------------------------------
  // Number(str)
  // ---------------------------------------------------------------------------

  /**
   * The smallest magnitude that a binary64 conversion rounds to Infinity:
   * 2^1024 - 2^970, half a unit above the largest finite double.
   */
  const OverflowBound: real := 179769313486231580793728971405303415079934132710037826936173778980444968292764750946649017977587207096330286416692887910946555547851940402630657488671505820681908902000708383676273854845817711531764475730270069855571366959622842914819860834936475292719074168444365510704342711559699508093042880177904174497792.0

  /** A mathematical value as a JavaScript number: too large a magnitude overflows. */
  function FromReal(x: real): (r: Num)
    ensures -OverflowBound < x < OverflowBound <==> r == Finite(x)
    ensures x >= OverflowBound ==> r == Infinity(false)
    ensures x <= -OverflowBound ==> r == Infinity(true)
    ensures !r.NaN?
  {
    if x >= OverflowBound then Infinity(false)
    else if x <= -OverflowBound then Infinity(true)
    else Finite(x)
  }

  predicate IsDigit(c: char) { '0' <= c <= '9' }

  predicate AllDigits(s: string) { forall i :: 0 <= i < |s| ==> IsDigit(s[i]) }

  /** The value of `c` as a digit in base `radix`, or -1 when it is not one. */
  function RadixDigit(c: char, radix: nat): (d: int)
    ensures -1 <= d < radix
  {
    var v :=
      if '0' <= c <= '9' then c as int - '0' as int
      else if 'a' <= c <= 'z' then c as int - 'a' as int + 10
      else if 'A' <= c <= 'Z' then c as int - 'A' as int + 10
      else -1;
    if v < radix then v else -1
  }

  predicate AllRadixDigits(s: string, radix: nat) { forall i :: 0 <= i < |s| ==> RadixDigit(s[i], radix) >= 0 }

  /** The value of a digit string in base `radix`, most significant digit first. */
  function RadixValue(s: string, radix: nat): nat
    requires AllRadixDigits(s, radix)
  {
    if s == [] then 0 else RadixValue(s[..|s| - 1], radix) * radix + RadixDigit(s[|s| - 1], radix)
  }

  function DigitsValue(s: string): nat
    requires AllDigits(s)
  {
    RadixValue(s, 10)
  }

  /** `m * 10^e`, one decimal place at a time. */
  function Scale(m: real, e: int): real
    decreases if e < 0 then -e else e
  {
    if e == 0 then m
    else if e > 0 then Scale(m, e - 1) * 10.0
    else Scale(m, e + 1) / 10.0
  }

  /** The number of decimal digits `s` starts with. */
  function DigitRun(s: string): (n: nat)
    ensures n <= |s| && AllDigits(s[..n])
    ensures n < |s| ==> !IsDigit(s[n])
  {
    if s != [] && IsDigit(s[0]) then
      var n := 1 + DigitRun(s[1..]);
      assert s[..n] == [s[0]] + s[1..][..n - 1];
      n
    else 0
  }

  /**
   * An ExponentPart after its `e`: an optional sign and at least one digit; None when the
   * text is not of that form.
   */
  function ExponentValue(e: string): Option<int>
  {
    var negative := e != [] && e[0] == '-';
    var digits := if e != [] && (e[0] == '+' || e[0] == '-') then e[1..] else e;
    if digits == [] || !AllDigits(digits) then None
    else
      var v: int := DigitsValue(digits);
      Some(if negative then -v else v)
  }

  datatype Option<T> = None | Some(value: T)

  /**
   * StrUnsignedDecimalLiteral without `Infinity`: `digits [. [digits]] [exponent]` or
   * `. digits [exponent]`, where the exponent is `e` or `E`, an optional sign and digits.
   */
  function UnsignedDecimal(u: string): Option<real>
  {
    var n := DigitRun(u);
    AfterWhole(u[..n], u[n..])
  }

  /** The literal after its leading digits `whole`: an optional `.` and fraction digits. */
  function AfterWhole(whole: string, rest: string): Option<real>
    requires AllDigits(whole)
  {
    if rest != [] && rest[0] == '.' then
      var m := DigitRun(rest[1..]);
      AfterFraction(whole, rest[1..][..m], rest[1..][m..])
    else AfterFraction(whole, [], rest)
  }

  /** The literal after its digits: nothing or an exponent; there must be at least one digit. */
  function AfterFraction(whole: string, fraction: string, tail: string): Option<real>
    requires AllDigits(whole) && AllDigits(fraction)
  {
    var exponent :=
      if tail == [] then Some(0)
      else if tail[0] == 'e' || tail[0] == 'E' then ExponentValue(tail[1..])
      else None;
    if whole == [] && fraction == [] then None
    else if exponent.None? then None
    else
      assert AllDigits(whole + fraction);
      // the digits read as one integer, scaled down by the fraction length
      Some(Scale(DigitsValue(whole + fraction) as real, exponent.value - |fraction|))
  }

  /** StrDecimalLiteral: an optional sign, then `Infinity` or an unsigned decimal. */
  function DecimalLiteral(t: string): Num
  {
    var negative := t != [] && t[0] == '-';
    var u := if t != [] && (t[0] == '+' || t[0] == '-') then t[1..] else t;
    if u == "Infinity" then Infinity(negative)
    else match UnsignedDecimal(u)
      case Some(v) => FromReal(if negative then -v else v)
      case None => NaN
  }

  /** A NonDecimalIntegerLiteral after its `0x`, `0o` or `0b` prefix; no sign is allowed. */
  function RadixLiteral(d: string, radix: nat): Num
  {
    if d != [] && AllRadixDigits(d, radix) then FromReal(RadixValue(d, radix) as real) else NaN
  }

  /** `Number(str)`: white space around the literal is ignored and blank text is zero. */
  function StringToNumber(s: string): Num
  {
    var t := JsText.Trim(s);
    if t == [] then Finite(0.0)
    else if |t| >= 2 && t[0] == '0' && (t[1] == 'x' || t[1] == 'X') then RadixLiteral(t[2..], 16)
    else if |t| >= 2 && t[0] == '0' && (t[1] == 'o' || t[1] == 'O') then RadixLiteral(t[2..], 8)
    else if |t| >= 2 && t[0] == '0' && (t[1] == 'b' || t[1] == 'B') then RadixLiteral(t[2..], 2)
    else DecimalLiteral(t)
  }

  /** A plain digit string is read as its decimal value. */
  lemma DigitsParse(s: string)
    requires s != [] && AllDigits(s) && DigitsValue(s) < 100_000_000_000_000_000_000
    ensures StringToNumber(s) == Finite(DigitsValue(s) as real)
  {
    DigitsAreTrimmed(s);
    DigitsDecimalLiteral(s);
    assert !(|s| >= 2 && s[0] == '0' && (s[1] == 'x' || s[1] == 'X' || s[1] == 'o' || s[1] == 'O' || s[1] == 'b' || s[1] == 'B')) by {
      assert IsDigit(s[|s| - 1]);
      if |s| >= 2 { assert IsDigit(s[1]); }
    }
  }

  lemma DigitsAreTrimmed(s: string)
    requires s != [] && AllDigits(s)
    ensures JsText.Trim(s) == s
  {
    assert IsDigit(s[0]) && IsDigit(s[|s| - 1]);
    assert JsText.IsTrimmed(s);
    JsText.TrimKeepsTrimmed(s);
  }

  lemma DigitsDecimalLiteral(s: string)
    requires s != [] && AllDigits(s) && DigitsValue(s) < 100_000_000_000_000_000_000
    ensures DecimalLiteral(s) == Finite(DigitsValue(s) as real)
  {
    assert IsDigit(s[0]);
    assert s != "Infinity" by { assert "Infinity"[0] == 'I'; }
    DigitsUnsigned(s);
  }

  lemma DigitsUnsigned(s: string)
    requires s != [] && AllDigits(s)
    ensures UnsignedDecimal(s) == Some(DigitsValue(s) as real)
  {
    DigitRunConcat(s, []);
    assert s + [] == s;
    assert s[..|s|] == s && s[|s|..] == [];
    assert UnsignedDecimal(s) == AfterFraction(s, [], []);
    assert AfterFraction(s, [], []) == Some(Scale(DigitsValue(s + []) as real, 0));
  }

  /** Appending a digit shifts the value one decimal place. */
  lemma DigitsValueSnoc(s: string, c: char)
    requires AllDigits(s) && IsDigit(c)
    ensures AllDigits(s + [c])
    ensures DigitsValue(s + [c]) == DigitsValue(s) * 10 + (c as int - '0' as int)
  {
    assert (s + [c])[..|s|] == s;
  }

  /** The digit run of `a + b` is `a` when `b` does not start with a digit. */
  lemma {:induction false} DigitRunConcat(a: string, b: string)
    requires AllDigits(a) && (b == [] || !IsDigit(b[0]))
    ensures DigitRun(a + b) == |a|
  {
    if a != [] {
      assert (a + b)[1..] == a[1..] + b;
      DigitRunConcat(a[1..], b);
    }
  }

  /** `digits.digits` reads as all its digits as one integer, scaled down by the fraction length. */
  lemma UnsignedDecimalFraction(a: string, b: string)
    requires a != [] && AllDigits(a) && AllDigits(b)
    ensures AllDigits(a + b)
    ensures UnsignedDecimal(a + "." + b) == Some(Scale(DigitsValue(a + b) as real, -|b|))
  {
    WholeThenFraction(a, b);
    FractionThenEnd(a, b);
    FractionWithoutExponent(a, b);
  }

  lemma FractionWithoutExponent(whole: string, fraction: string)
    requires whole != [] && AllDigits(whole) && AllDigits(fraction)
    ensures AllDigits(whole + fraction)
    ensures AfterFraction(whole, fraction, []) == Some(Scale(DigitsValue(whole + fraction) as real, -|fraction|))
  {
    var d := whole + fraction;
    forall i | 0 <= i < |d| ensures IsDigit(d[i]) {
      if i < |whole| { assert d[i] == whole[i]; } else { assert d[i] == fraction[i - |whole|]; }
    }
    assert AfterFraction(whole, fraction, []) == Some(Scale(DigitsValue(d) as real, 0 - |fraction|));
  }

  lemma WholeThenFraction(a: string, b: string)
    requires AllDigits(a)
    ensures UnsignedDecimal(a + "." + b) == AfterWhole(a, "." + b)
  {
    var u := a + "." + b;
    var rest := "." + b;
    assert u == a + rest;
    DigitRunConcat(a, rest);
    assert u[..|a|] == a && u[|a|..] == rest;
  }

  lemma FractionThenEnd(a: string, b: string)
    requires AllDigits(a) && AllDigits(b)
    ensures AfterWhole(a, "." + b) == AfterFraction(a, b, [])
  {
    var rest := "." + b;
    assert rest[0] == '.' && rest[1..] == b;
    DigitRunConcat(b, []);
    assert b + [] == b && b[..|b|] == b && b[|b|..] == [];
  }

  lemma DecimalExampleParts()
    ensures UnsignedDecimal("1234.50") == Some(1234.5)
  {
    assert "1234.50" == "1234" + "." + "50";
    UnsignedDecimalFraction("1234", "50");
    DecimalExampleDigits();
    DecimalExampleScale();
  }

  lemma DecimalExampleDigits()
    ensures DigitsValue("1234" + "50") == 123450
  {
    assert "1234" + "50" == DecimalString(123450);
    DecimalStringRoundTrip(123450);
  }

  lemma DecimalExampleScale()
    ensures Scale(123450.0, -2) == 1234.5
  {
    assert Scale(123450.0, 0) == 123450.0;
  }

  /** A decimal with a fraction reads as its value. */
  lemma StringToNumberDecimalExample()
    ensures StringToNumber("1234.50") == Finite(1234.5)
  {
    DecimalTrimmedExample();
    DecimalLiteralExample();
  }

  lemma DecimalTrimmedExample()
    ensures JsText.Trim("1234.50") == "1234.50"
  {
    assert JsText.IsTrimmed("1234.50");
    JsText.TrimKeepsTrimmed("1234.50");
  }

  lemma DecimalLiteralExample()
    ensures DecimalLiteral("1234.50") == Finite(1234.5)
  {
    DecimalExampleParts();
  }

  /** Letters are not a number. */
  lemma StringToNumberLettersExample()
    ensures StringToNumber("abc") == NaN
  {
    TrimmedExample();
    LettersAreNotDecimal();
  }

  lemma TrimmedExample()
    ensures JsText.Trim("abc") == "abc"
  {
    assert JsText.IsTrimmed("abc");
    JsText.TrimKeepsTrimmed("abc");
  }

  lemma LettersAreNotDecimal()
    ensures DecimalLiteral("abc") == NaN
  {
    assert DigitRun("abc") == 0;
  }

  // ---------------------------------------------------------------------------
  // Number(x.toFixed(2))
  // ---------------------------------------------------------------------------

  /**
   * `Number(x.toFixed(2))` for finite `x`: the nearest multiple of 0.01, ties going to the
   * larger magnitude (toFixed rounds `|x|` and picks the larger candidate `n`); from 1e21
   * on toFixed prints `x` unrounded.
   */
  function Round2(x: real): real
  {
    if x >= 1e21 || x <= -1e21 then x
    else if x < 0.0 then -RoundHalfUp2(-x)
    else RoundHalfUp2(x)
  }

  function RoundHalfUp2(y: real): real
  {
    ((y * 100.0 + 0.5).Floor as real) / 100.0
  }

  /** `Number(n.toFixed(2))`: NaN and the infinities print as themselves and parse back. */
  function ToFixed2(n: Num): (r: Num)
    ensures r.Finite? <==> n.Finite?
    ensures !n.Finite? ==> r == n
  {
    if n.Finite? then Finite(Round2(n.value)) else n
  }

  /** Half-up rounding of a non-negative value to a whole number of cents. */
  lemma RoundHalfUp2Close(y: real) returns (n: int)
    requires y >= 0.0
    ensures n >= 0 && RoundHalfUp2(y) == n as real / 100.0
    ensures -0.005 <= RoundHalfUp2(y) - y <= 0.005
  {
    n := (y * 100.0 + 0.5).Floor;
    assert n as real <= y * 100.0 + 0.5 < n as real + 1.0;
  }

  /** Rounding moves a value by at most half a cent and lands on a whole number of cents. */
  lemma Round2Close(x: real) returns (cents: int)
    requires -1e21 < x < 1e21
    ensures Round2(x) == cents as real / 100.0
    ensures -0.005 <= Round2(x) - x <= 0.005
  {
    if x < 0.0 {
      var n := RoundHalfUp2Close(-x);
      cents := -n;
      assert Round2(x) == -(n as real / 100.0);
    } else {
      cents := RoundHalfUp2Close(x);
    }
  }

  /** Rounding a rounded value changes nothing. */
  lemma Round2Idempotent(x: real)
    ensures Round2(Round2(x)) == Round2(x)
  {
    if -1e21 < x < 1e21 {
      var n := RoundHalfUp2Close(if x < 0.0 then -x else x);
      assert (n as real + 0.5).Floor == n;
      assert RoundHalfUp2(n as real / 100.0) == n as real / 100.0;
    }
  }

  /**
   * On exact decimal values the tie at a half cent goes away from zero in both directions.
   * The source rounds binary doubles instead, where 1.005 and 2.675 are stored slightly below
   * the tie: there `(1.005).toFixed(2)` is "1.00" and `(2.675).toFixed(2)` is "2.67".
   */
  lemma Round2Ties()
    ensures Round2(1.005) == 1.01 && Round2(-1.005) == -1.01 && Round2(2.675) == 2.68
  {
    assert (1.005 * 100.0 + 0.5).Floor == 101;
    assert (2.675 * 100.0 + 0.5).Floor == 268;
  }

  // ---------------------------------------------------------------------------
  // Integer to decimal text (template literals of whole numbers)
  // ---------------------------------------------------------------------------

  function DigitChar(d: nat): char
    requires d < 10
  {
    ('0' as int + d) as char
  }

  /** The decimal digits of `n`, most significant first, without leading zeros. */
  function DecimalString(n: nat): (s: string)
    ensures s != [] && AllDigits(s)
    decreases n
  {
    if n < 10 then [DigitChar(n)] else DecimalString(n / 10) + [DigitChar(n % 10)]
  }

  /** Reading the decimal text of `n` gives back `n`, and it has no superfluous leading zero. */
  lemma {:induction false} DecimalStringRoundTrip(n: nat)
    ensures DigitsValue(DecimalString(n)) == n
    ensures DecimalString(n)[0] == '0' ==> n == 0
    decreases n
  {
    var s := DecimalString(n);
    if n >= 10 {
      DecimalStringRoundTrip(n / 10);
      assert s[..|s| - 1] == DecimalString(n / 10);
      assert RadixDigit(s[|s| - 1], 10) == n % 10;
      assert DigitsValue(s) == DigitsValue(DecimalString(n / 10)) * 10 + n % 10;
    } else {
      assert s[..|s| - 1] == [];
      assert RadixDigit(s[0], 10) == n;
      assert DigitsValue(s) == RadixValue(s[..|s| - 1], 10) * 10 + RadixDigit(s[|s| - 1], 10);
    }
  }

  /**
   * A whole number of cents `c` written as fixed-point decimal text: an optional `-`, the
   * whole part in decimal, a `.` and exactly two digits.
   */
  function CentsText(c: int): (t: string)
    ensures t != []
  {
    (if c < 0 then "-" else "") + CentsDigits(if c < 0 then -c else c)
  }

  function CentsDigits(m: nat): string
  {
    DecimalString(m / 100) + "." + [DigitChar(m % 100 / 10), DigitChar(m % 10)]
  }

  /** The digits of `m / 100` followed by those of `m % 100` spell out `m`. */
  lemma CentsDigitsValue(m: nat)
    ensures AllDigits(DecimalString(m / 100) + [DigitChar(m % 100 / 10), DigitChar(m % 10)])
    ensures DigitsValue(DecimalString(m / 100) + [DigitChar(m % 100 / 10), DigitChar(m % 10)]) == m
  {
    var w := DecimalString(m / 100);
    var d1 := DigitChar(m % 100 / 10);
    var d2 := DigitChar(m % 10);
    DecimalStringRoundTrip(m / 100);
    DigitsValueSnoc(w, d1);
    DigitsValueSnoc(w + [d1], d2);
    assert w + [d1] + [d2] == w + [d1, d2];
  }

  /** An unsigned fixed-point text reads as its number of cents over 100. */
  lemma CentsDigitsUnsigned(m: nat)
    ensures UnsignedDecimal(CentsDigits(m)) == Some(m as real / 100.0)
  {
    var w := DecimalString(m / 100);
    var f := [DigitChar(m % 100 / 10), DigitChar(m % 10)];
    UnsignedDecimalFraction(w, f);
    CentsDigitsValue(m);
    assert Scale(m as real, -2) == m as real / 100.0;
  }

  /** The first character of the unsigned text is a digit, and no later one is a letter. */
  lemma CentsDigitsShape(m: nat)
    ensures var u := CentsDigits(m);
      && |u| >= 4 && IsDigit(u[0]) && IsDigit(u[|u| - 1])
      && forall i :: 0 <= i < |u| ==> IsDigit(u[i]) || u[i] == '.'
  {
    var w := DecimalString(m / 100);
    var u := CentsDigits(m);
    assert u == w + ("." + [DigitChar(m % 100 / 10), DigitChar(m % 10)]);
    forall i | 0 <= i < |u| ensures IsDigit(u[i]) || u[i] == '.' {
      if i < |w| {
        assert u[i] == w[i];
      }
    }
  }

  /** The fixed-point text has no white space at its edges and no radix prefix. */
  lemma CentsTextIsDecimal(c: int)
    ensures var t := CentsText(c);
      && JsText.Trim(t) == t
      && !(|t| >= 2 && t[0] == '0' && (t[1] == 'x' || t[1] == 'X' || t[1] == 'o' || t[1] == 'O' || t[1] == 'b' || t[1] == 'B'))
  {
    var m: nat := if c < 0 then -c else c;
    var u := CentsDigits(m);
    var t := CentsText(c);
    CentsDigitsShape(m);
    assert t[0] == '-' || IsDigit(t[0]);
    assert t[|t| - 1] == u[|u| - 1];
    JsText.TrimKeepsTrimmed(t);
    if c >= 0 && |t| >= 2 {
      assert t[1] == u[1];
    }
  }

  /** The fixed-point text of `c` cents is the decimal literal of `c / 100`. */
  lemma CentsDecimalLiteral(c: int)
    requires -1_000_000_000_000_000_000_000_000 < c < 1_000_000_000_000_000_000_000_000
    ensures DecimalLiteral(CentsText(c)) == Finite(c as real / 100.0)
  {
    var m: nat := if c < 0 then -c else c;
    var u := CentsDigits(m);
    assert IsDigit(u[0]) by { CentsDigitsShape(m); }
    assert u != "Infinity" by { assert "Infinity"[0] == 'I'; }
    CentsDigitsUnsigned(m);
    CentsInRange(c);
    if c < 0 {
      var t := "-" + u;
      assert CentsText(c) == t;
      assert t[1..] == u;
      assert DecimalLiteral(t) == FromReal(-(m as real / 100.0));
    } else {
      assert CentsText(c) == u;
      assert DecimalLiteral(u) == FromReal(m as real / 100.0);
    }
  }

  lemma CentsInRange(c: int)
    requires -1_000_000_000_000_000_000_000_000 < c < 1_000_000_000_000_000_000_000_000
    ensures -OverflowBound < c as real / 100.0 < OverflowBound
    ensures c < 0 ==> -((-c) as real / 100.0) == c as real / 100.0
  {
  }

  /** `Number` reads the fixed-point text of `c` cents back as `c / 100`. */
  lemma StringToNumberCents(c: int)
    requires -1_000_000_000_000_000_000_000_000 < c < 1_000_000_000_000_000_000_000_000
    ensures StringToNumber(CentsText(c)) == Finite(c as real / 100.0)
  {
    CentsTextIsDecimal(c);
    CentsDecimalLiteral(c);
  }
}
