/** types/decimal.go: the canonical string of a decimal, read back by the grammar of
    `java.math.BigDecimal(String)`. */
module Decimals {
  import opened Wrappers

  type int32 = x: int | -0x8000_0000 <= x < 0x8000_0000

  datatype Decimal = Decimal(unscaled: int, scale: int32)

  /** Go's conversion `int32(scale)` keeps the low 32 bits. */
  function ToInt32(n: int): (r: int32)
    ensures (n - r) % 0x1_0000_0000 == 0
    ensures -0x8000_0000 <= n < 0x8000_0000 ==> r == n
  {
    (n + 0x8000_0000) % 0x1_0000_0000 - 0x8000_0000
  }

  function NewDecimal(unscaled: int, scale: int): Decimal {
    Decimal(unscaled, ToInt32(scale))
  }

  // ---- digit strings ----

  predicate IsDigit(c: char) {
    '0' <= c <= '9'
  }

  function DigitValue(c: char): nat
    requires IsDigit(c)
  {
    c as int - '0' as int
  }

  predicate AllDigits(s: string) {
    forall i :: 0 <= i < |s| ==> IsDigit(s[i])
  }

  function NatToString(n: nat): (s: string)
    ensures s != [] && AllDigits(s)
  {
    var last := [('0' as int + n % 10) as char];
    if n < 10 then last else NatToString(n / 10) + last
  }

  function IntToString(n: int): string {
    if n < 0 then "-" + NatToString(-n) else NatToString(n)
  }

  function StringToNat(s: string): nat
    requires AllDigits(s)
  {
    if s == [] then 0 else 10 * StringToNat(s[..|s| - 1]) + DigitValue(s[|s| - 1])
  }

  lemma {:induction false} NatRoundTrip(n: nat)
    ensures StringToNat(NatToString(n)) == n
  {
    var s := NatToString(n);
    if n < 10 {
      assert s[..0] == [];
    } else {
      NatRoundTrip(n / 10);
      assert s[..|s| - 1] == NatToString(n / 10);
    }
  }

  function Zeros(n: nat): (s: string)
    ensures |s| == n && AllDigits(s) && forall i :: 0 <= i < n ==> s[i] == '0'
  {
    if n == 0 then [] else Zeros(n - 1) + ['0']
  }

  lemma {:induction false} LeadingZeros(n: nat, s: string)
    requires AllDigits(s)
    ensures AllDigits(Zeros(n) + s) && StringToNat(Zeros(n) + s) == StringToNat(s)
    decreases n + |s|
  {
    var t := Zeros(n) + s;
    if s == [] {
      assert t == Zeros(n);
      if n > 0 {
        LeadingZeros(n - 1, []);
        assert t[..|t| - 1] == Zeros(n - 1) + [];
      }
    } else {
      LeadingZeros(n, s[..|s| - 1]);
      assert t[..|t| - 1] == Zeros(n) + s[..|s| - 1];
    }
  }

  // ---- printing ----

  function Sign(n: int): string {
    if n < 0 then "-" else ""
  }

  function Digits(n: int): (s: string)
    ensures s != [] && AllDigits(s)
  {
    NatToString(if n < 0 then -n else n)
  }

  /** Plain notation is for scales from 0 as long as the first digit is at most six places
      behind the point. */
  predicate IsPlain(digits: string, scale: int) {
    scale >= 0 && |digits| - scale - 1 >= -6
  }

  /** What the print-out consists of: whole digits, fraction digits, exponent. */
  function Shape(digits: string, scale: int): (string, string, int)
    requires digits != []
  {
    if !IsPlain(digits, scale) then (digits[..1], digits[1..], |digits| - scale - 1)
    else if scale >= |digits| then ("0", Zeros(scale - |digits|) + digits, 0)
    else (digits[..|digits| - scale], digits[|digits| - scale..], 0)
  }

  function Significand(whole: string, fraction: string): string {
    if fraction == [] then whole else whole + "." + fraction
  }

  function Exponent(e: int): string {
    if e > 0 then "+" + IntToString(e) else IntToString(e)
  }

  function Text(digits: string, scale: int): string
    requires digits != []
  {
    var (whole, fraction, exponent) := Shape(digits, scale);
    if IsPlain(digits, scale) then Significand(whole, fraction)
    else Significand(whole, fraction) + "E" + Exponent(exponent)
  }

  function Layout(d: Decimal): string {
    Sign(d.unscaled) + Text(Digits(d.unscaled), d.scale)
  }

  /** `Decimal.String`. */
  method ToString(d: Decimal) returns (s: string)
    ensures s == Layout(d)
  {
    var bigStr := IntToString(d.unscaled);
    if d.scale == 0 {
      assert IntToString(d.unscaled) == Sign(d.unscaled) + Digits(d.unscaled);
      assert Text(Digits(d.unscaled), 0) == Digits(d.unscaled);
      return bigStr;
    }
    var buf := "";
    assert IsDigit(Digits(d.unscaled)[0]);
    if bigStr[0] == '-' {
      assert bigStr[1..] == Digits(d.unscaled);
      bigStr := bigStr[1..];
      buf := buf + "-";
    }
    if d.scale >= 0 && |bigStr| - d.scale as int - 1 >= -6 {
      s := WritePlain(buf, bigStr, d.scale);
    } else {
      s := WriteScientific(buf, bigStr, d.scale);
    }
  }

  method WritePlain(sign: string, bigStr: string, scale: int32) returns (buf: string)
    requires bigStr != [] && scale > 0 && IsPlain(bigStr, scale)
    ensures buf == sign + Text(bigStr, scale)
  {
    buf := sign;
    var pad := scale as int - |bigStr|;
    if pad >= 0 {
      buf := buf + "0.";
      buf := WriteZeros(buf, pad);
      buf := buf + bigStr;
      AppendAssociates(sign + "0.", Zeros(pad), bigStr);
      AppendAssociates(sign, "0.", Zeros(pad) + bigStr);
      assert "0" + "." == "0.";
    } else {
      pad := -pad;
      buf := buf + (bigStr[..pad] + "." + bigStr[pad..]);
    }
  }

  method WriteScientific(sign: string, bigStr: string, scale: int32) returns (buf: string)
    requires bigStr != [] && !IsPlain(bigStr, scale)
    ensures buf == sign + Text(bigStr, scale)
  {
    var adjusted := |bigStr| - scale as int - 1;
    buf := sign + bigStr[..1];
    if |bigStr| > 1 {
      buf := buf + ("." + bigStr[1..]);
      AppendAssociates(sign, bigStr[..1], "." + bigStr[1..]);
      AppendAssociates(bigStr[..1], ".", bigStr[1..]);
    }
    ghost var front := Significand(bigStr[..1], bigStr[1..]);
    buf := buf + "E";
    AppendAssociates(sign, front, "E");
    if adjusted > 0 {
      buf := buf + "+";
      AppendAssociates(sign + (front + "E"), "+", IntToString(adjusted));
    }
    buf := buf + IntToString(adjusted);
    AppendAssociates(sign, front + "E", Exponent(adjusted));
  }

  method WriteZeros(buf: string, n: nat) returns (s: string)
    ensures s == buf + Zeros(n)
  {
    s := buf;
    var pad := n;
    while pad > 0
      invariant 0 <= pad <= n && s == buf + Zeros(n - pad)
    {
      s := s + ['0'];
      pad := pad - 1;
    }
  }

  // ---- reading ----

  /** A numeral of the grammar: optional sign, integer digits, fraction digits (at least
      one digit in all) and exponent. */
  datatype Numeral = Numeral(negative: bool, whole: string, fraction: string, exponent: int)

  /** The part of a string before the first occurrence of a character, and, if it occurs,
      the part after it. */
  function Split(s: string, c: char): (r: (string, Option<string>)) {
    if s == [] then ([], None)
    else if s[0] == c then ([], Some(s[1..]))
    else var r := Split(s[1..], c); ([s[0]] + r.0, r.1)
  }

  lemma {:induction false} SplitFinds(a: string, c: char, b: string)
    requires c !in a
    ensures Split(a + [c] + b, c) == (a, Some(b))
    ensures Split(a, c) == (a, None)
  {
    if a == [] {
      assert a + [c] + b == [c] + b;
    } else {
      SplitFinds(a[1..], c, b);
      assert (a + [c] + b)[1..] == a[1..] + [c] + b;
      assert [a[0]] + a[1..] == a;
    }
  }

  /** The sign, if any, and what follows it. */
  function TakeSign(s: string): (bool, string) {
    if s != [] && s[0] == '-' then (true, s[1..])
    else if s != [] && s[0] == '+' then (false, s[1..])
    else (false, s)
  }

  function ParseInt(s: string): Option<int> {
    var (negative, digits) := TakeSign(s);
    if digits == [] || !AllDigits(digits) then None
    else Some(if negative then 0 - StringToNat(digits) else StringToNat(digits))
  }

  function ParseSignificand(s: string): (r: Option<(string, string)>)
    ensures r.Some? ==> AllDigits(r.value.0) && AllDigits(r.value.1)
  {
    var (whole, rest) := Split(s, '.');
    var fraction := if rest.Some? then rest.value else "";
    if (whole == [] && fraction == []) || !AllDigits(whole) || !AllDigits(fraction) then None
    else Some((whole, fraction))
  }

  function ParseUnsigned(negative: bool, s: string): (r: Option<Numeral>)
    ensures r.Some? ==> AllDigits(r.value.whole) && AllDigits(r.value.fraction)
  {
    var (front, rest) := Split(s, 'E');
    match (ParseSignificand(front), if rest.Some? then ParseInt(rest.value) else Some(0))
    case (Some((whole, fraction)), Some(exponent)) => Some(Numeral(negative, whole, fraction, exponent))
    case _ => None
  }

  function ParseNumeral(s: string): (r: Option<Numeral>)
    ensures r.Some? ==> AllDigits(r.value.whole) && AllDigits(r.value.fraction)
  {
    var (negative, rest) := TakeSign(s);
    ParseUnsigned(negative, rest)
  }

  /** The components `BigDecimal(String)` gives a numeral. */
  function Components(n: Numeral): (int, int)
    requires AllDigits(n.whole) && AllDigits(n.fraction)
  {
    var m := StringToNat(n.whole + n.fraction);
    (if n.negative then 0 - m else m, |n.fraction| - n.exponent)
  }

  /** Reading by the grammar: it fails outside it and when the scale does not fit 32 bits. */
  function Read(s: string): Option<Decimal> {
    match ParseNumeral(s)
    case None => None
    case Some(n) =>
      var (unscaled, scale) := Components(n);
      if -0x8000_0000 <= scale < 0x8000_0000 then Some(Decimal(unscaled, scale)) else None
  }

  /** The documentation of `BigDecimal(String)` further asks that the exponent's magnitude be
      at most 2^31 - 1. */
  predicate ExponentAllowed(exponent: int) {
    -0x7fff_ffff <= exponent <= 0x7fff_ffff
  }

  /** `BigDecimal(String)`: reading by the grammar, with exponents out of bounds refused. */
  function Parse(s: string): Option<Decimal> {
    match ParseNumeral(s)
    case None => None
    case Some(n) => if ExponentAllowed(n.exponent) then Read(s) else None
  }

  // ---- round trip ----

  lemma IntReads(n: int)
    ensures ParseInt(IntToString(n)) == Some(n)
    ensures n > 0 ==> ParseInt("+" + IntToString(n)) == Some(n)
  {
    var digits := Digits(n);
    NatRoundTrip(if n < 0 then -n else n);
    assert IsDigit(digits[0]);
    if n < 0 {
      assert TakeSign(IntToString(n)) == (true, digits);
    } else {
      assert TakeSign(digits) == (false, digits);
      assert TakeSign("+" + digits) == (false, digits);
    }
  }

  lemma SignificandReads(whole: string, fraction: string)
    requires AllDigits(whole) && AllDigits(fraction) && whole != []
    ensures ParseSignificand(Significand(whole, fraction)) == Some((whole, fraction))
    ensures 'E' !in Significand(whole, fraction)
  {
    SplitFinds(whole, '.', fraction);
  }

  /** In each form the digits taken together are the number's, and the scale is right. */
  lemma ShapeFits(digits: string, scale: int)
    requires digits != [] && AllDigits(digits)
    ensures
      var (whole, fraction, exponent) := Shape(digits, scale);
      && whole != [] && AllDigits(whole) && AllDigits(fraction)
      && StringToNat(whole + fraction) == StringToNat(digits)
      && |fraction| - exponent == scale
  {
    if IsPlain(digits, scale) && scale >= |digits| {
      ZeroPointFits(scale - |digits|, digits);
    } else {
      var (whole, fraction, exponent) := Shape(digits, scale);
      assert whole + fraction == digits;
    }
  }

  lemma ZeroPointFits(k: nat, digits: string)
    requires AllDigits(digits)
    ensures AllDigits(Zeros(k) + digits) && StringToNat("0" + (Zeros(k) + digits)) == StringToNat(digits)
  {
    LeadingZeros(k + 1, digits);
    assert "0" + (Zeros(k) + digits) == Zeros(k + 1) + digits;
  }

  lemma PlainReads(negative: bool, whole: string, fraction: string)
    requires AllDigits(whole) && AllDigits(fraction) && whole != []
    ensures ParseUnsigned(negative, Significand(whole, fraction)) == Some(Numeral(negative, whole, fraction, 0))
  {
    SignificandReads(whole, fraction);
    SplitFinds(Significand(whole, fraction), 'E', "");
  }

  lemma ScientificReads(negative: bool, whole: string, fraction: string, e: int)
    requires AllDigits(whole) && AllDigits(fraction) && whole != []
    ensures ParseUnsigned(negative, Significand(whole, fraction) + "E" + Exponent(e)) ==
        Some(Numeral(negative, whole, fraction, e))
  {
    SignificandReads(whole, fraction);
    IntReads(e);
    SplitFinds(Significand(whole, fraction), 'E', Exponent(e));
  }

  lemma TextReads(negative: bool, digits: string, scale: int)
    requires digits != [] && AllDigits(digits)
    ensures
      var (whole, fraction, exponent) := Shape(digits, scale);
      ParseUnsigned(negative, Text(digits, scale)) == Some(Numeral(negative, whole, fraction, exponent))
  {
    ShapeFits(digits, scale);
    var (whole, fraction, exponent) := Shape(digits, scale);
    if IsPlain(digits, scale) {
      PlainReads(negative, whole, fraction);
    } else {
      ScientificReads(negative, whole, fraction, exponent);
    }
  }

  lemma TextStartsWithDigit(digits: string, scale: int)
    requires digits != [] && AllDigits(digits)
    ensures Text(digits, scale) != [] && IsDigit(Text(digits, scale)[0])
  {
    ShapeFits(digits, scale);
    var whole := Shape(digits, scale).0;
    assert IsDigit(whole[0]);
    assert Text(digits, scale)[0] == whole[0];
  }

  lemma SignReads(n: int, s: string)
    requires s != [] && IsDigit(s[0])
    ensures ParseNumeral(Sign(n) + s) == ParseUnsigned(n < 0, s)
  {
    if n < 0 {
      assert ("-" + s)[1..] == s;
    } else {
      assert "" + s == s;
    }
  }

  lemma LayoutReads(d: Decimal)
    ensures
      var (whole, fraction, exponent) := Shape(Digits(d.unscaled), d.scale);
      ParseNumeral(Layout(d)) == Some(Numeral(d.unscaled < 0, whole, fraction, exponent))
  {
    var digits := Digits(d.unscaled);
    TextReads(d.unscaled < 0, digits, d.scale);
    TextStartsWithDigit(digits, d.scale);
    SignReads(d.unscaled, Text(digits, d.scale));
  }

  /** The components of a print-out's parts are the decimal's. */
  lemma ShapeComponents(d: Decimal)
    ensures
      var (whole, fraction, exponent) := Shape(Digits(d.unscaled), d.scale);
      && AllDigits(whole) && AllDigits(fraction)
      && Components(Numeral(d.unscaled < 0, whole, fraction, exponent)) == (d.unscaled, d.scale)
  {
    DigitsRead(d.unscaled);
    ShapeFits(Digits(d.unscaled), d.scale);
  }

  lemma DigitsRead(n: int)
    ensures StringToNat(Digits(n)) == if n < 0 then -n else n
  {
    NatRoundTrip(if n < 0 then -n else n);
  }

  lemma ParseGives(s: string, n: Numeral, d: Decimal)
    requires ParseNumeral(s) == Some(n) && Components(n) == (d.unscaled, d.scale)
    ensures Read(s) == Some(d)
  {
  }

  /** Reading what was printed, by the grammar, recovers the unscaled value and the scale. */
  lemma RoundTrip(d: Decimal)
    ensures Read(Layout(d)) == Some(d)
  {
    LayoutReads(d);
    ShapeComponents(d);
    var (whole, fraction, exponent) := Shape(Digits(d.unscaled), d.scale);
    ParseGives(Layout(d), Numeral(d.unscaled < 0, whole, fraction, exponent), d);
  }

  /** Distinct decimals print differently, across all forms. */
  lemma PrintingIsInjective(d: Decimal, e: Decimal)
    requires Layout(d) == Layout(e)
    ensures d == e
  {
    RoundTrip(d);
    RoundTrip(e);
  }

  // ---- the number a numeral denotes ----

  /** `v` times ten to the power `e`. */
  function TimesTenTo(v: real, e: int): real
    decreases if e < 0 then -e else e
  {
    if e == 0 then v
    else if e > 0 then 10.0 * TimesTenTo(v, e - 1)
    else TimesTenTo(v, e + 1) / 10.0
  }

  lemma TimesTenToNext(v: real, e: int)
    ensures TimesTenTo(v, e + 1) == 10.0 * TimesTenTo(v, e)
  {
  }

  lemma {:induction false} TimesTenFirst(v: real, n: nat)
    ensures TimesTenTo(10.0 * v, n) == TimesTenTo(v, n + 1)
  {
    if n > 0 {
      TimesTenFirst(v, n - 1);
    }
  }

  lemma {:induction false} TimesTenToAdds(v: real, n: nat, e: int)
    ensures TimesTenTo(TimesTenTo(v, n), e) == TimesTenTo(v, n + e)
    decreases if e < 0 then -e else e
  {
    if e > 0 {
      TimesTenToAdds(v, n, e - 1);
      TimesTenToNext(v, n + e - 1);
    } else if e < 0 {
      TimesTenToAdds(v, n, e + 1);
      TimesTenToNext(v, n + e);
    }
  }

  lemma {:induction false} TimesTenToNegates(v: real, e: int)
    ensures TimesTenTo(-v, e) == -TimesTenTo(v, e)
    decreases if e < 0 then -e else e
  {
    if e > 0 {
      TimesTenToNegates(v, e - 1);
    } else if e < 0 {
      TimesTenToNegates(v, e + 1);
    }
  }

  /** The digits behind the point, by place value. */
  function FractionValue(s: string): real
    requires AllDigits(s)
  {
    if s == [] then 0.0 else (DigitValue(s[0]) as real + FractionValue(s[1..])) / 10.0
  }

  /** Place value before and behind the point, scaled by the exponent. */
  function Value(n: Numeral): real
    requires AllDigits(n.whole) && AllDigits(n.fraction)
  {
    var v := TimesTenTo(StringToNat(n.whole) as real + FractionValue(n.fraction), n.exponent);
    if n.negative then -v else v
  }

  lemma StringToNatAppend(s: string, c: char)
    requires AllDigits(s) && IsDigit(c)
    ensures StringToNat(s + [c]) == 10 * StringToNat(s) + DigitValue(c)
  {
    assert (s + [c])[..|s|] == s;
  }

  /** Moving the point behind the fraction multiplies by a power of ten. */
  lemma {:induction false} PointMoves(whole: string, fraction: string)
    requires AllDigits(whole) && AllDigits(fraction)
    ensures StringToNat(whole + fraction) as real ==
        TimesTenTo(StringToNat(whole) as real + FractionValue(fraction), |fraction|)
    decreases |fraction|
  {
    if fraction == [] {
      assert whole + fraction == whole;
    } else {
      var w, f := whole + [fraction[0]], fraction[1..];
      PointMoves(w, f);
      assert w + f == whole + fraction;
      StringToNatAppend(whole, fraction[0]);
      var v := StringToNat(whole) as real + FractionValue(fraction);
      assert StringToNat(w) as real + FractionValue(f) == 10.0 * v;
      TimesTenFirst(v, |f|);
    }
  }

  /** A numeral denotes its unscaled component times ten to the minus scale. */
  lemma ValueOfComponents(n: Numeral)
    requires AllDigits(n.whole) && AllDigits(n.fraction)
    ensures Value(n) == TimesTenTo(Components(n).0 as real, -Components(n).1)
  {
    var k := |n.fraction|;
    PointMoves(n.whole, n.fraction);
    TimesTenToAdds(StringToNat(n.whole) as real + FractionValue(n.fraction), k, n.exponent - k);
    TimesTenToNegates(StringToNat(n.whole + n.fraction) as real, n.exponent - k);
    assert -Components(n).1 == n.exponent - k;
  }

  /** The printed string denotes exactly the decimal's number. */
  lemma PrintsItsValue(d: Decimal)
    ensures ParseNumeral(Layout(d)).Some?
    ensures Value(ParseNumeral(Layout(d)).value) == TimesTenTo(d.unscaled as real, -(d.scale as int))
  {
    LayoutReads(d);
    ShapeComponents(d);
    var (whole, fraction, exponent) := Shape(Digits(d.unscaled), d.scale);
    var n := Numeral(d.unscaled < 0, whole, fraction, exponent);
    ValueOfComponents(n);
  }

  lemma {:induction false} TimesTenToPositive(v: real, e: int)
    requires v > 0.0
    ensures TimesTenTo(v, e) > 0.0
    decreases if e < 0 then -e else e
  {
    if e > 0 {
      TimesTenToPositive(v, e - 1);
    } else if e < 0 {
      TimesTenToPositive(v, e + 1);
    }
  }

  lemma {:induction false} TimesTenToGrows(v: real, a: int, b: int)
    requires v > 0.0 && a < b
    ensures TimesTenTo(v, a) < TimesTenTo(v, b)
    decreases b - a
  {
    TimesTenToNext(v, b - 1);
    TimesTenToPositive(v, b - 1);
    if a < b - 1 {
      TimesTenToGrows(v, a, b - 1);
    }
  }

  /** Different powers of ten tell apart every number but zero. */
  lemma TimesTenToDiffers(v: real, a: int, b: int)
    requires a != b
    ensures TimesTenTo(v, a) == TimesTenTo(v, b) <==> v == 0.0
    decreases v < 0.0
  {
    if v < 0.0 {
      TimesTenToDiffers(-v, a, b);
      TimesTenToNegates(v, a);
      TimesTenToNegates(v, b);
    } else if v > 0.0 {
      if a < b {
        TimesTenToGrows(v, a, b);
      } else {
        TimesTenToGrows(v, b, a);
      }
    } else {
      TimesTenToZero(a);
      TimesTenToZero(b);
    }
  }

  lemma {:induction false} TimesTenToZero(e: int)
    ensures TimesTenTo(0.0, e) == 0.0
    decreases if e < 0 then -e else e
  {
    if e > 0 {
      TimesTenToZero(e - 1);
    } else if e < 0 {
      TimesTenToZero(e + 1);
    }
  }

  /** A decimal made by the constructor from any scale denotes the number it was made for if
      and only if the scale is an int32 or the number is zero: other scales are cut silently. */
  lemma NewDecimalDenotesIff(unscaled: int, scale: int)
    ensures ParseNumeral(Layout(NewDecimal(unscaled, scale))).Some?
    ensures Value(ParseNumeral(Layout(NewDecimal(unscaled, scale))).value) == TimesTenTo(unscaled as real, -scale)
       <==> -0x8000_0000 <= scale < 0x8000_0000 || unscaled == 0
  {
    var d := NewDecimal(unscaled, scale);
    PrintsItsValue(d);
    if d.scale as int != scale {
      TimesTenToDiffers(unscaled as real, -(d.scale as int), -scale);
    }
  }

  /** The printed exponent is allowed if and only if the adjusted exponent is not too large. */
  lemma ExponentInRangeIff(d: Decimal)
    ensures ParseNumeral(Layout(d)).Some?
    ensures ExponentAllowed(ParseNumeral(Layout(d)).value.exponent)
       <==> |Digits(d.unscaled)| - d.scale as int - 1 <= 0x7fff_ffff || d.scale >= 0
  {
    LayoutReads(d);
  }

  /** So `BigDecimal(String)` reads back what was printed under exactly that condition, and
      refuses it otherwise. */
  lemma ParsesBackIff(d: Decimal)
    ensures Parse(Layout(d)) ==
            if |Digits(d.unscaled)| - d.scale as int - 1 <= 0x7fff_ffff || d.scale >= 0 then Some(d) else None
  {
    RoundTrip(d);
    ExponentInRangeIff(d);
  }

  /** Scientific notation is used exactly if the scale is negative or the adjusted exponent is
      below -6. */
  lemma ScientificIff(d: Decimal)
    ensures 'E' in Layout(d) <==> d.scale < 0 || |Digits(d.unscaled)| - d.scale as int - 1 < -6
  {
    var digits := Digits(d.unscaled);
    var text := Text(digits, d.scale);
    var (whole, fraction, exponent) := Shape(digits, d.scale);
    ShapeFits(digits, d.scale);
    SignificandReads(whole, fraction);
    assert Layout(d) == Sign(d.unscaled) + text;
    assert 'E' !in Sign(d.unscaled);
    if IsPlain(digits, d.scale) {
      assert text == Significand(whole, fraction);
    } else {
      assert text == Significand(whole, fraction) + "E" + Exponent(exponent);
      assert text[|Significand(whole, fraction)|] == 'E';
    }
  }

  /** In scientific notation there is one digit before the point, and the exponent is the
      adjusted one; in plain notation there are as many digits behind the point as the scale
      says, and before it the digits left over, or a single zero. */
  lemma FormPrinted(d: Decimal)
    ensures ParseNumeral(Layout(d)).Some?
    ensures
      var n, digits := ParseNumeral(Layout(d)).value, Digits(d.unscaled);
      if 'E' in Layout(d) then
        n.whole == digits[..1] && n.fraction == digits[1..] && n.exponent == |digits| - d.scale as int - 1
      else
        && n.exponent == 0 && |n.fraction| == d.scale
        && n.whole == if d.scale >= |digits| then "0" else digits[..|digits| - d.scale]
  {
    LayoutReads(d);
    ScientificIff(d);
    ShapeFits(Digits(d.unscaled), d.scale);
  }

  /** The exponent always carries its sign. */
  lemma ExponentSigned(d: Decimal)
    requires 'E' in Layout(d)
    ensures
      var rest := Split(Layout(d), 'E').1;
      rest.Some? && rest.value != [] && rest.value[0] in {'+', '-'}
  {
    var digits := Digits(d.unscaled);
    var (whole, fraction, exponent) := Shape(digits, d.scale);
    ScientificIff(d);
    ShapeFits(digits, d.scale);
    SignificandReads(whole, fraction);
    var front, back := Sign(d.unscaled) + Significand(whole, fraction), Exponent(exponent);
    AppendAssociates(Sign(d.unscaled), Significand(whole, fraction) + "E", back);
    AppendAssociates(Sign(d.unscaled), Significand(whole, fraction), "E");
    SplitFinds(front, 'E', back);
    ExponentStarts(exponent);
  }

  lemma ExponentStarts(e: int)
    requires e != 0
    ensures Exponent(e) != [] && Exponent(e)[0] in {'+', '-'}
  {
  }

  /** No number is printed with leading zeros. */
  lemma {:induction false} NoLeadingZero(n: nat)
    ensures n > 0 ==> NatToString(n)[0] != '0'
    ensures n == 0 ==> NatToString(n) == "0"
  {
    if n >= 10 {
      NoLeadingZero(n / 10);
    }
  }

  /** A decimal that is printed but not read back. */
  lemma SmallestScaleRefused()
    ensures Parse(Layout(Decimal(1, -0x8000_0000))) == None
  {
    ParsesBackIff(Decimal(1, -0x8000_0000));
    NatRoundTrip(1);
  }
}
