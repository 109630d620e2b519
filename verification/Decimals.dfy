/** Prices as decimal strings, computed on integers scaled by 10^4. */
module Decimals {
  import opened DecimalDigits
  import opened Divisibility

  const SCALE_DIGITS: nat := 4

  // ---- the shape of a decimal string ----

  predicate HasSign(s: string) {
    |s| > 0 && (s[0] == '-' || s[0] == '+')
  }

  function Unsigned(s: string): string {
    if HasSign(s) then s[1..] else s
  }

  /** Position of the first dot, or the length when there is none. */
  function DotIndex(s: string): (n: nat)
    ensures n <= |s|
    ensures forall i | 0 <= i < n :: s[i] != '.'
    ensures n < |s| ==> s[n] == '.'
  {
    if s == [] || s[0] == '.' then 0 else 1 + DotIndex(s[1..])
  }

  function IntPart(s: string): string {
    Unsigned(s)[..DotIndex(Unsigned(s))]
  }

  /** The digits after the dot, none when there is no dot. */
  function FracPart(s: string): string {
    var u := Unsigned(s);
    if DotIndex(u) == |u| then [] else u[DotIndex(u) + 1..]
  }

  /** An optional sign, at least one digit, and up to four more after a dot. */
  predicate IsDecimal(s: string) {
    && IntPart(s) != [] && AllDigits(IntPart(s)) && AllDigits(FracPart(s)) && |FracPart(s)| <= SCALE_DIGITS
    && (FracPart(s) == [] ==> DotIndex(Unsigned(s)) == |Unsigned(s)|)
  }

  type DecimalString = s: string | IsDecimal(s) witness "0"

  function DecimalPlaces(s: DecimalString): (n: nat)
    ensures n <= SCALE_DIGITS
  {
    |FracPart(s)|
  }

  /** Digits and, if there are any after it, a dot and more digits. */
  function Pointed(whole: string, frac: string): string {
    whole + (if frac == [] then [] else "." + frac)
  }

  function Spelled(negative: bool, whole: string, frac: string): string {
    if negative then "-" + Pointed(whole, frac) else Pointed(whole, frac)
  }

  lemma {:induction false} DotAfterDigits(whole: string, rest: string)
    requires AllDigits(whole) && (rest == [] || rest[0] == '.')
    ensures DotIndex(whole + rest) == |whole|
  {
    if whole == [] {
      assert whole + rest == rest;
    } else {
      assert IsDigit(whole[0]) && (whole + rest)[0] == whole[0];
      assert (whole + rest)[1..] == whole[1..] + rest;
      DotAfterDigits(whole[1..], rest);
    }
  }

  lemma UnsignedParts(whole: string, frac: string)
    requires whole != [] && AllDigits(whole) && AllDigits(frac)
    ensures var u := Pointed(whole, frac);
      && IsDigit(u[0]) && u[..DotIndex(u)] == whole
      && (if frac == [] then DotIndex(u) == |u| else DotIndex(u) < |u| && u[DotIndex(u) + 1..] == frac)
  {
    var rest := if frac == [] then [] else "." + frac;
    DotAfterDigits(whole, rest);
    assert (whole + rest)[0] == whole[0];
  }

  lemma PointedParts(whole: string, frac: string)
    requires whole != [] && AllDigits(whole) && AllDigits(frac)
    ensures var s := Pointed(whole, frac);
      Unsigned(s) == s && IntPart(s) == whole && FracPart(s) == frac && IsDigit(s[0])
    ensures frac == [] ==> DotIndex(Pointed(whole, frac)) == |Pointed(whole, frac)|
  {
    UnsignedParts(whole, frac);
  }

  lemma SignedParts(sign: char, whole: string, frac: string)
    requires whole != [] && AllDigits(whole) && AllDigits(frac) && (sign == '-' || sign == '+')
    ensures var s := [sign] + Pointed(whole, frac);
      Unsigned(s) == Pointed(whole, frac) && IntPart(s) == whole && FracPart(s) == frac && s[0] == sign
  {
    PointedParts(whole, frac);
    assert Unsigned([sign] + Pointed(whole, frac)) == Pointed(whole, frac);
  }

  lemma SpelledParts(negative: bool, whole: string, frac: string)
    requires whole != [] && AllDigits(whole) && AllDigits(frac) && |frac| <= SCALE_DIGITS
    ensures var s := Spelled(negative, whole, frac);
      IsDecimal(s) && IntPart(s) == whole && FracPart(s) == frac && (s[0] == '-' <==> negative) && s[0] != '+'
  {
    PointedParts(whole, frac);
    SignedParts('-', whole, frac);
  }

  // ---- scaled integers ----

  /** The magnitude in units of 10^-4. */
  function Magnitude(s: DecimalString): nat {
    Value(IntPart(s) + PadEnd(FracPart(s), SCALE_DIGITS))
  }

  function ToScaledInt(s: DecimalString): int {
    if s[0] == '-' then 0 - Magnitude(s) else Magnitude(s)
  }

  function Abs(x: int): nat {
    if x < 0 then -x else x
  }

  /** The digits of a magnitude, with at least one before the implied point. */
  function ScaledDigits(m: nat): (s: string)
    ensures |s| > SCALE_DIGITS && AllDigits(s)
  {
    PadStart(Digits(m), SCALE_DIGITS + 1)
  }

  function WholeDigits(m: nat): (s: string)
    ensures |s| > 0 && AllDigits(s)
  {
    var digits := ScaledDigits(m);
    digits[..|digits| - SCALE_DIGITS]
  }

  /** The fraction at the asked number of places: cut, or filled with zeros. */
  function FracDigits(m: nat, decimals: nat): (s: string)
    ensures |s| == decimals && AllDigits(s)
  {
    var digits := ScaledDigits(m);
    var full := digits[|digits| - SCALE_DIGITS..];
    PadEnd(if decimals < SCALE_DIGITS then full[..decimals] else full, decimals)
  }

  function FromScaledInt(scaled: int, decimals: nat): (s: string)
    ensures decimals <= SCALE_DIGITS ==> IsDecimal(s)
  {
    var m := Abs(scaled);
    if decimals <= SCALE_DIGITS then SpelledParts(scaled < 0, WholeDigits(m), FracDigits(m, decimals));
      Spelled(scaled < 0, WholeDigits(m), FracDigits(m, decimals))
    else Spelled(scaled < 0, WholeDigits(m), FracDigits(m, decimals))
  }

  lemma Powers()
    ensures Pow10(0) == 1 && Pow10(1) == 10 && Pow10(2) == 100 && Pow10(3) == 1000 && Pow10(4) == 10000
  {
  }

  /** The value is a whole number of units of the last written place. */
  predicate Exact(x: int, decimals: nat)
    requires decimals <= SCALE_DIGITS
  {
    OnGrid(x, Pow10(SCALE_DIGITS - decimals))
  }

  lemma DigitsSplit(m: nat)
    ensures var digits := ScaledDigits(m);
      Value(digits) == m && m == Value(WholeDigits(m)) * Pow10(SCALE_DIGITS) + Value(digits[|digits| - SCALE_DIGITS..])
  {
    var digits := ScaledDigits(m);
    ValueOfDigits(m);
    ValueOfPadded(Digits(m), SCALE_DIGITS + 1);
    assert digits == WholeDigits(m) + digits[|digits| - SCALE_DIGITS..];
    ValueOfConcat(WholeDigits(m), digits[|digits| - SCALE_DIGITS..]);
  }

  /** A whole part and a fraction as one number of the fraction's units. */
  function Joined(whole: nat, p: nat, frac: nat): nat {
    whole * p + frac
  }

  /** The digits kept and the digits cut. */
  lemma FracSplit(m: nat, decimals: nat, unit: nat) returns (cut: nat)
    requires decimals <= SCALE_DIGITS && unit == Pow10(SCALE_DIGITS - decimals)
    ensures cut < unit
    ensures m == Joined(Value(WholeDigits(m)), Pow10(decimals), Value(FracDigits(m, decimals))) * unit + cut
  {
    var full := ScaledDigits(m)[|ScaledDigits(m)| - SCALE_DIGITS..];
    DigitsSplit(m);
    assert FracDigits(m, decimals) == full[..decimals];
    cut := CutDigits(full, decimals, unit);
    Pow10Splits(decimals, SCALE_DIGITS - decimals);
    Combine(m, Value(WholeDigits(m)), Value(full), Value(FracDigits(m, decimals)), cut, Pow10(decimals), unit);
  }

  lemma CutDigits(full: string, decimals: nat, unit: nat) returns (cut: nat)
    requires AllDigits(full) && decimals <= |full| == SCALE_DIGITS && unit == Pow10(SCALE_DIGITS - decimals)
    ensures cut < unit && Value(full) == Value(full[..decimals]) * unit + cut
  {
    var kept, rest := full[..decimals], full[decimals..];
    assert full == kept + rest;
    ValueOfConcat(kept, rest);
    ValueBelow(rest);
    cut := Value(rest);
  }

  lemma Combine(m: nat, whole: nat, full: nat, kept: nat, cut: nat, p: nat, unit: nat)
    requires m == whole * Pow10(SCALE_DIGITS) + full && full == kept * unit + cut && Pow10(SCALE_DIGITS) == p * unit
    ensures m == Joined(whole, p, kept) * unit + cut
  {
    Regroup(whole, p, unit, kept);
  }

  lemma Regroup(whole: nat, p: nat, unit: nat, kept: nat)
    ensures Joined(whole, p, kept) * unit == whole * (p * unit) + kept * unit
  {
    assert (whole * p + kept) * unit == whole * p * unit + kept * unit;
  }

  /** What a decimal's parts are worth. */
  lemma MagnitudeOfParts(s: DecimalString, whole: nat, frac: nat, p: nat, unit: nat)
    requires whole == Value(IntPart(s)) && frac == Value(FracPart(s))
    requires p == Pow10(|FracPart(s)|) && unit == Pow10(SCALE_DIGITS - |FracPart(s)|)
    ensures Magnitude(s) == Joined(whole, p, frac) * unit
  {
    ValueOfPadded(FracPart(s), SCALE_DIGITS);
    ValueOfConcat(IntPart(s), PadEnd(FracPart(s), SCALE_DIGITS));
    Pow10Splits(|FracPart(s)|, SCALE_DIGITS - |FracPart(s)|);
    Regroup(whole, p, unit, frac);
  }

  /** Printing at some places and reading back cuts the value towards zero to those places. */
  lemma PrintThenRead(scaled: int, decimals: nat)
    requires decimals <= SCALE_DIGITS
    ensures var text := FromScaledInt(scaled, decimals);
      && DecimalPlaces(text) == decimals
      && Magnitude(text) == Abs(scaled) - Abs(scaled) % Pow10(SCALE_DIGITS - decimals)
      && (text[0] == '-' <==> scaled < 0)
  {
    var m, unit, text := Abs(scaled), Pow10(SCALE_DIGITS - decimals), FromScaledInt(scaled, decimals);
    SpelledParts(scaled < 0, WholeDigits(m), FracDigits(m, decimals));
    var whole, frac, p := Value(WholeDigits(m)), Value(FracDigits(m, decimals)), Pow10(decimals);
    MagnitudeOfParts(text, whole, frac, p, unit);
    var cut := FracSplit(m, decimals, unit);
    CutOff(m, unit, Joined(whole, p, frac), cut, Magnitude(text));
  }

  lemma CutOff(m: nat, unit: nat, q: nat, cut: nat, kept: nat)
    requires m == q * unit + cut && cut < unit && kept == q * unit
    ensures kept == m - m % unit
  {
    ModUnique(m, unit, q, cut);
  }

  /** A decimal's value is exact at the places it is written with. */
  lemma WrittenExactly(s: DecimalString)
    ensures Exact(ToScaledInt(s), DecimalPlaces(s))
  {
    var whole, frac, d := Value(IntPart(s)), Value(FracPart(s)), |FracPart(s)|;
    var p, unit := Pow10(d), Pow10(SCALE_DIGITS - d);
    MagnitudeOfParts(s, whole, frac, p, unit);
    MultipleOnGrid(Joined(whole, p, frac), unit);
    OnGridNegated(Magnitude(s), unit);
  }

  /** Printing and reading back gives the value exactly when the places hold it. */
  lemma RoundTripsExactlyWhen(scaled: int, decimals: nat)
    requires decimals <= SCALE_DIGITS
    ensures ToScaledInt(FromScaledInt(scaled, decimals)) == scaled <==> Exact(scaled, decimals)
  {
    var text := FromScaledInt(scaled, decimals);
    PrintThenRead(scaled, decimals);
    KeptExactlyWhen(scaled, Pow10(SCALE_DIGITS - decimals), Magnitude(text));
  }

  lemma KeptExactlyWhen(x: int, unit: nat, kept: nat)
    requires unit > 0 && kept == Abs(x) - Abs(x) % unit
    ensures kept == Abs(x) <==> OnGrid(x, unit)
  {
    if OnGrid(x, unit) {
      OnGridNegated(x, unit);
    }
    if OnGrid(Abs(x), unit) {
      OnGridNegated(Abs(x), unit);
    }
  }

  lemma PrintsExactly(text: DecimalString, scaled: int, decimals: nat)
    requires decimals <= SCALE_DIGITS && Exact(scaled, decimals) && text == FromScaledInt(scaled, decimals)
    ensures ToScaledInt(text) == scaled && DecimalPlaces(text) == decimals
  {
    RoundTripsExactlyWhen(scaled, decimals);
    PrintThenRead(scaled, decimals);
  }

  lemma ExactAtMorePlaces(x: int, fewer: nat, more: nat)
    requires fewer <= more <= SCALE_DIGITS && Exact(x, fewer)
    ensures Exact(x, more)
  {
    Pow10Splits(more - fewer, SCALE_DIGITS - more);
    OnFinerGrid(x, Pow10(SCALE_DIGITS - fewer), Pow10(more - fewer), Pow10(SCALE_DIGITS - more));
  }

  // ---- operations ----

  function Compare(a: DecimalString, b: DecimalString): (r: int)
    ensures r == -1 || r == 0 || r == 1
  {
    var diff := ToScaledInt(a) - ToScaledInt(b);
    if diff < 0 then -1 else if diff > 0 then 1 else 0
  }

  function Max(a: nat, b: nat): nat {
    if a >= b then a else b
  }

  /** The difference, at the larger number of places. */
  function Subtract(a: DecimalString, b: DecimalString): (r: DecimalString)
  {
    FromScaledInt(ToScaledInt(a) - ToScaledInt(b), Max(DecimalPlaces(a), DecimalPlaces(b)))
  }

  /** Subtraction loses nothing. */
  lemma SubtractIsExact(a: DecimalString, b: DecimalString)
    ensures ToScaledInt(Subtract(a, b)) == ToScaledInt(a) - ToScaledInt(b)
    ensures DecimalPlaces(Subtract(a, b)) == Max(DecimalPlaces(a), DecimalPlaces(b))
  {
    var d := Max(DecimalPlaces(a), DecimalPlaces(b));
    WrittenAtMorePlaces(a, d);
    WrittenAtMorePlaces(b, d);
    PrintsDifference(Subtract(a, b), ToScaledInt(a), ToScaledInt(b), d);
  }

  lemma WrittenAtMorePlaces(a: DecimalString, d: nat)
    requires DecimalPlaces(a) <= d <= SCALE_DIGITS
    ensures Exact(ToScaledInt(a), d)
  {
    WrittenExactly(a);
    ExactAtMorePlaces(ToScaledInt(a), DecimalPlaces(a), d);
  }

  lemma PrintsDifference(text: DecimalString, x: int, y: int, d: nat)
    requires d <= SCALE_DIGITS && Exact(x, d) && Exact(y, d) && text == FromScaledInt(x - y, d)
    ensures ToScaledInt(text) == x - y && DecimalPlaces(text) == d
  {
    OnGridSum(x, y, Pow10(SCALE_DIGITS - d));
    PrintsExactly(text, x - y, d);
  }

  /** Comparing is the sign of the printed difference: two spellings of one value compare equal. */
  lemma CompareIsSignOfDifference(a: DecimalString, b: DecimalString)
    ensures Compare(a, b) == 0 <==> ToScaledInt(Subtract(a, b)) == 0
    ensures Compare(a, b) == 1 <==> ToScaledInt(Subtract(a, b)) > 0
    ensures Compare(a, b) == -Compare(b, a)
  {
    SubtractIsExact(a, b);
  }

  const MAX_SAFE_INTEGER: nat := 9_007_199_254_740_991

  datatype Product = UnsafeQuantity | Product(text: DecimalString)

  function MultiplyByQuantity(value: DecimalString, quantity: int): Product {
    if !(0 - MAX_SAFE_INTEGER <= quantity <= MAX_SAFE_INTEGER) then UnsafeQuantity
    else Product(FromScaledInt(ToScaledInt(value) * quantity, DecimalPlaces(value)))
  }

  /** So does multiplying by a whole number, which never needs another place. */
  lemma MultiplyIsExact(value: DecimalString, quantity: int)
    ensures MultiplyByQuantity(value, quantity).Product?
      <==> -0x1f_ffff_ffff_ffff <= quantity <= 0x1f_ffff_ffff_ffff
    ensures var p := MultiplyByQuantity(value, quantity);
      p.Product? ==>
        ToScaledInt(p.text) == ToScaledInt(value) * quantity && DecimalPlaces(p.text) == DecimalPlaces(value)
  {
    if MultiplyByQuantity(value, quantity).Product? {
      WrittenExactly(value);
      PrintsProduct(MultiplyByQuantity(value, quantity).text, ToScaledInt(value), quantity, DecimalPlaces(value));
    }
  }

  lemma PrintsProduct(text: DecimalString, x: int, k: int, d: nat)
    requires d <= SCALE_DIGITS && Exact(x, d) && text == FromScaledInt(x * k, d)
    ensures ToScaledInt(text) == x * k && DecimalPlaces(text) == d
  {
    MultipleOfMultiple(x, k, Pow10(SCALE_DIGITS - d));
    PrintsExactly(text, x * k, d);
  }

  lemma MultipleOfMultiple(x: int, k: int, unit: nat)
    requires unit > 0 && OnGrid(x, unit)
    ensures OnGrid(x * k, unit)
  {
    assert x == x / unit * unit;
    assert x * k == x / unit * k * unit;
    MultipleOnGrid(x / unit * k, unit);
  }
}
