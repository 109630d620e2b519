/** Percentage changes and compact magnitudes, rounded half away from zero on exact integers. */
module DecimalDisplay {
  import opened DecimalDigits
  import opened Decimals

  /** The nearest whole number of `d`s in `n`, halves up. */
  ghost predicate Nearest(n: nat, d: nat, units: nat) {
    2 * (units * d) <= 2 * n + d < 2 * (units * d) + 2 * d
  }

  // ---- percentage change ----

  function ZeroText(decimals: nat): string {
    Pointed("0", Zeros(decimals))
  }

  /** The digits of a number of units before the last `decimals` of them, of which there is at least one. */
  function FixedWhole(units: nat, decimals: nat): (s: string)
    ensures |s| > 0 && AllDigits(s)
  {
    var digits := PadStart(Digits(units), decimals + 1);
    digits[..|digits| - decimals]
  }

  function FixedFrac(units: nat, decimals: nat): (s: string)
    ensures |s| == decimals && AllDigits(s)
  {
    var digits := PadStart(Digits(units), decimals + 1);
    digits[|digits| - decimals..]
  }

  function FixedText(units: nat, decimals: nat): string {
    Pointed(FixedWhole(units, decimals), FixedFrac(units, decimals))
  }

  function RoundedUnits(n: nat, d: nat): nat
    requires d > 0
  {
    n / d + (if n % d * 2 >= d then 1 else 0)
  }

  /** The change from `start` to `end` in percent, in units of 10^-decimals, before rounding, times `start`. */
  function PercentNumerator(start: DecimalString, end: DecimalString, decimals: nat): int {
    (ToScaledInt(end) - ToScaledInt(start)) * 100 * Pow10(decimals)
  }

  function PercentChangeText(start: DecimalString, end: DecimalString, decimals: nat): string {
    var base := ToScaledInt(start);
    if base == 0 then ZeroText(decimals)
    else
      var numerator := PercentNumerator(start, end, decimals);
      var negative := (numerator < 0) != (base < 0);
      var units := RoundedUnits(Abs(numerator), Abs(base));
      if units == 0 then ZeroText(decimals) else [if negative then '-' else '+'] + FixedText(units, decimals)
  }

  lemma RoundsToNearest(n: nat, d: nat)
    requires d > 0
    ensures Nearest(n, d, RoundedUnits(n, d))
  {
    var q, r := n / d, n % d;
    assert n == q * d + r;
    assert (q + 1) * d == q * d + d;
  }

  /** What a text of digits and dots is worth, in units of its last place. */
  function UnitsOf(text: string): nat
    requires AllDigits(IntPart(text)) && AllDigits(FracPart(text))
  {
    Value(IntPart(text) + FracPart(text))
  }

  ghost predicate ReadsAs(text: string, units: nat, decimals: nat) {
    && AllDigits(IntPart(text)) && AllDigits(FracPart(text)) && IntPart(text) != []
    && |FracPart(text)| == decimals && UnitsOf(text) == units
  }

  /** Digits around a dot read as the digits together, with or without a sign. */
  lemma PointedReads(whole: string, frac: string, sign: char)
    requires whole != [] && AllDigits(whole) && AllDigits(frac) && (sign == '-' || sign == '+')
    ensures AllDigits(whole + frac) && ReadsAs(Pointed(whole, frac), Value(whole + frac), |frac|)
    ensures ReadsAs([sign] + Pointed(whole, frac), Value(whole + frac), |frac|)
    ensures IsDigit(Pointed(whole, frac)[0])
  {
    PointedParts(whole, frac);
    SignedParts(sign, whole, frac);
    assert forall i | 0 <= i < |whole + frac| :: IsDigit((whole + frac)[i]);
  }

  lemma FixedTextReads(units: nat, decimals: nat, sign: char)
    requires sign == '-' || sign == '+'
    ensures ReadsAs(FixedText(units, decimals), units, decimals) && IsDigit(FixedText(units, decimals)[0])
    ensures ReadsAs([sign] + FixedText(units, decimals), units, decimals)
  {
    FixedValue(units, decimals);
    PointedReads(FixedWhole(units, decimals), FixedFrac(units, decimals), sign);
  }

  lemma FixedValue(units: nat, decimals: nat)
    ensures var both := FixedWhole(units, decimals) + FixedFrac(units, decimals);
      AllDigits(both) && Value(both) == units
  {
    var digits := PadStart(Digits(units), decimals + 1);
    ValueOfDigits(units);
    ValueOfPadded(Digits(units), decimals + 1);
    assert digits == FixedWhole(units, decimals) + FixedFrac(units, decimals);
  }

  lemma ZeroTextReads(decimals: nat)
    ensures ReadsAs(ZeroText(decimals), 0, decimals) && IsDigit(ZeroText(decimals)[0])
  {
    PointedReads("0", Zeros(decimals), '+');
    ValueOfZeros(decimals + 1);
    assert "0" + Zeros(decimals) == Zeros(decimals + 1);
  }

  /** The text reads as the nearest whole number of `base`s in `n`, halves away from zero; it is signed unless it is
      zero, as the quotient is. With a zero base it is zero. */
  ghost predicate ShowsQuotient(text: string, n: int, base: int, decimals: nat) {
    exists units: nat ::
      && ReadsAs(text, units, decimals)
      && (if base == 0 then units == 0 else Nearest(Abs(n), Abs(base), units))
      && (units == 0 <==> IsDigit(text[0]))
      && (units > 0 ==> text[0] == (if (n < 0) == (base < 0) then '+' else '-'))
  }

  lemma PercentTextShows(start: DecimalString, end: DecimalString, decimals: nat)
    ensures ShowsQuotient(PercentChangeText(start, end, decimals), PercentNumerator(start, end, decimals),
                          ToScaledInt(start), decimals)
  {
    var base, n := ToScaledInt(start), PercentNumerator(start, end, decimals);
    ZeroTextReads(decimals);
    if base == 0 {
      assert ReadsAs(PercentChangeText(start, end, decimals), 0, decimals);
    } else {
      var units := RoundedUnits(Abs(n), Abs(base));
      RoundsToNearest(Abs(n), Abs(base));
      FixedTextReads(units, decimals, if (n < 0) == (base < 0) then '+' else '-');
      assert ReadsAs(PercentChangeText(start, end, decimals), units, decimals);
    }
  }

  /** The text is the nearest value to the exact change in percent, which is a hundred times the change over the base:
      halves away from zero, signed as the exact change unless it is zero, and zero from a zero base. */
  lemma PercentTextIsNearest(start: DecimalString, end: DecimalString, decimals: nat)
    ensures ShowsQuotient(PercentChangeText(start, end, decimals),
                          (ToScaledInt(end) - ToScaledInt(start)) * 100 * Pow10(decimals), ToScaledInt(start), decimals)
  {
    PercentTextShows(start, end, decimals);
  }
}
