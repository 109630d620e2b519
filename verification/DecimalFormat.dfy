/** Prices and percentages as text for display. */
module DecimalFormat {
  import opened DecimalDigits
  import opened Decimals

  // ---- plain prices ----

  /** The value at some places, with an optional plus sign on what is above zero. */
  function Format(value: DecimalString, decimals: nat, sign: bool): string {
    var text := FromScaledInt(ToScaledInt(value), decimals);
    if sign && ToScaledInt(value) > 0 then "+" + text else text
  }

  /** The default: as many places as the value is written with. */
  function FormatPlain(value: DecimalString): string {
    Format(value, DecimalPlaces(value), false)
  }

  /** At any of the places a price can have, the text reads as the value cut towards zero, with a minus sign exactly
      on what is below zero and a plus sign exactly where one is asked for on what is above. */
  lemma FormatReads(value: DecimalString, decimals: nat, sign: bool)
    requires decimals <= SCALE_DIGITS
    ensures var text, x := Format(value, decimals, sign), ToScaledInt(value);
      && IsDecimal(text) && DecimalPlaces(text) == decimals
      && Magnitude(text) == Abs(x) - Abs(x) % Pow10(SCALE_DIGITS - decimals)
      && (text[0] == '-' <==> x < 0) && (text[0] == '+' <==> sign && x > 0)
  {
    var x := ToScaledInt(value);
    var whole, frac := WholeDigits(Abs(x)), FracDigits(Abs(x), decimals);
    PrintThenRead(x, decimals);
    SpelledParts(x < 0, whole, frac);
    if x >= 0 {
      SignedParts('+', whole, frac);
      SamePartsSameMagnitude("+" + Pointed(whole, frac), Pointed(whole, frac));
    }
  }

  lemma SamePartsSameMagnitude(s: string, t: DecimalString)
    requires IntPart(s) == IntPart(t) && FracPart(s) == FracPart(t)
    requires Unsigned(s) == Unsigned(t)
    ensures IsDecimal(s) && Magnitude(s) == Magnitude(t)
  {
  }

  /** No plus sign, no spare leading zero, and no minus sign on zero. */
  predicate Canonical(s: DecimalString) {
    s[0] != '+' && NoLeadingZero(IntPart(s)) && (s[0] == '-' ==> ToScaledInt(s) != 0)
  }

  lemma WholeDigitsAreCanonical(m: nat)
    ensures NoLeadingZero(WholeDigits(m))
  {
    ValueOfDigits(m);
    var digits := ScaledDigits(m);
    assert |Digits(0)| == 1;
    if |Digits(m)| > SCALE_DIGITS {
      assert digits == Digits(m);
    }
  }

  /** A number below 10^k has at most k digits. */
  lemma {:induction false} DigitsLength(n: nat, k: nat)
    requires k > 0 && n < Pow10(k)
    ensures |Digits(n)| <= k
    decreases k
  {
    if k == 1 {
      assert Pow10(0) == 1;
      assert n < 10;
    } else if n >= 10 {
      assert n / 10 < Pow10(k - 1);
      DigitsLength(n / 10, k - 1);
    }
  }

  /** A canonical whole part followed by four digits is the spelling the magnitude is printed with. */
  lemma CanonicalDigits(whole: string, frac: string)
    requires AllDigits(whole) && AllDigits(frac) && NoLeadingZero(whole) && |frac| == SCALE_DIGITS
    ensures ScaledDigits(Value(whole + frac)) == whole + frac
  {
    var s := whole + frac;
    var m := Value(s);
    ValueOfDigits(m);
    ValueOfPadded(Digits(m), SCALE_DIGITS + 1);
    if whole[0] != '0' {
      assert NoLeadingZero(s);
      DigitsOfValue(s);
    } else {
      ValueBelow(s);
      DigitsLength(m, |s|);
      SameValueSameDigits(ScaledDigits(m), s);
    }
  }

  lemma FormatIsCanonical(value: DecimalString)
    ensures IsDecimal(FormatPlain(value)) && Canonical(FormatPlain(value))
  {
    var d, x := DecimalPlaces(value), ToScaledInt(value);
    WrittenExactly(value);
    PrintsExactly(FormatPlain(value), x, d);
    SpelledParts(x < 0, WholeDigits(Abs(x)), FracDigits(Abs(x), d));
    WholeDigitsAreCanonical(Abs(x));
  }

  lemma CanonicalDigitsSplit(value: DecimalString)
    requires NoLeadingZero(IntPart(value))
    ensures WholeDigits(Magnitude(value)) == IntPart(value)
    ensures FracDigits(Magnitude(value), DecimalPlaces(value)) == FracPart(value)
  {
    var padded := PadEnd(FracPart(value), SCALE_DIGITS);
    CanonicalDigits(IntPart(value), padded);
    assert (IntPart(value) + padded)[..|IntPart(value)|] == IntPart(value);
    assert (IntPart(value) + padded)[|IntPart(value)|..] == padded;
    assert padded[..DecimalPlaces(value)] == FracPart(value);
  }

  lemma CanonicalFormatsAsIs(value: DecimalString)
    requires Canonical(value)
    ensures FormatPlain(value) == value
  {
    CanonicalDigitsSplit(value);
    PartsSpell(value);
  }

  /** Formatting leaves a price as it is written exactly when it is written canonically. */
  lemma FormatKeepsExactlyCanonical(value: DecimalString)
    ensures FormatPlain(value) == value <==> Canonical(value)
  {
    FormatIsCanonical(value);
    if Canonical(value) {
      CanonicalFormatsAsIs(value);
    }
  }

  /** A decimal without a plus sign is its sign and parts put together. */
  lemma PartsSpell(s: DecimalString)
    requires s[0] != '+'
    ensures s == Spelled(s[0] == '-', IntPart(s), FracPart(s))
  {
    var u := Unsigned(s);
    var k := DotIndex(u);
    assert u == Pointed(IntPart(s), FracPart(s));
  }
}
