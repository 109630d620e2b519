/** Magnitudes for display at a glance: at most a thousand of a unit, and two decimals. */
module CompactFormat {
  import opened DecimalDigits
  import opened DecimalDisplay
  import opened DecimalFormat
  import opened Decimals
  import opened Divisibility

  const ONE: nat := 10_000
  const UNITS: seq<(nat, char)> := [(1_000_000_000, 'B'), (1_000_000, 'M'), (1_000, 'K')]

  /** A whole number, or hundredths of a unit. */
  datatype Compact = Plain(whole: nat) | InUnit(hundredths: nat, suffix: char)

  /** Hundredths of a unit in a scaled magnitude, halves up; the divisor is the unit, scaled. */
  function Hundredths(m: nat, divisor: nat): nat
    requires divisor > 0
  {
    (m * 100 + divisor / 2) / divisor
  }

  /** The largest unit that the magnitude rounds to at least one of. */
  function Chosen(m: nat): Compact {
    if Hundredths(m, 1_000_000_000 * ONE) >= 100 then InUnit(Hundredths(m, 1_000_000_000 * ONE), 'B')
    else if Hundredths(m, 1_000_000 * ONE) >= 100 then InUnit(Hundredths(m, 1_000_000 * ONE), 'M')
    else if Hundredths(m, 1_000 * ONE) >= 100 then InUnit(Hundredths(m, 1_000 * ONE), 'K')
    else Plain((m + ONE / 2) / ONE)
  }

  /** What is shown is at least one of its unit and, while there is a larger unit, less than a thousand of it;
      it is the nearest such value. */
  lemma MantissaInRange(m: nat)
    ensures var c := Chosen(m);
      match c
      case Plain(n) => n <= 995 && Nearest(m, ONE, n)
      case InUnit(h, s) =>
        && h >= 100 && (s != 'B' ==> h < 100_000)
        && Nearest(m * 100, (if s == 'B' then 1_000_000_000 else if s == 'M' then 1_000_000 else 1_000) * ONE, h)
  {
    NearestUnit(m, ONE);
    WholeBelowThousand(m);
    NearestUnit(m * 100, 1_000 * ONE);
    BelowThousand(m, 1_000 * ONE);
    NearestUnit(m * 100, 1_000_000 * ONE);
    BelowThousand(m, 1_000_000 * ONE);
    NearestUnit(m * 100, 1_000_000_000 * ONE);
  }

  lemma WholeBelowThousand(m: nat)
    ensures Hundredths(m, 1_000 * ONE) < 100 ==> (m + ONE / 2) / ONE <= 995
  {
    QuotientBelow(m * 100 + 500 * ONE, 1_000 * ONE, 100);
    QuotientBelow(m + ONE / 2, ONE, 996);
  }

  lemma NearestUnit(n: nat, d: nat)
    requires d > 0 && d % 2 == 0
    ensures Nearest(n, d, (n + d / 2) / d)
  {
    assert n + d / 2 == (n + d / 2) / d * d + (n + d / 2) % d;
  }

  /** What does not round to one of the next unit rounds to less than a thousand of this one. */
  lemma BelowThousand(m: nat, d: nat)
    requires d > 0
    ensures Hundredths(m, 1_000 * d) < 100 ==> Hundredths(m, d) < 100_000
  {
    QuotientBelow(m * 100 + 500 * d, 1_000 * d, 100);
    QuotientBelow(m * 100 + d / 2, d, 100_000);
  }

  lemma QuotientBelow(n: nat, d: nat, k: nat)
    requires d > 0
    ensures n / d < k <==> n < k * d
  {
    assert n == n / d * d + n % d;
    if n / d < k {
      MultiplesInOrder(n / d + 1, k, d);
    } else {
      MultiplesInOrder(k, n / d, d);
    }
  }

  /** Digits without the zeros they end in. */
  function TrimZeros(s: string): (r: string)
    requires AllDigits(s)
    ensures AllDigits(r) && |r| <= |s|
  {
    if s != [] && s[|s| - 1] == '0' then TrimZeros(s[..|s| - 1]) else s
  }

  lemma {:induction false} TrimThenPad(s: string, width: nat)
    requires AllDigits(s) && |s| <= width
    ensures PadEnd(TrimZeros(s), width) == PadEnd(s, width)
    decreases |s|
  {
    if s != [] && s[|s| - 1] == '0' {
      TrimThenPad(s[..|s| - 1], width);
      assert PadEnd(s, width) == PadEnd(s[..|s| - 1], width);
    }
  }

  /** The two decimals of a mantissa. */
  function Fraction(h: nat, fixedFraction: bool): (s: string)
    ensures AllDigits(s) && |s| <= 2
  {
    DigitsLength(h % 100, 2);
    var padded := PadStart(Digits(h % 100), 2);
    if fixedFraction then padded else TrimZeros(padded)
  }

  /** The number part of the text, without sign or suffix. */
  function Mantissa(c: Compact, fixedFraction: bool): string {
    match c
    case Plain(n) => Digits(n)
    case InUnit(h, _) => Pointed(Digits(h / 100), Fraction(h, fixedFraction))
  }

  function Suffix(c: Compact): string {
    match c
    case Plain(_) => []
    case InUnit(_, s) => [s]
  }

  /** Reads the number part back, in units of 10^-4 of the unit shown. */
  lemma MantissaReads(c: Compact, fixedFraction: bool)
    ensures var s := Mantissa(c, fixedFraction);
      && IsDecimal(s) && IsDigit(s[0])
      && ToScaledInt(s) == (match c case Plain(n) => n * ONE case InUnit(h, _) => h * 100)
  {
    match c
    case Plain(n) =>
      PlainReads(n);
    case InUnit(h, _) =>
      var whole, frac := Digits(h / 100), Fraction(h, fixedFraction);
      PointedParts(whole, frac);
      FractionValue(h, fixedFraction);
      ValueOfDigits(h / 100);
      ValueOfConcat(whole, PadEnd(frac, SCALE_DIGITS));
      Powers();
  }

  lemma PlainReads(n: nat)
    ensures IsDecimal(Digits(n)) && IsDigit(Digits(n)[0]) && ToScaledInt(Digits(n)) == n * ONE
  {
    assert Digits(n) == Pointed(Digits(n), []);
    PointedParts(Digits(n), []);
    ValueOfDigits(n);
    ValueOfZeros(SCALE_DIGITS);
    ValueOfConcat(Digits(n), PadEnd([], SCALE_DIGITS));
    assert PadEnd([], SCALE_DIGITS) == Zeros(SCALE_DIGITS);
    Powers();
  }

  lemma FractionValue(h: nat, fixedFraction: bool)
    ensures Value(PadEnd(Fraction(h, fixedFraction), SCALE_DIGITS)) == h % 100 * 100
  {
    DigitsLength(h % 100, 2);
    var padded := PadStart(Digits(h % 100), 2);
    ValueOfDigits(h % 100);
    ValueOfPadded(Digits(h % 100), 2);
    ValueOfPadded(padded, SCALE_DIGITS);
    TrimThenPad(padded, SCALE_DIGITS);
    Powers();
  }

  function Body(c: Compact, fixedFraction: bool): string {
    Mantissa(c, fixedFraction) + Suffix(c)
  }

  /** The text: a minus sign on what is below zero and does not round to it. */
  function CompactText(value: DecimalString, fixedFraction: bool): string {
    var body := Body(Chosen(Abs(ToScaledInt(value))), fixedFraction);
    if ToScaledInt(value) < 0 && body != "0" then "-" + body else body
  }

  // ---- reading the text back ----

  /** What the letter a text ends in stands for; one, when it ends in a digit. */
  function UnitOf(text: string): nat
    requires text != []
  {
    match text[|text| - 1]
    case 'B' => 1_000_000_000
    case 'M' => 1_000_000
    case 'K' => 1_000
    case _ => 1
  }

  /** The text without its sign and its letter. */
  function NumberOf(text: string): string
    requires text != []
  {
    var body := if text[0] == '-' then text[1..] else text;
    if UnitOf(text) > 1 && body != [] then body[..|body| - 1] else body
  }

  /** What is shown, in units of 10^-4 of `unit`, is the nearest whole number, or the nearest hundredth of a unit. */
  ghost predicate ShowsNearest(m: nat, shown: nat, unit: nat) {
    if unit == 1 then shown % ONE == 0 && Nearest(m, ONE, shown / ONE)
    else shown % 100 == 0 && Nearest(m * 100, unit * ONE, shown / 100) && shown >= ONE
  }

  /** The largest unit may hold any number; the others less than a thousand. */
  ghost predicate ShowsInUnit(m: nat, shown: nat, unit: nat) {
    ShowsNearest(m, shown, unit) && (unit < 1_000_000_000 ==> shown < 1_000 * ONE)
  }

  lemma ChosenShows(m: nat, fixedFraction: bool)
    ensures var c := Chosen(m);
      && IsDecimal(Mantissa(c, fixedFraction)) && IsDigit(Mantissa(c, fixedFraction)[0])
      && ShowsInUnit(m, ShownBy(c), UnitOfCompact(c)) && ToScaledInt(Mantissa(c, fixedFraction)) == ShownBy(c)
      && (c.InUnit? ==> c.suffix in {'B', 'M', 'K'} && c.hundredths >= 100)
      && (c == Plain(0) <==> ShownBy(c) == 0)
  {
    MantissaInRange(m);
    MantissaReads(Chosen(m), fixedFraction);
  }

  function ShownBy(c: Compact): nat {
    match c
    case Plain(n) => n * ONE
    case InUnit(h, _) => h * 100
  }

  /** The whole text reads back: its letter says the unit, its number the nearest value in it, at least one of the
      unit and, below the largest one, less than a thousand of it; its sign is the value's unless it shows zero. */
  lemma CompactReads(value: DecimalString, fixedFraction: bool)
    ensures CompactText(value, fixedFraction) != []
    ensures var text, m := CompactText(value, fixedFraction), Abs(ToScaledInt(value));
      var unit, number := UnitOf(text), NumberOf(text);
      && IsDecimal(number) && IsDigit(number[0]) && ShowsInUnit(m, ToScaledInt(number), unit)
      && (text[0] == '-' <==> ToScaledInt(value) < 0 && ToScaledInt(number) != 0)
  {
    var c := Chosen(Abs(ToScaledInt(value)));
    ChosenShows(Abs(ToScaledInt(value)), fixedFraction);
    BodyParts(c, fixedFraction);
  }

  lemma BodyParts(c: Compact, fixedFraction: bool)
    requires c.InUnit? ==> c.suffix in {'B', 'M', 'K'} && c.hundredths >= 100
    ensures var body := Body(c, fixedFraction);
      && body != [] && IsDigit(body[0])
      && UnitOf(body) == UnitOfCompact(c) && NumberOf(body) == Mantissa(c, fixedFraction)
      && UnitOf("-" + body) == UnitOfCompact(c) && NumberOf("-" + body) == Mantissa(c, fixedFraction)
      && (body == "0" <==> c == Plain(0))
  {
    MantissaReads(c, fixedFraction);
    var body, number := Body(c, fixedFraction), Mantissa(c, fixedFraction);
    assert ("-" + body)[1..] == body && ("-" + body)[|body|] == body[|body| - 1];
    match c {
      case Plain(n) =>
        assert body == number;
        assert IsDigit(number[|number| - 1]);
        ZeroAlone(n);
      case InUnit(h, suffix) =>
        assert body[..|body| - 1] == number && body[|body| - 1] == suffix;
    }
  }

  function UnitOfCompact(c: Compact): nat {
    match c
    case Plain(_) => 1
    case InUnit(_, s) => if s == 'B' then 1_000_000_000 else if s == 'M' then 1_000_000 else 1_000
  }

  lemma ZeroAlone(n: nat)
    ensures Digits(n) == "0" <==> n == 0
  {
    ValueOfDigits(n);
  }

  lemma {:induction false} TrimmedEnd(s: string)
    requires AllDigits(s)
    ensures TrimZeros(s) != [] ==> TrimZeros(s)[|TrimZeros(s)| - 1] != '0'
    decreases |s|
  {
    if s != [] && s[|s| - 1] == '0' {
      TrimmedEnd(s[..|s| - 1]);
    }
  }

  lemma FractionOfUnit(h: nat, suffix: char, fixedFraction: bool)
    ensures var frac := FracPart(Mantissa(InUnit(h, suffix), fixedFraction));
      if fixedFraction then |frac| == 2 else frac == [] || frac[|frac| - 1] != '0'
  {
    PointedParts(Digits(h / 100), Fraction(h, fixedFraction));
    DigitsLength(h % 100, 2);
    TrimmedEnd(PadStart(Digits(h % 100), 2));
  }

  /** A number in a unit has two decimals when they are asked for, and otherwise no trailing zero. */
  lemma CompactDecimals(value: DecimalString, fixedFraction: bool)
    requires CompactText(value, fixedFraction) != []
    ensures var text := CompactText(value, fixedFraction);
      var frac := FracPart(NumberOf(text));
      UnitOf(text) > 1 ==> if fixedFraction then |frac| == 2 else frac == [] || frac[|frac| - 1] != '0'
  {
    var c := Chosen(Abs(ToScaledInt(value)));
    ChosenShows(Abs(ToScaledInt(value)), fixedFraction);
    BodyParts(c, fixedFraction);
    if c.InUnit? {
      FractionOfUnit(c.hundredths, c.suffix, fixedFraction);
    }
  }

  method UnitBody(hundredths: nat, suffix: char, fixedFraction: bool) returns (body: string)
    ensures body == Body(InUnit(hundredths, suffix), fixedFraction) && body != []
  {
    var whole := hundredths / 100;
    var padded := PadStart(Digits(hundredths % 100), 2);
    var frac := if fixedFraction then padded else TrimZeros(padded);
    body := Digits(whole) + (if frac == [] then [] else "." + frac) + [suffix];
  }

  /** Tries the units from the largest down. */
  method FormatCompact(value: DecimalString, fixedFraction: bool) returns (text: string)
    ensures text == CompactText(value, fixedFraction)
  {
    var scaled := ToScaledInt(value);
    var magnitude := Abs(scaled);
    var body := [];
    var i := 0;
    while i < |UNITS|
      invariant 0 <= i <= 3 && body == []
      invariant i > 0 ==> Hundredths(magnitude, 1_000_000_000 * ONE) < 100
      invariant i > 1 ==> Hundredths(magnitude, 1_000_000 * ONE) < 100
      invariant i > 2 ==> Hundredths(magnitude, 1_000 * ONE) < 100
    {
      var divisor := UNITS[i].0 * ONE;
      var hundredths := Hundredths(magnitude, divisor);
      if hundredths >= 100 {
        assert Chosen(magnitude) == InUnit(hundredths, UNITS[i].1);
        body := UnitBody(hundredths, UNITS[i].1, fixedFraction);
        break;
      }
      i := i + 1;
    }
    if body == [] {
      body := Digits((magnitude + ONE / 2) / ONE);
      assert body == Body(Plain((magnitude + ONE / 2) / ONE), fixedFraction);
    }
    text := if scaled < 0 && body != "0" then "-" + body else body;
  }
}
