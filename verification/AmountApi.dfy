/** The API's reading of an amount, and its agreement with the web form's. */
module AmountApi {
  import opened Arithmetic
  import opened DigitStrings
  import opened MajorMinor

  datatype Amount = Ok(minorUnits: string) | BadFormat | TooPrecise | NotPositive | TooLarge

  /** `^\d{1,18}(\.\d{1,6})?$` */
  predicate FitsGrammar(s: string) {
    IsDecimal(s) && |Whole(s)| <= 18 && |AfterDot(s)| <= 6
  }

  /** Nearest integer to n / d, halves going up: what `Money.fromDecimal` does to an amount with more
      precision than the currency. */
  function RoundHalfUp(n: nat, d: nat): nat
    requires d > 0
  {
    (2 * n + d) / (2 * d)
  }

  function FromDecimal(s: string, exponent: nat): nat
    requires AllDigits(Whole(s)) && AllDigits(Fraction(s))
  {
    RoundHalfUp(Value(Whole(s) + Fraction(s)) * Pow10(exponent), Pow10(|Fraction(s)|))
  }

  function ToMinorUnits(amount: string, exponent: nat, maxMinorUnits: nat): Amount
    requires AllDigits(Whole(amount)) && AllDigits(Fraction(amount))
  {
    if |DropTrailingZeros(Fraction(amount))| > exponent then TooPrecise
    else
      var minor := FromDecimal(amount, exponent);
      if minor == 0 then NotPositive
      else if minor > maxMinorUnits then TooLarge
      else Ok(Numeral(minor))
  }

  /** The schema trims and matches before the amount is converted. */
  function ReadAmount(raw: string, exponent: nat, maxMinorUnits: nat): Amount {
    var s := Trim(raw);
    if !FitsGrammar(s) then BadFormat
    else
      DecimalIsJoined(s);
      ToMinorUnits(s, exponent, maxMinorUnits)
  }

  /** A text is refused for its format exactly when, trimmed, it is not one to eighteen digits, alone or
      followed by a dot and one to six digits. */
  lemma FormatDecides(raw: string, exponent: nat, maxMinorUnits: nat)
    ensures ReadAmount(raw, exponent, maxMinorUnits) == BadFormat <==>
            !exists w, f :: 1 <= |w| <= 18 && |f| <= 6 && AllDigits(w) && AllDigits(f) && Trim(raw) == Joined(w, f)
  {
    hide Trim;
    var s := Trim(raw);
    DecimalIsJoined(s);
    if IsDecimal(s) {
      FractionIsRest(s);
    }
    forall w, f | 1 <= |w| <= 18 && |f| <= 6 && AllDigits(w) && AllDigits(f) && s == Joined(w, f)
      ensures FitsGrammar(s)
    {
      JoinedIsDecimal(w, f);
      FractionIsRest(s);
    }
    hide FromDecimal, Numeral, BeforeDot, AfterDot;
  }

  /** Rounding goes to a nearest integer, and up from the middle. */
  lemma RoundsToNearest(n: nat, d: nat)
    requires d > 0
    ensures var q := RoundHalfUp(n, d);
            2 * n - d < 2 * (q * d) <= 2 * n + d
  {
    var q := RoundHalfUp(n, d);
    DivRange(2 * n + d, 2 * d);
    assert q * (2 * d) == 2 * (q * d) && (q + 1) * (2 * d) == 2 * (q * d) + 2 * d;
  }

  lemma {:induction false} RoundExact(q: nat, d: nat)
    requires d > 0
    ensures RoundHalfUp(q * d, d) == q
  {
    var n := 2 * (q * d) + d;
    assert n == q * (2 * d) + d;
    DivisionIs(n, 2 * d, q, d);
  }

  /** With its surplus digits all zeros, an amount scales to a whole number of minor units: the value
      of the fraction cut or padded to the exponent. */
  lemma ScalesExactly(s: string, exponent: nat)
    requires IsDecimal(s) && |DropTrailingZeros(Fraction(s))| <= exponent
    ensures AllDigits(Whole(s)) && AllDigits(Fraction(s)) && AllDigits(Whole(s) + Fraction(s))
    ensures FromDecimal(s, exponent) * Pow10(|Fraction(s)|) == Value(Whole(s) + Fraction(s)) * Pow10(exponent)
    ensures AllDigits(Cut(Fraction(s), exponent))
    ensures FromDecimal(s, exponent) ==
            Value(Whole(s)) * Pow10(exponent) + Value(PadEnd(Cut(Fraction(s), exponent), exponent))
  {
    hide Value, Pow10, PadEnd, DropTrailingZeros, BeforeDot, AfterDot, RoundHalfUp, Trim, Numeral;
    DecimalIsJoined(s);
    var w, f := Whole(s), Fraction(s);
    CutPadded(f, exponent);
    var g := PadEnd(Cut(f, exponent), exponent);
    ValueConcat(w, f);
    Pow10Add(exponent, |f|);
    var q := Value(w) * Pow10(exponent) + Value(g);
    ScaledSum(Value(w), Value(f), Value(g), Pow10(|f|), Pow10(exponent));
    RoundExact(q, Pow10(|f|));
  }

  lemma ScaledSum(w: nat, f: nat, g: nat, p: nat, e: nat)
    requires f * e == g * p
    ensures (w * p + f) * e == (w * e + g) * p
  {
    assert (w * p + f) * e == (w * p) * e + f * e;
    assert (w * e + g) * p == (w * e) * p + g * p;
    assert (w * p) * e == (w * e) * p;
  }

  /** A fraction without the digits the exponent has no room for. */
  function Cut(f: string, exponent: nat): string {
    if |f| <= exponent then f else f[..exponent]
  }

  lemma CutPadded(f: string, exponent: nat)
    requires AllDigits(f) && |DropTrailingZeros(f)| <= exponent
    ensures AllDigits(Cut(f, exponent)) && AllDigits(PadEnd(Cut(f, exponent), exponent))
    ensures Value(f) * Pow10(exponent) == Value(PadEnd(Cut(f, exponent), exponent)) * Pow10(|f|)
  {
    hide Value, Pow10, DropTrailingZeros;
    if |f| <= exponent {
      PadEndValue(f, exponent);
      ScaleTwice(Value(f), |f|, exponent);
    } else {
      var kept, surplus := f[..exponent], f[exponent..];
      DropTrailingZerosFits(f, exponent);
      assert surplus == Zeros(|f| - exponent) && f == kept + surplus;
      ValueConcat(kept, surplus);
      ValueZeros(|surplus|);
      ScaleTwice(Value(kept), exponent, |f|);
    }
  }

  lemma ScaleTwice(v: nat, a: nat, b: nat)
    requires a <= b
    ensures v * Pow10(b) == (v * Pow10(b - a)) * Pow10(a)
  {
    Pow10Add(a, b - a);
    SwapFactors(v, Pow10(a), Pow10(b - a));
  }

  /** An accepted amount is exactly the amount asked for, in canonical minor units within the limits:
      nothing is ever rounded. */
  lemma NeverRounds(raw: string, exponent: nat, maxMinorUnits: nat)
    ensures var s, r := Trim(raw), ReadAmount(raw, exponent, maxMinorUnits);
            r.Ok? ==>
              && FitsGrammar(s) && AllDigits(Whole(s) + Fraction(s))
              && Canonical(r.minorUnits) && 0 < Value(r.minorUnits) <= maxMinorUnits
              && Value(r.minorUnits) * Pow10(|Fraction(s)|) == Value(Whole(s) + Fraction(s)) * Pow10(exponent)
  {
    if ReadAmount(raw, exponent, maxMinorUnits).Ok? {
      ScalesExactly(Trim(raw), exponent);
    }
  }

  /** Whatever the web form accepts and the API grammar admits, the API reads to the same digits -
      or refuses only for being zero or over the limit. */
  lemma ParsersAgree(raw: string, exponent: nat, maxMinorUnits: nat)
    requires FitsGrammar(Trim(raw)) && MajorToMinorUnits(raw, exponent).Some?
    ensures var d := MajorToMinorUnits(raw, exponent).value;
            && AllDigits(d)
            && ReadAmount(raw, exponent, maxMinorUnits) ==
               if Value(d) == 0 then NotPositive else if Value(d) > maxMinorUnits then TooLarge else Ok(d)
  {
    hide Value, Pow10, PadEnd, DropTrailingZeros, BeforeDot, AfterDot, FromDecimal, Trim, Numeral, MajorToMinorUnits;
    var s := Trim(raw);
    ParseValue(raw, exponent);
    DecimalIsJoined(s);
    DropTrailingZerosParts(Fraction(s));
    ScalesExactly(s, exponent);
    var d := MajorToMinorUnits(raw, exponent).value;
    NumeralOfValue(d);
    StripZerosFixed(d);
  }

  /** The API lets a grammatical amount past its precision test exactly when the digits beyond the
      exponent are zeros, and then reads what the web form reads once those zeros are removed. */
  lemma ApiIgnoresSurplusZeros(raw: string, exponent: nat, maxMinorUnits: nat)
    requires FitsGrammar(Trim(raw))
    ensures var s := Trim(raw);
            && (ReadAmount(raw, exponent, maxMinorUnits) != TooPrecise <==>
                  forall i :: exponent <= i < |Fraction(s)| ==> Fraction(s)[i] == '0')
            && (ReadAmount(raw, exponent, maxMinorUnits) != TooPrecise ==>
                  var cut := Joined(Whole(s), Cut(Fraction(s), exponent));
                  && MajorToMinorUnits(cut, exponent).Some?
                  && ReadAmount(cut, exponent, maxMinorUnits) == ReadAmount(raw, exponent, maxMinorUnits))
  {
    hide Value, Pow10, PadEnd, DropTrailingZeros, BeforeDot, AfterDot, FromDecimal, Trim, Numeral, MajorToMinorUnits;
    var s := Trim(raw);
    FractionIsRest(s);
    DropTrailingZerosFits(Fraction(s), exponent);
    if |DropTrailingZeros(Fraction(s))| <= exponent {
      ScalesExactly(s, exponent);
      CutReads(Whole(s), Cut(Fraction(s), exponent), exponent);
    }
  }

  /** A fraction that fits is read the same way by both parsers. */
  lemma CutReads(whole: string, fraction: string, exponent: nat)
    requires whole != "" && AllDigits(whole) && AllDigits(fraction) && |fraction| <= exponent
    ensures var s := Joined(whole, fraction);
            && IsDecimal(s) && Whole(s) == whole && Fraction(s) == AfterDot(s) == fraction && Trim(s) == s
            && |DropTrailingZeros(fraction)| <= exponent
            && MajorToMinorUnits(s, exponent).Some?
            && AllDigits(PadEnd(fraction, exponent))
            && FromDecimal(s, exponent) == Value(whole) * Pow10(exponent) + Value(PadEnd(fraction, exponent))
  {
    hide Value, Pow10, PadEnd, DropTrailingZeros, BeforeDot, AfterDot, FromDecimal, Trim, MajorToMinorUnits, IsDecimal;
    var s := Joined(whole, fraction);
    JoinedIsDecimal(whole, fraction);
    FractionIsRest(s);
    DropTrailingZerosParts(fraction);
    ScalesExactly(s, exponent);
    ParseValue(s, exponent);
  }
}
