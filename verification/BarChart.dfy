/** Bar widths for the charts, in hundredths of a percent. */
module BarChart {
  import opened Arithmetic
  import opened DigitStrings
  import opened MajorMinor
  import opened AmountApi
  import opened Options

  /** A decimal with an optional minus sign. */
  predicate IsSigned(s: string) {
    IsDecimal(if s != "" && s[0] == '-' then s[1..] else s)
  }

  function Magnitude(s: string): string {
    if s != "" && s[0] == '-' then s[1..] else s
  }

  // ---------------------------------------------------------------- the functions

  function ParseUnsignedMinor(raw: string): nat {
    if Trim(raw) != "" && AllDigits(Trim(raw)) then Value(Trim(raw)) else 0
  }

  function Bar(value: nat, max: nat): nat {
    if max == 0 || value == 0 then 0
    else
      var scaled := value * 10_000 / max;
      if scaled < 200 then 200 else scaled
  }

  function DisplayBarPercent(valueMinorUnits: string, maxMinorUnits: string): nat {
    Bar(ParseUnsignedMinor(valueMinorUnits), ParseUnsignedMinor(maxMinorUnits))
  }

  function ToFourDpMinor(value: string): string {
    var whole, fraction := BeforeDot(value), Fraction(value);
    var negative := whole != "" && whole[0] == '-';
    var digits := (if negative then whole[1..] else whole) + PadEnd(fraction, 4)[..4];
    var normalised := OrZero(StripZeros(digits));
    if negative && normalised != "0" then "-" + normalised else normalised
  }

  function DisplayBarPercentFromDecimal(value: string, max: string): nat {
    DisplayBarPercent(ToFourDpMinor(value), ToFourDpMinor(max))
  }

  /** The digit a character stands for in bases up to sixteen; sixteen when it is none. */
  function RadixDigit(c: char): nat {
    if '0' <= c <= '9' then c as int - '0' as int
    else if 'a' <= c <= 'f' then c as int - 'a' as int + 10
    else if 'A' <= c <= 'F' then c as int - 'A' as int + 10
    else 16
  }

  predicate InBase(s: string, base: nat) {
    s != "" && forall i :: 0 <= i < |s| ==> RadixDigit(s[i]) < base
  }

  function RadixValue(s: string, base: nat): nat {
    if s == "" then 0 else RadixValue(s[..|s| - 1], base) * base + RadixDigit(s[|s| - 1])
  }

  /** The base a prefix announces, or zero. */
  function BaseOf(s: string): nat {
    if |s| < 2 || s[0] != '0' then 0
    else if s[1] in "xX" then 16 else if s[1] in "oO" then 8 else if s[1] in "bB" then 2 else 0
  }

  /** The language's text-to-big-integer conversion; None where it throws. White space around the text
      is skipped, nothing at all is zero, a decimal may have a sign, and the other bases may not. */
  function BigIntOf(text: string): Option<int> {
    var s := Trim(text);
    if s == "" then Some(0)
    else if AllDigits(s) then Some(Value(s))
    else if s[0] in "+-" && |s| > 1 && AllDigits(s[1..]) then
      Some(if s[0] == '-' then 0 - (Value(s[1..]) as int) else Value(s[1..]))
    else if BaseOf(s) > 0 && InBase(s[2..], BaseOf(s)) then Some(RadixValue(s[2..], BaseOf(s)))
    else None
  }

  /** A prefix announces the base, in either case of its letter; ten of its digits are letters from sixteen on. */
  lemma PrefixedReads(letter: char, digits: string, base: nat)
    requires (letter, base) in {('x', 16), ('X', 16), ('o', 8), ('O', 8), ('b', 2), ('B', 2)}
    requires InBase(digits, base)
    ensures BigIntOf("0" + [letter] + digits) == Some(RadixValue(digits, base))
    ensures RadixDigit('9') == 9 && RadixDigit('a') == RadixDigit('A') == 10 && RadixDigit('f') == RadixDigit('F') == 15
  {
    var s := "0" + [letter] + digits;
    assert s[0] == '0' && s[1] == letter && s[2..] == digits;
    assert RadixDigit(digits[|digits| - 1]) < 16;
    assert !IsSpace(digits[|digits| - 1]) && !IsSpace('0');
    MiddleIsTrimmed("", s, "");
    assert "" + s + "" == s;
  }

  /** Digits count as in any positional numeral; in base ten they denote what they denote elsewhere. */
  lemma {:induction false} RadixTenIsValue(s: string)
    requires AllDigits(s)
    ensures RadixValue(s, 10) == Value(s)
    decreases |s|
  {
    if s != "" {
      RadixTenIsValue(s[..|s| - 1]);
    }
  }

  function ReadScaled(value: string): Option<int> { BigIntOf(ToFourDpMinor(value)) }

  predicate Readable(value: string) { ReadScaled(value).Some? }

  function Scaled(value: string): int
    requires Readable(value)
  {
    ReadScaled(value).value
  }

  method MaxMinorUnits(values: seq<string>) returns (max: string)
    ensures Canonical(max)
    ensures forall v :: v in values ==> ParseUnsignedMinor(v) <= Value(max)
    ensures Value(max) == 0 || exists v :: v in values && ParseUnsignedMinor(v) == Value(max)
  {
    var best := 0;
    for i := 0 to |values|
      invariant forall j :: 0 <= j < i ==> ParseUnsignedMinor(values[j]) <= best
      invariant best == 0 || exists j :: 0 <= j < i && ParseUnsignedMinor(values[j]) == best
    {
      var parsed := ParseUnsignedMinor(values[i]);
      if parsed > best {
        best := parsed;
      }
    }
    max := Numeral(best);
  }

  /** The first text of greatest scaled value, or "0" when none is positive; None, for the exception,
      exactly when some text cannot be read. */
  method MaxDecimal(values: seq<string>) returns (max: Option<string>)
    ensures max.Some? <==> AllReadable(values)
    ensures max.Some? ==> IsMaxDecimal(values, max.value)
  {
    var best, bestScaled := "0", 0;
    ScaledZero();
    hide ReadScaled, IsMaxDecimal;
    for i := 0 to |values|
      invariant AllReadable(values[..i]) && IsMaxDecimal(values[..i], best)
      invariant Readable(best) && bestScaled == Scaled(best) >= 0
    {
      assert values[..i + 1] == values[..i] + [values[i]];
      var scaled := ReadScaled(values[i]);
      if scaled.None? {
        assert !Readable(values[i]);
        return None;
      }
      MaxStep(values[..i], best, values[i]);
      if scaled.value > bestScaled {
        bestScaled := scaled.value;
        best := values[i];
      }
    }
    assert values[..|values|] == values;
    return Some(best);
  }

  ghost predicate AllReadable(values: seq<string>) {
    forall i :: 0 <= i < |values| ==> Readable(values[i])
  }

  lemma MaxStep(values: seq<string>, best: string, v: string)
    requires AllReadable(values) && Readable(v) && Readable("0") && Scaled("0") == 0
    requires IsMaxDecimal(values, best) && Scaled(best) >= 0
    ensures AllReadable(values + [v])
    ensures IsMaxDecimal(values + [v], if Scaled(v) > Scaled(best) then v else best)
  {
    hide ReadScaled;
    var all := values + [v];
    if Scaled(v) > Scaled(best) {
      assert all[|values|] == v;
    } else if exists i :: 0 <= i < |values| && Scaled(values[i]) > 0 {
      var i :| 0 <= i < |values| && values[i] == best && forall j :: 0 <= j < i ==> Scaled(values[j]) < Scaled(best);
      assert all[i] == best;
      var k :| 0 <= k < |values| && Scaled(values[k]) > 0;
      assert all[k] == values[k];
    } else {
      assert Scaled(v) <= Scaled("0");
    }
  }

  ghost predicate IsMaxDecimal(values: seq<string>, best: string) {
    && Readable(best) && AllReadable(values)
    && (forall i :: 0 <= i < |values| ==> Scaled(values[i]) <= Scaled(best))
    && (if forall i :: 0 <= i < |values| ==> Scaled(values[i]) <= 0 then best == "0"
        else exists i :: 0 <= i < |values| && values[i] == best
               && forall j :: 0 <= j < i ==> Scaled(values[j]) < Scaled(best))
  }

  lemma ScaledZero()
    ensures Readable("0") && Scaled("0") == 0 && IsMaxDecimal([], "0")
  {
    assert BeforeDot("0") == "0" && AfterDot("0") == "";
    assert PadEnd("", 4)[..4] == Zeros(4);
    var digits := "0" + Zeros(4);
    ValueConcat("0", Zeros(4));
    ValueZeros(4);
    assert Value("0") == 0;
    StripZerosValue(digits);
    assert StripZeros(digits) == "0" by {
      CanonicalUnique(StripZeros(digits), "0");
    }
    BigIntOfCanonical("0");
  }

  /** A numeral is read as its value, and with a minus sign as its negation. */
  lemma BigIntOfCanonical(n: string)
    requires Canonical(n)
    ensures BigIntOf(n) == Some(Value(n)) && BigIntOf("-" + n) == Some(0 - (Value(n) as int))
  {
    CanonicalTrim(n);
    assert ("-" + n)[1..] == n;
    hide Value, Trim, Canonical;
  }

  // ---------------------------------------------------------------- scaling

  /** For a decimal without sign, scaling is the floor of ten thousand times its value. */
  lemma FourDpIsFloor(s: string)
    requires IsDecimal(s)
    ensures AllDigits(Whole(s) + Fraction(s))
    ensures Canonical(ToFourDpMinor(s)) && Readable(s)
    ensures Scaled(s) == Value(Whole(s) + Fraction(s)) * Pow10(4) / Pow10(|Fraction(s)|)
  {
    FractionIsRest(s);
    var w, f := Whole(s), Fraction(s);
    assert IsDigit(w[0]);
    var g := PadEnd(f, 4)[..4];
    PadDigits(f);
    StripZerosValue(w + g);
    FloorOfParts(w, f);
    BigIntOfCanonical(ToFourDpMinor(s));
  }

  lemma PadDigits(f: string)
    requires AllDigits(f)
    ensures AllDigits(PadEnd(f, 4)) && |PadEnd(f, 4)| >= 4
  {
  }

  lemma FloorOfParts(w: string, f: string)
    requires AllDigits(w) && AllDigits(f)
    ensures AllDigits(w + f) && AllDigits(PadEnd(f, 4)) && |PadEnd(f, 4)| >= 4
    ensures AllDigits(w + PadEnd(f, 4)[..4])
    ensures Value(w + PadEnd(f, 4)[..4]) == Value(w + f) * Pow10(4) / Pow10(|f|)
  {
    hide Value, Pow10;
    PadDigits(f);
    ValueConcat(w, f);
    if |f| <= 4 {
      PadEndValue(f, 4);
      assert PadEnd(f, 4)[..4] == PadEnd(f, 4);
      ValueConcat(w, PadEnd(f, 4));
      ExactParts(Value(w), Value(f), |f|);
    } else {
      FloorOfLong(w + f[..4], f[4..]);
      assert w + f == (w + f[..4]) + f[4..];
    }
  }

  lemma FloorOfLong(kept: string, rest: string)
    requires AllDigits(kept) && AllDigits(rest)
    ensures AllDigits(kept + rest) && Value(kept) == Value(kept + rest) * Pow10(4) / Pow10(|rest| + 4)
  {
    hide Value, Pow10;
    ValueConcat(kept, rest);
    ValueBound(rest);
    Pow10Add(|rest|, 4);
    DropRest(Value(kept), Value(rest), Pow10(|rest|), Pow10(4));
  }

  lemma ExactParts(w: nat, f: nat, length: nat)
    requires length <= 4
    ensures w * Pow10(4) + f * Pow10(4 - length) == (w * Pow10(length) + f) * Pow10(4) / Pow10(length)
  {
    hide Pow10;
    var v := w * Pow10(length) + f;
    ScaleSplit(w, f, length, 4);
    ScaleTwice(v, length, 4);
    DivisionIs(v * Pow10(4), Pow10(length), v * Pow10(4 - length), 0);
  }

  lemma DropRest(a: nat, r: nat, p: nat, e: nat)
    requires r < p && e > 0
    ensures p * e > 0 && (a * p + r) * e / (p * e) == a
  {
    assert (a * p + r) * e == a * (p * e) + r * e;
    MulMonotone(r + 1, p, e);
    DivisionIs((a * p + r) * e, p * e, a, r * e);
  }

  lemma ZeroNumeral()
    ensures Canonical("0") && Value("0") == 0
  {
    assert "0"[..0] == "";
  }

  /** A minus sign turns the floor into truncation towards zero. */
  lemma FourDpOfNegative(s: string)
    requires IsDecimal(s)
    ensures var n := ToFourDpMinor(s);
            Canonical(n) && ToFourDpMinor("-" + s) == (if n == "0" then n else "-" + n)
    ensures Readable(s) && Readable("-" + s) && Scaled("-" + s) == -Scaled(s)
  {
    FractionIsRest(s);
    FourDpIsFloor(s);
    ZeroNumeral();
    var t, n := "-" + s, ToFourDpMinor(s);
    assert t[1..] == s;
    assert BeforeDot(t) == "-" + BeforeDot(s) && AfterDot(t) == AfterDot(s);
    assert ("-" + BeforeDot(s))[1..] == BeforeDot(s);
    assert IsDigit(BeforeDot(s)[0]);
    BigIntOfCanonical(n);
    hide StripZeros, Value, Canonical, IsDecimal, BeforeDot, AfterDot, BigIntOf;
  }

  /** A chart reads a scaled text back as its value, negatives as nothing. */
  lemma ScaledIsRead(value: string)
    requires IsSigned(value)
    ensures Readable(value)
    ensures ParseUnsignedMinor(ToFourDpMinor(value)) == if Scaled(value) > 0 then Scaled(value) else 0
  {
    var s := Magnitude(value);
    FourDpIsFloor(s);
    ZeroNumeral();
    var n := ToFourDpMinor(s);
    CanonicalTrim(n);
    if value != s {
      assert value == "-" + s;
      FourDpOfNegative(s);
      CanonicalTrim("0");
    }
    BigIntOfCanonical(n);
    hide ToFourDpMinor, Trim, Canonical, Value, IsDecimal, BigIntOf;
  }

  lemma CanonicalTrim(n: string)
    requires Canonical(n)
    ensures Trim(n) == n && Trim("-" + n) == "-" + n && !AllDigits("-" + n)
  {
    assert IsDigit(n[0]) && IsDigit(n[|n| - 1]);
    var m := "-" + n;
    assert m[0] == '-' && m[|m| - 1] == n[|n| - 1];
  }

  // ---------------------------------------------------------------- bars

  /** A bar is its value's share of the maximum, cut to hundredths of a percent, but no shorter than two
      percent; without a value or a maximum there is none. */
  ghost predicate IsShare(bar: nat, value: nat, max: nat) {
    if value == 0 || max == 0 then bar == 0
    else if value * 10_000 < 200 * max then bar == 200
    else bar * max <= value * 10_000 < (bar + 1) * max
  }

  lemma BarIsShare(value: nat, max: nat)
    ensures IsShare(Bar(value, max), value, max)
  {
    if value > 0 && max > 0 {
      var scaled := value * 10_000 / max;
      DivRange(value * 10_000, max);
      if value * 10_000 < 200 * max {
        DivAtMost(value * 10_000, max, 199);
      } else {
        DivAtLeast(200, max, value * 10_000);
      }
    }
  }

  /** Digits count as the number they denote, whatever white space surrounds them, and a text with any other
      character, or with no digit at all, as nothing. */
  lemma UnsignedReads(a: string, t: string, b: string)
    requires AllSpace(a) && AllSpace(b) && (t == "" || (!IsSpace(t[0]) && !IsSpace(t[|t| - 1])))
    ensures ParseUnsignedMinor(a + t + b) == if t != "" && AllDigits(t) then Value(t) else 0
  {
    MiddleIsTrimmed(a, t, b);
  }

  /** On minor units, what counts is the number the trimmed digits denote; anything else is nothing. */
  lemma MinorBarIsShare(valueMinorUnits: string, maxMinorUnits: string)
    ensures IsShare(DisplayBarPercent(valueMinorUnits, maxMinorUnits),
                    ParseUnsignedMinor(valueMinorUnits), ParseUnsignedMinor(maxMinorUnits))
    ensures forall s :: s in [valueMinorUnits, maxMinorUnits] && s != "" && AllDigits(s) ==>
              ParseUnsignedMinor(s) == Value(s)
  {
    BarIsShare(ParseUnsignedMinor(valueMinorUnits), ParseUnsignedMinor(maxMinorUnits));
    forall s | s != "" && AllDigits(s) ensures ParseUnsignedMinor(s) == Value(s) {
      assert IsDigit(s[0]) && IsDigit(s[|s| - 1]);
    }
  }

  /** On decimals, the share is of the scaled values; a negative one counts as nothing. */
  lemma DecimalBarIsShare(value: string, max: string)
    requires IsSigned(value) && IsSigned(max)
    ensures Readable(value) && Readable(max)
    ensures IsShare(DisplayBarPercentFromDecimal(value, max),
                    if Scaled(value) > 0 then Scaled(value) else 0, if Scaled(max) > 0 then Scaled(max) else 0)
  {
    ScaledIsRead(value);
    ScaledIsRead(max);
    hide ToFourDpMinor, BigIntOf, IsDecimal, Bar, IsShare;
    BarIsShare(ParseUnsignedMinor(ToFourDpMinor(value)), ParseUnsignedMinor(ToFourDpMinor(max)));
  }

  lemma BarBounds(value: nat, max: nat)
    requires value <= max
    ensures Bar(value, max) <= 10_000
    ensures Bar(value, max) > 0 <==> value > 0
    ensures value > 0 ==> Bar(value, max) >= 200
    ensures value == max > 0 ==> Bar(value, max) == 10_000
  {
    if value > 0 {
      DivAtMost(value * 10_000, max, 10_000);
      if value == max {
        DivisionIs(value * 10_000, max, 10_000, 0);
      }
    }
  }

  lemma BarMonotone(a: nat, b: nat, max: nat)
    requires a <= b
    ensures Bar(a, max) <= Bar(b, max)
  {
    if a > 0 && max > 0 {
      QuotientMonotone(a * 10_000, b * 10_000, max);
    }
  }

  /** Every bar of a list, drawn against the list's maximum, is between nothing and the full width;
      it shows exactly when its scaled value is positive, and then visibly; the maximum fills it. */
  lemma BarsOfList(values: seq<string>, max: string, i: nat)
    requires (forall j :: 0 <= j < |values| ==> IsSigned(values[j])) && IsMaxDecimal(values, max) && i < |values|
    ensures IsSigned(max) && AllReadable(values)
    ensures var bar := DisplayBarPercentFromDecimal(values[i], max);
            && bar <= 10_000
            && (bar > 0 <==> Scaled(values[i]) > 0)
            && (bar > 0 ==> bar >= 200)
            && (Scaled(values[i]) == Scaled(max) > 0 ==> bar == 10_000)
            && (Scaled(values[i]) > 0 ==> IsShare(bar, Scaled(values[i]), Scaled(max)))
  {
    assert IsDecimal("0") by {
      JoinedIsDecimal("0", "");
    }
    hide ToFourDpMinor, BigIntOf, IsDecimal, Bar, IsShare;
    DecimalBarIsShare(values[i], max);
    ScaledIsRead(values[i]);
    ScaledIsRead(max);
    BarBounds(ParseUnsignedMinor(ToFourDpMinor(values[i])), ParseUnsignedMinor(ToFourDpMinor(max)));
  }

  /** A larger amount never gets a shorter bar. */
  lemma BarsMonotone(s: string, t: string, max: string)
    requires IsDecimal(s) && IsDecimal(t)
    requires AllDigits(Whole(s) + Fraction(s)) && AllDigits(Whole(t) + Fraction(t))
    requires Value(Whole(s) + Fraction(s)) * Pow10(|Fraction(t)|) <=
             Value(Whole(t) + Fraction(t)) * Pow10(|Fraction(s)|)
    ensures DisplayBarPercentFromDecimal(s, max) <= DisplayBarPercentFromDecimal(t, max)
  {
    FourDpIsFloor(s);
    FourDpIsFloor(t);
    assert IsDigit(BeforeDot(s)[0]) && IsDigit(BeforeDot(t)[0]);
    assert s[0] == BeforeDot(s)[0] && t[0] == BeforeDot(t)[0];
    ScaledIsRead(s);
    ScaledIsRead(t);
    FloorsOrdered(Value(Whole(s) + Fraction(s)), Pow10(|Fraction(s)|), Value(Whole(t) + Fraction(t)),
                  Pow10(|Fraction(t)|), Pow10(4));
    BarMonotone(ParseUnsignedMinor(ToFourDpMinor(s)), ParseUnsignedMinor(ToFourDpMinor(t)),
                ParseUnsignedMinor(ToFourDpMinor(max)));
  }

  lemma FloorsOrdered(m: nat, p: nat, n: nat, q: nat, e: nat)
    requires p > 0 && q > 0 && m * q <= n * p
    ensures m * e / p <= n * e / q
  {
    var y := n * e / q;
    DivRange(n * e, q);
    var a, b := m * e, (y + 1) * p;
    SwapFactors(m, e, q);
    SwapFactors(n, e, p);
    SwapFactors(y + 1, p, q);
    MulMonotone(m * q, n * p, e);
    MulMonotone(n * e + 1, (y + 1) * q, p);
    assert a * q <= (n * e) * p < b * q;
    if a >= b {
      MulMonotone(b, a, q);
    }
    DivAtMost(a, p, y);
  }
}
