/** The web form's conversion between major-unit decimals and integer minor units. */
module MajorMinor {
  import opened Arithmetic
  import opened DigitStrings
  import opened Options

  /** The white space `trim` removes. */
  predicate IsSpace(c: char) {
    var n := c as int;
    || 9 <= n <= 13 || n == 32 || n == 0xA0 || n == 0x1680 || 0x2000 <= n <= 0x200A
    || n == 0x2028 || n == 0x2029 || n == 0x202F || n == 0x205F || n == 0x3000 || n == 0xFEFF
  }

  function TrimStart(s: string): string {
    if s != "" && IsSpace(s[0]) then TrimStart(s[1..]) else s
  }

  function TrimEnd(s: string): string {
    if s != "" && IsSpace(s[|s| - 1]) then TrimEnd(s[..|s| - 1]) else s
  }

  function Trim(s: string): string { TrimEnd(TrimStart(s)) }

  /** Trimming takes white space off both ends and nothing else: it leaves the one middle part that neither
      starts nor ends with any. */
  lemma TrimIs(s: string, t: string)
    ensures t == Trim(s) <==>
            && (t == "" || (!IsSpace(t[0]) && !IsSpace(t[|t| - 1])))
            && exists a, b :: AllSpace(a) && AllSpace(b) && s == a + t + b
  {
    TrimStartSplits(s);
    TrimEndSplits(TrimStart(s));
    var a, b := s[..|s| - |TrimStart(s)|], TrimStart(s)[|Trim(s)|..];
    assert s == a + Trim(s) + b;
    if (t == "" || (!IsSpace(t[0]) && !IsSpace(t[|t| - 1])))
       && exists a, b :: AllSpace(a) && AllSpace(b) && s == a + t + b
    {
      var x, y :| AllSpace(x) && AllSpace(y) && s == x + t + y;
      MiddleIsTrimmed(x, t, y);
    }
  }

  predicate AllSpace(s: string) {
    forall i :: 0 <= i < |s| ==> IsSpace(s[i])
  }

  lemma {:induction false} TrimStartSplits(s: string)
    ensures |TrimStart(s)| <= |s| && TrimStart(s) == s[|s| - |TrimStart(s)|..]
    ensures AllSpace(s[..|s| - |TrimStart(s)|]) && (TrimStart(s) != "" ==> !IsSpace(TrimStart(s)[0]))
    decreases |s|
  {
    hide IsSpace;
    if s != "" && IsSpace(s[0]) {
      TrimStartSplits(s[1..]);
      var k := |s| - |TrimStart(s)|;
      assert s[..k] == [s[0]] + s[1..][..k - 1];
    }
  }

  lemma {:induction false} TrimEndSplits(s: string)
    ensures TrimEnd(s) <= s && AllSpace(s[|TrimEnd(s)|..])
    ensures TrimEnd(s) != "" ==> TrimEnd(s)[0] == s[0] && !IsSpace(TrimEnd(s)[|TrimEnd(s)| - 1])
    decreases |s|
  {
    hide IsSpace;
    if s != "" && IsSpace(s[|s| - 1]) {
      var init := s[..|s| - 1];
      TrimEndSplits(init);
      assert s[|TrimEnd(s)|..] == init[|TrimEnd(s)|..] + [s[|s| - 1]];
    }
  }

  lemma {:induction false} MiddleIsTrimmed(a: string, t: string, b: string)
    requires AllSpace(a) && AllSpace(b) && (t == "" || (!IsSpace(t[0]) && !IsSpace(t[|t| - 1])))
    ensures Trim(a + t + b) == t
    decreases |a| + |b|
  {
    hide IsSpace;
    var s := a + t + b;
    if a != "" {
      assert s[1..] == a[1..] + t + b;
      MiddleIsTrimmed(a[1..], t, b);
    } else if b != "" && t == "" {
      assert s[1..] == "" + t + b[1..];
      MiddleIsTrimmed("", t, b[1..]);
    } else if b != "" {
      assert s[..|s| - 1] == a + t + b[..|b| - 1];
      MiddleIsTrimmed(a, t, b[..|b| - 1]);
      assert TrimStart(s) == s && TrimStart(s[..|s| - 1]) == s[..|s| - 1];
    } else {
      assert s == t;
    }
  }

  /** The text before the first dot, and the text after it. */
  function BeforeDot(s: string): string {
    if s == "" || s[0] == '.' then "" else [s[0]] + BeforeDot(s[1..])
  }

  function AfterDot(s: string): string {
    if s == "" then "" else if s[0] == '.' then s[1..] else AfterDot(s[1..])
  }

  /** The first two parts of `split('.')`, a missing second part being empty. */
  function Whole(s: string): string { BeforeDot(s) }

  function Fraction(s: string): string { BeforeDot(AfterDot(s)) }

  /** `^\d+(\.\d+)?$` */
  predicate IsDecimal(s: string) {
    && BeforeDot(s) != "" && AllDigits(BeforeDot(s))
    && ('.' in s ==> AfterDot(s) != "" && AllDigits(AfterDot(s)))
  }

  function MajorToMinorUnits(major: string, exponent: nat): Option<string> {
    var trimmed := Trim(major);
    if !IsDecimal(trimmed) then None
    else if |Fraction(trimmed)| > exponent then None
    else
      var combined := StripZeros(Whole(trimmed) + PadEnd(Fraction(trimmed), exponent));
      Some(if combined == "" then "0" else combined)
  }

  function MinorToMajorUnits(minorUnits: string, exponent: nat): string {
    if minorUnits == "" || !AllDigits(minorUnits) then "0"
    else if exponent == 0 then OrZero(StripZeros(minorUnits))
    else
      var digits := PadStart(minorUnits, exponent + 1);
      var whole := OrZero(StripZeros(digits[..|digits| - exponent]));
      var fraction := DropTrailingZeros(digits[|digits| - exponent..]);
      if fraction == "" then whole else whole + "." + fraction
  }

  function OrZero(s: string): string { if s == "" then "0" else s }

  /** A whole part and a fraction put together, with no dot when there is no fraction. */
  function Joined(whole: string, fraction: string): string {
    if fraction == "" then whole else whole + "." + fraction
  }

  // ---------------------------------------------------------------- reading a decimal apart

  lemma {:induction false} DigitsHaveNoDot(s: string)
    requires AllDigits(s)
    ensures '.' !in s && BeforeDot(s) == s && AfterDot(s) == ""
    decreases |s|
  {
    if s != "" {
      DigitsHaveNoDot(s[1..]);
      assert s == [s[0]] + s[1..];
    }
  }

  lemma {:induction false} JoinedParts(whole: string, rest: string)
    requires AllDigits(whole)
    ensures BeforeDot(whole + "." + rest) == whole && AfterDot(whole + "." + rest) == rest
    decreases |whole|
  {
    var s := whole + "." + rest;
    if whole == "" {
      assert s == "." + rest;
    } else {
      JoinedParts(whole[1..], rest);
      assert s[1..] == whole[1..] + "." + rest;
      assert whole == [whole[0]] + whole[1..];
    }
  }

  lemma JoinedIsDecimal(whole: string, fraction: string)
    requires whole != "" && AllDigits(whole) && AllDigits(fraction)
    ensures var s := Joined(whole, fraction);
            IsDecimal(s) && Whole(s) == whole && Fraction(s) == fraction && Trim(s) == s
  {
    var s := Joined(whole, fraction);
    DigitsHaveNoDot(whole);
    DigitsHaveNoDot(fraction);
    if fraction != "" {
      JoinedParts(whole, fraction);
      assert s[|s| - 1] == fraction[|fraction| - 1];
    }
    assert IsDigit(s[0]) && IsDigit(s[|s| - 1]);
  }

  lemma {:induction false} DotSplits(s: string)
    ensures s == if '.' in s then BeforeDot(s) + "." + AfterDot(s) else BeforeDot(s)
    ensures '.' !in s ==> AfterDot(s) == ""
    decreases |s|
  {
    if s != "" {
      DotSplits(s[1..]);
      assert s == [s[0]] + s[1..];
      if s[0] != '.' {
        assert '.' in s <==> '.' in s[1..];
      }
    }
  }

  /** The grammar is exactly digits, optionally followed by a dot and digits. */
  lemma DecimalIsJoined(s: string)
    ensures IsDecimal(s) <==>
            exists w, f :: w != "" && AllDigits(w) && AllDigits(f) && s == Joined(w, f)
    ensures IsDecimal(s) ==> AllDigits(Whole(s)) && AllDigits(Fraction(s)) && s == Joined(Whole(s), Fraction(s))
  {
    if IsDecimal(s) {
      DotSplits(s);
      DigitsHaveNoDot(AfterDot(s));
      assert s == Joined(Whole(s), Fraction(s));
    }
    forall w, f | w != "" && AllDigits(w) && AllDigits(f) && s == Joined(w, f) ensures IsDecimal(s) {
      JoinedIsDecimal(w, f);
    }
  }

  /** A decimal has no second dot: its fraction is everything after the first. */
  lemma FractionIsRest(s: string)
    requires IsDecimal(s)
    ensures Fraction(s) == AfterDot(s) && AllDigits(Fraction(s)) && AllDigits(Whole(s)) && Whole(s) != ""
  {
    DotSplits(s);
    DigitsHaveNoDot(AfterDot(s));
  }

  // ---------------------------------------------------------------- what the parser computes

  /** The parser accepts a decimal whose fraction fits, and then its result is the canonical numeral
      of the decimal's value times ten to the exponent. */
  lemma ParseValue(major: string, exponent: nat)
    ensures var s, r := Trim(major), MajorToMinorUnits(major, exponent);
            && (r.Some? <==> IsDecimal(s) && |Fraction(s)| <= exponent)
            && (r.Some? ==>
                  && AllDigits(Whole(s) + Fraction(s)) && AllDigits(PadEnd(Fraction(s), exponent)) && Canonical(r.value)
                  && Value(r.value) == Value(Whole(s) + Fraction(s)) * Pow10(exponent - |Fraction(s)|)
                  && AllDigits(Whole(s))
                  && Value(r.value) == Value(Whole(s)) * Pow10(exponent) + Value(PadEnd(Fraction(s), exponent)))
  {
    hide Value, Pow10, StripZeros, PadEnd, Trim, BeforeDot, AfterDot;
    var s := Trim(major);
    DecimalIsJoined(s);
    if IsDecimal(s) && |Fraction(s)| <= exponent {
      ScaledDigits(Whole(s), Fraction(s), exponent);
    }
  }

  /** The digits of a whole and its padded fraction, without leading zeros, denote the scaled value. */
  lemma ScaledDigits(w: string, f: string, exponent: nat)
    requires w != "" && AllDigits(w) && AllDigits(f) && |f| <= exponent
    ensures AllDigits(w + f) && AllDigits(PadEnd(f, exponent))
    ensures var r := StripZeros(w + PadEnd(f, exponent));
            && Canonical(r)
            && Value(r) == Value(w + f) * Pow10(exponent - |f|)
            && Value(r) == Value(w) * Pow10(exponent) + Value(PadEnd(f, exponent))
  {
    hide Value, Pow10, StripZeros, PadEnd;
    PadEndValue(f, exponent);
    ValueConcat(w, PadEnd(f, exponent));
    StripZerosValue(w + PadEnd(f, exponent));
    ValueConcat(w, f);
    ScaleSplit(Value(w), Value(f), |f|, exponent);
  }

  lemma ScaleSplit(w: nat, f: nat, length: nat, exponent: nat)
    requires length <= exponent
    ensures w * Pow10(exponent) + f * Pow10(exponent - length) ==
            (w * Pow10(length) + f) * Pow10(exponent - length)
  {
    var k := exponent - length;
    Pow10Add(length, k);
    assert w * (Pow10(length) * Pow10(k)) == (w * Pow10(length)) * Pow10(k);
  }

  /** The canonical decimal of a whole and a fraction. */
  function CanonicalDecimal(whole: string, fraction: string): string {
    Joined(StripZeros(whole), DropTrailingZeros(fraction))
  }

  /** The padded minor units, cut `exponent` digits from the end. */
  lemma PadSplit(m: string, exponent: nat)
    requires m != "" && AllDigits(m)
    ensures var digits := PadStart(m, exponent + 1);
            var cut := |digits| - exponent;
            && cut > 0 && AllDigits(digits[..cut]) && AllDigits(digits[cut..])
            && Value(m) == Value(digits[..cut]) * Pow10(exponent) + Value(digits[cut..])
  {
    hide PadStart, Pow10, Value;
    var digits := PadStart(m, exponent + 1);
    PadStartValue(m, exponent + 1);
    var head, last := digits[..|digits| - exponent], digits[|digits| - exponent..];
    assert digits == head + last && |last| == exponent;
    assert AllDigits(head) && AllDigits(last);
    ValueConcat(head, last);
  }

  lemma SplitDigits(head: string, last: string, whole: string, tail: string)
    requires AllDigits(head) && AllDigits(last) && AllDigits(whole) && AllDigits(tail) && |last| == |tail|
    requires head != "" && whole != ""
    requires Value(head) * Pow10(|last|) + Value(last) == Value(whole) * Pow10(|tail|) + Value(tail)
    ensures last == tail && StripZeros(head) == StripZeros(whole)
  {
    hide Value, Pow10, StripZeros;
    ValueBound(last);
    ValueBound(tail);
    SplitUnique(Value(head), Value(last), Value(whole), Value(tail), Pow10(|tail|));
    SameLengthUnique(last, tail);
    StripZerosValue(head);
    StripZerosValue(whole);
    CanonicalUnique(StripZeros(head), StripZeros(whole));
  }

  lemma PrintWhole(m: string, whole: string, tail: string)
    requires m != "" && AllDigits(m) && whole != "" && AllDigits(whole) && tail == ""
    requires Value(m) == Value(whole) * Pow10(0) + Value(tail)
    ensures StripZeros(m) == StripZeros(whole) == CanonicalDecimal(whole, tail)
  {
    WholeValue(whole, tail);
    hide Value, Pow10, StripZeros;
    StripZerosValue(m);
    StripZerosValue(whole);
    CanonicalUnique(StripZeros(m), StripZeros(whole));
  }

  lemma WholeValue(whole: string, tail: string)
    requires AllDigits(whole) && tail == ""
    ensures Value(whole) * Pow10(0) + Value(tail) == Value(whole) && DropTrailingZeros(tail) == ""
  {
    assert Pow10(0) == 1 && Value(tail) == 0;
  }

  /** What the printer prints, told from the number: the quotient and remainder by ten to the
      exponent. */
  lemma PrintParts(m: string, exponent: nat, whole: string, tail: string)
    requires m != "" && AllDigits(m) && whole != "" && AllDigits(whole) && AllDigits(tail) && |tail| == exponent
    requires Value(m) == Value(whole) * Pow10(exponent) + Value(tail)
    ensures MinorToMajorUnits(m, exponent) == CanonicalDecimal(whole, tail)
  {
    hide Value, Pow10, PadStart, StripZeros, DropTrailingZeros;
    StripZerosValue(whole);
    if exponent == 0 {
      PrintWhole(m, whole, tail);
    } else {
      PrintSplit(m, exponent, whole, tail);
    }
  }

  /** The printer's own split is that quotient and remainder. */
  lemma PrintSplit(m: string, exponent: nat, whole: string, tail: string)
    requires m != "" && AllDigits(m) && whole != "" && AllDigits(whole) && AllDigits(tail) && |tail| == exponent
    requires Value(m) == Value(whole) * Pow10(exponent) + Value(tail)
    ensures var digits := PadStart(m, exponent + 1);
            && |digits| >= exponent && digits[|digits| - exponent..] == tail
            && StripZeros(digits[..|digits| - exponent]) == StripZeros(whole)
  {
    hide Value, Pow10, PadStart, StripZeros;
    var digits := PadStart(m, exponent + 1);
    PadSplit(m, exponent);
    SplitDigits(digits[..|digits| - exponent], digits[|digits| - exponent..], whole, tail);
  }

  /** Printing minor units and reading them back only drops leading zeros. */
  lemma PrintThenParse(m: string, exponent: nat)
    requires m != "" && AllDigits(m)
    ensures MajorToMinorUnits(MinorToMajorUnits(m, exponent), exponent) == Some(StripZeros(m))
  {
    var digits := PadStart(m, exponent + 1);
    PadSplit(m, exponent);
    var cut := |digits| - exponent;
    hide Value, Pow10, PadStart, StripZeros, MajorToMinorUnits, MinorToMajorUnits, CanonicalDecimal;
    PrintParts(m, exponent, digits[..cut], digits[cut..]);
    ParseOfPrinted(m, exponent, digits[..cut], digits[cut..]);
  }

  /** What is no string of digits is printed as zero. */
  lemma OthersPrintZero(m: string, exponent: nat)
    requires m == "" || exists i :: 0 <= i < |m| && !('0' <= m[i] <= '9')
    ensures MinorToMajorUnits(m, exponent) == "0"
  {
  }

  lemma ParseOfPrinted(m: string, exponent: nat, head: string, tail: string)
    requires m != "" && AllDigits(m) && head != "" && AllDigits(head) && AllDigits(tail) && |tail| == exponent
    requires Value(m) == Value(head) * Pow10(exponent) + Value(tail)
    ensures MajorToMinorUnits(CanonicalDecimal(head, tail), exponent) == Some(StripZeros(m))
  {
    StripZerosValue(head);
    DropTrailingZerosParts(tail);
    var whole, fraction := StripZeros(head), DropTrailingZeros(tail);
    JoinedIsDecimal(whole, fraction);
    ParseValue(Joined(whole, fraction), exponent);
    assert fraction + Zeros(0) == fraction;
    assert PadEnd(fraction, exponent) == tail;
    StripZerosValue(m);
    hide StripZeros, DropTrailingZeros, Value, Pow10, PadEnd, MajorToMinorUnits;
    CanonicalUnique(MajorToMinorUnits(Joined(whole, fraction), exponent).value, StripZeros(m));
  }

  /** Reading an accepted decimal and printing it back gives its canonical form. */
  lemma ParseThenPrint(major: string, exponent: nat)
    requires MajorToMinorUnits(major, exponent).Some?
    ensures var s := Trim(major);
            MinorToMajorUnits(MajorToMinorUnits(major, exponent).value, exponent) ==
            CanonicalDecimal(Whole(s), Fraction(s))
  {
    var s := Trim(major);
    var r := MajorToMinorUnits(major, exponent).value;
    ParseValue(major, exponent);
    DecimalIsJoined(s);
    var w, f := Whole(s), Fraction(s);
    PadEndValue(f, exponent);
    PrintParts(r, exponent, w, PadEnd(f, exponent));
    DropTrailingZerosPadded(f, exponent - |f|);
    assert f + Zeros(0) == f;
  }

  /** Reading then printing is idempotent. */
  lemma ReformatIdempotent(major: string, exponent: nat)
    requires MajorToMinorUnits(major, exponent).Some?
    ensures var once := MinorToMajorUnits(MajorToMinorUnits(major, exponent).value, exponent);
            MajorToMinorUnits(once, exponent) == MajorToMinorUnits(major, exponent)
  {
    var r := MajorToMinorUnits(major, exponent).value;
    ParseValue(major, exponent);
    PrintThenParse(r, exponent);
    StripZerosFixed(r);
  }

  /** Two accepted texts print alike exactly when they denote the same amount. */
  lemma SamePrintIffSameAmount(a: string, b: string, exponent: nat)
    requires MajorToMinorUnits(a, exponent).Some? && MajorToMinorUnits(b, exponent).Some?
    ensures var s, t := Trim(a), Trim(b);
            var x, y := MajorToMinorUnits(a, exponent).value, MajorToMinorUnits(b, exponent).value;
            && IsDecimal(s) && IsDecimal(t)
            && AllDigits(Whole(s) + Fraction(s)) && AllDigits(Whole(t) + Fraction(t))
            && (MinorToMajorUnits(x, exponent) == MinorToMajorUnits(y, exponent) <==>
                  Value(Whole(s) + Fraction(s)) * Pow10(|Fraction(t)|) ==
                  Value(Whole(t) + Fraction(t)) * Pow10(|Fraction(s)|))
  {
    var s, t := Trim(a), Trim(b);
    var x, y := MajorToMinorUnits(a, exponent).value, MajorToMinorUnits(b, exponent).value;
    ParseValue(a, exponent);
    ParseValue(b, exponent);
    ReformatIdempotent(a, exponent);
    ReformatIdempotent(b, exponent);
    var m, n := Value(Whole(s) + Fraction(s)), Value(Whole(t) + Fraction(t));
    var i, j := |Fraction(s)|, |Fraction(t)|;
    CrossScale(m, n, i, j, exponent);
    if Value(x) == Value(y) {
      CanonicalUnique(x, y);
    }
  }

  /** m / 10^i = n / 10^j, compared at a common exponent. */
  lemma CrossScale(m: nat, n: nat, i: nat, j: nat, e: nat)
    requires i <= e && j <= e
    ensures m * Pow10(e - i) == n * Pow10(e - j) <==> m * Pow10(j) == n * Pow10(i)
  {
    Pow10Add(e - i, i);
    Pow10Add(e - j, j);
    var p, q, x, y := Pow10(e - i), Pow10(e - j), Pow10(i), Pow10(j);
    hide Pow10;
    assert p * x == q * y > 0;
    Regroup(m, p, x, y);
    Regroup(n, q, y, x);
    assert x * y == y * x > 0;
    CancelFactor(m * p, n * q, x * y);
    CancelFactor(m * y, n * x, p * x);
  }
}
