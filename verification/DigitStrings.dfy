/** Decimal digit strings and the numbers they denote. */
module DigitStrings {

  predicate IsDigit(c: char) { '0' <= c <= '9' }

  predicate AllDigits(s: string) { forall i :: 0 <= i < |s| ==> IsDigit(s[i]) }

  function DigitValue(c: char): nat
    requires IsDigit(c)
  {
    c as int - '0' as int
  }

  function Value(s: string): nat
    requires AllDigits(s)
  {
    if s == "" then 0 else Value(s[..|s| - 1]) * 10 + DigitValue(s[|s| - 1])
  }

  function Pow10(n: nat): (p: nat)
    ensures p > 0
  {
    if n == 0 then 1 else 10 * Pow10(n - 1)
  }

  function Zeros(n: nat): (s: string)
    ensures |s| == n && AllDigits(s) && forall i :: 0 <= i < n ==> s[i] == '0'
  {
    seq(n, i => '0')
  }

  function PadEnd(s: string, n: nat): string {
    if |s| >= n then s else s + Zeros(n - |s|)
  }

  function PadStart(s: string, n: nat): string {
    if |s| >= n then s else Zeros(n - |s|) + s
  }

  /** `replace(/^0+(?=\d)/, '')`: leading zeros go while a digit is left behind them. */
  function StripZeros(s: string): string {
    if |s| >= 2 && s[0] == '0' && IsDigit(s[1]) then StripZeros(s[1..]) else s
  }

  /** `replace(/0+$/, '')`. */
  function DropTrailingZeros(s: string): string {
    if s != "" && s[|s| - 1] == '0' then DropTrailingZeros(s[..|s| - 1]) else s
  }

  /** A numeral with no superfluous leading zero. */
  predicate Canonical(s: string) {
    AllDigits(s) && s != "" && (|s| == 1 || s[0] != '0')
  }

  // ---------------------------------------------------------------- values

  lemma {:induction false} Pow10Add(a: nat, b: nat)
    ensures Pow10(a + b) == Pow10(a) * Pow10(b)
    decreases b
  {
    if b > 0 {
      Pow10Add(a, b - 1);
      assert Pow10(a) * (10 * Pow10(b - 1)) == 10 * (Pow10(a) * Pow10(b - 1));
    }
  }

  lemma {:induction false} ValueConcat(a: string, b: string)
    requires AllDigits(a) && AllDigits(b)
    ensures AllDigits(a + b) && Value(a + b) == Value(a) * Pow10(|b|) + Value(b)
    decreases |b|
  {
    if b == "" {
      assert a + b == a;
    } else {
      var init := b[..|b| - 1];
      ValueConcat(a, init);
      assert (a + b)[..|a + b| - 1] == a + init;
      assert (Value(a) * Pow10(|init|)) * 10 == Value(a) * (10 * Pow10(|init|));
    }
  }

  lemma {:induction false} ValueZeros(n: nat)
    ensures Value(Zeros(n)) == 0
  {
    if n > 0 {
      ValueZeros(n - 1);
      assert Zeros(n)[..n - 1] == Zeros(n - 1);
    }
  }

  lemma {:induction false} ValueBound(s: string)
    requires AllDigits(s)
    ensures Value(s) < Pow10(|s|)
    decreases |s|
  {
    if s != "" {
      ValueBound(s[..|s| - 1]);
    }
  }

  lemma PadEndValue(s: string, n: nat)
    requires AllDigits(s) && |s| <= n
    ensures AllDigits(PadEnd(s, n)) && |PadEnd(s, n)| == n
    ensures Value(PadEnd(s, n)) == Value(s) * Pow10(n - |s|)
  {
    if |s| < n {
      ValueConcat(s, Zeros(n - |s|));
      ValueZeros(n - |s|);
    }
  }

  lemma PadStartValue(s: string, n: nat)
    requires AllDigits(s)
    ensures AllDigits(PadStart(s, n)) && |PadStart(s, n)| == (if |s| < n then n else |s|)
    ensures Value(PadStart(s, n)) == Value(s)
  {
    if |s| < n {
      ValueConcat(Zeros(n - |s|), s);
      ValueZeros(n - |s|);
      assert 0 * Pow10(|s|) == 0;
    }
  }

  lemma {:induction false} StripZerosValue(s: string)
    requires AllDigits(s) && s != ""
    ensures Canonical(StripZeros(s)) && Value(StripZeros(s)) == Value(s)
    decreases |s|
  {
    if |s| >= 2 && s[0] == '0' {
      StripZerosValue(s[1..]);
      assert s == [s[0]] + s[1..];
      ValueConcat([s[0]], s[1..]);
      assert Value([s[0]]) == 0;
    }
  }

  lemma StripZerosFixed(s: string)
    requires Canonical(s)
    ensures StripZeros(s) == s
  {
  }

  // ---------------------------------------------------------------- numerals are unique

  lemma {:induction false} SameLengthUnique(a: string, b: string)
    requires AllDigits(a) && AllDigits(b) && |a| == |b| && Value(a) == Value(b)
    ensures a == b
    decreases |a|
  {
    if a != "" {
      var n := |a| - 1;
      assert Value(a[..n]) == Value(b[..n]) && a[n] == b[n];
      SameLengthUnique(a[..n], b[..n]);
      assert a == a[..n] + [a[n]] && b == b[..n] + [b[n]];
    }
  }

  lemma {:induction false} ValueAtLeast(s: string)
    requires AllDigits(s) && s != "" && s[0] != '0'
    ensures Value(s) >= Pow10(|s| - 1)
    decreases |s|
  {
    if |s| > 1 {
      ValueAtLeast(s[..|s| - 1]);
    } else {
      assert s[..0] == "";
    }
  }

  lemma {:induction false} Pow10Monotone(a: nat, b: nat)
    requires a <= b
    ensures Pow10(a) <= Pow10(b)
    decreases b - a
  {
    if a < b {
      Pow10Monotone(a, b - 1);
    }
  }

  lemma CanonicalLonger(a: string, b: string)
    requires Canonical(a) && Canonical(b) && |a| < |b|
    ensures Value(a) < Value(b)
  {
    ValueBound(a);
    ValueAtLeast(b);
    Pow10Monotone(|a|, |b| - 1);
  }

  /** One number, one canonical numeral. */
  lemma CanonicalUnique(a: string, b: string)
    requires Canonical(a) && Canonical(b) && Value(a) == Value(b)
    ensures a == b
  {
    if |a| < |b| {
      CanonicalLonger(a, b);
    } else if |b| < |a| {
      CanonicalLonger(b, a);
    } else {
      SameLengthUnique(a, b);
    }
  }

  function DigitChar(d: nat): (c: char)
    requires d < 10
    ensures IsDigit(c) && DigitValue(c) == d
  {
    ('0' as int + d) as char
  }

  /** The decimal numeral of a natural number. */
  function Numeral(n: nat): (s: string)
    ensures Canonical(s) && Value(s) == n && (n > 0 ==> s[0] != '0')
  {
    if n < 10 then
      var s := [DigitChar(n)];
      assert s[..0] == "";
      s
    else
      var init := Numeral(n / 10);
      var s := init + [DigitChar(n % 10)];
      assert s[..|s| - 1] == init;
      s
  }

  /** The numeral of a digit string's value is the string without its leading zeros. */
  lemma NumeralOfValue(s: string)
    requires AllDigits(s) && s != ""
    ensures Numeral(Value(s)) == StripZeros(s)
  {
    StripZerosValue(s);
    CanonicalUnique(Numeral(Value(s)), StripZeros(s));
  }

  lemma {:induction false} DropTrailingZerosParts(s: string)
    requires AllDigits(s)
    ensures var d := DropTrailingZeros(s);
            && |d| <= |s| && AllDigits(d) && s == d + Zeros(|s| - |d|)
            && (d == "" || d[|d| - 1] != '0')
    decreases |s|
  {
    if s != "" && s[|s| - 1] == '0' {
      DropTrailingZerosParts(s[..|s| - 1]);
      var d := DropTrailingZeros(s);
      assert s == s[..|s| - 1] + ['0'];
      assert Zeros(|s| - |d|) == Zeros(|s| - 1 - |d|) + ['0'];
    } else {
      assert s + Zeros(0) == s;
    }
  }

  lemma {:induction false} DropTrailingZerosPadded(s: string, n: nat)
    ensures DropTrailingZeros(s + Zeros(n)) == DropTrailingZeros(s)
    decreases n
  {
    if n == 0 {
      assert s + Zeros(0) == s;
    } else {
      DropTrailingZerosPadded(s, n - 1);
      assert (s + Zeros(n))[..|s| + n - 1] == s + Zeros(n - 1);
    }
  }

  /** What is left after dropping trailing zeros fits in `n` digits exactly when the rest are zeros. */
  lemma DropTrailingZerosFits(s: string, n: nat)
    requires AllDigits(s)
    ensures |DropTrailingZeros(s)| <= n <==> forall i :: n <= i < |s| ==> s[i] == '0'
  {
    DropTrailingZerosParts(s);
    var d := DropTrailingZeros(s);
    if |d| > n {
      assert s[|d| - 1] == d[|d| - 1] != '0';
    }
  }
}
