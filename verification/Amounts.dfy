/** Work amounts as canonical decimals (`cathedral_thin/ml_receipts.py`). An amount is a whole number of
    units of 10 to the power -12, the finest the decimal format has. */
module Amounts {
  import opened Prelude
  import opened Decimals

  const PLACES := 12
  const MAX_WHOLE_DIGITS := 30

  /** The last `places` digits of a number, zeros included. */
  function Pad(n: nat, places: nat): string {
    if places == 0 then "" else Pad(n / 10, places - 1) + [Digit(n % 10)]
  }

  function StripTrailing(s: string, c: char): string {
    if s != "" && s[|s| - 1] == c then StripTrailing(s[..|s| - 1], c) else s
  }

  /** At most 30 digits, none leading zero unless alone. */
  predicate WholeForm(s: string) {
    1 <= |s| <= MAX_WHOLE_DIGITS && AllDigits(s) && (s[0] == '0' ==> s == "0")
  }

  /** Between one and twelve digits. */
  predicate FractionForm(s: string) {
    1 <= |s| <= PLACES && AllDigits(s)
  }

  /** The place of the point, or the length. */
  function PointAt(s: string): (i: nat)
    ensures i <= |s|
  {
    if s == "" || s[0] == '.' then 0 else 1 + PointAt(s[1..])
  }

  predicate DecimalForm(s: string) {
    var i := PointAt(s);
    WholeForm(s[..i]) && (i < |s| ==> FractionForm(s[i + 1..]))
  }

  function ReadScaled(s: string, places: nat): nat
    requires AllDigits(s) && |s| <= places
  {
    if s == "" then 0 else DigitValue(s[0]) * Pow10(places - 1) + ReadScaled(s[1..], places - 1)
  }

  function ReadParts(whole: string, fraction: string, places: nat): nat
    requires AllDigits(whole) && AllDigits(fraction) && |fraction| <= places
  {
    ReadScaled(whole, |whole|) * Pow10(places) + ReadScaled(fraction, places)
  }

  /** The units a decimal in the format stands for. */
  function ReadAmount(s: string): Option<nat> {
    if !DecimalForm(s) then None
    else
      var i := PointAt(s);
      Some(ReadParts(s[..i], if i < |s| then s[i + 1..] else "", PLACES))
  }

  function RenderParts(whole: nat, padded: string): string {
    StripTrailing(StripTrailing(PrintNat(whole) + "." + padded, '0'), '.')
  }

  function Render(v: nat): string {
    RenderParts(v / Pow10(PLACES), Pad(v % Pow10(PLACES), PLACES))
  }

  function CanonicalDecimal(v: nat): Option<string> {
    if DecimalForm(Render(v)) then Some(Render(v)) else None
  }

  // ---------------------------------------------------------------------------------------------
  // Digits.

  lemma {:induction false} PadDigits(n: nat, places: nat)
    ensures |Pad(n, places)| == places && AllDigits(Pad(n, places))
  {
    if places > 0 {
      PadDigits(n / 10, places - 1);
    }
  }

  lemma {:induction false} ReadOneMore(s: string, c: char, places: nat)
    requires AllDigits(s) && IsDigit(c) && |s| < places
    ensures AllDigits(s + [c])
    ensures ReadScaled(s + [c], places) == ReadScaled(s, places) + DigitValue(c) * Pow10(places - |s| - 1)
  {
    if s == "" {
      assert ([] + [c])[1..] == "";
    } else {
      assert (s + [c])[1..] == s[1..] + [c];
      assert AllDigits(s[1..]);
      ReadOneMore(s[1..], c, places - 1);
    }
  }

  lemma {:induction false} ReadPadded(n: nat, k: nat, places: nat)
    requires k <= places && n < Pow10(k)
    ensures AllDigits(Pad(n, k)) && |Pad(n, k)| == k
    ensures ReadScaled(Pad(n, k), places) == n * Pow10(places - k)
  {
    PadDigits(n, k);
    if k > 0 {
      PadDigits(n / 10, k - 1);
      ReadPadded(n / 10, k - 1, places);
      ReadOneMore(Pad(n / 10, k - 1), Digit(n % 10), places);
      var p := Pow10(places - k);
      assert Pow10(places - k + 1) == 10 * p;
      assert n / 10 * (10 * p) + n % 10 * p == n * p by {
        assert n == n / 10 * 10 + n % 10;
        Regroup(n / 10, n % 10, p);
      }
    }
  }

  lemma Regroup(a: nat, b: nat, p: nat)
    ensures a * (10 * p) + b * p == (a * 10 + b) * p
  {
  }

  lemma {:induction false} StripKeepsValue(s: string, places: nat)
    requires AllDigits(s) && |s| <= places
    ensures AllDigits(StripTrailing(s, '0')) && |StripTrailing(s, '0')| <= |s|
    ensures ReadScaled(StripTrailing(s, '0'), places) == ReadScaled(s, places)
  {
    if s != "" && s[|s| - 1] == '0' {
      StripKeepsValue(s[..|s| - 1], places);
      assert s == s[..|s| - 1] + ['0'];
      ReadOneMore(s[..|s| - 1], '0', places);
    }
  }

  lemma {:induction false} StripAfter(front: string, s: string, c: char)
    ensures StripTrailing(front + s, c) == if StripTrailing(s, c) == "" then StripTrailing(front, c)
                                        else front + StripTrailing(s, c)
  {
    if s == "" {
      assert front + s == front;
    } else if s[|s| - 1] == c {
      assert (front + s)[..|front + s| - 1] == front + s[..|s| - 1];
      StripAfter(front, s[..|s| - 1], c);
    }
  }

  lemma {:induction false} PrintedIsPadded(n: nat)
    ensures var k := |PrintNat(n)|; PrintNat(n) == Pad(n, k) && n < Pow10(k) && (n > 0 ==> n >= Pow10(k - 1))
  {
    assert Pow10(1) == 10 && Pow10(0) == 1;
    if n < 10 {
      assert Pad(n, 1) == Pad(n / 10, 0) + [Digit(n % 10)] == [Digit(n)];
    } else {
      PrintedIsPadded(n / 10);
      var k := |PrintNat(n / 10)|;
      assert Pow10(k) == 10 * Pow10(k - 1);
    }
  }

  lemma {:induction false} PowGrows(a: nat, b: nat)
    requires a < b
    ensures 10 * Pow10(a) <= Pow10(b)
  {
    if a + 1 < b {
      PowGrows(a, b - 1);
    }
  }

  lemma PrintedLength(n: nat, k: nat)
    requires 0 < k
    ensures |PrintNat(n)| <= k <==> n < Pow10(k)
  {
    PrintedIsPadded(n);
    var d := |PrintNat(n)|;
    if k < d {
      assert n > 0;
      if k < d - 1 {
        PowGrows(k, d - 1);
      }
    } else if d < k {
      PowGrows(d, k);
    }
  }

  // ---------------------------------------------------------------------------------------------
  // Rendering and reading.

  lemma {:induction false} PointAfter(digits: string, rest: string)
    requires AllDigits(digits) && (rest == "" || rest[0] == '.')
    ensures PointAt(digits + rest) == |digits|
  {
    if digits == "" {
      assert digits + rest == rest;
    } else {
      assert (digits + rest)[1..] == digits[1..] + rest;
      PointAfter(digits[1..], rest);
    }
  }

  lemma {:induction false} StripEnd(s: string, c: char)
    ensures var t := StripTrailing(s, c); t == "" || t[|t| - 1] != c
  {
    if s != "" && s[|s| - 1] == c {
      StripEnd(s[..|s| - 1], c);
    }
  }

  lemma StripFraction(front: string, padded: string)
    requires AllDigits(padded) && StripTrailing(padded, '0') != ""
    ensures StripTrailing(StripTrailing(front + padded, '0'), '.') == front + StripTrailing(padded, '0')
  {
    var fraction := StripTrailing(padded, '0');
    StripKeepsValue(padded, |padded|);
    StripEnd(padded, '0');
    StripAfter(front, padded, '0');
    assert (front + fraction)[|front + fraction| - 1] == fraction[|fraction| - 1];
    assert IsDigit(fraction[|fraction| - 1]);
  }

  /** What is rendered: the whole part, and the fraction without its trailing zeros if there is any. */
  lemma RenderShape(n: nat, padded: string)
    requires AllDigits(padded)
    ensures RenderParts(n, padded) == PrintNat(n) + Tail(StripTrailing(padded, '0'))
  {
    var whole := PrintNat(n);
    if StripTrailing(padded, '0') == "" {
      PrintNatDigits(n);
      StripAfter(whole + ".", padded, '0');
      StripPoint(whole);
      assert whole + "" == whole;
    } else {
      StripFraction(whole + ".", padded);
      Associate(whole, ".", StripTrailing(padded, '0'));
    }
  }

  lemma Associate(a: string, b: string, c: string)
    ensures a + b + c == a + (b + c)
  {
  }

  function Tail(fraction: string): string {
    if fraction == "" then "" else "." + fraction
  }

  lemma StripPoint(whole: string)
    requires AllDigits(whole) && whole != ""
    ensures StripTrailing(whole + ".", '0') == whole + "." && StripTrailing(whole + ".", '.') == whole
  {
    assert (whole + ".")[|whole|] == '.' && (whole + ".")[..|whole|] == whole;
    assert IsDigit(whole[|whole| - 1]);
    assert StripTrailing(whole + ".", '.') == StripTrailing(whole, '.');
  }

  lemma SplitAtPoint(n: nat, fraction: string)
    requires AllDigits(fraction)
    ensures var (s, i) := (PrintNat(n) + Tail(fraction), |PrintNat(n)|);
            PointAt(s) == i && s[..i] == PrintNat(n) && (i < |s| <==> fraction != "")
            && (i < |s| ==> s[i + 1..] == fraction)
  {
    PrintNatDigits(n);
    PointAfter(PrintNat(n), Tail(fraction));
  }

  lemma FormOfParts(n: nat, fraction: string)
    requires AllDigits(fraction) && |fraction| <= PLACES
    ensures DecimalForm(PrintNat(n) + Tail(fraction)) <==> |PrintNat(n)| <= MAX_WHOLE_DIGITS
  {
    SplitAtPoint(n, fraction);
    PrintNatDigits(n);
    assert n == 0 ==> PrintNat(n) == "0";
  }

  lemma ReadRendered(n: nat, fraction: string)
    requires AllDigits(fraction) && |fraction| <= PLACES && DecimalForm(PrintNat(n) + Tail(fraction))
    ensures AllDigits(PrintNat(n))
    ensures ReadAmount(PrintNat(n) + Tail(fraction)) == Some(ReadParts(PrintNat(n), fraction, PLACES))
  {
    SplitAtPoint(n, fraction);
    PrintNatDigits(n);
  }

  lemma DivMod(v: nat, d: nat)
    requires d > 0
    ensures v / d * d + v % d == v
  {
  }

  lemma ReadPrinted(n: nat)
    ensures AllDigits(PrintNat(n)) && ReadScaled(PrintNat(n), |PrintNat(n)|) == n
  {
    PrintedIsPadded(n);
    ReadPadded(n, |PrintNat(n)|, |PrintNat(n)|);
    assert Pow10(0) == 1;
  }

  lemma ReadFraction(rest: nat, places: nat)
    requires rest < Pow10(places)
    ensures var fraction := StripTrailing(Pad(rest, places), '0');
            AllDigits(fraction) && |fraction| <= places && ReadScaled(fraction, places) == rest
  {
    ReadPadded(rest, places, places);
    StripKeepsValue(Pad(rest, places), places);
    assert Pow10(0) == 1;
  }

  lemma PartsRoundTrip(n: nat, rest: nat, places: nat)
    requires rest < Pow10(places)
    ensures var fraction := StripTrailing(Pad(rest, places), '0');
            && AllDigits(fraction) && |fraction| <= places && AllDigits(PrintNat(n))
            && ReadParts(PrintNat(n), fraction, places) == n * Pow10(places) + rest
            && RenderParts(n, Pad(rest, places)) == PrintNat(n) + Tail(fraction)
  {
    ReadPrinted(n);
    ReadFraction(rest, places);
    PadDigits(rest, places);
    RenderShape(n, Pad(rest, places));
  }

  lemma {:induction false} PowAdds(a: nat, b: nat)
    ensures Pow10(a + b) == Pow10(a) * Pow10(b)
  {
    if a > 0 {
      PowAdds(a - 1, b);
      assert Pow10(a + b) == 10 * Pow10(a - 1 + b);
    }
  }

  lemma WholeBelow(v: nat, places: nat, digits: nat)
    ensures v / Pow10(places) < Pow10(digits) <==> v < Pow10(digits + places)
  {
    PowAdds(digits, places);
    DivideBelow(v, Pow10(places), Pow10(digits));
  }

  lemma DivideBelow(v: nat, d: nat, bound: nat)
    requires d > 0
    ensures v / d < bound <==> v < bound * d
  {
    assert v == v / d * d + v % d;
    if v / d < bound {
      assert (v / d + 1) * d <= bound * d;
    } else {
      assert bound * d <= v / d * d;
    }
  }

  /** An amount renders in the format exactly when its whole part has at most 30 digits, and reading what
      is rendered gives the amount back. */
  lemma CanonicalRoundTrip(v: nat)
    ensures CanonicalDecimal(v).Some? <==> v < Pow10(42)
    ensures CanonicalDecimal(v).Some? ==> ReadAmount(CanonicalDecimal(v).value) == Some(v)
  {
    RoundTripAt(v, PLACES);
  }

  lemma CanonicalFits(v: nat, digits: nat)
    requires digits == MAX_WHOLE_DIGITS + PLACES
    ensures CanonicalDecimal(v).Some? <==> v < Pow10(digits)
    ensures CanonicalDecimal(v).Some? ==> ReadAmount(CanonicalDecimal(v).value) == Some(v)
  {
    RoundTripAt(v, PLACES);
  }

  lemma RoundTripAt(v: nat, places: nat)
    requires places == PLACES
    ensures CanonicalDecimal(v).Some? <==> v < Pow10(MAX_WHOLE_DIGITS + places)
    ensures CanonicalDecimal(v).Some? ==> ReadAmount(CanonicalDecimal(v).value) == Some(v)
  {
    var n := v / Pow10(places);
    var fraction := StripTrailing(Pad(v % Pow10(places), places), '0');
    PartsRoundTrip(n, v % Pow10(places), places);
    PrintedLength(n, MAX_WHOLE_DIGITS);
    WholeBelow(v, places, MAX_WHOLE_DIGITS);
    FormOfParts(n, fraction);
    DivMod(v, Pow10(places));
    if |PrintNat(n)| <= MAX_WHOLE_DIGITS {
      ReadRendered(n, fraction);
    }
  }

  /** A canonical amount has no superfluous zeros: no point, or a last digit other than zero. */
  lemma CanonicalIsShortest(v: nat)
    requires CanonicalDecimal(v).Some?
    ensures var s := CanonicalDecimal(v).value;
            s != "" && (AllDigits(s) || (s[|s| - 1] != '0' && s[|s| - 1] != '.'))
  {
    ShortestAt(v, PLACES);
  }

  lemma ShortestAt(v: nat, places: nat)
    requires places == PLACES && CanonicalDecimal(v).Some?
    ensures var s := CanonicalDecimal(v).value;
            s != "" && (AllDigits(s) || (s[|s| - 1] != '0' && s[|s| - 1] != '.'))
  {
    var n, padded := v / Pow10(places), Pad(v % Pow10(places), places);
    PadDigits(v % Pow10(places), places);
    RenderShape(n, padded);
    PrintNatDigits(n);
    StripEnd(padded, '0');
    StripKeepsValue(padded, places);
    var s, fraction := CanonicalDecimal(v).value, StripTrailing(padded, '0');
    assert s == PrintNat(n) + Tail(fraction);
    if fraction == "" {
      assert s == PrintNat(n);
    } else {
      assert s[|s| - 1] == fraction[|fraction| - 1] && IsDigit(fraction[|fraction| - 1]);
    }
  }

  /** One to thirty digits with no leading zero unless alone, and up to twelve after a point if there is one. */
  predicate Splits(s: string, whole: string, fraction: string) {
    && s == whole + (if fraction == "" then "" else "." + fraction)
    && 1 <= |whole| <= 30 && AllDigits(whole) && (|whole| > 1 ==> whole[0] != '0')
    && |fraction| <= 12 && AllDigits(fraction)
  }

  /** Exactly such texts are read. */
  lemma AmountsReadExactly(s: string)
    ensures ReadAmount(s).Some? <==> exists whole, fraction :: Splits(s, whole, fraction)
  {
    if whole, fraction :| Splits(s, whole, fraction) {
      SplitForm(s, whole, fraction);
    }
    if DecimalForm(s) {
      FormSplits(s);
    }
  }

  lemma FormSplits(s: string)
    requires DecimalForm(s)
    ensures exists whole, fraction :: Splits(s, whole, fraction)
  {
    var i := PointAt(s);
    PointIsPoint(s);
    var fraction := if i < |s| then s[i + 1..] else "";
    assert s == s[..i] + if i < |s| then "." + fraction else "";
    assert Splits(s, s[..i], fraction);
  }

  lemma SplitForm(s: string, whole: string, fraction: string)
    requires Splits(s, whole, fraction)
    ensures DecimalForm(s) && PointAt(s) == |whole| && s[..|whole|] == whole
    ensures if fraction == "" then |s| == |whole| else |s| > |whole| && s[|whole| + 1..] == fraction
  {
    PointAfter(whole, if fraction == "" then "" else "." + fraction);
  }

  /** They stand for the digits before the point times ten to the power twelve, and those behind it. */
  lemma AmountReads(s: string, whole: string, fraction: string, places: nat)
    requires Splits(s, whole, fraction) && places == 12
    ensures ReadAmount(s) == Some(ReadScaled(whole, |whole|) * Pow10(places) + ReadScaled(fraction, places))
  {
    SplitForm(s, whole, fraction);
    assert ReadAmount(s) == Some(ReadParts(whole, fraction, places));
  }

  lemma {:induction false} PointIsPoint(s: string)
    ensures PointAt(s) < |s| ==> s[PointAt(s)] == '.'
  {
    if s != "" && s[0] != '.' {
      PointIsPoint(s[1..]);
    }
  }

  /** Digits count by their place: each of the `k` digits of a number is worth ten times the next. */
  lemma {:induction false} DigitsByPlace(s: string, places: nat, i: nat)
    requires AllDigits(s) && i < |s| <= places
    ensures AllDigits(s[..i]) && AllDigits(s[i + 1..])
    ensures ReadScaled(s, places)
            == ReadScaled(s[..i], places) + DigitValue(s[i]) * Pow10(places - 1 - i)
            + ReadScaled(s[i + 1..], places - 1 - i)
  {
    if i == 0 {
      assert s[..0] == "";
    } else {
      DigitsByPlace(s[1..], places - 1, i - 1);
      assert s[..i][1..] == s[1..][..i - 1] && s[1..][i..] == s[i + 1..];
      assert s[..i][0] == s[0];
    }
  }

  lemma {:induction false} PadShowsDigits(n: nat, places: nat, i: nat)
    requires i < places
    ensures |Pad(n, places)| == places && Pad(n, places)[i] == Digit(n / Pow10(places - 1 - i) % 10)
  {
    PadDigits(n, places);
    if i < places - 1 {
      PadShowsDigits(n / 10, places - 1, i);
      DivideTwice(n, 10, Pow10(places - 2 - i));
    }
  }

  lemma DivideTwice(n: nat, a: nat, b: nat)
    requires a > 0 && b > 0
    ensures n / a / b == n / (a * b)
  {
    DivMod(n, a);
    DivMod(n / a, b);
    QuotientOfProduct(n, n / a, a, b, n / a / b, n / a % b, n % a);
  }

  lemma QuotientOfProduct(n: nat, m: nat, a: nat, b: nat, q: nat, c: nat, d: nat)
    requires n == m * a + d && m == q * b + c && d < a && c < b
    ensures a * b > 0 && n / (a * b) == q
  {
    Spread(q, a, b, c);
    Scale(c, b - 1, a);
    Spread(0, a, b, b - 1);
    var product, rest := a * b, a * c + d;
    assert a * (b - 1) == product - a;
    assert n == q * product + rest && rest < product;
    QuotientUnique(n, product, q, rest);
  }

  lemma Spread(q: nat, a: nat, b: nat, c: nat)
    ensures (q * b + c) * a == q * (a * b) + a * c
  {
  }

  lemma Scale(x: nat, y: nat, a: nat)
    requires x <= y
    ensures a * x <= a * y
  {
  }
}
