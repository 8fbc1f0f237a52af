/** Decimal integers as the source prints and reads them. */
module Decimals {
  import opened Prelude

  predicate IsDigit(c: char) {
    '0' <= c <= '9'
  }

  function DigitValue(c: char): nat
    requires IsDigit(c)
  {
    c as int - '0' as int
  }

  function Digit(d: nat): (c: char)
    requires d < 10
    ensures IsDigit(c) && DigitValue(c) == d
  {
    ('0' as int + d) as char
  }

  function PrintNat(n: nat): (s: string)
    ensures s != []
  {
    if n < 10 then [Digit(n)] else PrintNat(n / 10) + [Digit(n % 10)]
  }

  function PrintInt(n: int): string {
    if n < 0 then "-" + PrintNat(-n) else PrintNat(n)
  }

  /** Digits, with single underscores allowed between them. */
  function ReadDigits(s: string): Option<nat> {
    if s == "" || !IsDigit(s[|s| - 1]) then None
    else if |s| == 1 then Some(DigitValue(s[0]))
    else
      var front := if s[|s| - 2] == '_' then s[..|s| - 2] else s[..|s| - 1];
      match ReadDigits(front)
      case None => None
      case Some(v) => Some(10 * v + DigitValue(s[|s| - 1]))
  }

  /** Python's `int(token)` on a token of ASCII characters without white space. */
  function ReadInt(s: string): Option<int> {
    if s == "" then None
    else if s[0] == '-' then
      match ReadDigits(s[1..])
      case None => None
      case Some(v) => Some(0 - v)
    else
      match ReadDigits(if s[0] == '+' then s[1..] else s)
      case None => None
      case Some(v) => Some(v)
  }

  predicate AllDigits(s: string) {
    forall i :: 0 <= i < |s| ==> IsDigit(s[i])
  }

  lemma {:induction false} PrintNatDigits(n: nat)
    ensures AllDigits(PrintNat(n))
    ensures PrintNat(n)[0] == '0' ==> n == 0
  {
    if n >= 10 {
      PrintNatDigits(n / 10);
    }
  }

  lemma {:induction false} ReadPrintedNat(n: nat)
    ensures ReadDigits(PrintNat(n)) == Some(n)
  {
    PrintNatDigits(n);
    if n >= 10 {
      ReadPrintedNat(n / 10);
      var s := PrintNat(n);
      assert s[..|s| - 1] == PrintNat(n / 10);
      assert IsDigit(s[|s| - 2]);
    }
  }

  /** Reading a printed integer gives it back. */
  lemma ReadPrintedInt(n: int)
    ensures ReadInt(PrintInt(n)) == Some(n)
  {
    var size := if n < 0 then -n else n;
    ReadPrintedNat(size);
    PrintNatDigits(size);
    SignedDigits(PrintNat(size));
  }

  lemma SignedDigits(digits: string)
    requires digits != "" && IsDigit(digits[0])
    ensures ReadInt("-" + digits) == (match ReadDigits(digits) case None => None case Some(v) => Some(0 - v))
    ensures ReadInt(digits) == (match ReadDigits(digits) case None => None case Some(v) => Some(v))
  {
    assert ("-" + digits)[1..] == digits;
  }

  function Pow10(n: nat): (p: nat)
    ensures p >= 1
  {
    if n == 0 then 1 else 10 * Pow10(n - 1)
  }

  /** A number below a power of ten prints with no more digits than the exponent. */
  lemma {:induction false} PrintNatLength(n: nat, k: nat)
    requires 0 < k && n < Pow10(k)
    ensures |PrintNat(n)| <= k
  {
    if n >= 10 {
      assert Pow10(1) == 10;
      PrintNatLength(n / 10, k - 1);
    }
  }

  // ---------------------------------------------------------------------------------------------
  // The same in plain terms.

  lemma DigitsCount()
    ensures DigitValue('0') == 0 && DigitValue('1') == 1 && DigitValue('2') == 2 && DigitValue('3') == 3
    ensures DigitValue('4') == 4 && DigitValue('5') == 5 && DigitValue('6') == 6 && DigitValue('7') == 7
    ensures DigitValue('8') == 8 && DigitValue('9') == 9
  {
  }

  /** A number has one decimal numeral without leading zeros, and that is what is printed. */
  lemma {:induction false} NumeralIsUnique(s: string, n: nat)
    requires s != "" && AllDigits(s) && (s[0] == '0' ==> s == "0") && ReadDigits(s) == Some(n)
    ensures s == PrintNat(n)
  {
    if |s| > 1 {
      var front := s[..|s| - 1];
      NumeralIsUnique(front, n / 10);
      assert s == front + [s[|s| - 1]];
    }
  }

  lemma NegativeHasSign(n: int)
    ensures PrintInt(n) == if n < 0 then "-" + PrintNat(0 - n) else PrintNat(n)
  {
  }

  predicate IsGrouped(s: string) {
    && s != "" && IsDigit(s[0]) && IsDigit(s[|s| - 1])
    && (forall i :: 0 <= i < |s| ==> IsDigit(s[i]) || s[i] == '_')
    && forall i :: 0 <= i < |s| - 1 ==> IsDigit(s[i]) || IsDigit(s[i + 1])
  }

  function Ungrouped(s: string): string {
    if s == "" then "" else Ungrouped(s[..|s| - 1]) + if s[|s| - 1] == '_' then "" else [s[|s| - 1]]
  }

  /** Digits, with single underscores allowed between them, are read as the number without the underscores. */
  lemma {:induction false} ReadsGroupedDigits(s: string)
    ensures ReadDigits(s).Some? <==> IsGrouped(s)
    ensures IsGrouped(s) ==> AllDigits(Ungrouped(s)) && Ungrouped(s) != "" && ReadDigits(s) == ReadDigits(Ungrouped(s))
  {
    if |s| == 1 {
      assert s[..0] == "";
      assert IsDigit(s[0]) ==> Ungrouped(s) == s;
    } else if s != "" && IsDigit(s[|s| - 1]) {
      ReadsGroupedDigits(Front(s));
      GroupedFront(s);
      UngroupedFront(s);
      if IsGrouped(s) {
        OneDigitMore(Ungrouped(Front(s)), s[|s| - 1]);
        FrontDigit(s);
      }
    }
  }

  /** All before the last digit, and before an underscore in front of it. */
  function Front(s: string): string
    requires |s| > 1
  {
    if s[|s| - 2] == '_' then s[..|s| - 2] else s[..|s| - 1]
  }

  lemma UngroupedFront(s: string)
    requires |s| > 1 && IsDigit(s[|s| - 1])
    ensures Ungrouped(s) == Ungrouped(Front(s)) + [s[|s| - 1]]
  {
    assert s[|s| - 2] == '_' ==> s[..|s| - 1][..|s| - 2] == Front(s);
  }

  lemma OneDigitMore(digits: string, c: char)
    requires digits != "" && AllDigits(digits) && IsDigit(c)
    ensures ReadDigits(digits + [c]) ==
            match ReadDigits(digits) case None => None case Some(v) => Some(10 * v + DigitValue(c))
  {
    assert (digits + [c])[..|digits|] == digits;
    assert (digits + [c])[|digits| - 1] != '_';
  }

  lemma FrontDigit(s: string)
    requires |s| > 1 && IsDigit(s[|s| - 1])
    ensures ReadDigits(s) ==
            match ReadDigits(Front(s)) case None => None case Some(v) => Some(10 * v + DigitValue(s[|s| - 1]))
  {
  }

  lemma GroupedFront(s: string)
    requires |s| > 1 && IsDigit(s[|s| - 1])
    ensures IsGrouped(s) <==> IsGrouped(Front(s))
  {
    var front := Front(s);
    if IsGrouped(front) {
      forall i | 0 <= i < |s| - 1
        ensures IsDigit(s[i]) || IsDigit(s[i + 1])
      {
        assert i < |front| - 1 ==> IsDigit(front[i]) || IsDigit(front[i + 1]);
        assert i == |front| - 1 ==> IsDigit(front[i]);
      }
      forall i | 0 <= i < |s|
        ensures IsDigit(s[i]) || s[i] == '_'
      {
        assert i < |front| ==> IsDigit(front[i]) || front[i] == '_';
      }
    }
    if IsGrouped(s) && |s| > 2 {
      assert IsDigit(s[|s| - 3]) || IsDigit(s[|s| - 3 + 1]);
    }
  }

  /** An integer is grouped digits with at most one sign. */
  lemma ReadsSigned(s: string)
    requires s == "" || (s[0] != '+' && s[0] != '-')
    ensures ReadInt("-" + s) == (match ReadDigits(s) case None => None case Some(v) => Some(0 - v))
    ensures ReadInt("+" + s) == ReadInt(s)
    ensures ReadInt(s) == (match ReadDigits(s) case None => None case Some(v) => Some(v))
  {
    assert ("-" + s)[1..] == s && ("+" + s)[1..] == s;
  }
}
