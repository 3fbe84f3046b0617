/** Decimal text of integers, and the seven-decimal stroop format. */
module Decimal {

  const STROOP_DECIMALS: nat := 7
  const STROOPS_PER_UNIT: nat := 10_000_000

  function Pow10(k: nat): (r: nat)
    ensures r >= 1
  {
    if k == 0 then 1 else 10 * Pow10(k - 1)
  }

  predicate IsDigit(c: char) {
    '0' <= c <= '9'
  }

  predicate AllDigits(s: string) {
    forall i :: 0 <= i < |s| ==> IsDigit(s[i])
  }

  function Digit(d: nat): (c: char)
    requires d < 10
    ensures IsDigit(c)
  {
    (48 + d) as char
  }

  /** Number.prototype.toString and BigInt.prototype.toString, for naturals. */
  function NatText(n: nat): string {
    if n < 10 then [Digit(n)] else NatText(n / 10) + [Digit(n % 10)]
  }

  function IntText(n: int): string {
    if n < 0 then "-" + NatText(-n) else NatText(n)
  }

  /** The number a digit string denotes. */
  function Value(s: string): nat
    requires AllDigits(s)
  {
    if s == [] then 0 else 10 * Value(s[..|s| - 1]) + (s[|s| - 1] as int - 48)
  }

  lemma {:induction false} NatTextValue(n: nat)
    ensures AllDigits(NatText(n)) && |NatText(n)| >= 1
    ensures Value(NatText(n)) == n
  {
    if n >= 10 {
      NatTextValue(n / 10);
      assert NatText(n)[..|NatText(n)| - 1] == NatText(n / 10);
    } else {
      assert NatText(n)[..0] == [];
    }
  }

  lemma {:induction false} NatTextLength(n: nat, k: nat)
    requires k >= 1
    ensures n < Pow10(k) <==> |NatText(n)| <= k
  {
    NatTextValue(n);
    if n >= 10 {
      NatTextValue(n / 10);
      if k > 1 {
        NatTextLength(n / 10, k - 1);
      } else {
        assert Pow10(1) == 10 * Pow10(0);
      }
    } else {
      assert Pow10(k) >= 10 * Pow10(k - 1) >= 10;
    }
  }

  /** n without its last k digits. */
  function DropDigits(n: nat, k: nat): nat {
    if k == 0 then n else DropDigits(n / 10, k - 1)
  }

  lemma {:induction false} NatTextPrefix(n: nat, k: nat)
    requires k < |NatText(n)|
    ensures NatText(n)[..|NatText(n)| - k] == NatText(DropDigits(n, k))
    decreases k
  {
    if k == 0 {
      assert NatText(n)[..|NatText(n)|] == NatText(n);
    } else {
      var h := NatText(n / 10);
      NatTextPrefix(n / 10, k - 1);
      assert NatText(n)[..|NatText(n)| - k] == h[..|h| - (k - 1)];
    }
  }

  lemma DropSeven(n: nat)
    ensures DropDigits(n, STROOP_DECIMALS) == n / STROOPS_PER_UNIT
  {
    assert DropDigits(n, 7) == DropDigits(n / 10, 6) == DropDigits(n / 10 / 10, 5);
    assert n / 10 / 10 == n / 100;
    assert DropDigits(n / 100, 5) == DropDigits(n / 100 / 10, 4) == DropDigits(n / 100 / 10 / 10, 3);
    assert n / 100 / 10 / 10 == n / 10_000;
    assert DropDigits(n / 10_000, 3) == DropDigits(n / 10_000 / 10, 2) == DropDigits(n / 10_000 / 10 / 10, 1);
    assert n / 10_000 / 10 / 10 / 10 == n / 10_000_000;
  }

  lemma {:induction false} ValueAppend(s: string, t: string)
    requires AllDigits(s) && AllDigits(t)
    ensures AllDigits(s + t)
    ensures Value(s + t) == Value(s) * Pow10(|t|) + Value(t)
  {
    if t == [] {
      assert s + t == s;
    } else {
      var t' := t[..|t| - 1];
      ValueAppend(s, t');
      assert (s + t)[..|s + t| - 1] == s + t';
      assert Value(s + t) == 10 * (Value(s) * Pow10(|t'|) + Value(t')) + (t[|t| - 1] as int - 48);
      TimesTen(Value(s), Pow10(|t'|));
    }
  }

  lemma TimesTen(a: nat, p: nat)
    ensures 10 * (a * p) == a * (10 * p)
  {
  }

  function Zeros(k: nat): (s: string)
    ensures |s| == k && AllDigits(s)
  {
    seq(k, _ => '0')
  }

  lemma {:induction false} ZerosValue(k: nat)
    ensures Value(Zeros(k)) == 0
  {
    if k > 0 {
      ZerosValue(k - 1);
      assert Zeros(k)[..k - 1] == Zeros(k - 1);
    }
  }

  function PadStart(s: string, k: nat): string {
    if |s| < k then Zeros(k - |s|) + s else s
  }

  /** formatStroops: at least eight digits, with a point before the last seven. */
  function FormatStroops(stroops: nat): string {
    var digits := PadStart(NatText(stroops), STROOP_DECIMALS + 1);
    NatTextValue(stroops);
    digits[..|digits| - STROOP_DECIMALS] + "." + digits[|digits| - STROOP_DECIMALS..]
  }

  lemma PadStartValue(s: string, k: nat)
    requires AllDigits(s)
    ensures AllDigits(PadStart(s, k)) && Value(PadStart(s, k)) == Value(s)
    ensures |PadStart(s, k)| >= k
  {
    if |s| < k {
      ValueAppend(Zeros(k - |s|), s);
      ZerosValue(k - |s|);
    }
  }

  /** The digits before the point are the whole number of units. */
  lemma WholePart(stroops: nat)
    ensures var digits := PadStart(NatText(stroops), STROOP_DECIMALS + 1);
      |digits| > STROOP_DECIMALS && digits[..|digits| - STROOP_DECIMALS] == NatText(stroops / STROOPS_PER_UNIT)
  {
    NatTextValue(stroops);
    NatTextLength(stroops, STROOP_DECIMALS);
    Pow7();
    if |NatText(stroops)| > STROOP_DECIMALS {
      NatTextPrefix(stroops, STROOP_DECIMALS);
      DropSeven(stroops);
    } else {
      assert NatText(stroops / STROOPS_PER_UNIT) == "0";
    }
  }

  /**
   * The printed amount is the whole number of units without leading zeros, a
   * point, and exactly seven decimals that hold the remaining stroops, so it
   * reads back to the same count.
   */
  lemma FormatStroopsReadsBack(stroops: nat) returns (whole: string, frac: string)
    ensures FormatStroops(stroops) == whole + "." + frac
    ensures whole == NatText(stroops / STROOPS_PER_UNIT) && AllDigits(whole)
    ensures |frac| == STROOP_DECIMALS && AllDigits(frac)
    ensures Value(frac) == stroops % STROOPS_PER_UNIT
    ensures Value(whole) * STROOPS_PER_UNIT + Value(frac) == stroops
  {
    var digits := PadStart(NatText(stroops), STROOP_DECIMALS + 1);
    NatTextValue(stroops);
    NatTextValue(stroops / STROOPS_PER_UNIT);
    PadStartValue(NatText(stroops), STROOP_DECIMALS + 1);
    WholePart(stroops);
    Pow7();
    whole := digits[..|digits| - STROOP_DECIMALS];
    frac := digits[|digits| - STROOP_DECIMALS..];
    ValueAppend(whole, frac);
    assert digits == whole + frac;
  }

  lemma Pow7()
    ensures Pow10(STROOP_DECIMALS) == STROOPS_PER_UNIT
  {
    assert Pow10(3) == 1000;
    assert Pow10(5) == 100_000;
    assert Pow10(7) == 10_000_000;
  }
}
