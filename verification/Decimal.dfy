/** Decimal numerals as the C library writes and reads them. */
module Decimal {

  predicate IsDigit(c: char) {
    '0' <= c <= '9'
  }

  predicate AllDigits(s: string) {
    forall i :: 0 <= i < |s| ==> IsDigit(s[i])
  }

  function DigitChar(d: nat): (c: char)
    requires d < 10
    ensures IsDigit(c) && DigitValue(c) == d
  {
    '0' + d as char
  }

  function DigitValue(c: char): nat
    requires IsDigit(c)
  {
    c as int - '0' as int
  }

  /** The canonical numeral of `n`. */
  function Dec(n: nat): (s: string)
    ensures s != "" && AllDigits(s)
    ensures n > 0 ==> s[0] != '0'
  {
    if n < 10 then [DigitChar(n)] else Dec(n / 10) + [DigitChar(n % 10)]
  }

  /** The numeral of a signed number. */
  function IntText(n: int): string {
    if n < 0 then "-" + Dec(-n) else Dec(n)
  }

  /** How many leading characters are digits. */
  function DigitCount(s: string): (k: nat)
    ensures k <= |s| && AllDigits(s[..k]) && (k < |s| ==> !IsDigit(s[k]))
  {
    if s == "" || !IsDigit(s[0]) then 0 else 1 + DigitCount(s[1..])
  }

  /** The number that the digits of `s` add to what has been read already. */
  function Accumulate(s: string, acc: nat): nat
    requires AllDigits(s)
  {
    if s == "" then acc else Accumulate(s[1..], 10 * acc + DigitValue(s[0]))
  }

  lemma {:induction false} AccumulateAppend(s: string, t: string, acc: nat)
    requires AllDigits(s) && AllDigits(t)
    ensures AllDigits(s + t)
    ensures Accumulate(s + t, acc) == Accumulate(t, Accumulate(s, acc))
  {
    if s == "" {
      assert s + t == t;
    } else {
      AccumulateAppend(s[1..], t, 10 * acc + DigitValue(s[0]));
      assert (s + t)[1..] == s[1..] + t;
    }
  }

  /** Reading back what was written. */
  lemma {:induction false} AccumulateDec(n: nat)
    ensures Accumulate(Dec(n), 0) == n
  {
    if n >= 10 {
      AccumulateDec(n / 10);
      AccumulateAppend(Dec(n / 10), [DigitChar(n % 10)], 0);
    }
  }

  lemma {:induction false} DigitCountIs(s: string, t: string)
    requires AllDigits(s) && (t != "" ==> !IsDigit(t[0]))
    ensures DigitCount(s + t) == |s|
  {
    if s != "" {
      assert (s + t)[1..] == s[1..] + t;
      DigitCountIs(s[1..], t);
    } else {
      assert s + t == t;
    }
  }

  /** A numeral of a number below 10^k has at most k digits. */
  lemma {:induction false} DecLength(n: nat, k: nat)
    requires 0 < k && n < Power10(k)
    ensures |Dec(n)| <= k
  {
    if n >= 10 {
      assert Power10(1) == 10 * Power10(0);
      DecLength(n / 10, k - 1);
    }
  }

  function Power10(k: nat): nat {
    if k == 0 then 1 else 10 * Power10(k - 1)
  }
}
