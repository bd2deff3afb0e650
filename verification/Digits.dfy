/**
 Decimal text: what strconv.FormatUint, strconv.ParseInt and the "%d" and
 "%04d" verbs do with non-negative numbers.
 */
module Digits {

  function Pow10(n: nat): (r: nat)
    ensures r >= 1
  {
    if n == 0 then 1 else 10 * Pow10(n - 1)
  }

  predicate IsDigit(c: char) { '0' <= c <= '9' }

  predicate AllDigits(s: string) {
    forall i :: 0 <= i < |s| ==> IsDigit(s[i])
  }

  function DigitOf(c: char): (d: nat)
    requires IsDigit(c)
    ensures d < 10
  {
    c as int - '0' as int
  }

  function CharOf(d: nat): (c: char)
    requires d < 10
    ensures IsDigit(c) && DigitOf(c) == d
  {
    (d + '0' as int) as char
  }

  /** The number a digit string denotes; leading zeros do not matter. */
  function ValueOf(s: string): (v: nat)
    requires AllDigits(s)
  {
    if s == "" then 0 else 10 * ValueOf(s[..|s| - 1]) + DigitOf(s[|s| - 1])
  }

  /** strconv.FormatUint(n, 10). */
  function FormatNat(n: nat): (s: string)
    ensures |s| > 0 && AllDigits(s)
    decreases n
  {
    if n < 10 then [CharOf(n)] else FormatNat(n / 10) + [CharOf(n % 10)]
  }

  function Zeros(k: nat): (s: string)
    ensures |s| == k && AllDigits(s)
  {
    seq(k, _ => '0')
  }

  /** The "%0kd" verb: zero-padded to at least `width` digits. */
  function FormatPadded(width: nat, n: nat): (s: string)
    ensures AllDigits(s)
  {
    var t := FormatNat(n);
    if |t| >= width then t else Zeros(width - |t|) + t
  }

  lemma ConcatLast(a: string, b: string)
    requires b != ""
    ensures (a + b)[..|a + b| - 1] == a + b[..|b| - 1] && (a + b)[|a + b| - 1] == b[|b| - 1]
  {
  }

  lemma ShiftDigit(v: nat, p: nat)
    ensures v * (10 * p) == 10 * (v * p)
  {
  }

  lemma {:induction false} ValueOfConcat(a: string, b: string)
    requires AllDigits(a) && AllDigits(b)
    ensures AllDigits(a + b)
    ensures ValueOf(a + b) == ValueOf(a) * Pow10(|b|) + ValueOf(b)
  {
    if b == "" {
      assert a + b == a;
    } else {
      var k := |b| - 1;
      ValueOfConcat(a, b[..k]);
      ConcatLast(a, b);
      ShiftDigit(ValueOf(a), Pow10(k));
    }
  }

  lemma {:induction false} FormatNatValue(n: nat)
    ensures ValueOf(FormatNat(n)) == n
    ensures FormatNat(n)[0] == '0' ==> FormatNat(n) == "0"
    decreases n
  {
    var s := FormatNat(n);
    if n < 10 {
      assert s[..0] == "";
    } else {
      FormatNatValue(n / 10);
      assert s[..|s| - 1] == FormatNat(n / 10);
    }
  }

  lemma {:induction false} ZerosValue(k: nat)
    ensures ValueOf(Zeros(k)) == 0
  {
    if k > 0 {
      ZerosValue(k - 1);
      assert Zeros(k)[..k - 1] == Zeros(k - 1);
    }
  }

  lemma {:induction false} ValueBound(s: string)
    requires AllDigits(s)
    ensures ValueOf(s) < Pow10(|s|)
  {
    if s != "" { ValueBound(s[..|s| - 1]); }
  }

  /** A number below 10^k needs at most k digits. */
  lemma {:induction false} FormatNatLength(n: nat, k: nat)
    requires n < Pow10(k) && k > 0
    ensures |FormatNat(n)| <= k
    decreases n
  {
    if n >= 10 {
      assert Pow10(1) == 10;
      FormatNatLength(n / 10, k - 1);
    }
  }

  /** Two digit strings of one length with one value are the same string. */
  lemma {:induction false} SameLengthSameValue(a: string, b: string)
    requires AllDigits(a) && AllDigits(b) && |a| == |b|
    requires ValueOf(a) == ValueOf(b)
    ensures a == b
  {
    if a != "" {
      var k := |a| - 1;
      LastDigit(a);
      LastDigit(b);
      SameLengthSameValue(a[..k], b[..k]);
      assert a == a[..k] + [a[k]] && b == b[..k] + [b[k]];
    }
  }

  lemma LastDigit(s: string)
    requires AllDigits(s) && s != ""
    ensures var k := |s| - 1; ValueOf(s) / 10 == ValueOf(s[..k]) && ValueOf(s) % 10 == DigitOf(s[k])
  {
  }

  lemma LeadingZeros(k: nat, t: string)
    requires AllDigits(t)
    ensures AllDigits(Zeros(k) + t) && ValueOf(Zeros(k) + t) == ValueOf(t)
  {
    ValueOfConcat(Zeros(k), t);
    ZerosValue(k);
    assert 0 * Pow10(|t|) == 0;
  }

  lemma FormatPaddedValue(width: nat, n: nat)
    ensures ValueOf(FormatPadded(width, n)) == n
  {
    var t := FormatNat(n);
    FormatNatValue(n);
    if |t| < width {
      LeadingZeros(width - |t|, t);
    }
  }

  lemma PaddedDigits(s: string, t: string)
    requires AllDigits(s) && AllDigits(t) && |t| <= |s| && ValueOf(t) == ValueOf(s)
    ensures Zeros(|s| - |t|) + t == s
  {
    LeadingZeros(|s| - |t|, t);
    SameLengthSameValue(Zeros(|s| - |t|) + t, s);
  }

  /** Padding the number of a digit group to the group's width gives the group back. */
  lemma PaddedGroup(s: string, n: nat, t: string)
    requires AllDigits(s) && s != "" && n == ValueOf(s) && t == FormatNat(n)
    ensures |t| <= |s| && Zeros(|s| - |t|) + t == s
  {
    ValueBound(s);
    FormatNatLength(n, |s|);
    FormatNatValue(n);
    PaddedDigits(s, t);
  }
}
