/** Reading decimal digit text back as a number: the inverse of `Text.NatToString`. */
module Digits {
  import Text

  /** The value of a run of decimal digits, most significant first (`Number` on digit text). */
  function DigitsValue(s: string): nat
    requires forall i :: 0 <= i < |s| ==> Text.IsDigit(s[i])
    decreases |s|
  {
    if s == [] then 0
    else
      assert Text.IsDigit(s[|s| - 1]);
      DigitsValue(s[..|s| - 1]) * 10 + (s[|s| - 1] as int - '0' as int)
  }

  /** Reading a number's digits back gives the number. */
  lemma {:induction false} NatToStringValue(n: nat)
    ensures DigitsValue(Text.NatToString(n)) == n
  {
    var s := Text.NatToString(n);
    if n >= 10 {
      NatToStringValue(n / 10);
      assert s[..|s| - 1] == Text.NatToString(n / 10);
    }
  }

  /** Leading zeros do not change the value. */
  lemma {:induction false} LeadingZerosValue(z: string, s: string)
    requires forall i :: 0 <= i < |z| ==> z[i] == '0'
    requires forall i :: 0 <= i < |s| ==> Text.IsDigit(s[i])
    ensures DigitsValue(z + s) == DigitsValue(s)
    decreases |s|
  {
    if s == [] {
      assert z + s == z;
      ZerosValue(z);
    } else {
      assert (z + s)[..|z + s| - 1] == z + s[..|s| - 1];
      LeadingZerosValue(z, s[..|s| - 1]);
    }
  }

  lemma {:induction false} ZerosValue(z: string)
    requires forall i :: 0 <= i < |z| ==> z[i] == '0'
    ensures DigitsValue(z) == 0
    decreases |z|
  {
    if z != [] {
      ZerosValue(z[..|z| - 1]);
    }
  }

  /** A run of `k` digits is worth less than `10^k`. */
  lemma {:induction false} DigitsBound(s: string)
    requires forall i :: 0 <= i < |s| ==> Text.IsDigit(s[i])
    ensures DigitsValue(s) < Pow10(|s|)
    decreases |s|
  {
    if s != [] {
      DigitsBound(s[..|s| - 1]);
    }
  }

  /** Two runs of digits of the same length and value are the same text. */
  lemma {:induction false} DigitsInjective(s: string, t: string)
    requires forall i :: 0 <= i < |s| ==> Text.IsDigit(s[i])
    requires forall i :: 0 <= i < |t| ==> Text.IsDigit(t[i])
    requires |s| == |t| && DigitsValue(s) == DigitsValue(t)
    ensures s == t
    decreases |s|
  {
    if s != [] {
      var n := |s|;
      assert Text.IsDigit(s[n - 1]) && Text.IsDigit(t[n - 1]);
      LastDigit(DigitsValue(s[..n - 1]), DigitsValue(t[..n - 1]),
                s[n - 1] as int - '0' as int, t[n - 1] as int - '0' as int);
      DigitsInjective(s[..n - 1], t[..n - 1]);
      assert s == s[..n - 1] + [s[n - 1]];
      assert t == t[..n - 1] + [t[n - 1]];
    }
  }

  lemma LastDigit(a: nat, b: nat, d: int, e: int)
    requires 0 <= d <= 9 && 0 <= e <= 9 && a * 10 + d == b * 10 + e
    ensures a == b && d == e
  {
    assert (a * 10 + d) / 10 == a;
    assert (b * 10 + e) / 10 == b;
  }

  function Pow10(k: nat): nat {
    if k == 0 then 1 else 10 * Pow10(k - 1)
  }

  /** A number below `10^k` takes at most `k` digits. */
  lemma {:induction false} NatToStringFits(n: nat, k: nat)
    requires 1 <= k && n < Pow10(k)
    ensures |Text.NatToString(n)| <= k
  {
    if n >= 10 {
      assert k >= 2;
      NatToStringFits(n / 10, k - 1);
    }
  }
}
