/** Decimal printing with zero padding, as `fmt`'s `%0Nd` and `time.Format` do it. */
module Decimal {

  function Digit(d: nat): char
    requires d < 10
  {
    (48 + d) as char
  }

  predicate IsDigit(c: char) {
    '0' <= c <= '9'
  }

  predicate AllDigits(s: string) {
    forall i :: 0 <= i < |s| ==> IsDigit(s[i])
  }

  function DigitValue(c: char): nat
    requires IsDigit(c)
  {
    c as int - 48
  }

  /** The number a string of digits denotes; leading zeros are allowed. */
  function ValueOf(s: string): nat
    requires AllDigits(s)
  {
    if s == "" then 0 else 10 * ValueOf(s[..|s| - 1]) + DigitValue(s[|s| - 1])
  }

  function Print(n: nat): (s: string)
    ensures s != "" && AllDigits(s)
  {
    if n < 10 then [Digit(n)] else Print(n / 10) + [Digit(n % 10)]
  }

  function Zeros(k: nat): (s: string)
    ensures |s| == k && AllDigits(s)
  {
    if k == 0 then "" else Zeros(k - 1) + "0"
  }

  function ZeroPad(width: int, s: string): (r: string)
    ensures AllDigits(s) ==> AllDigits(r)
    ensures |r| == if width > |s| then width else |s|
  {
    if width > |s| then Zeros(width - |s|) + s else s
  }

  function Padded(width: int, n: nat): (s: string)
    ensures AllDigits(s)
  {
    ZeroPad(width, Print(n))
  }

  lemma {:induction false} ZerosAreInsignificant(k: nat, s: string)
    requires AllDigits(s)
    ensures ValueOf(Zeros(k) + s) == ValueOf(s)
    decreases |s| + k
  {
    var t := Zeros(k) + s;
    if s != "" {
      assert t[..|t| - 1] == Zeros(k) + s[..|s| - 1];
      ZerosAreInsignificant(k, s[..|s| - 1]);
    } else if k > 0 {
      assert t == Zeros(k) && t[..|t| - 1] == Zeros(k - 1) + "";
      ZerosAreInsignificant(k - 1, "");
    }
  }

  lemma {:induction false} PrintRoundTrip(n: nat)
    ensures ValueOf(Print(n)) == n
  {
    if n >= 10 {
      PrintRoundTrip(n / 10);
      assert Print(n)[..|Print(n)| - 1] == Print(n / 10);
    } else {
      assert Print(n)[..0] == "";
    }
  }

  /** Reading a padded number back gives the number, whether or not it outgrew its padding. */
  lemma PaddedRoundTrip(width: int, n: nat)
    ensures ValueOf(Padded(width, n)) == n
  {
    PrintRoundTrip(n);
    if width > |Print(n)| { ZerosAreInsignificant(width - |Print(n)|, Print(n)); }
  }

  lemma {:induction false} PrintLengthMonotone(m: nat, n: nat)
    requires m <= n
    ensures |Print(m)| <= |Print(n)|
    decreases n
  {
    if m >= 10 {
      PrintLengthMonotone(m / 10, n / 10);
    }
  }

  lemma {:induction false} PrintLengthBound(n: nat, k: nat, bound: nat)
    requires k >= 1 && n < bound && bound == Power10(k)
    ensures |Print(n)| <= k
    decreases k
  {
    if n >= 10 {
      assert k >= 2;
      PrintLengthBound(n / 10, k - 1, bound / 10);
    }
  }

  function Power10(k: nat): nat {
    if k == 0 then 1 else 10 * Power10(k - 1)
  }

  /** Fixed-width fields: a number below 10^k padded to k digits takes exactly k characters. */
  lemma PaddedFits(k: nat, n: nat)
    requires k >= 1 && n < Power10(k)
    ensures |Padded(k, n)| == k
  {
    PrintLengthBound(n, k, Power10(k));
  }
}
