/**
  Decimal digit strings and the numbers they denote, scaled by powers of ten over the reals.
 */
module Decimals {

  type Digit = d: int | 0 <= d < 10

  /** The integer a digit string denotes, most significant digit first. */
  function IntOf(digits: seq<Digit>): (r: nat) {
    if digits == [] then 0 else IntOf(digits[..|digits| - 1]) * 10 + digits[|digits| - 1]
  }

  function TenTo(n: nat): (r: nat)
    ensures r >= 1
  {
    if n == 0 then 1 else 10 * TenTo(n - 1)
  }

  /** m x 10^e */
  function Scaled(m: nat, e: int): (r: real)
    ensures r >= 0.0 && (m > 0 ==> r > 0.0)
    decreases if e < 0 then -e else e
  {
    if e == 0 then m as real else if e > 0 then 10.0 * Scaled(m, e - 1) else Scaled(m, e + 1) / 10.0
  }

  function Zeros(n: nat): (r: seq<Digit>)
    ensures |r| == n && forall i :: 0 <= i < n ==> r[i] == 0
  {
    seq(n, _ => 0)
  }

  lemma {:induction false} TenToSum(a: nat, b: nat)
    ensures TenTo(a + b) == TenTo(a) * TenTo(b)
  {
    if a > 0 { TenToSum(a - 1, b); }
  }

  lemma {:induction false} TenToMonotone(a: nat, b: nat)
    requires a <= b
    ensures TenTo(a) <= TenTo(b)
  {
    if a < b { TenToMonotone(a, b - 1); }
  }

  /** A factor of ten moves from the number to the exponent. */
  lemma {:induction false} ScaledTen(m: nat, e: int)
    ensures Scaled(10 * m, e) == Scaled(m, e + 1)
    decreases if e < 0 then -e else e
  {
    if e > 0 { ScaledTen(m, e - 1); }
    if e < 0 { ScaledTen(m, e + 1); }
  }

  lemma {:induction false} ScaledTens(m: nat, k: nat, e: int)
    ensures Scaled(m * TenTo(k), e) == Scaled(m, e + k)
    decreases k
  {
    if k == 0 {
      assert m * TenTo(k) == m;
    } else {
      assert m * TenTo(k) == 10 * (m * TenTo(k - 1));
      ScaledTen(m * TenTo(k - 1), e);
      ScaledTens(m, k - 1, e + 1);
    }
  }

  lemma {:induction false} ScaledMonotone(x: nat, y: nat, e: int)
    ensures x < y ==> Scaled(x, e) < Scaled(y, e)
    ensures x <= y ==> Scaled(x, e) <= Scaled(y, e)
    decreases if e < 0 then -e else e
  {
    if e > 0 { ScaledMonotone(x, y, e - 1); }
    if e < 0 { ScaledMonotone(x, y, e + 1); }
  }

  lemma {:induction false} IntOfConcat(a: seq<Digit>, b: seq<Digit>)
    ensures IntOf(a + b) == IntOf(a) * TenTo(|b|) + IntOf(b)
  {
    if b == [] {
      assert a + b == a;
    } else {
      var n := |b| - 1;
      IntOfConcat(a, b[..n]);
      assert (a + b)[..|a + b| - 1] == a + b[..n];
      Regroup(IntOf(a), TenTo(n), IntOf(b[..n]), b[n]);
    }
  }

  lemma Regroup(x: nat, t: nat, y: nat, d: nat)
    ensures (x * t + y) * 10 + d == x * (10 * t) + (y * 10 + d)
  {
  }

  lemma {:induction false} IntOfZeros(n: nat)
    ensures IntOf(Zeros(n)) == 0
  {
    if n > 0 {
      IntOfZeros(n - 1);
      assert Zeros(n)[..n - 1] == Zeros(n - 1);
    }
  }

  lemma LeadingZeros(n: nat, digits: seq<Digit>)
    ensures IntOf(Zeros(n) + digits) == IntOf(digits)
  {
    IntOfConcat(Zeros(n), digits);
    IntOfZeros(n);
  }

  lemma TrailingZeros(digits: seq<Digit>, n: nat)
    ensures IntOf(digits + Zeros(n)) == IntOf(digits) * TenTo(n)
  {
    IntOfConcat(digits, Zeros(n));
    IntOfZeros(n);
  }

  lemma {:induction false} IntOfAtLeast(digits: seq<Digit>)
    requires digits != [] && digits[0] != 0
    ensures IntOf(digits) >= TenTo(|digits| - 1)
  {
    var n := |digits| - 1;
    if n > 0 { IntOfAtLeast(digits[..n]); }
  }

  /** Without leading zeros the digits are determined by the integer. */
  lemma {:induction false} DigitsUnique(a: seq<Digit>, b: seq<Digit>)
    requires IntOf(a) == IntOf(b)
    requires (a != [] ==> a[0] != 0) && (b != [] ==> b[0] != 0)
    ensures a == b
  {
    if a == [] || b == [] {
      if a != [] { IntOfAtLeast(a); }
      if b != [] { IntOfAtLeast(b); }
    } else {
      var m, n := |a| - 1, |b| - 1;
      assert a[m] == b[n] && IntOf(a[..m]) == IntOf(b[..n]);
      DigitsUnique(a[..m], b[..n]);
      assert a == a[..m] + [a[m]] && b == b[..n] + [b[n]];
    }
  }

  /** The decimal digits of a positive integer. */
  function DigitsOf(n: nat): (r: seq<Digit>)
    ensures IntOf(r) == n
    ensures r != [] ==> r[0] != 0
    ensures n > 0 ==> r != []
  {
    if n == 0 then []
    else
      var front := DigitsOf(n / 10);
      assert (front + [n % 10])[..|front|] == front;
      front + [n % 10]
  }

  function StripZeros(digits: seq<Digit>): (r: seq<Digit>)
    ensures |r| <= |digits| && digits == r + Zeros(|digits| - |r|)
    ensures r != [] ==> r[|r| - 1] != 0
  {
    if digits == [] || digits[|digits| - 1] != 0 then digits
    else
      var r := StripZeros(digits[..|digits| - 1]);
      assert digits == digits[..|digits| - 1] + [0];
      r
  }
}
