/** Octets, and the big-endian reading of octet strings as natural numbers. */
module Octets {

  type Octet = b: int | 0 <= b < 0x100

  function Pow2(n: nat): (p: nat)
    ensures p >= 1
  {
    if n == 0 then 1 else 2 * Pow2(n - 1)
  }

  /** A value without its low k bits. */
  function Shift(value: nat, k: nat): nat {
    QuotientIsNat(value, Pow2(k));
    value / Pow2(k)
  }

  lemma QuotientIsNat(a: nat, d: nat)
    requires d > 0
    ensures a / d >= 0
  {
  }

  lemma {:induction false} Pow2Sum(m: nat, n: nat)
    ensures Pow2(m + n) == Pow2(m) * Pow2(n)
  {
    if m > 0 {
      Pow2Sum(m - 1, n);
      assert Pow2(m + n) == 2 * Pow2(m - 1 + n);
    }
  }

  lemma Pow2Values()
    ensures Pow2(4) == 16 && Pow2(8) == 0x100 && Pow2(36) == 0x10_0000_0000
  {
    assert Pow2(4) == 16 && Pow2(8) == 16 * Pow2(4);
    Pow2Sum(8, 8);
    Pow2Sum(16, 16);
    Pow2Sum(32, 4);
  }

  lemma Times(a: int, b: int, d: int)
    ensures (a + b) * d == a * d + b * d
    ensures (a - b) * d == a * d - b * d
  {
  }

  lemma AtLeastOnce(n: int, d: nat)
    requires n >= 1
    ensures n * d >= d
  {
    Times(n - 1, 1, d);
    if n > 1 {
      AtLeastOnce(n - 1, d);
    }
  }

  lemma OneMultiple(m: int, d: nat)
    requires -(d as int) < m * d < d
    ensures m == 0
  {
    if m >= 1 {
      AtLeastOnce(m, d);
    } else if m <= -1 {
      AtLeastOnce(-m, d);
      Times(0, m, d);
    }
  }

  /** Division is the only quotient with a remainder in range. */
  lemma Quotient(a: nat, d: nat, q: nat, r: nat)
    requires r < d && a == q * d + r
    ensures a / d == q && a % d == r
  {
    Times(q, a / d, d);
    OneMultiple(q - a / d, d);
  }

  lemma TwoSteps(d: nat, e: nat, p: nat, s: nat, r: nat)
    requires s < e && r < d
    ensures (p * e + s) * d + r == p * (d * e) + (s * d + r)
    ensures s * d + r < d * e
  {
    Times(p * e, s, d);
    Product(p, e, d);
    Times(s, 1, d);
    if s + 1 < e {
      AtLeastOnce(e - (s + 1), d);
    }
    Times(e, s + 1, d);
  }

  lemma Product(p: int, e: int, d: int)
    ensures p * e * d == p * (d * e)
  {
  }

  lemma Divided(a: nat, d: nat)
    requires d > 0
    ensures a == a / d * d + a % d && a % d < d
  {
  }

  /** Dropping low bits in two steps. */
  lemma DivTwice(a: nat, d: nat, e: nat)
    requires d > 0 && e > 0
    ensures d * e > 0 && a / d / e == a / (d * e)
  {
    AtLeastOnce(d, e);
    Divided(a, d);
    Divided(a / d, e);
    DivTwiceAt(a, d, e, a / d, a / d / e, a / d % e, a % d);
  }

  lemma DivTwiceAt(a: nat, d: nat, e: nat, q: nat, p: nat, s: nat, r: nat)
    requires s < e && r < d && d * e > 0
    requires q == p * e + s && a == q * d + r
    ensures a / (d * e) == p
  {
    TwoSteps(d, e, p, s, r);
    Quotient(a, d * e, p, s * d + r);
  }

  /** A value's bits above `low`, once more `valid` bits are put back under those above. */
  lemma ShiftBack(value: nat, low: nat, valid: nat)
    ensures Shift(value, low + valid) * Pow2(valid) + Shift(value, low) % Pow2(valid) == Shift(value, low)
  {
    hide Pow2;
    Pow2Sum(low, valid);
    DivTwice(value, Pow2(low), Pow2(valid));
    Divided(value / Pow2(low), Pow2(valid));
  }

  function ToNat(octets: seq<Octet>): nat {
    if octets == [] then 0
    else ToNat(octets[..|octets| - 1]) * 0x100 + octets[|octets| - 1]
  }

  function FromNat(value: nat, length: nat): (octets: seq<Octet>)
    ensures |octets| == length
  {
    if length == 0 then [] else FromNat(value / 0x100, length - 1) + [value % 0x100]
  }

  lemma {:induction false} FromNatInverts(octets: seq<Octet>)
    ensures FromNat(ToNat(octets), |octets|) == octets
  {
    if octets != [] {
      var (rest, last) := (octets[..|octets| - 1], octets[|octets| - 1]);
      FromNatInverts(rest);
      Quotient(ToNat(octets), 0x100, ToNat(rest), last);
    }
  }

  lemma {:induction false} ToNatBound(octets: seq<Octet>)
    ensures ToNat(octets) < Pow2(8 * |octets|)
  {
    if octets != [] {
      var n := |octets| - 1;
      ToNatBound(octets[..n]);
      Pow2Sum(8 * n, 8);
      Pow2Values();
    }
  }

  lemma {:induction false} ToNatInverts(value: nat, length: nat)
    requires value < Pow2(8 * length)
    ensures ToNat(FromNat(value, length)) == value
  {
    if length > 0 {
      Pow2Sum(8 * (length - 1), 8);
      Pow2Values();
      assert value / 0x100 < Pow2(8 * (length - 1));
      ToNatInverts(value / 0x100, length - 1);
      var octets := FromNat(value, length);
      assert octets[..|octets| - 1] == FromNat(value / 0x100, length - 1);
    }
  }
}
