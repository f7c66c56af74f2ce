/** Integer helpers shared by the model: powers, bit lengths and the divisions of C#. */
module Numeric {

  function Pow(b: int, e: nat): (r: int)
    ensures b > 0 ==> r > 0
  {
    if e == 0 then 1 else b * Pow(b, e - 1)
  }

  lemma {:induction false} PowAdd(b: int, e1: nat, e2: nat)
    ensures Pow(b, e1 + e2) == Pow(b, e1) * Pow(b, e2)
  {
    if e1 > 0 {
      PowAdd(b, e1 - 1, e2);
      assert Pow(b, e1 + e2) == b * Pow(b, e1 - 1 + e2);
    }
  }

  lemma {:induction false} PowMonotone(b: int, e1: nat, e2: nat)
    requires b >= 1 && e1 <= e2
    ensures Pow(b, e1) <= Pow(b, e2)
  {
    if e1 < e2 {
      PowMonotone(b, e1, e2 - 1);
      assert Pow(b, e2) == b * Pow(b, e2 - 1);
    }
  }

  /** 256^k == 2^(8k): a byte count and a bit count describe the same power. */
  lemma {:induction false} Pow256IsPow2(k: nat)
    ensures Pow(256, k) == Pow(2, 8 * k)
  {
    if k > 0 {
      Pow256IsPow2(k - 1);
      PowAdd(2, 8, 8 * (k - 1));
      assert 8 * k == 8 + 8 * (k - 1);
    }
  }

  /** The number of bits of n in binary, as BigInteger.BitLength gives it for n >= 0 (zero has none). */
  function BitLength(n: nat): (r: nat)
    ensures r == 0 <==> n == 0
    ensures n > 0 ==> Pow(2, r - 1) <= n < Pow(2, r)
  {
    if n == 0 then 0 else 1 + BitLength(n / 2)
  }

  /** The bounds of BitLength determine it. */
  lemma BitLengthUnique(n: nat, b: nat)
    requires b >= 1 && Pow(2, b - 1) <= n < Pow(2, b)
    ensures BitLength(n) == b
  {
    var r := BitLength(n);
    if r < b {
      PowMonotone(2, r, b - 1);
    } else if r > b {
      PowMonotone(2, b, r - 1);
    }
  }

  /** Bounds by powers of two bound the bit length. */
  lemma BitLengthBetween(n: nat, lo: nat, hi: nat)
    requires Pow(2, lo) <= n < Pow(2, hi)
    ensures lo < BitLength(n) <= hi
  {
    var b := BitLength(n);
  }

  lemma BitLengthMonotone(a: nat, b: nat)
    requires a <= b
    ensures BitLength(a) <= BitLength(b)
  {
  }

  /** Bitwise OR of two non-negative integers (BigInteger.Or). */
  function BitOr(a: nat, b: nat): nat
    decreases a + b
  {
    if a == 0 then b
    else if b == 0 then a
    else 2 * BitOr(a / 2, b / 2) + (if a % 2 == 1 || b % 2 == 1 then 1 else 0)
  }

  /** OR-ing bits below the lowest set bit of a multiple of 2^k is addition. */
  lemma {:induction false} BitOrIsAdd(m: nat, k: nat, y: nat)
    requires y < Pow(2, k)
    ensures BitOr(Pow(2, k) * m, y) == Pow(2, k) * m + y
  {
    if k > 0 && m > 0 && y > 0 {
      var x := Pow(2, k - 1) * m;
      assert Pow(2, k) * m == 2 * x;
      BitOrIsAdd(m, k - 1, y / 2);
      assert (2 * x) / 2 == x && (2 * x) % 2 == 0;
    }
  }

  /** Division with remainder is unique: a quotient and a remainder in [0, d) are the ones Dafny gives. */
  lemma ModOfMulAdd(d: int, k: int, r: int)
    requires d > 0 && 0 <= r < d
    ensures (d * k + r) % d == r && (d * k + r) / d == k
  {
    var a := d * k + r;
    var j := k - a / d;
    assert d * j == a % d - r;
  }

  /** Ceiling of a / b for a positive divisor. */
  function CeilDiv(a: int, b: int): (r: int)
    requires b > 0
    ensures r * b >= a && (r - 1) * b < a
  {
    var q := (-a) / b;
    assert -a == b * q + (-a) % b;
    -q
  }

  /** C#'s integer division, which truncates toward zero (Dafny's rounds down for a positive divisor). */
  function TruncDiv(a: int, b: int): int
    requires b > 0
  {
    if a >= 0 then a / b else -((-a) / b)
  }
}
