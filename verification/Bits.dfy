/** Powers of two and bitwise operations on naturals, as the kernel's C code uses them on `uint` values. */
module Bits {

  function Pow2(k: nat): (r: nat)
    ensures r > 0
  {
    if k == 0 then 1 else 2 * Pow2(k - 1)
  }

  lemma {:induction false} Pow2Monotonic(j: nat, k: nat)
    requires j <= k
    ensures Pow2(j) <= Pow2(k)
    ensures j < k ==> 2 * Pow2(j) <= Pow2(k)
    decreases k
  {
    if j < k {
      Pow2Monotonic(j, k - 1);
    }
  }

  lemma Pow2At17()
    ensures Pow2(12) == 4096 && Pow2(16) == 0x1_0000 && Pow2(17) == 0x2_0000
  {
    assert Pow2(6) == 64;
    assert Pow2(12) == 4096;
  }

  /** Bit `k` of `x`: the value of `(x >> k) & 1`. */
  function Bit(x: nat, k: nat): (b: nat)
    ensures b <= 1
  {
    if k == 0 then x % 2 else Bit(x / 2, k - 1)
  }

  /** C's `^` on unsigned values. */
  function Xor(a: nat, b: nat): nat {
    if a == 0 then b
    else if b == 0 then a
    else (if a % 2 != b % 2 then 1 else 0) + 2 * Xor(a / 2, b / 2)
  }

  /** C's `|` on unsigned values. */
  function Or(a: nat, b: nat): nat {
    if a == 0 then b
    else if b == 0 then a
    else (if a % 2 == 1 || b % 2 == 1 then 1 else 0) + 2 * Or(a / 2, b / 2)
  }

  lemma {:induction false} XorZero(a: nat, b: nat)
    ensures Xor(a, b) == 0 <==> a == b
  {
    if a != 0 && b != 0 {
      XorZero(a / 2, b / 2);
    }
  }

  /** Two numbers whose `^` is a single bit are that bit's weight apart, and the bit tells which is the larger. */
  lemma {:induction false} XorPow2(a: nat, b: nat, k: nat)
    requires Xor(a, b) == Pow2(k)
    ensures Bit(a, k) != Bit(b, k)
    ensures Bit(a, k) == 0 ==> b == a + Pow2(k)
    ensures Bit(a, k) == 1 ==> a == b + Pow2(k)
    decreases k
  {
    XorHalves(a, b);
    if k == 0 {
      XorZero(a / 2, b / 2);
    } else {
      assert Pow2(k) / 2 == Pow2(k - 1);
      XorPow2(a / 2, b / 2, k - 1);
    }
  }

  lemma XorHalves(a: nat, b: nat)
    ensures Xor(a, b) / 2 == Xor(a / 2, b / 2)
    ensures Xor(a, b) % 2 == (if a % 2 != b % 2 then 1 else 0)
  {
  }

  /** A value with `k` low zero bits and a value below 2^k have disjoint bits, so `|` is `+`. */
  lemma {:induction false} OrIsSum(a: nat, f: nat, k: nat)
    requires a % Pow2(k) == 0 && f < Pow2(k)
    ensures Or(a, f) == a + f
    decreases k
  {
    if a != 0 && f != 0 && k > 0 {
      var h := Pow2(k - 1);
      assert a == a / (2 * h) * (2 * h);
      assert a == 2 * (a / (2 * h) * h);
      assert a / 2 == a / (2 * h) * h;
      MultipleMod(a / (2 * h), h);
      OrIsSum(a / 2, f / 2, k - 1);
    }
  }

  lemma DivUnique(x: int, d: int, q: int, r: int)
    requires d > 0 && x == q * d + r && 0 <= r < d
    ensures x / d == q && x % d == r
  {
    var e := x / d - q;
    assert x == x / d * d + x % d;
    assert e * d == r - x % d;
    assert e >= 1 ==> e * d >= d;
    assert e <= -1 ==> e * d + d <= 0;
  }

  lemma MultipleMod(q: nat, m: nat)
    requires m > 0
    ensures q * m % m == 0
    ensures q * m / m == q
  {
    DivUnique(q * m, m, q, 0);
  }

  /** The value with its low `k` bits cleared. */
  function ClearLow(x: nat, k: nat): (r: nat)
    ensures r <= x
  {
    ModAtMost(x, Pow2(k));
    x - x % Pow2(k)
  }

  lemma ModAtMost(x: nat, d: nat)
    requires d > 0
    ensures x % d <= x && x - x % d == x / d * d
  {
    assert x / d >= 0;
    assert x == x / d * d + x % d;
  }

  /** Clearing one bit fewer gives that bit back. */
  lemma ClearLowStep(x: nat, k: nat)
    ensures x / Pow2(k) % 2 == Bit(x, k)
    ensures ClearLow(x, k) == ClearLow(x, k + 1) + (if Bit(x, k) == 1 then Pow2(k) else 0)
  {
    var p, q := Pow2(k), x / Pow2(k);
    ModAtMost(x, p);
    ModAtMost(x, 2 * p);
    var r := x % p;
    assert x == q * p + r;
    assert q == q / 2 * 2 + q % 2;
    assert x == (q / 2 * 2 + q % 2) * p + r == q / 2 * (2 * p) + q % 2 * p + r;
    DivUnique(x, 2 * p, q / 2, q % 2 * p + r);
    BitIsDigit(x, k);
  }

  lemma {:induction false} BitIsDigit(x: nat, k: nat)
    ensures x / Pow2(k) % 2 == Bit(x, k)
    decreases k
  {
    if k > 0 {
      BitIsDigit(x / 2, k - 1);
      HalveFirst(x, Pow2(k - 1));
    }
  }

  lemma HalveFirst(x: nat, p: nat)
    requires p > 0
    ensures x / 2 / p == x / (2 * p)
  {
    var h := x / 2;
    assert h == h / p * p + h % p;
    assert x == h / p * (2 * p) + (2 * (h % p) + x % 2);
    DivUnique(x, 2 * p, h / p, 2 * (h % p) + x % 2);
  }

  lemma {:induction false} Pow2Sum(j: nat, k: nat)
    ensures Pow2(j + k) == Pow2(j) * Pow2(k)
    decreases j
  {
    if j > 0 {
      Pow2Sum(j - 1, k);
      DoubleFirst(Pow2(j - 1), Pow2(k));
    }
  }

  lemma DoubleFirst(x: nat, y: nat)
    ensures (2 * x) * y == 2 * (x * y)
  {
  }

  lemma {:induction false} ClearLowMonotonic(x: nat, j: nat, k: nat)
    requires j <= k
    ensures ClearLow(x, k) <= ClearLow(x, j)
    decreases k - j
  {
    if j < k {
      ClearLowStep(x, j);
      ClearLowMonotonic(x, j + 1, k);
    }
  }

  /** When what is left of `x` below bit `k` is less than 2^(j+1), bits `j+1` to `k-1` are zero. */
  lemma {:induction false} NoBitsBetween(x: nat, j: nat, k: nat)
    requires j < k && x - ClearLow(x, k) < Pow2(j + 1)
    ensures ClearLow(x, j + 1) == ClearLow(x, k)
    ensures forall i :: j < i < k ==> Bit(x, i) == 0
    decreases k - j
  {
    if j + 1 < k {
      ClearLowStep(x, k - 1);
      Pow2Monotonic(j + 1, k - 1);
      NoBitsBetween(x, j, k - 1);
    }
  }

  lemma LeadingBit(x: nat, j: nat, k: nat)
    requires j < k && Pow2(j) <= x - ClearLow(x, k) < Pow2(j + 1)
    ensures ClearLow(x, j + 1) == ClearLow(x, k) && Bit(x, j) == 1
    ensures forall i :: j < i < k ==> Bit(x, i) == 0
  {
    NoBitsBetween(x, j, k);
    ClearLowStep(x, j);
    ModAtMost(x, Pow2(j));
  }
}
