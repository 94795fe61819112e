/** Bitwise operations on naturals, and what they compute on the shapes the address code uses. */
module Bits {

  function Pow2(k: nat): (p: nat)
    ensures p > 0
  {
    if k == 0 then 1 else 2 * Pow2(k - 1)
  }

  function And(a: nat, b: nat): nat {
    if a == 0 || b == 0 then 0
    else 2 * And(a / 2, b / 2) + if a % 2 == 1 && b % 2 == 1 then 1 else 0
  }

  function Or(a: nat, b: nat): nat
    decreases a + b
  {
    if a == 0 && b == 0 then 0
    else 2 * Or(a / 2, b / 2) + if a % 2 == 1 || b % 2 == 1 then 1 else 0
  }

  /** Left shift of a 32-bit word. */
  function Shl32(a: nat, k: nat): nat {
    a * Pow2(k) % Pow2(32)
  }

  lemma {:induction false} Pow2Sum(a: nat, b: nat)
    ensures Pow2(a + b) == Pow2(a) * Pow2(b)
  {
    if a > 0 {
      Pow2Sum(a - 1, b);
      assert a - 1 + b == a + b - 1;
      var x, y := Pow2(a - 1), Pow2(b);
      assert Pow2(a) == 2 * x && Pow2(a + b) == 2 * (x * y);
      hide Pow2;
      Associative(2, x, y);
    }
  }

  lemma {:induction false} Associative(a: nat, b: nat, c: nat)
    ensures a * (b * c) == (a * b) * c
  {
  }

  lemma {:induction false} Pow2Values()
    ensures Pow2(8) == 256 && Pow2(16) == 65536 && Pow2(24) == 16777216 && Pow2(32) == 4294967296
  {
    assert Pow2(4) == 16;
    Pow2Sum(4, 4);
    Pow2Sum(8, 8);
    Pow2Sum(16, 8);
    Pow2Sum(16, 16);
  }

  /** Or-ing in bits below the shift is adding them. */
  lemma {:induction false} OrBelowShift(v: nat, low: nat, k: nat)
    requires low < Pow2(k)
    ensures Or(v * Pow2(k), low) == v * Pow2(k) + low
  {
    if k == 0 {
      OrZero(v);
    } else {
      var a := v * Pow2(k);
      assert a == 2 * (v * Pow2(k - 1));
      OrBelowShift(v, low / 2, k - 1);
    }
  }

  /** Appending eight bits to a number of at most 24. */
  lemma {:induction false} AppendByte(v: nat, low: nat)
    requires v < Pow2(24) && low < 256
    ensures Or(Shl32(v, 8), low) == v * 256 + low
  {
    Pow2Values();
    SmallIsItsMod(v * 256, 4294967296);
    OrBelowShift(v, low, 8);
  }

  lemma {:induction false} OrZero(a: nat)
    ensures Or(a, 0) == a
  {
    if a > 0 {
      OrZero(a / 2);
    }
  }

  /** And-ing an n-bit number with n - k ones above k zeros clears its low k bits. */
  lemma {:induction false} AndHighMask(a: nat, n: nat, k: nat)
    requires k <= n && a < Pow2(n)
    ensures Pow2(k) <= Pow2(n)
    ensures And(a, Pow2(n) - Pow2(k)) == a - a % Pow2(k)
  {
    Pow2Monotone(k, n);
    if k == n {
      SmallIsItsMod(a, Pow2(k));
    } else if k == 0 {
      AndOnes(a, n);
    } else {
      var x, y := Pow2(n - 1), Pow2(k - 1);
      assert Pow2(n) == 2 * x && Pow2(k) == 2 * y;
      AndHighMask(a / 2, n - 1, k - 1);
      hide Pow2, And;
      HalvesMod(a, y);
      AndHalves(a, 2 * (x - y));
      DoubleMask(a, x, y);
    }
  }

  lemma {:induction false} DoubleMask(a: nat, x: nat, y: nat)
    requires y > 0
    ensures 2 * (x - y) / 2 == x - y && 2 * (x - y) % 2 == 0
    ensures 2 * (a / 2 - a / 2 % y) == a - (2 * (a / 2 % y) + a % 2)
  {
  }

  lemma {:induction false} AndOnes(a: nat, n: nat)
    requires a < Pow2(n)
    ensures And(a, Pow2(n) - 1) == a
  {
    if n > 0 {
      AndOnes(a / 2, n - 1);
      AndHalves(a, Pow2(n) - 1);
    }
  }

  lemma {:induction false} SmallIsItsMod(a: nat, p: nat)
    requires a < p
    ensures a % p == a
  {
  }

  lemma {:induction false} AndHalves(a: nat, m: nat)
    ensures And(a, m) == 2 * And(a / 2, m / 2) + (a % 2) * (m % 2)
  {
  }

  lemma {:induction false} Pow2Monotone(k: nat, n: nat)
    requires k <= n
    ensures Pow2(k) <= Pow2(n)
  {
    if k < n {
      Pow2Monotone(k, n - 1);
    }
  }

  lemma {:induction false} HalvesMod(a: nat, p: nat)
    requires p > 0
    ensures a % (2 * p) == 2 * (a / 2 % p) + a % 2
  {
    var q, r := a / 2 / p, a / 2 % p;
    assert a == (2 * p) * q + (2 * r + a % 2);
    DivModUnique(a, 2 * p, q, 2 * r + a % 2);
  }

  lemma {:induction false} DivModUnique(a: nat, d: nat, q: nat, r: nat)
    requires d > 0 && r < d && a == d * q + r
    ensures a / d == q && a % d == r
  {
    SmallMultiple(d, a / d - q, r - a % d);
  }

  lemma {:induction false} SmallMultiple(d: int, x: int, y: int)
    requires d > 0 && -d < y < d && d * x == y
    ensures x == 0 && y == 0
  {
    ProductGrows(d, x);
    ProductGrows(d, -x);
  }

  lemma {:induction false} ProductGrows(d: int, x: int)
    requires d > 0
    ensures x >= 1 ==> d * x >= d
    ensures d * -x == -(d * x)
  {
  }
}
