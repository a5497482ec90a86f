/** Bitwise operations on naturals. */
module Bits {

  /** Bitwise "and". */
  function And(x: nat, y: nat): (z: nat)
    ensures z <= x
  {
    if x == 0 || y == 0 then 0 else 2 * And(x / 2, y / 2) + (if x % 2 == 1 && y % 2 == 1 then 1 else 0)
  }

  function Pow2(k: nat): (p: nat)
    ensures p > 0
  {
    if k == 0 then 1 else 2 * Pow2(k - 1)
  }

  predicate PowerOfTwo(n: nat) { n == 1 || (n > 1 && n % 2 == 0 && PowerOfTwo(n / 2)) }

  lemma {:induction false} Pow2Adds(a: nat, b: nat)
    ensures Pow2(a + b) == Pow2(a) * Pow2(b)
  {
    if a > 0 {
      Pow2Adds(a - 1, b);
      assert Pow2(a + b) == 2 * Pow2(a - 1 + b);
    }
  }

  lemma {:induction false} AndOnes(x: nat, j: nat)
    requires x < Pow2(j)
    ensures And(x, Pow2(j) - 1) == x
  {
    if x > 0 {
      assert j > 0;
      var m := Pow2(j) - 1;
      assert m == 2 * (Pow2(j - 1) - 1) + 1;
      AndOnes(x / 2, j - 1);
    }
  }

  lemma {:induction false} AndMaskStep(x: nat, ones: nat, q: nat)
    requires q > 0 && And(x / 2, ones * q) == x / 2 / q * q
    ensures And(x, ones * (2 * q)) == x / (2 * q) * (2 * q)
  {
    hide And;
    AndDouble(x, ones * q);
    DivTwice(x, q);
    MaskStep(ones, q, x / 2 / q);
  }

  /** Masking with ones above k zeros clears the low k bits. */
  lemma {:induction false} AndMask(x: nat, k: nat, j: nat, mask: nat)
    requires x < Pow2(k + j) && mask == (Pow2(j) - 1) * Pow2(k)
    ensures And(x, mask) == x / Pow2(k) * Pow2(k)
    decreases k
  {
    if k == 0 {
      AndOnes(x, j);
      assert mask == Pow2(j) - 1;
    } else {
      assert Pow2(k + j) == 2 * Pow2(k - 1 + j);
      var ones: nat, q := Pow2(j) - 1, Pow2(k - 1);
      AndMask(x / 2, k - 1, j, ones * q);
      AndMaskStep(x, ones, q);
    }
  }

  lemma MaskStep(ones: nat, q: nat, d: nat)
    ensures ones * (2 * q) == 2 * (ones * q) && d * (2 * q) == 2 * (d * q)
  {}

  lemma {:induction false} AndDouble(x: nat, y: nat)
    ensures And(x, 2 * y) == 2 * And(x / 2, y)
  {}

  lemma DivTwice(x: nat, q: nat)
    requires q > 0
    ensures x / (2 * q) == x / 2 / q
  {
    var a := x / 2 / q;
    var r := x / 2 - a * q;
    assert 0 <= r < q by { assert x / 2 == a * q + (x / 2) % q; }
    assert x == (2 * q) * a + (2 * r + x % 2);
    DivUnique(x, 2 * q, a, 2 * r + x % 2);
  }

  lemma DivUnique(x: nat, d: nat, q: nat, r: nat)
    requires x == d * q + r && r < d
    ensures x / d == q
  {
    var e := x / d;
    assert x == d * e + x % d;
    assert e < q ==> d * q >= d * (e + 1);
    assert q < e ==> d * e >= d * (q + 1);
  }

  /** Masking with a power of two less one is the remainder. */
  lemma {:induction false} AndRemainder(x: nat, n: nat)
    requires PowerOfTwo(n)
    ensures And(x, n - 1) == x % n
    decreases n
  {
    if n > 1 {
      AndRemainder(x / 2, n / 2);
      AndOdd(x, n / 2 - 1);
      RemainderTwice(x, n / 2);
    }
  }

  lemma RemainderTwice(x: nat, c: nat)
    requires c > 0
    ensures x % (2 * c) == 2 * (x / 2 % c) + x % 2
  {
    var q, r := x / 2 / c, x / 2 % c;
    assert x / 2 == c * q + r;
    assert x == (2 * c) * q + (2 * r + x % 2);
    DivUnique(x, 2 * c, q, 2 * r + x % 2);
  }

  lemma {:induction false} AndOdd(x: nat, y: nat)
    ensures And(x, 2 * y + 1) == 2 * And(x / 2, y) + x % 2
  {}
}
