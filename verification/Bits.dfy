/** Bitwise conjunction of machine words, written over the natural numbers. */
module Bits {

  function Pow2(n: nat): (p: nat)
    ensures p > 0
  {
    if n == 0 then 1 else 2 * Pow2(n - 1)
  }

  function BitAnd(x: nat, y: nat): nat {
    if x == 0 || y == 0 then 0
    else 2 * BitAnd(x / 2, y / 2) + (if x % 2 == 1 && y % 2 == 1 then 1 else 0)
  }

  /** The residue of v modulo 2^bits, as unsigned arithmetic keeps it. */
  function Wrap(v: int, bits: nat): nat {
    v % Pow2(bits)
  }

  lemma Quotient(x: int, d: int, q: int, r: int)
    requires d > 0 && x == d * q + r && 0 <= r < d
    ensures x % d == r
  {
    var dq := x / d - q;
    assert d * dq == r - x % d;
    assert dq >= 1 ==> d * dq >= d;
    assert dq <= -1 ==> d * dq <= -d;
  }

  lemma WrapOnce(v: int, bits: nat)
    requires 0 - Pow2(bits) <= v < Pow2(bits)
    ensures Wrap(v, bits) == if v < 0 then v + Pow2(bits) else v
  {
    var p := Pow2(bits);
    Quotient(v, p, if v < 0 then -1 else 0, if v < 0 then v + p else v);
  }

  /** The low k bits of u are zero. */
  predicate Aligned(u: nat, k: nat) {
    k == 0 || (u % 2 == 0 && Aligned(u / 2, k - 1))
  }

  /** x with its low k bits cleared. */
  function RoundDown(x: nat, k: nat): nat {
    if k == 0 then x else 2 * RoundDown(x / 2, k - 1)
  }

  lemma {:induction false} RoundDownIsGreatest(x: nat, k: nat, u: nat)
    ensures Aligned(RoundDown(x, k), k)
    ensures RoundDown(x, k) <= x < RoundDown(x, k) + Pow2(k)
    ensures Aligned(u, k) && u <= x ==> u <= RoundDown(x, k)
  {
    if k > 0 {
      RoundDownIsGreatest(x / 2, k - 1, u / 2);
    }
  }

  lemma {:induction false} AndOnes(x: nat, n: nat)
    requires x < Pow2(n)
    ensures BitAnd(x, Pow2(n) - 1) == x
  {
    if n > 0 {
      AndOnes(x / 2, n - 1);
      var p := Pow2(n - 1);
      assert (2 * p - 1) / 2 == p - 1 && (2 * p - 1) % 2 == 1;
      AndHalf(x, 2 * p - 1);
    }
  }

  lemma AndHalf(x: nat, y: nat)
    ensures BitAnd(x, y) == 2 * BitAnd(x / 2, y / 2) + (if x % 2 == 1 && y % 2 == 1 then 1 else 0)
  {
  }

  lemma {:induction false} Pow2Grows(k: nat, n: nat)
    requires k <= n
    ensures Pow2(k) <= Pow2(n)
  {
    if k > 0 {
      Pow2Grows(k - 1, n - 1);
    } else if n > 0 {
      Pow2Grows(k, n - 1);
    }
  }

  /** Masking with the two's complement of a power of two rounds down. */
  lemma {:induction false} AndNegatedPower(x: nat, n: nat, k: nat)
    requires k <= n && x < Pow2(n)
    ensures Pow2(k) <= Pow2(n)
    ensures BitAnd(x, Pow2(n) - Pow2(k)) == RoundDown(x, k)
  {
    Pow2Grows(k, n);
    if k == 0 {
      AndOnes(x, n);
    } else {
      AndNegatedPower(x / 2, n - 1, k - 1);
      AndHalf(x, Pow2(n) - Pow2(k));
    }
  }

  // ---- Exclusive or -----------------------------------------------------------

  function BitXor(x: nat, y: nat): nat {
    if x == 0 && y == 0 then 0
    else 2 * BitXor(x / 2, y / 2) + (if x % 2 != y % 2 then 1 else 0)
  }

  lemma XorHalf(x: nat, y: nat)
    ensures BitXor(x, y) / 2 == BitXor(x / 2, y / 2)
    ensures BitXor(x, y) % 2 == if x % 2 != y % 2 then 1 else 0
  {
  }

  lemma {:induction false} XorZero(x: nat)
    ensures BitXor(x, 0) == x && BitXor(0, x) == x && BitXor(x, x) == 0
  {
    if x > 0 {
      XorZero(x / 2);
    }
  }

  lemma {:induction false} XorSymmetric(x: nat, y: nat)
    ensures BitXor(x, y) == BitXor(y, x)
  {
    if x > 0 || y > 0 {
      XorSymmetric(x / 2, y / 2);
    }
  }

  lemma {:induction false} XorAssociative(x: nat, y: nat, z: nat)
    ensures BitXor(BitXor(x, y), z) == BitXor(x, BitXor(y, z))
    decreases x + y + z
  {
    if x + y + z > 0 {
      XorAssociative(x / 2, y / 2, z / 2);
      XorHalf(x, y);
      XorHalf(y, z);
      XorHalf(BitXor(x, y), z);
      XorHalf(x, BitXor(y, z));
    }
  }

  /** Mangling twice with one key is no mangling. */
  lemma XorCancel(x: nat, key: nat)
    ensures BitXor(BitXor(x, key), key) == x
    ensures BitXor(BitXor(x, key), x) == key
  {
    XorAssociative(x, key, key);
    XorZero(key);
    XorZero(x);
    XorSymmetric(x, key);
    XorAssociative(key, x, x);
  }

  lemma XorEqual(x: nat, y: nat)
    ensures BitXor(x, y) == 0 <==> x == y
  {
    XorCancel(x, y);
    XorZero(x);
    XorZero(y);
  }

  lemma XorSwap(a: nat, b: nat, c: nat, d: nat)
    ensures BitXor(BitXor(a, b), BitXor(c, d)) == BitXor(BitXor(a, c), BitXor(b, d))
  {
    XorAssociative(a, b, BitXor(c, d));
    XorAssociative(b, c, d);
    XorSymmetric(b, c);
    XorAssociative(c, b, d);
    XorAssociative(a, c, BitXor(b, d));
  }

  lemma {:induction false} XorBelow(x: nat, y: nat, n: nat)
    requires x < Pow2(n) && y < Pow2(n)
    ensures BitXor(x, y) < Pow2(n)
  {
    if n > 0 {
      XorBelow(x / 2, y / 2, n - 1);
      XorHalf(x, y);
    }
  }

  // ---- Single bits ------------------------------------------------------------

  predicate Bit(x: nat, i: nat) {
    if i == 0 then x % 2 == 1 else Bit(x / 2, i - 1)
  }

  /** x without the bits of y. */
  function AndNot(x: nat, y: nat): nat {
    if x == 0 then 0
    else 2 * AndNot(x / 2, y / 2) + (if x % 2 == 1 && y % 2 == 0 then 1 else 0)
  }

  lemma {:induction false} AndNotBit(x: nat, y: nat, i: nat)
    ensures Bit(AndNot(x, y), i) <==> Bit(x, i) && !Bit(y, i)
  {
    if x == 0 {
      ZeroBit(i);
    } else if i > 0 {
      AndNotBit(x / 2, y / 2, i - 1);
      assert AndNot(x, y) / 2 == AndNot(x / 2, y / 2);
    }
  }

  lemma {:induction false} ZeroBit(i: nat)
    ensures !Bit(0, i)
  {
    if i > 0 {
      ZeroBit(i - 1);
    }
  }

  lemma {:induction false} AndBit(x: nat, y: nat, i: nat)
    ensures Bit(BitAnd(x, y), i) <==> Bit(x, i) && Bit(y, i)
  {
    if x == 0 || y == 0 {
      ZeroBit(i);
    } else if i > 0 {
      AndBit(x / 2, y / 2, i - 1);
      assert BitAnd(x, y) / 2 == BitAnd(x / 2, y / 2);
    }
  }

  lemma {:induction false} XorBit(x: nat, y: nat, i: nat)
    ensures Bit(BitXor(x, y), i) <==> (Bit(x, i) <==> !Bit(y, i))
  {
    XorHalf(x, y);
    if i > 0 {
      XorBit(x / 2, y / 2, i - 1);
    }
  }

  /** Clearing y from x gives y only when there is nothing to clear or to keep. */
  lemma {:induction false} AndNotSelf(x: nat, y: nat)
    ensures AndNot(x, y) == y <==> x == 0 && y == 0
  {
    if x > 0 {
      AndNotSelf(x / 2, y / 2);
      assert AndNot(x, y) / 2 == AndNot(x / 2, y / 2);
    }
  }
}
