/** Bit operations on natural numbers, defined bit by bit, and what the masks the
    loader uses compute. */
module Bits {
  import opened Words

  function Pow2(k: nat): (p: nat)
    ensures p > 0
  {
    if k == 0 then 1 else 2 * Pow2(k - 1)
  }

  function BitAnd(x: nat, y: nat): (r: nat)
    ensures r <= x && r <= y
  {
    if x == 0 || y == 0 then 0
    else 2 * BitAnd(x / 2, y / 2) + (if x % 2 == 1 && y % 2 == 1 then 1 else 0)
  }

  /** `!v` on 64 bits. */
  function Not64(v: u64): u64 {
    U64 - 1 - v
  }

  ghost predicate PowerOfTwo(a: int) {
    exists k: nat :: a == Pow2(k)
  }

  lemma {:induction false} Pow2Sum(j: nat, k: nat)
    ensures Pow2(j + k) == Pow2(j) * Pow2(k)
    decreases k
  {
    if k == 0 {
    } else {
      Pow2Sum(j, k - 1);
      assert Pow2(j) * (2 * Pow2(k - 1)) == 2 * (Pow2(j) * Pow2(k - 1));
    }
  }

  lemma {:induction false} Pow2Monotone(j: nat, k: nat)
    requires j <= k
    ensures Pow2(j) <= Pow2(k)
    decreases k
  {
    if j < k {
      Pow2Monotone(j, k - 1);
    }
  }

  lemma Pow2At16()
    ensures Pow2(4) == 16 && Pow2(12) == 0x1000 && Pow2(16) == 0x1_0000
  {
    assert Pow2(4) == 16;
    assert Pow2(8) == 256;
    assert Pow2(12) == 0x1000;
  }

  lemma Pow2At32()
    ensures Pow2(28) == 0x1000_0000 && Pow2(32) == U32
  {
    Pow2At16();
    Pow2Sum(16, 12);
    Pow2Sum(16, 16);
  }

  lemma Pow2At64()
    ensures Pow2(64) == U64
  {
    Pow2At32();
    Pow2Sum(32, 32);
  }

  /** The low `k` bits of `x`. */
  function LowBits(x: nat, k: nat): (r: nat)
    ensures r <= x && r < Pow2(k)
    decreases k
  {
    if k == 0 then 0 else 2 * LowBits(x / 2, k - 1) + x % 2
  }

  lemma HalfRemainder(x: nat, p: nat)
    requires p > 0
    ensures x % (2 * p) == 2 * (x / 2 % p) + x % 2
  {
    var q, r := x / 2 / p, x / 2 % p;
    assert x / 2 == p * q + r;
    assert 2 * (p * q) == 2 * p * q;
    ModUnique(x, 2 * p, q, 2 * r + x % 2);
  }

  lemma {:induction false} LowBitsIsRemainder(x: nat, k: nat)
    ensures LowBits(x, k) == x % Pow2(k)
    decreases k
  {
    if k == 0 {
    } else {
      LowBitsIsRemainder(x / 2, k - 1);
      HalfRemainder(x, Pow2(k - 1));
    }
  }

  lemma {:induction false} LowBitsOfSmall(x: nat, n: nat)
    requires x < Pow2(n)
    ensures LowBits(x, n) == x
    decreases n
  {
    if n > 0 {
      LowBitsOfSmall(x / 2, n - 1);
    }
  }

  /** Masking with `2^k - 1` keeps the low bits. */
  lemma {:induction false} AndLowMask(x: nat, k: nat)
    ensures BitAnd(x, Pow2(k) - 1) == LowBits(x, k)
    decreases k
  {
    if k == 0 || x == 0 {
    } else {
      AndLowMask(x / 2, k - 1);
      assert (Pow2(k) - 1) / 2 == Pow2(k - 1) - 1 && (Pow2(k) - 1) % 2 == 1;
    }
  }

  /** Masking with the complement of `2^k - 1` removes the low bits. */
  lemma {:induction false} AndHighMask(x: nat, k: nat, n: nat)
    requires k <= n && x < Pow2(n)
    ensures Pow2(k) <= Pow2(n)
    ensures BitAnd(x, Pow2(n) - Pow2(k)) == x - LowBits(x, k)
    decreases n
  {
    if k == 0 {
      AndLowMask(x, n);
      LowBitsOfSmall(x, n);
    } else {
      AndHighMask(x / 2, k - 1, n - 1);
      var m := Pow2(n - 1) - Pow2(k - 1);
      assert 2 * m / 2 == m && 2 * m % 2 == 0 && Pow2(n) - Pow2(k) == 2 * m;
    }
  }

  // -------------------------------------------------------------- splitting words

  function BitXor(x: nat, y: nat): (r: nat)
    decreases x + y
  {
    if x == 0 && y == 0 then 0
    else 2 * BitXor(x / 2, y / 2) + (if x % 2 != y % 2 then 1 else 0)
  }

  /** The number with high part `hi` above the `k` low bits of `lo`. */
  function Join(hi: nat, lo: nat, k: nat): nat
    decreases k
  {
    if k == 0 then hi else 2 * Join(hi, lo / 2, k - 1) + lo % 2
  }

  lemma {:induction false} JoinIs(hi: nat, lo: nat, k: nat)
    requires lo < Pow2(k)
    ensures Join(hi, lo, k) == Pow2(k) * hi + lo
    decreases k
  {
    if k > 0 {
      JoinIs(hi, lo / 2, k - 1);
      assert 2 * (Pow2(k - 1) * hi) == Pow2(k) * hi;
    }
  }

  lemma JoinHalf(hi: nat, lo: nat, k: nat)
    requires k > 0
    ensures Join(hi, lo, k) / 2 == Join(hi, lo / 2, k - 1) && Join(hi, lo, k) % 2 == lo % 2
  {
  }

  lemma XorStep(x: nat, y: nat)
    ensures BitXor(x, y) == 2 * BitXor(x / 2, y / 2) + (if x % 2 != y % 2 then 1 else 0)
  {
  }

  lemma AndStep(x: nat, y: nat)
    ensures BitAnd(x, y) == 2 * BitAnd(x / 2, y / 2) + (if x % 2 == 1 && y % 2 == 1 then 1 else 0)
  {
  }

  /** Bit operations act on the high and the low part separately. */
  lemma {:induction false} SplitXor(a: nat, b: nat, c: nat, d: nat, k: nat)
    ensures BitXor(Join(a, b, k), Join(c, d, k)) == Join(BitXor(a, c), BitXor(b, d), k)
    decreases k
  {
    if k > 0 {
      SplitXor(a, b / 2, c, d / 2, k - 1);
      JoinHalf(a, b, k);
      JoinHalf(c, d, k);
      XorStep(Join(a, b, k), Join(c, d, k));
      XorStep(b, d);
      JoinHalf(BitXor(a, c), BitXor(b, d), k);
    }
  }

  lemma {:induction false} SplitAnd(a: nat, b: nat, c: nat, d: nat, k: nat)
    ensures BitAnd(Join(a, b, k), Join(c, d, k)) == Join(BitAnd(a, c), BitAnd(b, d), k)
    decreases k
  {
    if k > 0 {
      SplitAnd(a, b / 2, c, d / 2, k - 1);
      JoinHalf(a, b, k);
      JoinHalf(c, d, k);
      AndStep(Join(a, b, k), Join(c, d, k));
      AndStep(b, d);
      JoinHalf(BitAnd(a, c), BitAnd(b, d), k);
    }
  }

  lemma {:induction false} XorBound(x: nat, y: nat, k: nat)
    requires x < Pow2(k) && y < Pow2(k)
    ensures BitXor(x, y) < Pow2(k)
    decreases k
  {
    if k > 0 {
      XorBound(x / 2, y / 2, k - 1);
      XorStep(x, y);
    }
  }

  lemma XorParts(a: nat, b: nat, c: nat, d: nat, k: nat, p: nat)
    requires p == Pow2(k) && b < p && d < p
    ensures BitXor(p * a + b, p * c + d) == p * BitXor(a, c) + BitXor(b, d)
    ensures BitXor(b, d) < p
  {
    JoinIs(a, b, k);
    JoinIs(c, d, k);
    SplitXor(a, b, c, d, k);
    XorBound(b, d, k);
    JoinIs(BitXor(a, c), BitXor(b, d), k);
  }

  lemma AndParts(a: nat, b: nat, c: nat, d: nat, k: nat, p: nat)
    requires p == Pow2(k) && b < p && d < p
    ensures BitAnd(p * a + b, p * c + d) == p * BitAnd(a, c) + BitAnd(b, d)
  {
    JoinIs(a, b, k);
    JoinIs(c, d, k);
    SplitAnd(a, b, c, d, k);
    JoinIs(BitAnd(a, c), BitAnd(b, d), k);
  }

  lemma {:induction false} XorZero(x: nat)
    ensures BitXor(x, 0) == x && BitXor(0, x) == x
  {
    if x > 0 {
      XorZero(x / 2);
    }
  }

  /** A number and its complement have no bit in common. */
  lemma {:induction false} AndComplement(a: nat, k: nat)
    requires a < Pow2(k)
    ensures BitAnd(a, Pow2(k) - 1 - a) == 0
    decreases k
  {
    if k > 0 {
      AndComplement(a / 2, k - 1);
      var c := Pow2(k) - 1 - a;
      assert c / 2 == Pow2(k - 1) - 1 - a / 2 && c % 2 != a % 2;
    }
  }

  /** Testing one bit with a shifted one. */
  lemma {:induction false} AndBit(x: nat, k: nat)
    ensures BitAnd(x, Pow2(k)) == 0 <==> x / Pow2(k) % 2 == 0
    decreases k
  {
    if k == 0 {
      AndStep(x, 1);
      assert BitAnd(x / 2, 0) == 0;
    } else {
      AndBit(x / 2, k - 1);
      AndStep(x, Pow2(k));
      assert Pow2(k) / 2 == Pow2(k - 1) && Pow2(k) % 2 == 0;
      HalvedQuotient(x, Pow2(k - 1));
    }
  }

  lemma HalvedQuotient(x: nat, p: nat)
    requires p > 0
    ensures x / (2 * p) == x / 2 / p
  {
    var q, r := x / 2 / p, x / 2 % p;
    assert x / 2 == p * q + r;
    assert 2 * (p * q) == 2 * p * q;
    ModUnique(x, 2 * p, q, 2 * r + x % 2);
  }
}
