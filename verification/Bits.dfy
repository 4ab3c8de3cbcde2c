/** Exclusive or on unbounded non-negative integers, as Python's `^` computes it, together with
    the shifts and masks by powers of two that it distributes over. */
module Bits {

  function Xor(a: nat, b: nat): nat
    decreases a + b
  {
    if a == 0 && b == 0 then 0
    else 2 * Xor(a / 2, b / 2) + (if a % 2 == b % 2 then 0 else 1)
  }

  /** `a >> k`. */
  function Shr(a: nat, k: nat): nat
  {
    if k == 0 then a else Shr(a / 2, k - 1)
  }

  /** `a & (2^k - 1)`. */
  function Low(a: nat, k: nat): nat
  {
    if k == 0 then 0 else 2 * Low(a / 2, k - 1) + a % 2
  }

  function Flip(r: nat, s: nat): nat
  {
    if r == s then 0 else 1
  }

  lemma XorBits(x: nat, r: nat, y: nat, s: nat)
    requires r < 2 && s < 2
    ensures Xor(2 * x + r, 2 * y + s) == 2 * Xor(x, y) + Flip(r, s)
  {
    assert (2 * x + r) / 2 == x && (2 * y + s) / 2 == y;
  }

  lemma {:induction false} XorZero(a: nat)
    ensures Xor(a, 0) == a && Xor(0, a) == a
  {
    if a > 0 {
      XorZero(a / 2);
    }
  }

  lemma {:induction false} XorSelf(a: nat)
    ensures Xor(a, a) == 0
  {
    if a > 0 {
      XorSelf(a / 2);
    }
  }

  lemma {:induction false} XorComm(a: nat, b: nat)
    ensures Xor(a, b) == Xor(b, a)
    decreases a + b
  {
    if a + b > 0 {
      XorComm(a / 2, b / 2);
    }
  }

  lemma XorAssocBits(x: nat, r: nat, y: nat, s: nat, z: nat, t: nat)
    requires r < 2 && s < 2 && t < 2
    requires Xor(Xor(x, y), z) == Xor(x, Xor(y, z))
    ensures Xor(Xor(2 * x + r, 2 * y + s), 2 * z + t) == Xor(2 * x + r, Xor(2 * y + s, 2 * z + t))
  {
    XorBits(x, r, y, s);
    XorBits(y, s, z, t);
    XorBits(Xor(x, y), Flip(r, s), z, t);
    XorBits(x, r, Xor(y, z), Flip(s, t));
  }

  lemma {:induction false} XorAssoc(a: nat, b: nat, c: nat)
    ensures Xor(Xor(a, b), c) == Xor(a, Xor(b, c))
    decreases a + b + c
  {
    if a + b + c > 0 {
      XorAssoc(a / 2, b / 2, c / 2);
      XorAssocBits(a / 2, a % 2, b / 2, b % 2, c / 2, c % 2);
    }
  }

  /** Two sums of two terms can be regrouped by position. */
  lemma XorRegroup(a: nat, b: nat, c: nat, d: nat)
    ensures Xor(Xor(a, b), Xor(c, d)) == Xor(Xor(a, c), Xor(b, d))
  {
    XorAssoc(a, b, Xor(c, d));
    XorAssoc(b, c, d);
    XorComm(b, c);
    XorAssoc(c, b, d);
    XorAssoc(a, c, Xor(b, d));
  }

  lemma XorCancel(a: nat, b: nat, c: nat)
    requires Xor(a, b) == Xor(a, c)
    ensures b == c
  {
    XorAssoc(a, a, b);
    XorAssoc(a, a, c);
    XorSelf(a);
    XorZero(b);
    XorZero(c);
  }

  /** Shifting right and masking both distribute over exclusive or. */
  lemma {:induction false} XorShr(a: nat, b: nat, k: nat)
    ensures Shr(Xor(a, b), k) == Xor(Shr(a, k), Shr(b, k))
  {
    if k > 0 {
      XorBits(a / 2, a % 2, b / 2, b % 2);
      XorShr(a / 2, b / 2, k - 1);
    }
  }

  lemma LowBits(x: nat, r: nat, k: nat)
    requires r < 2
    ensures Low(2 * x + r, k + 1) == 2 * Low(x, k) + r
  {
    assert (2 * x + r) / 2 == x && (2 * x + r) % 2 == r;
  }

  lemma XorLowBits(x: nat, r: nat, y: nat, s: nat, k: nat)
    requires r < 2 && s < 2
    requires Low(Xor(x, y), k) == Xor(Low(x, k), Low(y, k))
    ensures Low(Xor(2 * x + r, 2 * y + s), k + 1) == Xor(Low(2 * x + r, k + 1), Low(2 * y + s, k + 1))
  {
    XorBits(x, r, y, s);
    LowBits(Xor(x, y), Flip(r, s), k);
    LowBits(x, r, k);
    LowBits(y, s, k);
    XorBits(Low(x, k), r, Low(y, k), s);
  }

  lemma {:induction false} XorLow(a: nat, b: nat, k: nat)
    ensures Low(Xor(a, b), k) == Xor(Low(a, k), Low(b, k))
  {
    if k > 0 {
      XorLow(a / 2, b / 2, k - 1);
      XorLowBits(a / 2, a % 2, b / 2, b % 2, k - 1);
    }
  }

  lemma XorDouble(a: nat, b: nat)
    ensures Xor(2 * a, 2 * b) == 2 * Xor(a, b)
  {
    XorBits(a, 0, b, 0);
  }

  lemma XorTimesFour(a: nat, b: nat)
    ensures Xor(4 * a, 4 * b) == 4 * Xor(a, b)
  {
    XorDouble(2 * a, 2 * b);
    XorDouble(a, b);
  }

  /** The two halves determine the number. */
  lemma {:induction false} SplitIsInjective(a: nat, b: nat, k: nat)
    requires Shr(a, k) == Shr(b, k) && Low(a, k) == Low(b, k)
    ensures a == b
  {
    if k > 0 {
      SplitIsInjective(a / 2, b / 2, k - 1);
    }
  }

  lemma {:induction false} ShrAdd(a: nat, j: nat, k: nat)
    ensures Shr(Shr(a, j), k) == Shr(a, j + k)
  {
    if j > 0 {
      ShrAdd(a / 2, j - 1, k);
    }
  }

  /** Shifting and masking by five bits, as divisions. */
  lemma Five(a: nat)
    ensures Shr(a, 5) == a / 32 && Low(a, 5) == a % 32
  {
    var b := a / 2;
    var c := b / 2;
    var d := c / 2;
    var e := d / 2;
    assert Shr(e, 1) == e / 2 && Low(e, 1) == e % 2;
    assert Shr(d, 2) == e / 2 && Low(d, 2) == 2 * (e % 2) + d % 2;
    assert Shr(c, 3) == e / 2 && Low(c, 3) == 2 * Low(d, 2) + c % 2;
    assert Shr(b, 4) == e / 2 && Low(b, 4) == 2 * Low(c, 3) + b % 2;
  }

  lemma {:induction false} ShrZero(k: nat)
    ensures Shr(0, k) == 0 && Low(0, k) == 0
  {
    if k > 0 {
      ShrZero(k - 1);
    }
  }

  lemma {:induction false} LowFits(a: nat, k: nat)
    ensures Shr(Low(a, k), k) == 0
  {
    if k > 0 {
      LowFits(a / 2, k - 1);
      assert Low(a, k) / 2 == Low(a / 2, k - 1);
    }
  }

  /** A number without bits above `k` is its own low part. */
  lemma {:induction false} LowOfSmall(a: nat, k: nat)
    requires Shr(a, k) == 0
    ensures Low(a, k) == a
  {
    if k > 0 {
      LowOfSmall(a / 2, k - 1);
    }
  }

  function Pow2(k: nat): nat
  {
    if k == 0 then 1 else 2 * Pow2(k - 1)
  }

  lemma {:induction false} ShrOfSmall(a: nat, k: nat)
    requires a < Pow2(k)
    ensures Shr(a, k) == 0
  {
    if k > 0 {
      ShrOfSmall(a / 2, k - 1);
    }
  }

  lemma FortyBits()
    ensures Pow2(40) == 0x100_0000_0000
  {
    assert Pow2(10) == 1024;
    assert Pow2(20) == 1024 * 1024;
    assert Pow2(30) == 1024 * 1024 * 1024;
  }
}
