/** Decimal floating point as Python's `decimal` computes it: a coefficient and an exponent, and every
    result rounded half-even to the precision of the context. */
module Decimals {
  import opened Wrappers

  function Pow10(k: nat): (p: nat)
    ensures p >= 1
  {
    if k == 0 then 1 else 10 * Pow10(k - 1)
  }

  /** The number `coef * 10^exp`. */
  datatype Decimal = Decimal(coef: int, exp: int)

  function Abs(n: int): nat
  {
    if n < 0 then -n else n
  }

  /** How many digits have to go for `n` to keep at most `prec`. */
  function Excess(n: nat, prec: nat): nat
  {
    if n < Pow10(prec) then 0 else 1 + Excess(n / 10, prec)
  }

  /** `n / unit`, rounded half-even. */
  function RoundHalfEven(n: nat, unit: nat): nat
    requires unit > 0
  {
    var q, r := n / unit, n % unit;
    if 2 * r > unit || (2 * r == unit && q % 2 == 1) then q + 1 else q
  }

  /** The context rounding of an exact result; rounding up to one digit too many drops a zero. */
  function Fix(coef: int, exp: int, prec: nat): Decimal
  {
    var k := Excess(Abs(coef), prec);
    if k == 0 then Decimal(coef, exp)
    else
      var q := RoundHalfEven(Abs(coef), Pow10(k));
      var (c, e) := if q == Pow10(prec) then (q / 10, exp + k + 1) else (q, exp + k);
      Decimal(if coef < 0 then -c else c, e)
  }

  function FromInt(n: int): Decimal
  {
    Decimal(n, 0)
  }

  function Mul(a: Decimal, b: Decimal, prec: nat): Decimal
  {
    Fix(a.coef * b.coef, a.exp + b.exp, prec)
  }

  function Sub(a: Decimal, b: Decimal, prec: nat): Decimal
  {
    var e := Min(a.exp, b.exp);
    Fix(a.coef * Pow10(a.exp - e) - b.coef * Pow10(b.exp - e), e, prec)
  }

  /** An exact quotient drops trailing zeros until it reaches the exponent of the dividend. */
  function Strip(coef: int, exp: int, ideal: int): Decimal
    decreases ideal - exp
  {
    if exp < ideal && coef % 10 == 0 then Strip(coef / 10, exp + 1, ideal) else Decimal(coef, exp)
  }

  /** Division by the integer `10^k`. */
  function DivPow10(a: Decimal, k: nat, prec: nat): Decimal
  {
    var q := Strip(a.coef, a.exp - k, a.exp);
    Fix(q.coef, q.exp, prec)
  }

  /** int(): truncation towards zero. */
  function Truncate(a: Decimal): int
  {
    if a.exp >= 0 then a.coef * Pow10(a.exp)
    else if a.coef < 0 then -(-a.coef / Pow10(-a.exp))
    else a.coef / Pow10(-a.exp)
  }

  /** The value as a multiple of `10^-scale`. */
  function Scaled(a: Decimal, scale: nat): int
    requires a.exp + scale >= 0
  {
    a.coef * Pow10(a.exp + scale)
  }

  // ---------------------------------------------------------------- powers of ten

  lemma {:induction false} Pow10Add(j: nat, k: nat)
    ensures Pow10(j + k) == Pow10(j) * Pow10(k)
  {
    if j > 0 {
      Pow10Add(j - 1, k);
    }
  }

  lemma {:induction false} Pow10Monotonic(j: nat, k: nat)
    requires j <= k
    ensures Pow10(j) <= Pow10(k)
  {
    if j < k {
      Pow10Monotonic(j, k - 1);
    }
  }

  /** Equal ratios have equal quotients. */
  lemma EqualRatios(x: nat, a: nat, y: nat, b: nat)
    requires a > 0 && b > 0 && x * b == y * a
    ensures x / a == y / b
  {
    var q, r := y / b, y % b;
    assert y == q * b + r;
    assert x * b == q * b * a + r * a;
    assert (x - q * a) * b == r * a;
    ScaledRemainder(x - q * a, a, b, r);
    QuotientIs(x, a, q);
  }

  lemma ProductLess(x: int, y: int, b: int)
    requires x < y && b > 0
    ensures x * b < y * b
  {}

  lemma ScaledRemainder(d: int, a: nat, b: nat, r: nat)
    requires a > 0 && r < b && d * b == r * a
    ensures 0 <= d < a
  {
    if d < 0 {
      ProductLess(d, 0, b);
    } else if d > a {
      ProductLess(a, d, b);
    }
    ProductLess(r, b, a);
  }

  lemma QuotientIs(x: nat, a: nat, q: nat)
    requires a > 0 && 0 <= x - q * a < a
    ensures x / a == q
  {
    var e := x / a - q;
    assert e * a == x - q * a - x % a;
    if e != 0 {
      MultipleGrows(e, a);
    }
  }

  lemma MultipleGrows(e: int, d: int)
    requires e != 0 && d > 0
    ensures e * d >= d || e * d <= -d
  {}

  // ---------------------------------------------------------------- exactness

  /** Trailing zeros are the first digits to go. */
  lemma {:induction false} ExcessOfZeros(m: nat, j: nat, prec: nat)
    requires m < Pow10(prec)
    ensures Excess(m * Pow10(j), prec) <= j
  {
    if j > 0 {
      var n := m * Pow10(j - 1);
      assert m * Pow10(j) == 10 * n;
      ExcessOfZeros(m, j - 1, prec);
    }
  }

  lemma {:induction false} ExcessLeaves(q: nat, k: nat, prec: nat)
    requires Excess(q * Pow10(k), prec) == k
    ensures q < Pow10(prec)
  {
    if k > 0 {
      NextPower(q, k);
      ExcessLeaves(q, k - 1, prec);
    }
  }

  lemma NextPower(q: nat, k: nat)
    requires k > 0
    ensures q * Pow10(k) == 10 * (q * Pow10(k - 1)) && q * Pow10(k) / 10 == q * Pow10(k - 1)
  {
  }

  lemma RoundExact(q: nat, unit: nat)
    requires unit > 0
    ensures RoundHalfEven(q * unit, unit) == q
  {
    QuotientIs(q * unit, unit, q);
  }

  lemma ScaleTogether(q: int, j: nat, k: nat)
    ensures q * Pow10(j + k) == q * Pow10(j) * Pow10(k)
  {
    Pow10Add(j, k);
  }

  /** A result with at most `prec` digits besides trailing zeros is not changed by rounding. */
  lemma FixExact(m: nat, j: nat, exp: int, prec: nat, scale: nat)
    requires m < Pow10(prec) && exp + scale >= 0
    ensures var a := Fix(m * Pow10(j), exp, prec);
            a.coef >= 0 && a.exp >= exp && Scaled(a, scale) == m * Pow10(j) * Pow10(exp + scale)
  {
    var n := m * Pow10(j);
    var k := Excess(n, prec);
    ExcessOfZeros(m, j, prec);
    var q := m * Pow10(j - k);
    assert n == q * Pow10(k) by {
      ScaleTogether(m, j - k, k);
    }
    ExcessLeaves(q, k, prec);
    FixDropsZeros(q, k, exp, prec);
    ScaleTogether(q, k, exp + scale);
  }

  lemma FixDropsZeros(q: nat, k: nat, exp: int, prec: nat)
    requires Excess(q * Pow10(k), prec) == k && q < Pow10(prec)
    ensures Fix(q * Pow10(k), exp, prec) == Decimal(q, exp + k)
  {
    RoundExact(q, Pow10(k));
  }

  lemma DivCancel(t: nat, u: nat)
    requires u > 0
    ensures t * u / u == t
  {
    QuotientIs(t * u, u, t);
  }

  lemma RatioCancel(c: nat, g: nat, h: nat)
    requires g > 0 && h > 0
    ensures g * h > 0 && c * g / (g * h) == c / h
  {
    EqualRatios(c, h, c * g, g * h);
  }

  /** int() of a non-negative decimal is the scaled value, rounded down. */
  lemma TruncateScaled(a: Decimal, scale: nat)
    requires a.coef >= 0 && a.exp + scale >= 0
    ensures Truncate(a) == Scaled(a, scale) / Pow10(scale)
  {
    if a.exp >= 0 {
      ScaleTogether(a.coef, a.exp, scale);
      DivCancel(a.coef * Pow10(a.exp), Pow10(scale));
    } else {
      Pow10Add(a.exp + scale, -a.exp);
      RatioCancel(a.coef, Pow10(a.exp + scale), Pow10(-a.exp));
    }
  }

  // ---------------------------------------------------------------- rounding

  /** As many digits go as are too many. */
  lemma {:induction false} ExcessIs(n: nat, prec: nat)
    requires prec > 0
    ensures var k := Excess(n, prec);
            (k == 0 <==> n < Pow10(prec)) && n < Pow10(prec + k) && (k > 0 ==> Pow10(prec + k - 1) <= n)
  {
    if n >= Pow10(prec) {
      ExcessIs(n / 10, prec);
    }
  }

  /** The nearest multiple of the unit; of two that are equally near, the even one. */
  lemma RoundsToNearest(n: nat, unit: nat)
    requires unit > 0
    ensures var q := RoundHalfEven(n, unit);
            && 2 * Abs(n - q * unit) <= unit && (2 * Abs(n - q * unit) == unit ==> q % 2 == 0)
            && n / unit <= q <= n / unit + 1
  {
    var q, r := n / unit, n % unit;
    assert n == q * unit + r;
    assert (q + 1) * unit == q * unit + unit;
  }

  lemma QuotientBounds(n: nat, unit: nat, low: nat, high: nat)
    requires unit > 0 && low * unit <= n < high * unit
    ensures low <= n / unit < high
  {
    var q := n / unit;
    assert q * unit <= n < q * unit + unit;
    if q < low {
      ProductAtMost(q + 1, low, unit);
    }
    if q >= high {
      ProductAtMost(high, q, unit);
    }
  }

  lemma ProductAtMost(x: nat, y: nat, unit: nat)
    requires x <= y
    ensures x * unit <= y * unit && (x + 1) * unit == x * unit + unit
  {
  }

  /** The nearest value with `prec` digits. */
  ghost predicate IsNearest(n: int, c: int, unit: nat, prec: nat)
    requires prec > 0
  {
    && Pow10(prec - 1) <= Abs(c) < Pow10(prec)
    && 2 * Abs(n - c * unit) <= unit && (2 * Abs(n - c * unit) == unit ==> c % 2 == 0)
  }

  lemma NearestOf(n: nat, prec: nat, k: nat, q: nat)
    requires prec > 0 && k == Excess(n, prec) > 0 && q == RoundHalfEven(n, Pow10(k))
    ensures q < Pow10(prec) ==> IsNearest(n, q, Pow10(k), prec)
    ensures q <= Pow10(prec)
    ensures q == Pow10(prec) ==> IsNearest(n, q / 10, Pow10(k + 1), prec)
  {
    ExcessIs(n, prec);
    Pow10Add(prec, k);
    Pow10Add(prec - 1, k);
    QuotientBounds(n, Pow10(k), Pow10(prec - 1), Pow10(prec));
    RoundsToNearest(n, Pow10(k));
    if q == Pow10(prec) {
      Carried(n, q, Pow10(k), prec);
    }
  }

  lemma FixOfNat(n: nat, exp: int, prec: nat)
    requires prec > 0 && n >= Pow10(prec)
    ensures var d := Fix(n, exp, prec); d.exp > exp && d.coef >= 0 && IsNearest(n, d.coef, Pow10(d.exp - exp), prec)
  {
    ExcessIs(n, prec);
    var k := Excess(n, prec);
    NearestOf(n, prec, k, RoundHalfEven(n, Pow10(k)));
  }

  lemma FixOfOpposite(n: nat, exp: int, prec: nat)
    ensures Fix(0 - n, exp, prec) == Decimal(0 - Fix(n, exp, prec).coef, Fix(n, exp, prec).exp)
  {
  }

  lemma NearestOfOpposite(n: int, c: int, unit: nat, prec: nat)
    requires prec > 0 && IsNearest(n, c, unit, prec)
    ensures IsNearest(-n, -c, unit, prec)
  {
    assert (-c) * unit == -(c * unit);
  }

  /** Rounding changes nothing that has at most `prec` digits, and otherwise gives the nearest value with that many. */
  lemma FixRounds(coef: int, exp: int, prec: nat)
    requires prec > 0
    ensures var d := Fix(coef, exp, prec);
            if Abs(coef) < Pow10(prec) then d == Decimal(coef, exp)
            else d.exp > exp && IsNearest(coef, d.coef, Pow10(d.exp - exp), prec)
  {
    if Abs(coef) >= Pow10(prec) {
      var d := Fix(Abs(coef), exp, prec);
      FixOfNat(Abs(coef), exp, prec);
      if coef < 0 {
        FixOfOpposite(-coef, exp, prec);
        NearestOfOpposite(-coef, d.coef, Pow10(d.exp - exp), prec);
      }
    } else {
      ExcessIs(Abs(coef), prec);
    }
  }

  /** Rounding up to one digit too many drops a zero, and the error is far from half of the larger unit. */
  lemma Carried(n: nat, q: nat, unit: nat, prec: nat)
    requires prec > 0 && q == Pow10(prec) && 2 * Abs(n - q * unit) <= unit && unit > 0
    ensures q / 10 == Pow10(prec - 1) && 2 * Abs(n - q / 10 * (10 * unit)) < 10 * unit
  {
    assert q == 10 * Pow10(prec - 1);
    assert q / 10 * (10 * unit) == q * unit;
  }

  lemma OppositeProduct(coef: int, unit: int)
    ensures (0 - coef) * unit == 0 - coef * unit
  {
  }

  /** int() of a negative decimal is the opposite of that of its absolute value, so that it never rounds away from zero. */
  lemma TruncateOfOpposite(coef: nat, exp: int, unit: nat)
    requires coef > 0 && unit == Pow10(if exp >= 0 then exp else -exp)
    ensures Truncate(Decimal(0 - coef, exp)) == 0 - Truncate(Decimal(coef, exp))
  {
    if exp >= 0 {
      OppositeProduct(coef, unit);
    } else {
      assert Truncate(Decimal(0 - coef, exp)) == -(coef / unit);
    }
  }
}
