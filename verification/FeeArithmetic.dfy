/** The fee on Rune-to-EVM transfers, in decimal floating point. */
module FeeArithmetic {
  import opened Decimals
  import opened Wrappers

  /** The precision every node sets for its decimal context. */
  const PRECISION: nat := 80

  datatype TransferAmounts = TransferAmounts(
    amountDecimal: Decimal,
    amountRaw: int,
    feeDecimal: Decimal,
    feeRaw: int,
    netAmountDecimal: Decimal,
    netAmountRaw: int
  )

  /** _calculate_rune_to_evm_transfer_amounts. */
  function CalculateAmounts(amountRaw: int, divisibility: nat, percentage: Decimal, prec: nat): TransferAmounts
  {
    var amountDecimal := DivPow10(FromInt(amountRaw), divisibility, prec);
    var feeDecimal := DivPow10(Mul(amountDecimal, percentage, prec), 2, prec);
    var netAmountDecimal := Sub(amountDecimal, feeDecimal, prec);
    var netAmountRaw := Truncate(Mul(netAmountDecimal, FromInt(Pow10(divisibility)), prec));
    TransferAmounts(amountDecimal, amountRaw, feeDecimal, amountRaw - netAmountRaw, netAmountDecimal, netAmountRaw)
  }

  /** A percentage in [0, 100] with at most `digits` fractional digits. */
  predicate ValidPercentage(p: Decimal, digits: nat)
  {
    p.exp + digits >= 0 && 0 <= Scaled(p, digits) <= Pow10(digits + 2)
  }

  /** `part / whole` of an amount, rounded down. */
  function Share(amount: nat, part: nat, whole: nat): nat
    requires whole > 0
  {
    amount * part / whole
  }

  /** The net amount by definition: what is left of the amount after the percentage, rounded down. */
  function NetAmount(amount: nat, p: Decimal, digits: nat): nat
    requires ValidPercentage(p, digits)
  {
    Share(amount, Pow10(digits + 2) - Scaled(p, digits), Pow10(digits + 2))
  }

  // ---------------------------------------------------------------- one step at a time

  lemma {:induction false} StripExact(coef: nat, exp: int, ideal: int, scale: nat)
    requires exp <= ideal && exp + scale >= 0
    ensures var a := Strip(coef, exp, ideal);
            0 <= a.coef <= coef && exp <= a.exp <= ideal && Scaled(a, scale) == coef * Pow10(exp + scale)
    decreases ideal - exp
  {
    if exp < ideal && coef % 10 == 0 {
      StripExact(coef / 10, exp + 1, ideal, scale);
      ScaleTogether(coef / 10, 1, exp + scale);
    }
  }

  lemma FixSmall(coef: nat, exp: int, prec: nat)
    requires coef < Pow10(prec)
    ensures Fix(coef, exp, prec) == Decimal(coef, exp)
  {}

  /** Dividing by a power of ten is exact. */
  lemma DivExact(a: Decimal, k: nat, prec: nat, scale: nat)
    requires 0 <= a.coef < Pow10(prec) && a.exp - k + scale >= 0
    ensures var q := DivPow10(a, k, prec);
            0 <= q.coef <= a.coef && a.exp - k <= q.exp <= a.exp
            && Scaled(q, scale) == a.coef * Pow10(a.exp - k + scale)
  {
    StripExact(a.coef, a.exp - k, a.exp, scale);
    FixSmall(Strip(a.coef, a.exp - k, a.exp).coef, Strip(a.coef, a.exp - k, a.exp).exp, prec);
  }

  lemma ProductMonotonic(x: nat, x': nat, y: nat, y': nat)
    requires x <= x' && y <= y'
    ensures x * y <= x' * y'
  {
    assert x * y <= x' * y;
  }

  lemma BoundedProduct(x: nat, y: nat, j: nat, k: nat)
    requires x <= Pow10(j) && y <= Pow10(k)
    ensures x * y <= Pow10(j + k)
  {
    Pow10Add(j, k);
    ProductMonotonic(x, Pow10(j), y, Pow10(k));
  }

  lemma Pow10Strict(j: nat, k: nat)
    requires j < k
    ensures Pow10(j) < Pow10(k)
  {
    Pow10Monotonic(j + 1, k);
  }

  lemma Difference(x: int, y: int, unit: nat)
    requires unit > 0 && y * unit <= x * unit
    ensures y <= x && (x - y) * unit == x * unit - y * unit
  {
    LessFromScaled(y, x, unit);
  }

  lemma Aligned(a: Decimal, e: int, scale: nat, x: int, unit: nat)
    requires e <= a.exp && e + scale >= 0
    requires x == a.coef * Pow10(a.exp - e) && unit == Pow10(e + scale)
    ensures Scaled(a, scale) == x * unit
  {
    ScaleTogether(a.coef, a.exp - e, e + scale);
  }

  lemma SubAligned(a: Decimal, b: Decimal, prec: nat, e: int, x: int, y: int)
    requires e == Min(a.exp, b.exp)
    requires x == a.coef * Pow10(a.exp - e) && y == b.coef * Pow10(b.exp - e)
    requires 0 <= x - y < Pow10(prec)
    ensures Sub(a, b, prec) == Decimal(x - y, e)
  {
    FixSmall(x - y, e, prec);
  }

  /** A difference of decimals is exact when its aligned coefficients are small enough. */
  lemma SubExact(a: Decimal, b: Decimal, prec: nat, scale: nat, bound: nat)
    requires a.coef >= 0 && b.coef >= 0
    requires a.exp + scale >= 0 && b.exp + scale >= 0
    requires Scaled(b, scale) <= Scaled(a, scale)
    requires a.coef * Pow10(a.exp - Min(a.exp, b.exp)) <= bound < Pow10(prec)
    ensures var d := Sub(a, b, prec);
            0 <= d.coef <= bound && d.exp == Min(a.exp, b.exp)
            && Scaled(d, scale) == Scaled(a, scale) - Scaled(b, scale)
  {
    var e := Min(a.exp, b.exp);
    var x, y, unit := a.coef * Pow10(a.exp - e), b.coef * Pow10(b.exp - e), Pow10(e + scale);
    Aligned(a, e, scale, x, unit);
    Aligned(b, e, scale, y, unit);
    Difference(x, y, unit);
    NonNegative(b.coef, Pow10(b.exp - e));
    SubAligned(a, b, prec, e, x, y);
  }

  lemma NonNegative(x: nat, y: nat)
    ensures x * y >= 0
  {}

  lemma LessFromScaled(y: int, x: int, unit: nat)
    requires unit > 0 && y * unit <= x * unit
    ensures y <= x
  {
    if x < y {
      ProductLess(x, y, unit);
    }
  }

  // ---------------------------------------------------------------- the whole calculation

  /** The amount divided by `10^divisibility`. */
  lemma AmountExact(amount: nat, divisibility: nat, prec: nat, a: Decimal)
    requires amount < Pow10(prec) && a == DivPow10(FromInt(amount), divisibility, prec)
    ensures 0 <= a.coef <= amount && 0 <= a.exp + divisibility && a.exp <= 0
    ensures Scaled(a, divisibility) == amount
  {
    DivExact(FromInt(amount), divisibility, prec, divisibility);
    Unit(amount);
  }

  lemma Unit(n: int)
    ensures n * Pow10(0) == n
  {}

  lemma PercentageIsSmall(p: Decimal, digits: nat)
    requires ValidPercentage(p, digits)
    ensures 0 <= p.coef <= Pow10(digits + 2)
  {
    var unit := Pow10(p.exp + digits);
    if p.coef < 0 {
      ProductLess(p.coef, 0, unit);
    } else {
      ProductMonotonic(p.coef, p.coef, 1, unit);
    }
  }

  lemma ProductOfScaled(c: nat, u: nat, pc: nat, v: nat, m: nat)
    requires m == c * pc
    ensures m * (u * v) == (c * u) * (pc * v)
  {}

  /** The fee, a hundredth of amount times percentage, as a multiple of `10^-(divisibility + digits + 2)`. */
  lemma FeeExact(a: Decimal, amount: nat, divisibility: nat, p: Decimal, digits: nat, prec: nat, m: Decimal,
                 fee: Decimal, scale: nat)
    requires 0 <= a.coef && 0 <= a.exp + divisibility && Scaled(a, divisibility) == amount
    requires ValidPercentage(p, digits) && p.coef >= 0 && 0 <= a.coef * p.coef < Pow10(prec)
    requires m == Decimal(a.coef * p.coef, a.exp + p.exp) && fee == DivPow10(m, 2, prec)
    requires scale == divisibility + digits + 2
    ensures 0 <= fee.coef && a.exp + p.exp - 2 <= fee.exp && fee.exp + scale >= 0
    ensures Scaled(fee, scale) == amount * Scaled(p, digits)
  {
    DivExact(m, 2, prec, scale);
    ScaledProduct(a, divisibility, p, digits, m.coef, m.exp - 2 + scale);
  }

  lemma ScaledProduct(a: Decimal, j: nat, p: Decimal, k: nat, m: nat, e: nat)
    requires a.coef >= 0 && p.coef >= 0 && a.exp + j >= 0 && p.exp + k >= 0
    requires m == a.coef * p.coef && e == (a.exp + j) + (p.exp + k)
    ensures m * Pow10(e) == Scaled(a, j) * Scaled(p, k)
  {
    Pow10Add(a.exp + j, p.exp + k);
    ProductOfScaled(a.coef, Pow10(a.exp + j), p.coef, Pow10(p.exp + k), m);
  }

  /** The net amount, exact whatever the divisibility. */
  lemma NetExact(a: Decimal, amount: nat, divisibility: nat, part: nat, prec: nat, width: nat, digits: nat,
                 fee: Decimal, scale: nat)
    requires amount <= Pow10(width) && part <= Pow10(digits + 2) && width + digits + 2 < prec
    requires 0 <= a.coef <= amount && 0 <= a.exp + divisibility && Scaled(a, divisibility) == amount
    requires scale == divisibility + digits + 2
    requires 0 <= fee.coef && a.exp - digits - 2 <= fee.exp && fee.exp + scale >= 0
    requires Scaled(fee, scale) == amount * part
    ensures var net := Sub(a, fee, prec);
            && 0 <= net.coef < Pow10(prec) && net.exp + scale >= 0
            && Scaled(net, scale) == amount * (Pow10(digits + 2) - part)
  {
    Pow10Strict(width + digits + 2, prec);
    ScaleTogether(a.coef, a.exp + divisibility, digits + 2);
    NetIsNonNegative(amount, part, Pow10(digits + 2));
    var lift := a.exp - Min(a.exp, fee.exp);
    Pow10Monotonic(lift, digits + 2);
    BoundedProduct(a.coef, Pow10(lift), width, digits + 2);
    SubExact(a, fee, prec, scale, Pow10(width + digits + 2));
  }

  lemma NetIsNonNegative(amount: nat, part: nat, whole: nat)
    requires part <= whole
    ensures amount * part <= amount * whole
    ensures amount * whole - amount * part == amount * (whole - part)
  {
    ProductMonotonic(amount, amount, part, whole);
  }

  lemma ShareOfScaled(amount: nat, part: nat, whole: nat, unit: nat, v: int, all: nat)
    requires whole > 0 && unit > 0 && v == amount * part * unit && all == whole * unit
    ensures all > 0 && v / all == Share(amount, part, whole)
  {
    NonNegative(amount, part);
    RatioCancel(amount * part, unit, whole);
  }

  lemma MulByDivisor(net: Decimal, unit: nat, divisibility: nat, prec: nat, scale: nat, f: Decimal)
    requires 0 <= net.coef < Pow10(prec) && net.exp + scale >= 0 && unit == Pow10(divisibility)
    requires f == Mul(net, FromInt(unit), prec)
    ensures f.coef >= 0 && f.exp + scale >= 0 && Scaled(f, scale) == Scaled(net, scale) * unit
  {
    FixExact(net.coef, divisibility, net.exp, prec, scale);
    Reorder(net.coef, unit, Pow10(net.exp + scale));
  }

  /** Multiplying by the divisor and truncating. */
  lemma TruncateNet(net: Decimal, amount: nat, divisibility: nat, part: nat, whole: nat, prec: nat, scale: nat,
                    f: Decimal)
    requires 0 <= net.coef < Pow10(prec) && net.exp + scale >= 0
    requires Scaled(net, scale) == amount * part
    requires whole * Pow10(divisibility) == Pow10(scale) && whole > 0
    requires f == Mul(net, FromInt(Pow10(divisibility)), prec)
    ensures Truncate(f) == Share(amount, part, whole)
  {
    MulByDivisor(net, Pow10(divisibility), divisibility, prec, scale, f);
    TruncateScaled(f, scale);
    ShareOfScaled(amount, part, whole, Pow10(divisibility), Scaled(f, scale), Pow10(scale));
  }

  lemma Reorder(x: int, y: int, z: int)
    ensures x * y * z == x * z * y
  {}

  lemma ShareIsAtMost(amount: nat, part: nat, whole: nat)
    requires whole > 0 && part <= whole
    ensures 0 <= Share(amount, part, whole) <= amount
  {
    var q := amount * part / whole;
    ProductMonotonic(amount, amount, part, whole);
    if q > amount {
      ProductLess(amount, q, whole);
    }
  }

  /** The first three operations: amount in units, times percentage, over a hundred. */
  lemma FeeStage(amount: nat, divisibility: nat, p: Decimal, prec: nat, width: nat, digits: nat,
                 a: Decimal, fee: Decimal, scale: nat)
    requires amount <= Pow10(width) && ValidPercentage(p, digits) && width + digits + 2 < prec
    requires a == DivPow10(FromInt(amount), divisibility, prec) && fee == DivPow10(Mul(a, p, prec), 2, prec)
    requires scale == divisibility + digits + 2
    ensures 0 <= a.coef <= amount && 0 <= a.exp + divisibility && Scaled(a, divisibility) == amount
    ensures 0 <= fee.coef && a.exp - digits - 2 <= fee.exp && fee.exp + scale >= 0
    ensures Scaled(fee, scale) == amount * Scaled(p, digits)
  {
    Pow10Strict(width, prec);
    Pow10Strict(width + digits + 2, prec);
    PercentageIsSmall(p, digits);
    AmountExact(amount, divisibility, prec, a);
    BoundedProduct(a.coef, p.coef, width, digits + 2);
    NonNegative(a.coef, p.coef);
    FixSmall(a.coef * p.coef, a.exp + p.exp, prec);
    FeeExact(a, amount, divisibility, p, digits, prec, Mul(a, p, prec), fee, scale);
  }

  /** The last three: the difference, times the divisor, truncated. */
  lemma NetStage(amount: nat, divisibility: nat, part: nat, prec: nat, width: nat, digits: nat,
                 a: Decimal, fee: Decimal, scale: nat, whole: nat)
    requires amount <= Pow10(width) && part <= Pow10(digits + 2) == whole && width + digits + 2 < prec
    requires 0 <= a.coef <= amount && 0 <= a.exp + divisibility && Scaled(a, divisibility) == amount
    requires scale == divisibility + digits + 2
    requires 0 <= fee.coef && a.exp - digits - 2 <= fee.exp && fee.exp + scale >= 0
    requires Scaled(fee, scale) == amount * part
    ensures Sub(a, fee, prec).exp + scale >= 0 && Scaled(Sub(a, fee, prec), scale) == amount * (whole - part)
    ensures Truncate(Mul(Sub(a, fee, prec), FromInt(Pow10(divisibility)), prec)) == Share(amount, whole - part, whole)
  {
    NetExact(a, amount, divisibility, part, prec, width, digits, fee, scale);
    Pow10Add(digits + 2, divisibility);
    TruncateNet(Sub(a, fee, prec), amount, divisibility, whole - part, whole, prec, scale,
                Mul(Sub(a, fee, prec), FromInt(Pow10(divisibility)), prec));
  }

  /** The decimals are exact: the amount in units of the rune, the percentage of it, and what is left. */
  lemma DecimalsAreExact(amount: nat, divisibility: nat, p: Decimal, prec: nat, width: nat, digits: nat)
    requires amount <= Pow10(width) && ValidPercentage(p, digits) && width + digits + 2 < prec
    ensures var r, scale := CalculateAmounts(amount, divisibility, p, prec), divisibility + digits + 2;
            && r.amountDecimal.exp + divisibility >= 0 && Scaled(r.amountDecimal, divisibility) == amount
            && r.feeDecimal.exp + scale >= 0 && Scaled(r.feeDecimal, scale) == amount * Scaled(p, digits)
            && r.netAmountDecimal.exp + scale >= 0
            && Scaled(r.netAmountDecimal, scale) == amount * (Pow10(digits + 2) - Scaled(p, digits))
  {
    var r, scale := CalculateAmounts(amount, divisibility, p, prec), divisibility + digits + 2;
    FeeStage(amount, divisibility, p, prec, width, digits, r.amountDecimal, r.feeDecimal, scale);
    NetStage(amount, divisibility, Scaled(p, digits), prec, width, digits, r.amountDecimal, r.feeDecimal, scale, Pow10(digits + 2));
  }

  /** No step rounds: the net amount is what is left of the amount after the percentage, rounded down,
      independently of the divisibility; together with the fee it makes up the amount. */
  lemma NetAmountIsExact(amount: nat, divisibility: nat, p: Decimal, prec: nat, width: nat, digits: nat)
    requires amount <= Pow10(width) && ValidPercentage(p, digits) && width + digits + 2 < prec
    ensures var r := CalculateAmounts(amount, divisibility, p, prec);
            && r.netAmountRaw == NetAmount(amount, p, digits)
            && 0 <= r.netAmountRaw <= amount
            && r.netAmountRaw + r.feeRaw == r.amountRaw == amount
  {
    var r, scale := CalculateAmounts(amount, divisibility, p, prec), divisibility + digits + 2;
    var part, whole := Scaled(p, digits), Pow10(digits + 2);
    FeeStage(amount, divisibility, p, prec, width, digits, r.amountDecimal, r.feeDecimal, scale);
    NetStage(amount, divisibility, part, prec, width, digits, r.amountDecimal, r.feeDecimal, scale, whole);
    ShareIsAtMost(amount, whole - part, whole);
  }

  lemma ThirteenDigits(j: nat)
    requires j == 13
    ensures Pow10(j) == 10_000_000_000_000
  {
    assert Pow10(13) == 10_000_000_000_000;
  }

  lemma Uint128Digits(j: nat, width: nat)
    requires j == 13 && width == j + (j + j)
    ensures 0x1_0000_0000_0000_0000_0000_0000_0000_0000 <= Pow10(width)
  {
    ThirteenDigits(j);
    Pow10Add(j, j + j);
    Pow10Add(j, j);
  }

  /** Amounts below 2^128 and percentages with at most 30 fractional digits fit the 80 digits. */
  lemma Uint128AmountIsExact(amount: nat, divisibility: nat, p: Decimal, digits: nat)
    requires amount < 0x1_0000_0000_0000_0000_0000_0000_0000_0000
    requires digits <= 30 && ValidPercentage(p, digits)
    ensures var r := CalculateAmounts(amount, divisibility, p, PRECISION);
            && r.netAmountRaw == NetAmount(amount, p, digits)
            && 0 <= r.netAmountRaw <= amount
            && r.netAmountRaw + r.feeRaw == r.amountRaw == amount
  {
    var j: nat :| j == 13;
    var width := j + (j + j);
    Uint128Digits(j, width);
    NetAmountIsExact(amount, divisibility, p, PRECISION, width, digits);
  }
}
