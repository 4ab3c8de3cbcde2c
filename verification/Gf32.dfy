/** The checksum code is a code over the field with 32 elements, which is what makes its five generators one polynomial:
    multiplying every symbol by a field element multiplies the remainder by it. */
module Gf32 {
  import opened Bits
  import opened Bch

  // ---------------------------------------------------------------- the field

  /** A symbol as a polynomial over GF(2) times x, modulo x^5 + x^3 + 1: the bit shifted out flips the bits 3 and 0. */
  function Double(s: Symbol): Symbol
  {
    if s < 16 then 2 * s else if s / 4 % 2 == 0 then 2 * s - 32 + 9 else 2 * s - 32 - 7
  }

  /** The product of a state, symbol by symbol, with x. */
  function Twice(n: nat): nat
  {
    if n == 0 then 0 else 32 * Twice(n / 32) + Double(n % 32)
  }

  function DoubleAll(symbols: seq<Symbol>): seq<Symbol>
  {
    seq(|symbols|, i requires 0 <= i < |symbols| => Double(symbols[i]))
  }

  /** The product with the field element `e`, of a symbol or of every symbol of a state. */
  function Times(e: nat, n: nat): nat
    decreases e
  {
    if e == 0 then 0 else Xor(if e % 2 == 1 then n else 0, Times(e / 2, Twice(n)))
  }

  function TimesAll(e: nat, symbols: seq<Symbol>): (r: seq<Symbol>)
    ensures |r| == |symbols|
  {
    if symbols == [] then [] else
      TimesFits(e, symbols[0]);
      [Times(e, symbols[0])] + TimesAll(e, symbols[1..])
  }

  lemma {:induction false} TimesFits(e: nat, s: Symbol)
    ensures Times(e, s) < 32
    decreases e
  {
    if e > 0 {
      TwiceOfSymbol(s);
      TimesFits(e / 2, Double(s));
      SymbolXor(if e % 2 == 1 then s else 0, Times(e / 2, Double(s)));
    }
  }

  lemma TwiceOfSymbol(s: Symbol)
    ensures Twice(s) == Double(s)
  {
    assert s / 32 == 0 && s % 32 == s;
  }

  lemma DoubleBits(s: Symbol, b4: Bit, b3: Bit, b2: Bit, b1: Bit, b0: Bit)
    requires s == FromBits(b4, b3, b2, b1, b0)
    ensures Double(s) == FromBits(b3, Flip(b2, b4), b1, b0, b4)
  {
  }

  lemma DoubleLinear(u: Symbol, v: Symbol)
    ensures Xor(u, v) < 32 && Double(Xor(u, v)) == Xor(Double(u), Double(v))
  {
    SymbolXor(u, v);
    var a4, a3, a2, a1, a0 := AsBits(u);
    var b4, b3, b2, b1, b0 := AsBits(v);
    XorFromBits(a4, a3, a2, a1, a0, b4, b3, b2, b1, b0);
    DoubleBits(u, a4, a3, a2, a1, a0);
    DoubleBits(v, b4, b3, b2, b1, b0);
    DoubleBits(Xor(u, v), Flip(a4, b4), Flip(a3, b3), Flip(a2, b2), Flip(a1, b1), Flip(a0, b0));
    XorFromBits(a3, Flip(a2, a4), a1, a0, a4, b3, Flip(b2, b4), b1, b0, b4);
  }

  /** XOR, symbol by symbol. */
  lemma XorOfParts(a: nat, u: Symbol, b: nat, v: Symbol)
    ensures Xor(u, v) < 32 && Xor(32 * a + u, 32 * b + v) == 32 * Xor(a, b) + Xor(u, v)
  {
    SymbolXor(u, v);
    PartsOfSum(32 * a + u, a, u);
    PartsOfSum(32 * b + v, b, v);
    XorParts(32 * a + u, 32 * b + v, 5, Xor(a, b), Xor(u, v));
    SumOfParts(Xor(32 * a + u, 32 * b + v), Xor(a, b), Xor(u, v));
  }

  lemma TwiceParts(a: nat, u: Symbol)
    ensures Twice(32 * a + u) == 32 * Twice(a) + Double(u)
  {
    assert (32 * a + u) / 32 == a && (32 * a + u) % 32 == u;
  }

  lemma {:induction false} TwiceLinear(a: nat, b: nat)
    ensures Twice(Xor(a, b)) == Xor(Twice(a), Twice(b))
    decreases a + b
  {
    if a != 0 || b != 0 {
      TwiceLinear(a / 32, b / 32);
      TwiceLinearNext(a / 32, a % 32, b / 32, b % 32);
    }
  }

  lemma TwiceLinearNext(p: nat, u: Symbol, q: nat, v: Symbol)
    requires Twice(Xor(p, q)) == Xor(Twice(p), Twice(q))
    ensures Twice(Xor(32 * p + u, 32 * q + v)) == Xor(Twice(32 * p + u), Twice(32 * q + v))
  {
    TwiceOfSum(p, u, q, v);
    TwiceSum(p, u, q, v);
  }

  lemma TwiceOfSum(p: nat, u: Symbol, q: nat, v: Symbol)
    ensures Twice(Xor(32 * p + u, 32 * q + v)) == 32 * Twice(Xor(p, q)) + Xor(Double(u), Double(v))
  {
    XorOfParts(p, u, q, v);
    DoubleLinear(u, v);
    TwiceParts(Xor(p, q), Xor(u, v));
  }

  lemma TwiceSum(p: nat, u: Symbol, q: nat, v: Symbol)
    ensures Xor(Twice(32 * p + u), Twice(32 * q + v)) == 32 * Xor(Twice(p), Twice(q)) + Xor(Double(u), Double(v))
  {
    TwiceParts(p, u);
    TwiceParts(q, v);
    XorOfParts(Twice(p), Double(u), Twice(q), Double(v));
  }

  lemma {:induction false} TwiceShifted(n: nat, k: nat)
    ensures Shr(Twice(n), 5 * k) == Twice(Shr(n, 5 * k))
  {
    if k > 0 {
      ShrAdd(Twice(n), 5, 5 * k - 5);
      ShrAdd(n, 5, 5 * k - 5);
      TwiceParts(n / 32, n % 32);
      PartsOfSum(n, n / 32, n % 32);
      PartsOfSum(Twice(n), Twice(n / 32), Double(n % 32));
      TwiceShifted(n / 32, k - 1);
    }
  }

  lemma LowOfParts(a: nat, u: Symbol, k: nat)
    ensures Low(32 * a + u, k + 5) == 32 * Low(a, k) + u
  {
    var a1, a2 := 2 * a + u / 16, 4 * a + u / 8;
    var a3, a4 := 8 * a + u / 4, 16 * a + u / 2;
    assert (32 * a + u) / 2 == a4 && a4 / 2 == a3 && a3 / 2 == a2 && a2 / 2 == a1 && a1 / 2 == a;
    assert Low(a1, k + 1) == 2 * Low(a, k) + a1 % 2;
    assert Low(a2, k + 2) == 2 * Low(a1, k + 1) + a2 % 2;
    assert Low(a3, k + 3) == 2 * Low(a2, k + 2) + a3 % 2;
    assert Low(a4, k + 4) == 2 * Low(a3, k + 3) + a4 % 2;
  }

  lemma {:induction false} TwiceLow(n: nat, k: nat)
    ensures Low(Twice(n), 5 * k) == Twice(Low(n, 5 * k))
  {
    if k > 0 {
      TwiceLow(n / 32, k - 1);
      TwiceLowNext(n / 32, n % 32, 5 * k - 5);
    }
  }

  lemma TwiceLowNext(a: nat, u: Symbol, k: nat)
    requires Low(Twice(a), k) == Twice(Low(a, k))
    ensures Low(Twice(32 * a + u), k + 5) == Twice(Low(32 * a + u, k + 5))
  {
    TwiceParts(a, u);
    LowOfParts(a, u, k);
    LowOfParts(Twice(a), Double(u), k);
    TwiceParts(Low(a, k), u);
  }

  // ---------------------------------------------------------------- the generators are one polynomial

  /** Each generator is the one before times x, so that all are multiples of the first. */
  ghost predicate AreMultiples(g: seq<nat>)
  {
    && |g| == 5 && (forall i :: 0 <= i < 4 ==> Twice(g[i]) == g[i + 1])
    && Twice(g[4]) == Xor(g[0], g[3])
  }

  /** The number with these base-32 digits. */
  function Value(symbols: seq<Symbol>, n: nat): nat
    requires n <= |symbols|
  {
    if n == 0 then 0 else 32 * Value(symbols, n - 1) + symbols[n - 1]
  }

  lemma {:induction false} TwiceValue(symbols: seq<Symbol>, n: nat)
    requires n <= |symbols|
    ensures Twice(Value(symbols, n)) == Value(DoubleAll(symbols), n)
  {
    if n > 0 {
      TwiceValue(symbols, n - 1);
      TwiceParts(Value(symbols, n - 1), symbols[n - 1]);
    }
  }

  lemma {:induction false} XorValues(xs: seq<Symbol>, ys: seq<Symbol>, zs: seq<Symbol>, n: nat)
    requires n <= |xs| && n <= |ys| && n <= |zs| && forall i :: 0 <= i < n ==> Xor(xs[i], ys[i]) == zs[i]
    ensures Xor(Value(xs, n), Value(ys, n)) == Value(zs, n)
  {
    if n > 0 {
      XorValues(xs, ys, zs, n - 1);
      XorOfParts(Value(xs, n - 1), xs[n - 1], Value(ys, n - 1), ys[n - 1]);
    }
  }

  /** The generators, symbol by symbol; the first row are the coefficients of x^7 to x^0 in the generator polynomial. */
  const ROWS: seq<seq<Symbol>> :=
    [ [30, 23, 15, 14, 10, 6, 12, 9],
      [21, 7, 30, 28, 20, 12, 24, 18],
      [3, 14, 21, 17, 1, 24, 25, 13],
      [6, 28, 3, 11, 2, 25, 27, 26],
      [12, 17, 6, 22, 4, 27, 31, 29] ]

  lemma RowsAreGenerators()
    ensures forall i :: 0 <= i < 5 ==> |ROWS[i]| == 8 && Value(ROWS[i], 8) == GENERATOR[i]
  {
  }

  lemma RowsDouble()
    ensures forall i, j :: 0 <= i < 4 && 0 <= j < 8 ==> Double(ROWS[i][j]) == ROWS[i + 1][j]
  {
  }

  lemma HighSums()
    ensures Xor(30, 6) == 24 && Xor(23, 28) == 11
  {
  }

  lemma MiddleSums()
    ensures Xor(15, 3) == 12 && Xor(14, 11) == 5
  {
  }

  lemma LowSums()
    ensures Xor(10, 2) == 8 && Xor(6, 25) == 31 && Xor(12, 27) == 23 && Xor(9, 26) == 19
  {
  }

  lemma RowsWrap(j: nat)
    requires j < 8
    ensures Xor(ROWS[0][j], ROWS[3][j]) == Double(ROWS[4][j])
  {
    HighSums();
    MiddleSums();
    LowSums();
  }

  lemma RowsAreMultiples(rows: seq<seq<Symbol>>, g: seq<nat>)
    requires |rows| == |g| == 5 && forall i :: 0 <= i < 5 ==> |rows[i]| == 8 && Value(rows[i], 8) == g[i]
    requires forall i, j :: 0 <= i < 4 && 0 <= j < 8 ==> Double(rows[i][j]) == rows[i + 1][j]
    requires forall j :: 0 <= j < 8 ==> Xor(rows[0][j], rows[3][j]) == Double(rows[4][j])
    ensures AreMultiples(g)
  {
    forall i | 0 <= i < 4
      ensures Twice(g[i]) == g[i + 1]
    {
      TwiceValue(rows[i], 8);
      assert DoubleAll(rows[i]) == rows[i + 1];
    }
    TwiceValue(rows[4], 8);
    XorValues(rows[0], rows[3], DoubleAll(rows[4]), 8);
  }

  /** The table of descsum_polymod holds the multiples of one polynomial. */
  lemma GeneratorsAreMultiples()
    ensures AreMultiples(GENERATOR) && Value([30, 23, 15, 14, 10, 6, 12, 9], 8) == GENERATOR[0]
  {
    RowsAreGenerators();
    RowsDouble();
    forall j | 0 <= j < 8
      ensures Xor(ROWS[0][j], ROWS[3][j]) == Double(ROWS[4][j])
    {
      RowsWrap(j);
    }
    RowsAreMultiples(ROWS, GENERATOR);
  }

  function Pick(b: Bit, n: nat): nat
  {
    if b == 1 then n else 0
  }

  function PickXor(a: nat, b: nat, c: nat, d: nat, e: nat): nat
  {
    Xor(Xor(Xor(Xor(a, b), c), d), e)
  }

  lemma FeedbackBits(top: nat, g: seq<nat>, t4: Bit, t3: Bit, t2: Bit, t1: Bit, t0: Bit)
    requires |g| == 5 && top == FromBits(t4, t3, t2, t1, t0)
    ensures Feedback(top, g, 5) == PickXor(Pick(t0, g[0]), Pick(t1, g[1]), Pick(t2, g[2]), Pick(t3, g[3]), Pick(t4, g[4]))
  {
    BitsOf(top, t4, t3, t2, t1, t0);
    XorZero(Pick(t0, g[0]));
    assert Feedback(top, g, 1) == Pick(t0, g[0]);
    assert Feedback(top, g, 2) == Xor(Feedback(top, g, 1), Pick(t1, g[1]));
    assert Feedback(top, g, 3) == Xor(Feedback(top, g, 2), Pick(t2, g[2]));
    assert Feedback(top, g, 4) == Xor(Feedback(top, g, 3), Pick(t3, g[3]));
  }

  lemma PickTwice(b: Bit, n: nat)
    ensures Twice(Pick(b, n)) == Pick(b, Twice(n))
  {
  }

  lemma PickLinear(b: Bit, c: Bit, n: nat, m: nat)
    ensures Pick(Flip(b, c), n) == Xor(Pick(b, n), Pick(c, n))
    ensures Pick(b, Xor(n, m)) == Xor(Pick(b, n), Pick(b, m))
  {
    XorZero(n);
    XorZero(0);
    XorSelf(n);
  }

  lemma TwicePicked(a: nat, b: nat, c: nat, d: nat, e: nat)
    ensures Twice(PickXor(a, b, c, d, e)) == PickXor(Twice(a), Twice(b), Twice(c), Twice(d), Twice(e))
  {
    TwiceLinear(a, b);
    TwiceLinear(Xor(a, b), c);
    TwiceLinear(Xor(Xor(a, b), c), d);
    TwiceLinear(Xor(Xor(Xor(a, b), c), d), e);
  }

  lemma Rearranged(a: nat, b: nat, c: nat, d: nat, e: nat, f: nat)
    ensures PickXor(b, c, d, e, Xor(a, f)) == PickXor(a, b, c, Xor(d, f), e)
  {
    var x := Xor(b, c);
    XorAssoc(a, b, c);
    XorRegroup(Xor(x, d), e, a, f);
    XorComm(e, f);
    XorComm(Xor(x, d), a);
    XorAssoc(a, x, d);
    XorAssoc(Xor(Xor(a, x), d), f, e);
    XorAssoc(Xor(a, x), d, f);
  }

  /** Doubling what is shifted out doubles what is fed back. */
  lemma FeedbackDoubles(t: Symbol, g: seq<nat>)
    requires AreMultiples(g)
    ensures Feedback(Double(t), g, 5) == Twice(Feedback(t, g, 5))
  {
    var t4, t3, t2, t1, t0 := AsBits(t);
    FeedbackBits(t, g, t4, t3, t2, t1, t0);
    DoubleBits(t, t4, t3, t2, t1, t0);
    FeedbackBits(Double(t), g, t3, Flip(t2, t4), t1, t0, t4);
    TwicePicked(Pick(t0, g[0]), Pick(t1, g[1]), Pick(t2, g[2]), Pick(t3, g[3]), Pick(t4, g[4]));
    PickTwice(t0, g[0]);
    PickTwice(t1, g[1]);
    PickTwice(t2, g[2]);
    PickTwice(t3, g[3]);
    PickTwice(t4, g[4]);
    PickLinear(t4, t4, g[0], g[3]);
    PickLinear(t2, t4, g[3], 0);
    Rearranged(Pick(t4, g[0]), Pick(t0, g[1]), Pick(t1, g[2]), Pick(t2, g[3]), Pick(t3, g[4]), Pick(t4, g[3]));
  }

  // ---------------------------------------------------------------- linearity over the field

  lemma TopFits(chk: nat)
    requires Fits(chk)
    ensures Shr(chk, 35) < 32
  {
    ShrAdd(chk, 35, 5);
    Five(Shr(chk, 35));
  }

  /** A step in its parts: what is kept and what is fed back. */
  lemma StepParts(chk: nat, v: Symbol, low: nat, top: nat)
    requires Shr(chk, 35) == top && Low(chk, 35) == low
    ensures Step(chk, v) == Xor(32 * low + v, Feedback(top, GENERATOR, 5))
  {
    AppendSymbol(low, v);
  }

  lemma TwiceFits(chk: nat)
    requires Fits(chk)
    ensures Fits(Twice(chk))
  {
    TwiceShifted(chk, 8);
  }

  /** The parts of a state that is doubled. */
  lemma TwiceSplits(chk: nat, low: nat, top: nat, k: nat)
    requires k == 35 && Fits(chk) && low == Low(chk, k) && top == Shr(chk, k)
    ensures top < 32 && Shr(Twice(chk), k) == Double(top) && Low(Twice(chk), k) == Twice(low)
  {
    TopFits(chk);
    TwiceShifted(chk, 7);
    TwiceLow(chk, 7);
    TwiceOfSymbol(top);
  }

  lemma FedTwice(low: nat, v: Symbol, top: Symbol, g: seq<nat>)
    requires AreMultiples(g)
    ensures Xor(32 * Twice(low) + Double(v), Feedback(Double(top), g, 5)) == Twice(Xor(32 * low + v, Feedback(top, g, 5)))
  {
    FeedbackDoubles(top, g);
    SumTwice(low, v, Feedback(top, g, 5));
  }

  lemma GeneratorFedTwice(low: nat, v: Symbol, top: Symbol)
    ensures Xor(32 * Twice(low) + Double(v), Feedback(Double(top), GENERATOR, 5))
         == Twice(Xor(32 * low + v, Feedback(top, GENERATOR, 5)))
  {
    GeneratorsAreMultiples();
    FedTwice(low, v, top, GENERATOR);
  }

  lemma StepOfTwice(chk: nat, v: Symbol, low: nat, top: Symbol, k: nat)
    requires k == 35 && Fits(chk) && low == Low(chk, k) && top == Shr(chk, k)
    ensures Step(Twice(chk), Double(v)) == Xor(32 * Twice(low) + Double(v), Feedback(Double(top), GENERATOR, 5))
  {
    assert Shr(Twice(chk), k) == Double(top) && Low(Twice(chk), k) == Twice(low) by {
      TwiceSplits(chk, low, top, k);
    }
    StepParts(Twice(chk), Double(v), Twice(low), Double(top));
  }

  lemma StepTwice(chk: nat, v: Symbol)
    requires Fits(chk)
    ensures Step(Twice(chk), Double(v)) == Twice(Step(chk, v))
  {
    var low, top := Low(chk, 35), Shr(chk, 35);
    TopFits(chk);
    StepParts(chk, v, low, top);
    StepOfTwice(chk, v, low, top, 35);
    GeneratorFedTwice(low, v, top);
  }

  lemma SumTwice(low: nat, v: Symbol, fed: nat)
    ensures Twice(Xor(32 * low + v, fed)) == Xor(32 * Twice(low) + Double(v), Twice(fed))
  {
    TwiceParts(low, v);
    TwiceLinear(32 * low + v, fed);
  }

  lemma {:induction false} PolymodTwice(chk: nat, symbols: seq<Symbol>)
    requires Fits(chk)
    ensures Fits(Twice(chk)) && Polymod(Twice(chk), DoubleAll(symbols)) == Twice(Polymod(chk, symbols))
    decreases |symbols|
  {
    TwiceFits(chk);
    if symbols != [] {
      StepTwice(chk, symbols[0]);
      StepFits(chk, symbols[0]);
      assert DoubleAll(symbols)[1..] == DoubleAll(symbols[1..]);
      PolymodTwice(Step(chk, symbols[0]), symbols[1..]);
    }
  }

  lemma TimesNext(e: nat, s: Symbol)
    requires e > 0
    ensures Times(e, s) == Xor(if e % 2 == 1 then s else 0, Times(e / 2, Double(s)))
  {
    TwiceOfSymbol(s);
  }

  /** The symbols times the lowest bit of `e`. */
  function LowestTimes(e: nat, symbols: seq<Symbol>): seq<Symbol>
  {
    if e % 2 == 1 then symbols else seq(|symbols|, i => 0)
  }

  lemma {:induction false} TimesAllNext(e: nat, symbols: seq<Symbol>)
    requires e > 0
    ensures |DoubleAll(symbols)| == |symbols| == |LowestTimes(e, symbols)|
    ensures TimesAll(e, symbols) == XorSymbols(LowestTimes(e, symbols), TimesAll(e / 2, DoubleAll(symbols)))
  {
    if symbols != [] {
      var lowest, doubled := LowestTimes(e, symbols), DoubleAll(symbols);
      TimesNext(e, symbols[0]);
      TimesAllNext(e, symbols[1..]);
      assert doubled[1..] == DoubleAll(symbols[1..]) && doubled[0] == Double(symbols[0]);
      assert lowest[1..] == LowestTimes(e, symbols[1..]) && lowest[0] == if e % 2 == 1 then symbols[0] else 0;
    }
  }

  lemma {:induction false} PolymodOfZeros(symbols: seq<Symbol>)
    requires forall i :: 0 <= i < |symbols| ==> symbols[i] == 0
    ensures Polymod(0, symbols) == 0
  {
    if symbols != [] {
      ShrZero(35);
      StepOfSmall(0, 0);
      PolymodOfZeros(symbols[1..]);
    }
  }

  lemma {:induction false} TimesZero(e: nat, symbols: seq<Symbol>)
    requires e == 0
    ensures forall i :: 0 <= i < |symbols| ==> TimesAll(e, symbols)[i] == 0
  {
    if symbols != [] {
      TimesZero(e, symbols[1..]);
    }
  }

  /** The code is linear over the field: multiplying the state and every symbol by a field element multiplies the
      remainder by it. */
  lemma {:induction false} PolymodTimes(e: nat, chk: nat, symbols: seq<Symbol>)
    requires Fits(chk)
    ensures Polymod(Times(e, chk), TimesAll(e, symbols)) == Times(e, Polymod(chk, symbols))
    decreases e
  {
    if e == 0 {
      TimesZero(e, symbols);
      PolymodOfZeros(TimesAll(e, symbols));
    } else {
      var zeros: seq<Symbol> := seq(|symbols|, i => 0);
      PolymodTwice(chk, symbols);
      PolymodTimes(e / 2, Twice(chk), DoubleAll(symbols));
      TimesAllNext(e, symbols);
      PolymodOfZeros(zeros);
      PolymodLinear(if e % 2 == 1 then chk else 0, Times(e / 2, Twice(chk)),
                    if e % 2 == 1 then symbols else zeros, TimesAll(e / 2, DoubleAll(symbols)));
    }
  }
}
