/** The 40-bit BCH code behind descriptor checksums (BIP 380, section "Checksum"): its remainder is
    linear, keeps every state apart, and so detects every burst of up to eight symbols. */
module Bch {
  import opened Bits

  const GENERATOR: seq<nat> := [0xF5DEE51989, 0xA9FDCA3312, 0x1BAB10E32D, 0x3706B1677A, 0x644D626FFD]

  type Symbol = n: nat | n < 32

  // ---------------------------------------------------------------- the polynomial remainder

  /** What bit `i` of the symbol shifted out adds to the state. */
  function Tap(top: nat, generator: seq<nat>, i: nat): nat
    requires i < |generator|
  {
    if Low(Shr(top, i), 1) == 1 then generator[i] else 0
  }

  function Feedback(top: nat, generator: seq<nat>, n: nat): nat
    requires n <= |generator|
  {
    if n == 0 then 0 else Xor(Feedback(top, generator, n - 1), Tap(top, generator, n - 1))
  }

  function Shifted(chk: nat, value: Symbol): nat
  {
    Xor(32 * Low(chk, 35), value)
  }

  function Step(chk: nat, value: Symbol): nat
  {
    Xor(Shifted(chk, value), Feedback(Shr(chk, 35), GENERATOR, |GENERATOR|))
  }

  function Polymod(chk: nat, symbols: seq<Symbol>): nat
    decreases |symbols|
  {
    if symbols == [] then chk else Polymod(Step(chk, symbols[0]), symbols[1..])
  }

  /** descsum_polymod. */
  method DescsumPolymod(symbols: seq<Symbol>) returns (chk: nat)
    ensures chk == Polymod(1, symbols)
  {
    chk := 1;
    for k := 0 to |symbols|
      invariant Polymod(1, symbols) == Polymod(chk, symbols[k..])
    {
      ghost var before := chk;
      var top := Shr(chk, 35);
      chk := Xor(32 * Low(chk, 35), symbols[k]);
      chk := AddFeedback(chk, top, GENERATOR);
      assert chk == Step(before, symbols[k]);
      assert symbols[k..][1..] == symbols[k + 1..];
    }
  }

  /** The inner loop of descsum_polymod. */
  method AddFeedback(start: nat, top: nat, generator: seq<nat>) returns (chk: nat)
    ensures chk == Xor(start, Feedback(top, generator, |generator|))
  {
    chk := start;
    XorZero(start);
    for i := 0 to |generator|
      invariant chk == Xor(start, Feedback(top, generator, i))
    {
      XorAssoc(start, Feedback(top, generator, i), Tap(top, generator, i));
      chk := Xor(chk, if Low(Shr(top, i), 1) == 1 then generator[i] else 0);
    }
  }

  lemma {:induction false} PolymodAppend(chk: nat, xs: seq<Symbol>, ys: seq<Symbol>)
    ensures Polymod(chk, xs + ys) == Polymod(Polymod(chk, xs), ys)
    decreases |xs|
  {
    if xs == [] {
      assert xs + ys == ys;
    } else {
      assert (xs + ys)[1..] == xs[1..] + ys;
      PolymodAppend(Step(chk, xs[0]), xs[1..], ys);
    }
  }

  // ---------------------------------------------------------------- linearity

  lemma TapLinear(s: nat, t: nat, generator: seq<nat>, i: nat)
    requires i < |generator|
    ensures Tap(Xor(s, t), generator, i) == Xor(Tap(s, generator, i), Tap(t, generator, i))
  {
    var g := generator[i];
    XorShr(s, t, i);
    XorLow(Shr(s, i), Shr(t, i), 1);
    XorZero(g);
    XorSelf(g);
    XorBits(0, Low(Shr(s, i), 1), 0, Low(Shr(t, i), 1));
  }

  lemma {:induction false} FeedbackLinear(s: nat, t: nat, generator: seq<nat>, n: nat)
    requires n <= |generator|
    ensures Feedback(Xor(s, t), generator, n) == Xor(Feedback(s, generator, n), Feedback(t, generator, n))
  {
    if n > 0 {
      FeedbackLinear(s, t, generator, n - 1);
      TapLinear(s, t, generator, n - 1);
      XorRegroup(Feedback(s, generator, n - 1), Feedback(t, generator, n - 1),
                 Tap(s, generator, n - 1), Tap(t, generator, n - 1));
    }
  }

  lemma ShiftLinear(a: nat, b: nat)
    ensures Xor(32 * a, 32 * b) == 32 * Xor(a, b)
  {
    XorTimesFour(8 * a, 8 * b);
    XorTimesFour(2 * a, 2 * b);
    XorDouble(a, b);
  }

  lemma SymbolXor(u: Symbol, v: Symbol)
    ensures Xor(u, v) < 32
  {
    XorShr(u, v, 5);
    Five(u);
    Five(v);
    Five(Xor(u, v));
  }

  lemma StepLinear(a: nat, b: nat, u: Symbol, v: Symbol)
    ensures Xor(u, v) < 32
    ensures Step(Xor(a, b), Xor(u, v)) == Xor(Step(a, u), Step(b, v))
  {
    SymbolXor(u, v);
    XorLow(a, b, 35);
    XorShr(a, b, 35);
    ShiftLinear(Low(a, 35), Low(b, 35));
    XorRegroup(32 * Low(a, 35), 32 * Low(b, 35), u, v);
    FeedbackLinear(Shr(a, 35), Shr(b, 35), GENERATOR, |GENERATOR|);
    XorRegroup(Shifted(a, u), Shifted(b, v), Feedback(Shr(a, 35), GENERATOR, |GENERATOR|), Feedback(Shr(b, 35), GENERATOR, |GENERATOR|));
  }

  function XorSymbols(xs: seq<Symbol>, ys: seq<Symbol>): (zs: seq<Symbol>)
    requires |xs| == |ys|
    ensures |zs| == |xs|
  {
    if xs == [] then []
    else
      SymbolXor(xs[0], ys[0]);
      [Xor(xs[0], ys[0])] + XorSymbols(xs[1..], ys[1..])
  }

  /** The remainder is linear in the starting state and the symbols together. */
  lemma {:induction false} PolymodLinear(a: nat, b: nat, xs: seq<Symbol>, ys: seq<Symbol>)
    requires |xs| == |ys|
    ensures Polymod(Xor(a, b), XorSymbols(xs, ys)) == Xor(Polymod(a, xs), Polymod(b, ys))
    decreases |xs|
  {
    if xs != [] {
      StepLinear(a, b, xs[0], ys[0]);
      PolymodLinear(Step(a, xs[0]), Step(b, ys[0]), xs[1..], ys[1..]);
      assert XorSymbols(xs, ys)[1..] == XorSymbols(xs[1..], ys[1..]);
    }
  }

  // ---------------------------------------------------------------- injectivity

  /** The state stays within 40 bits. */
  ghost predicate Fits(chk: nat)
  {
    Shr(chk, 40) == 0
  }

  lemma {:induction false} FeedbackFits(top: nat, n: nat)
    requires n <= |GENERATOR|
    ensures Fits(Feedback(top, GENERATOR, n))
  {
    ShrZero(40);
    if n > 0 {
      FeedbackFits(top, n - 1);
      XorShr(Feedback(top, GENERATOR, n - 1), Tap(top, GENERATOR, n - 1), 40);
      GeneratorFits(n - 1);
    }
  }

  lemma GeneratorFits(i: nat)
    requires i < |GENERATOR|
    ensures Fits(GENERATOR[i])
  {
    FortyBits();
    ShrOfSmall(GENERATOR[i], 40);
  }

  lemma ShiftedFits(chk: nat, value: Symbol)
    ensures Fits(Shifted(chk, value))
  {
    var l := Low(chk, 35);
    assert Shr(32 * l, 40) == 0 by {
      Five(32 * l);
      ShrAdd(32 * l, 5, 35);
      LowFits(chk, 35);
    }
    assert Shr(value, 40) == 0 by {
      Five(value);
      ShrAdd(value, 5, 35);
      ShrZero(35);
    }
    XorShr(32 * l, value, 40);
  }

  lemma StepFits(chk: nat, value: Symbol)
    ensures Fits(Step(chk, value))
  {
    ShiftedFits(chk, value);
    FeedbackFits(Shr(chk, 35), |GENERATOR|);
    XorShr(Shifted(chk, value), Feedback(Shr(chk, 35), GENERATOR, |GENERATOR|), 40);
  }

  const LOW_GENERATOR: seq<nat> := [9, 18, 13, 26, 29]

  lemma LowGenerator(i: nat)
    requires i < |GENERATOR|
    ensures GENERATOR[i] % 32 == LOW_GENERATOR[i]
  {}

  lemma LowTap(top: nat, generator: seq<nat>, low: seq<nat>, i: nat)
    requires i < |generator| && i < |low|
    requires generator[i] % 32 == low[i]
    ensures Low(Tap(top, generator, i), 5) == Tap(top, low, i)
  {
    Five(generator[i]);
    Five(0);
  }

  lemma {:induction false} LowFeedback(top: nat, n: nat)
    requires n <= |GENERATOR|
    ensures Low(Feedback(top, GENERATOR, n), 5) == Feedback(top, LOW_GENERATOR, n)
  {
    ShrZero(5);
    if n > 0 {
      LowFeedback(top, n - 1);
      XorLow(Feedback(top, GENERATOR, n - 1), Tap(top, GENERATOR, n - 1), 5);
      LowGenerator(n - 1);
      LowTap(top, GENERATOR, LOW_GENERATOR, n - 1);
    }
  }

  type Bit = n: nat | n < 2

  function FromBits(b4: Bit, b3: Bit, b2: Bit, b1: Bit, b0: Bit): nat
  {
    2 * (2 * (2 * (2 * b4 + b3) + b2) + b1) + b0
  }

  lemma XorTwoBits(x: nat, r1: Bit, r0: Bit, y: nat, s1: Bit, s0: Bit)
    ensures Xor(2 * (2 * x + r1) + r0, 2 * (2 * y + s1) + s0) == 2 * (2 * Xor(x, y) + Flip(r1, s1)) + Flip(r0, s0)
  {
    XorBits(2 * x + r1, r0, 2 * y + s1, s0);
    XorBits(x, r1, y, s1);
  }

  lemma XorFromBits(a4: Bit, a3: Bit, a2: Bit, a1: Bit, a0: Bit, b4: Bit, b3: Bit, b2: Bit, b1: Bit, b0: Bit)
    ensures Xor(FromBits(a4, a3, a2, a1, a0), FromBits(b4, b3, b2, b1, b0)) ==
            FromBits(Flip(a4, b4), Flip(a3, b3), Flip(a2, b2), Flip(a1, b1), Flip(a0, b0))
  {
    XorTwoBits(2 * (2 * a4 + a3) + a2, a1, a0, 2 * (2 * b4 + b3) + b2, b1, b0);
    XorTwoBits(a4, a3, a2, b4, b3, b2);
    XorBits(0, a4, 0, b4);
  }

  lemma BitsOf(top: nat, t4: Bit, t3: Bit, t2: Bit, t1: Bit, t0: Bit)
    requires top == FromBits(t4, t3, t2, t1, t0)
    ensures Low(Shr(top, 0), 1) == t0 && Low(Shr(top, 1), 1) == t1 && Low(Shr(top, 2), 1) == t2
    ensures Low(Shr(top, 3), 1) == t3 && Low(Shr(top, 4), 1) == t4
  {
    var h1 := 2 * (2 * (2 * t4 + t3) + t2) + t1;
    var h2, h3 := 2 * (2 * t4 + t3) + t2, 2 * t4 + t3;
    assert top / 2 == h1 && h1 / 2 == h2 && h2 / 2 == h3 && h3 / 2 == t4;
    assert Shr(h1, 1) == h2 && Shr(h1, 2) == Shr(h2, 1) == h3;
    assert Shr(h1, 3) == Shr(h2, 2) == Shr(h3, 1) == t4;
  }

  /** The five low bits fed back, as parities of the bits shifted out. */
  lemma LowFeedbackBits(top: nat, t4: Bit, t3: Bit, t2: Bit, t1: Bit, t0: Bit)
    requires top == FromBits(t4, t3, t2, t1, t0)
    ensures Feedback(top, LOW_GENERATOR, 5) ==
            FromBits(Flip(Flip(t1, t3), t4), Flip(Flip(Flip(t0, t2), t3), t4), Flip(t2, t4), Flip(t1, t3),
                     Flip(Flip(t0, t2), t4))
  {
    BitsOf(top, t4, t3, t2, t1, t0);
    var g := LOW_GENERATOR;
    assert Tap(top, g, 0) == FromBits(0, t0, 0, 0, t0);
    assert Tap(top, g, 1) == FromBits(t1, 0, 0, t1, 0);
    assert Tap(top, g, 2) == FromBits(0, t2, t2, 0, t2);
    assert Tap(top, g, 3) == FromBits(t3, t3, 0, t3, 0);
    assert Tap(top, g, 4) == FromBits(t4, t4, t4, 0, t4);
    XorZero(Tap(top, g, 0));
    assert Feedback(top, g, 1) == FromBits(0, t0, 0, 0, t0);
    XorFromBits(0, t0, 0, 0, t0, t1, 0, 0, t1, 0);
    assert Feedback(top, g, 2) == FromBits(t1, t0, 0, t1, t0);
    XorFromBits(t1, t0, 0, t1, t0, 0, t2, t2, 0, t2);
    assert Feedback(top, g, 3) == FromBits(t1, Flip(t0, t2), t2, t1, Flip(t0, t2));
    XorFromBits(t1, Flip(t0, t2), t2, t1, Flip(t0, t2), t3, t3, 0, t3, 0);
    assert Feedback(top, g, 4) ==
           FromBits(Flip(t1, t3), Flip(Flip(t0, t2), t3), t2, Flip(t1, t3), Flip(t0, t2));
    XorFromBits(Flip(t1, t3), Flip(Flip(t0, t2), t3), t2, Flip(t1, t3), Flip(t0, t2), t4, t4, t4, 0, t4);
  }

  lemma FeedsBackBits(t4: Bit, t3: Bit, t2: Bit, t1: Bit, t0: Bit)
    requires Feedback(FromBits(t4, t3, t2, t1, t0), LOW_GENERATOR, 5) == 0
    ensures FromBits(t4, t3, t2, t1, t0) == 0
  {
    LowFeedbackBits(FromBits(t4, t3, t2, t1, t0), t4, t3, t2, t1, t0);
  }

  lemma AsBits(top: nat) returns (t4: Bit, t3: Bit, t2: Bit, t1: Bit, t0: Bit)
    requires top < 32
    ensures top == FromBits(t4, t3, t2, t1, t0)
  {
    var h1 := top / 2;
    var h2 := h1 / 2;
    var h3 := h2 / 2;
    t4, t3, t2, t1, t0 := h3 / 2, h3 % 2, h2 % 2, h1 % 2, top % 2;
  }

  /** A symbol shifted out is never fed back as five zero bits, unless it is zero itself. */
  lemma FeedsBack(top: nat)
    requires top < 32 && Feedback(top, LOW_GENERATOR, 5) == 0
    ensures top == 0
  {
    var t4, t3, t2, t1, t0 := AsBits(top);
    FeedsBackBits(t4, t3, t2, t1, t0);
  }

  lemma XorIsZero(a: nat, b: nat)
    requires Xor(a, b) == 0
    ensures a == b
  {
    XorSelf(a);
    XorCancel(a, a, b);
  }

  lemma FeedbackIsShifted(chk: nat)
    requires Step(chk, 0) == 0
    ensures Feedback(Shr(chk, 35), GENERATOR, |GENERATOR|) == 32 * Low(chk, 35)
  {
    XorZero(32 * Low(chk, 35));
    XorIsZero(Shifted(chk, 0), Feedback(Shr(chk, 35), GENERATOR, |GENERATOR|));
  }

  lemma NothingShiftedOut(chk: nat, top: nat)
    requires Fits(chk) && top == Shr(chk, 35)
    requires Low(Feedback(top, GENERATOR, |GENERATOR|), 5) == 0
    ensures top == 0
  {
    LowFeedback(top, |GENERATOR|);
    ShrAdd(chk, 35, 5);
    Five(top);
    FeedsBack(top);
  }

  lemma {:induction false} FeedbackOfZero(n: nat)
    requires n <= |GENERATOR|
    ensures Feedback(0, GENERATOR, n) == 0
  {
    if n > 0 {
      FeedbackOfZero(n - 1);
      ShrZero(n - 1);
    }
  }

  lemma StepOfNonZero(chk: nat, low: nat, top: nat)
    requires Fits(chk) && Step(chk, 0) == 0
    requires low == Low(chk, 35) && top == Shr(chk, 35)
    ensures chk == 0
  {
    FeedbackIsShifted(chk);
    assert top == 0 by {
      Five(32 * low);
      NothingShiftedOut(chk, top);
    }
    assert low == 0 by {
      FeedbackOfZero(|GENERATOR|);
    }
    PartsAreZero(chk, 35);
  }

  lemma PartsAreZero(chk: nat, k: nat)
    requires Low(chk, k) == 0 && Shr(chk, k) == 0
    ensures chk == 0
  {
    ShrZero(k);
    SplitIsInjective(chk, 0, k);
  }

  /** For a fixed symbol, one step loses nothing of a 40-bit state. */
  lemma StepInjective(a: nat, b: nat, value: Symbol)
    requires Fits(a) && Fits(b) && Step(a, value) == Step(b, value)
    ensures a == b
  {
    StepLinear(a, b, value, value);
    XorSelf(value);
    XorSelf(Step(a, value));
    XorShr(a, b, 40);
    XorZero(0);
    var d := Xor(a, b);
    StepOfNonZero(d, Low(d, 35), Shr(d, 35));
    XorIsZero(a, b);
  }

  lemma {:induction false} PolymodInjective(a: nat, b: nat, symbols: seq<Symbol>)
    requires Fits(a) && Fits(b) && Polymod(a, symbols) == Polymod(b, symbols)
    ensures a == b
    decreases |symbols|
  {
    if symbols != [] {
      StepFits(a, symbols[0]);
      StepFits(b, symbols[0]);
      PolymodInjective(Step(a, symbols[0]), Step(b, symbols[0]), symbols[1..]);
      StepInjective(a, b, symbols[0]);
    }
  }

  lemma {:induction false} PolymodFits(chk: nat, symbols: seq<Symbol>)
    requires Fits(chk)
    ensures Fits(Polymod(chk, symbols))
    decreases |symbols|
  {
    if symbols != [] {
      StepFits(chk, symbols[0]);
      PolymodFits(Step(chk, symbols[0]), symbols[1..]);
    }
  }

  // ---------------------------------------------------------------- the last eight symbols

  function Zeros(): seq<Symbol>
  {
    seq(8, i => 0)
  }

  /** Symbols read as the digits of a number in base 32. */
  function Pack(symbols: seq<Symbol>): nat
    decreases |symbols|
  {
    if symbols == [] then 0 else 32 * Pack(symbols[..|symbols| - 1]) + symbols[|symbols| - 1]
  }

  lemma {:induction false} PackFits(symbols: seq<Symbol>)
    ensures Shr(Pack(symbols), 5 * |symbols|) == 0
    decreases |symbols|
  {
    if symbols != [] {
      var front := symbols[..|symbols| - 1];
      PackFits(front);
      Five(Pack(symbols));
      ShrAdd(Pack(symbols), 5, 5 * |front|);
    }
  }

  lemma {:induction false} PackInjective(xs: seq<Symbol>, ys: seq<Symbol>)
    requires |xs| == |ys| && Pack(xs) == Pack(ys)
    ensures xs == ys
    decreases |xs|
  {
    if xs != [] {
      var n := |xs| - 1;
      PackInjective(xs[..n], ys[..n]);
      assert xs == xs[..n] + [xs[n]] && ys == ys[..n] + [ys[n]];
    }
  }

  lemma XorParts(a: nat, b: nat, k: nat, high: nat, low: nat)
    requires high == Xor(Shr(a, k), Shr(b, k)) && low == Xor(Low(a, k), Low(b, k))
    ensures Shr(Xor(a, b), k) == high && Low(Xor(a, b), k) == low
  {
    XorShr(a, b, k);
    XorLow(a, b, k);
  }

  lemma PartsOfSum(n: nat, high: nat, low: nat)
    requires n == 32 * high + low && low < 32
    ensures Shr(n, 5) == high && Low(n, 5) == low
  {
    Five(n);
  }

  lemma SumOfParts(n: nat, high: nat, low: nat)
    requires Shr(n, 5) == high && Low(n, 5) == low
    ensures n == 32 * high + low
  {
    Five(n);
  }

  lemma AppendSymbol(chk: nat, value: Symbol)
    ensures Xor(32 * chk, value) == 32 * chk + value
  {
    PartsOfSum(32 * chk, chk, 0);
    PartsOfSum(value, 0, value);
    XorZero(chk);
    XorZero(value);
    XorParts(32 * chk, value, 5, chk, value);
    SumOfParts(Xor(32 * chk, value), chk, value);
  }

  lemma StepOfSmall(chk: nat, value: Symbol)
    requires Shr(chk, 35) == 0
    ensures Step(chk, value) == 32 * chk + value
  {
    LowOfSmall(chk, 35);
    AppendSymbol(chk, value);
    FeedbackOfZero(|GENERATOR|);
    XorZero(Shifted(chk, value));
  }

  lemma {:induction false} PolymodFromZero(symbols: seq<Symbol>)
    requires |symbols| <= 8
    ensures Polymod(0, symbols) == Pack(symbols)
    decreases |symbols|
  {
    if symbols != [] {
      var n := |symbols| - 1;
      var front := symbols[..n];
      PolymodFromZero(front);
      assert symbols == front + [symbols[n]];
      PolymodAppend(0, front, [symbols[n]]);
      PackFits(front);
      ShrAdd(Pack(front), 5 * n, 35 - 5 * n);
      ShrZero(35 - 5 * n);
      StepOfSmall(Pack(front), symbols[n]);
    }
  }

  lemma XorSymbolsWithZeros(symbols: seq<Symbol>, zeros: seq<Symbol>)
    requires |symbols| == |zeros| && forall i :: 0 <= i < |zeros| ==> zeros[i] == 0
    ensures XorSymbols(zeros, symbols) == symbols
  {
    if symbols != [] {
      XorZero(symbols[0]);
      XorSymbolsWithZeros(symbols[1..], zeros[1..]);
    }
  }

  /** The last eight symbols enter the remainder as they stand. */
  lemma LastEight(chk: nat, symbols: seq<Symbol>)
    requires |symbols| == 8
    ensures Polymod(chk, symbols) == Xor(Polymod(chk, Zeros()), Pack(symbols))
  {
    XorZero(chk);
    PolymodLinear(chk, 0, Zeros(), symbols);
    XorSymbolsWithZeros(symbols, Zeros());
    PolymodFromZero(symbols);
  }

  lemma PolymodInThree(chk: nat, xs: seq<Symbol>, u: seq<Symbol>, rest: seq<Symbol>)
    ensures Polymod(chk, xs + u + rest) == Polymod(Polymod(Polymod(chk, xs), u), rest)
  {
    PolymodAppend(chk, xs + u, rest);
    PolymodAppend(chk, xs, u);
  }

  lemma LastEightInjective(chk: nat, u: seq<Symbol>, v: seq<Symbol>)
    requires |u| == |v| == 8 && Polymod(chk, u) == Polymod(chk, v)
    ensures u == v
  {
    LastEight(chk, u);
    LastEight(chk, v);
    XorCancel(Polymod(chk, Zeros()), Pack(u), Pack(v));
    PackInjective(u, v);
  }

  /** Any change confined to eight consecutive symbols changes the remainder. */
  lemma BurstDetected(xs: seq<Symbol>, u: seq<Symbol>, v: seq<Symbol>, rest: seq<Symbol>)
    requires |u| == |v| == 8 && u != v
    ensures Polymod(1, xs + u + rest) != Polymod(1, xs + v + rest)
  {
    PolymodInThree(1, xs, u, rest);
    PolymodInThree(1, xs, v, rest);
    var chk := Polymod(1, xs);
    FitsOne();
    PolymodFits(1, xs);
    PolymodFits(chk, u);
    PolymodFits(chk, v);
    if Polymod(Polymod(chk, u), rest) == Polymod(Polymod(chk, v), rest) {
      PolymodInjective(Polymod(chk, u), Polymod(chk, v), rest);
      LastEightInjective(chk, u, v);
    }
  }

  lemma FitsOne()
    ensures Fits(1)
  {
    ShrZero(39);
  }
}
