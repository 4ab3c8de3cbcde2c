/** A test vector of BIP 380, section "Test Vectors", computed in words of 40 bits. It fixes what linearity leaves open: the
    order of both charsets, and the constants that the state starts and ends with. */
module Bip380 {
  import opened Bits
  import opened Bch
  import opened Gf32
  import opened Descriptors
  import opened Wrappers

  // ---------------------------------------------------------------- the charset of bodies

  /** Where the characters of the vector stand. */
  function Place(c: char): int
  {
    match c
    case '(' => 10 case ')' => 11 case 'a' => 18 case 'b' => 19 case 'd' => 21 case 'e' => 22 case 'f' => 23
    case 'r' => 73 case 'w' => 78 case _ => -1
  }

  /** No character of the vector stands anywhere else. */
  ghost predicate Placed(c: char, i: int)
  {
    Place(c) == -1 || Place(c) == i
  }

  lemma Places0A()
    ensures forall i :: 0 <= i < 8 ==> Placed(GROUP_0[i], i)
  {
  }

  lemma Places0B()
    ensures forall i :: 8 <= i < 16 ==> Placed(GROUP_0[i], i)
  {
  }

  lemma Places0C()
    ensures forall i :: 16 <= i < 24 ==> Placed(GROUP_0[i], i)
  {
  }

  lemma Places0D()
    ensures forall i :: 24 <= i < 32 ==> Placed(GROUP_0[i], i)
  {
  }

  lemma Places1A()
    ensures forall i :: 0 <= i < 8 ==> Placed(GROUP_1[i], 32 + i)
  {
  }

  lemma Places1B()
    ensures forall i :: 8 <= i < 16 ==> Placed(GROUP_1[i], 32 + i)
  {
  }

  lemma Places1C()
    ensures forall i :: 16 <= i < 24 ==> Placed(GROUP_1[i], 32 + i)
  {
  }

  lemma Places1D()
    ensures forall i :: 24 <= i < 32 ==> Placed(GROUP_1[i], 32 + i)
  {
  }

  lemma Places2A()
    ensures forall i :: 0 <= i < 8 ==> Placed(GROUP_2[i], 64 + i)
  {
  }

  lemma Places2B()
    ensures forall i :: 8 <= i < 16 ==> Placed(GROUP_2[i], 64 + i)
  {
  }

  lemma Places2C()
    ensures forall i :: 16 <= i < 24 ==> Placed(GROUP_2[i], 64 + i)
  {
  }

  lemma Places2D()
    ensures forall i :: 24 <= i < 31 ==> Placed(GROUP_2[i], 64 + i)
  {
  }

  lemma CharactersPlaced()
    ensures |GROUP_0| == |GROUP_1| == 32 && |GROUP_2| == 31
    ensures forall i :: 0 <= i < 95 ==> Placed(INPUT_CHARSET[i], i)
  {
    Places0A();
    Places0B();
    Places0C();
    Places0D();
    Places1A();
    Places1B();
    Places1C();
    Places1D();
    Places2A();
    Places2B();
    Places2C();
    Places2D();
    ByGroups(GROUP_0, GROUP_1, GROUP_2);
  }

  lemma ByGroups(a: string, b: string, c: string)
    requires |a| == |b| == 32 && |c| == 31
    requires forall i :: 0 <= i < 32 ==> Placed(a[i], i) && Placed(b[i], 32 + i)
    requires forall i :: 0 <= i < 31 ==> Placed(c[i], 64 + i)
    ensures forall i :: 0 <= i < 95 ==> Placed((a + b + c)[i], i)
  {
    forall i | 0 <= i < 95
      ensures Placed((a + b + c)[i], i)
    {
      assert (a + b + c)[i] == if i < 32 then a[i] else if i < 64 then b[i - 32] else c[i - 64];
    }
  }

  lemma FoundAt(charset: Charset, c: char, i: nat)
    requires |charset| == 95 && (forall j :: 0 <= j < 95 ==> Placed(charset[j], j))
    requires i < 95 && charset[i] == c && Place(c) == i
    ensures c in charset && Find(charset, c) == i
  {
  }

  lemma VectorPlaces()
    ensures INPUT_CHARSET[73] == 'r' && INPUT_CHARSET[18] == 'a' && INPUT_CHARSET[78] == 'w' && INPUT_CHARSET[10] == '('
    ensures INPUT_CHARSET[21] == 'd' && INPUT_CHARSET[22] == 'e' && INPUT_CHARSET[19] == 'b' && INPUT_CHARSET[23] == 'f'
    ensures INPUT_CHARSET[11] == ')'
  {
  }

  // ---------------------------------------------------------------- forty bits

  /** A state as a machine word. */
  type Word = bv40

  function BitAt(w: Word, mask: Word): Bit
  {
    if w & mask != 0 then 1 else 0
  }

  function LowSymbol(w: Word): Symbol
  {
    FromBits(BitAt(w, 16), BitAt(w, 8), BitAt(w, 4), BitAt(w, 2), BitAt(w, 1))
  }

  /** The eight symbols of a word, read by `f`. */
  function Symbols(f: Word -> Symbol, w: Word): seq<Symbol>
  {
    [f(w >> 35), f(w >> 30), f(w >> 25), f(w >> 20), f(w >> 15), f(w >> 10), f(w >> 5), f(w)]
  }

  function Number(f: Word -> Symbol, w: Word): nat
  {
    Value(Symbols(f, w), |Symbols(f, w)|)
  }

  ghost predicate AddsUp(f: Word -> Symbol, plus: (nat, nat) -> nat, a: Word, b: Word)
  {
    f(a ^ b) == plus(f(a), f(b))
  }

  ghost predicate ReadsLow(f: Word -> Symbol, a: Word, b: Word)
  {
    a & 31 == b & 31 ==> f(a) == f(b)
  }

  /** Reads the lowest five bits and nothing else, and keeps sums. */
  ghost predicate Reads(f: Word -> Symbol, plus: (nat, nat) -> nat)
  {
    (forall a, b :: AddsUp(f, plus, a, b) && ReadsLow(f, a, b)) && f(0) == 0
  }

  lemma LowSymbolXor(a: Word, b: Word)
    ensures LowSymbol(a ^ b) == Xor(LowSymbol(a), LowSymbol(b))
  {
    XorFromBits(BitAt(a, 16), BitAt(a, 8), BitAt(a, 4), BitAt(a, 2), BitAt(a, 1),
                BitAt(b, 16), BitAt(b, 8), BitAt(b, 4), BitAt(b, 2), BitAt(b, 1));
  }

  lemma LowSymbolSame(a: Word, b: Word)
    requires a & 31 == b & 31
    ensures LowSymbol(a) == LowSymbol(b)
  {
    assert a & 16 == (a & 31) & 16 && a & 8 == (a & 31) & 8 && a & 4 == (a & 31) & 4;
    assert a & 2 == (a & 31) & 2 && a & 1 == (a & 31) & 1;
    assert b & 16 == (b & 31) & 16 && b & 8 == (b & 31) & 8 && b & 4 == (b & 31) & 4;
    assert b & 2 == (b & 31) & 2 && b & 1 == (b & 31) & 1;
  }

  lemma LowSymbolReads()
    ensures Reads(LowSymbol, Xor)
  {
    forall a, b
      ensures AddsUp(LowSymbol, Xor, a, b) && ReadsLow(LowSymbol, a, b)
    {
      LowSymbolXor(a, b);
      if a & 31 == b & 31 {
        LowSymbolSame(a, b);
      }
    }
  }

  /** A number, symbol by symbol from the lowest. */
  function Ladder<W>(f: W -> Symbol, down: W -> W, w: W, n: nat): nat
  {
    if n == 0 then 0 else 32 * Ladder(f, down, down(w), n - 1) + f(w)
  }

  /** A sum stays a sum on the next rung. */
  ghost predicate GoesDown<W>(f: W -> Symbol, down: W -> W, sum: (W, W, W) -> bool, plus: (nat, nat) -> nat, a: W, b: W, c: W)
  {
    sum(a, b, c) ==> sum(down(a), down(b), down(c)) && f(c) == plus(f(a), f(b))
  }

  ghost predicate Splits(plus: (nat, nat) -> nat, p: nat, u: Symbol, q: nat, v: Symbol)
  {
    plus(32 * p + u, 32 * q + v) == 32 * plus(p, q) + plus(u, v)
  }

  lemma {:induction false} LadderSum<W(!new)>(f: W -> Symbol, down: W -> W, sum: (W, W, W) -> bool, plus: (nat, nat) -> nat,
                                              a: W, b: W, c: W, n: nat)
    requires forall a, b, c :: GoesDown(f, down, sum, plus, a, b, c)
    requires forall p, u, q, v :: Splits(plus, p, u, q, v)
    requires plus(0, 0) == 0 && sum(a, b, c)
    ensures plus(Ladder(f, down, a, n), Ladder(f, down, b, n)) == Ladder(f, down, c, n)
  {
    if n > 0 {
      assert GoesDown(f, down, sum, plus, a, b, c);
      LadderSum(f, down, sum, plus, down(a), down(b), down(c), n - 1);
      assert Splits(plus, Ladder(f, down, down(a), n - 1), f(a), Ladder(f, down, down(b), n - 1), f(b));
    }
  }

  function Down(w: Word): Word
  {
    w >> 5
  }

  predicate IsSum(a: Word, b: Word, c: Word)
  {
    c == a ^ b
  }

  lemma SumGoesDown(f: Word -> Symbol, a: Word, b: Word, c: Word)
    requires Reads(f, Xor)
    ensures GoesDown(f, Down, IsSum, Xor, a, b, c)
  {
    assert AddsUp(f, Xor, a, b);
  }

  lemma Rungs(w: Word)
    ensures Down(w >> 5) == w >> 10 && Down(w >> 10) == w >> 15 && Down(w >> 15) == w >> 20 && Down(w >> 20) == w >> 25
    ensures Down(w >> 25) == w >> 30 && Down(w >> 30) == w >> 35 && Down(w) == w >> 5
  {
  }

  lemma {:induction false} LadderValue<W>(f: W -> Symbol, down: W -> W, rungs: seq<W>, s: seq<Symbol>, n: nat)
    requires n < |rungs| == |s| && (forall i :: 0 < i < |rungs| ==> down(rungs[i]) == rungs[i - 1])
    requires forall i :: 0 <= i < |s| ==> s[i] == f(rungs[i])
    ensures Ladder(f, down, rungs[n], n + 1) == Value(s, n + 1)
  {
    if n > 0 {
      LadderValue(f, down, rungs, s, n - 1);
    }
  }

  lemma NumberIsLadder(f: Word -> Symbol, w: Word, n: nat)
    requires n == 8
    ensures Number(f, w) == Ladder(f, Down, w, n)
  {
    Rungs(w);
    LadderValue(f, Down, [w >> 35, w >> 30, w >> 25, w >> 20, w >> 15, w >> 10, w >> 5, w], Symbols(f, w), n - 1);
  }

  lemma LadderXor(f: Word -> Symbol, a: Word, b: Word, n: nat)
    requires Reads(f, Xor)
    ensures Xor(Ladder(f, Down, a, n), Ladder(f, Down, b, n)) == Ladder(f, Down, a ^ b, n)
  {
    forall a: Word, b: Word, c: Word
      ensures GoesDown(f, Down, IsSum, Xor, a, b, c)
    {
      SumGoesDown(f, a, b, c);
    }
    forall p, u, q, v
      ensures Splits(Xor, p, u, q, v)
    {
      XorOfParts(p, u, q, v);
    }
    LadderSum(f, Down, IsSum, Xor, a, b, a ^ b, n);
  }

  lemma NumberXor(f: Word -> Symbol, a: Word, b: Word)
    requires Reads(f, Xor)
    ensures Xor(Number(f, a), Number(f, b)) == Number(f, a ^ b)
  {
    NumberIsLadder(f, a, 8);
    NumberIsLadder(f, b, 8);
    NumberIsLadder(f, a ^ b, 8);
    LadderXor(f, a, b, 8);
  }

  lemma ShiftsUp(w: Word)
    ensures ((w << 5) >> 35) & 31 == (w >> 30) & 31 && ((w << 5) >> 30) & 31 == (w >> 25) & 31
    ensures ((w << 5) >> 25) & 31 == (w >> 20) & 31 && ((w << 5) >> 20) & 31 == (w >> 15) & 31
    ensures ((w << 5) >> 15) & 31 == (w >> 10) & 31 && ((w << 5) >> 10) & 31 == (w >> 5) & 31
    ensures ((w << 5) >> 5) & 31 == w & 31 && (w << 5) & 31 == 0
  {
  }

  lemma SymbolsUp(f: Word -> Symbol, w: Word)
    requires Reads(f, Xor)
    ensures Symbols(f, w << 5) == Symbols(f, w)[1..] + [0]
  {
    ShiftsUp(w);
    assert ReadsLow(f, (w << 5) >> 35, w >> 30) && ReadsLow(f, (w << 5) >> 30, w >> 25);
    assert ReadsLow(f, (w << 5) >> 25, w >> 20) && ReadsLow(f, (w << 5) >> 20, w >> 15);
    assert ReadsLow(f, (w << 5) >> 15, w >> 10) && ReadsLow(f, (w << 5) >> 10, w >> 5);
    assert ReadsLow(f, (w << 5) >> 5, w) && ReadsLow(f, w << 5, 0);
  }

  lemma {:induction false} TopValue(s: seq<Symbol>, n: nat)
    requires n < |s|
    ensures Shr(Value(s, n + 1), 5 * n) == s[0] && Low(Value(s, n + 1), 5 * n) == Value(s[1..], n)
  {
    if n > 0 {
      TopValue(s, n - 1);
      PartsOfSum(Value(s, n + 1), Value(s, n), s[n]);
      ShrAdd(Value(s, n + 1), 5, 5 * n - 5);
      LowOfParts(Value(s, n), s[n], 5 * n - 5);
    }
  }

  lemma {:induction false} SameValue(s: seq<Symbol>, t: seq<Symbol>, n: nat)
    requires n <= |s| && n <= |t| && forall i :: 0 <= i < n ==> s[i] == t[i]
    ensures Value(s, n) == Value(t, n)
  {
    if n > 0 {
      SameValue(s, t, n - 1);
    }
  }

  /** The parts of a state that is a word. */
  lemma WordSplits(f: Word -> Symbol, w: Word)
    requires Reads(f, Xor)
    ensures Shr(Number(f, w), 35) == f(w >> 35) && 32 * Low(Number(f, w), 35) == Number(f, w << 5)
  {
    var s, t := Symbols(f, w), Symbols(f, w << 5);
    SymbolsUp(f, w);
    TopValue(s, 7);
    SameValue(s[1..], t, 7);
  }

  lemma {:induction false} ZeroValue(s: seq<Symbol>, n: nat)
    requires n <= |s| && forall i :: 0 <= i < n ==> s[i] == 0
    ensures Value(s, n) == 0
  {
    if n > 0 {
      ZeroValue(s, n - 1);
    }
  }

  lemma NoSymbols(f: Word -> Symbol, v: Word)
    requires Reads(f, Xor) && v & 31 == v
    ensures Number(f, v) == f(v)
  {
    Lowest(v);
    assert Symbols(f, v) == [0, 0, 0, 0, 0, 0, 0, f(v)];
    ZeroValue(Symbols(f, v), 7);
  }

  lemma Lowest(v: Word)
    requires v & 31 == v
    ensures v >> 35 == 0 && v >> 30 == 0 && v >> 25 == 0 && v >> 20 == 0 && v >> 15 == 0 && v >> 10 == 0 && v >> 5 == 0
  {
  }

  // ---------------------------------------------------------------- steps

  const WORD_0: Word := 0xF5DEE51989
  const WORD_1: Word := 0xA9FDCA3312
  const WORD_2: Word := 0x1BAB10E32D
  const WORD_3: Word := 0x3706B1677A
  const WORD_4: Word := 0x644D626FFD

  lemma WordSymbols0()
    ensures Symbols(LowSymbol, WORD_0) == [30, 23, 15, 14, 10, 6, 12, 9]
  {
  }

  lemma WordSymbols1()
    ensures Symbols(LowSymbol, WORD_1) == [21, 7, 30, 28, 20, 12, 24, 18]
  {
  }

  lemma HighSymbols2()
    ensures LowSymbol(WORD_2 >> 35) == 3 && LowSymbol(WORD_2 >> 30) == 14 && LowSymbol(WORD_2 >> 25) == 21
    ensures LowSymbol(WORD_2 >> 20) == 17
  {
  }

  lemma MiddleSymbols2()
    ensures LowSymbol(WORD_2 >> 15) == 1 && LowSymbol(WORD_2 >> 10) == 24
  {
  }

  lemma LowSymbols2()
    ensures LowSymbol(WORD_2 >> 5) == 25 && LowSymbol(WORD_2) == 13
  {
  }

  lemma WordSymbols2()
    ensures Symbols(LowSymbol, WORD_2) == [3, 14, 21, 17, 1, 24, 25, 13]
  {
    HighSymbols2();
    MiddleSymbols2();
    LowSymbols2();
  }

  lemma WordSymbols3()
    ensures Symbols(LowSymbol, WORD_3) == [6, 28, 3, 11, 2, 25, 27, 26]
  {
  }

  lemma WordSymbols4()
    ensures Symbols(LowSymbol, WORD_4) == [12, 17, 6, 22, 4, 27, 31, 29]
  {
  }

  lemma NumberIs(f: Word -> Symbol, w: Word, row: seq<Symbol>, n: nat)
    requires Symbols(f, w) == row && |row| == 8 && Value(row, 8) == n
    ensures Number(f, w) == n
  {
  }

  lemma WordsAre(f: Word -> Symbol, rows: seq<seq<Symbol>>, g: seq<nat>)
    requires |rows| == |g| == 5 && forall i :: 0 <= i < 5 ==> |rows[i]| == 8 && Value(rows[i], 8) == g[i]
    requires Symbols(f, WORD_0) == rows[0] && Symbols(f, WORD_1) == rows[1] && Symbols(f, WORD_2) == rows[2]
    requires Symbols(f, WORD_3) == rows[3] && Symbols(f, WORD_4) == rows[4]
    ensures AreWords(w => Number(f, w), g)
  {
    NumberIs(f, WORD_0, rows[0], g[0]);
    NumberIs(f, WORD_1, rows[1], g[1]);
    NumberIs(f, WORD_2, rows[2], g[2]);
    NumberIs(f, WORD_3, rows[3], g[3]);
    NumberIs(f, WORD_4, rows[4], g[4]);
  }

  lemma FirstWordSymbols()
    ensures Symbols(LowSymbol, WORD_0) == ROWS[0] && Symbols(LowSymbol, WORD_1) == ROWS[1]
  {
    WordSymbols0();
    WordSymbols1();
  }

  lemma LastWordSymbols()
    ensures Symbols(LowSymbol, WORD_3) == ROWS[3] && Symbols(LowSymbol, WORD_4) == ROWS[4]
  {
    WordSymbols3();
    WordSymbols4();
  }

  lemma WordsAreGenerators(f: Word -> Symbol)
    requires Symbols(f, WORD_0) == ROWS[0] && Symbols(f, WORD_1) == ROWS[1]
    requires Symbols(f, WORD_2) == [3, 14, 21, 17, 1, 24, 25, 13] && Symbols(f, WORD_3) == ROWS[3] && Symbols(f, WORD_4) == ROWS[4]
    ensures AreWords(w => Number(f, w), GENERATOR)
  {
    RowsAreGenerators();
    WordsAre(f, ROWS, GENERATOR);
  }

  ghost predicate NumbersAddUp(h: Word -> nat, a: Word, b: Word)
  {
    h(a ^ b) == Xor(h(a), h(b))
  }

  /** `h` gives the numbers of words. */
  ghost predicate Numbers(h: Word -> nat)
  {
    (forall a, b :: NumbersAddUp(h, a, b)) && h(0) == 0
  }

  lemma NumbersAre()
    ensures Numbers(w => Number(LowSymbol, w))
  {
    LowSymbolReads();
    NoSymbols(LowSymbol, 0);
    var h: Word -> nat := w => Number(LowSymbol, w);
    forall a, b
      ensures NumbersAddUp(h, a, b)
    {
      NumberXor(LowSymbol, a, b);
    }
  }

  ghost predicate AreWords(h: Word -> nat, g: seq<nat>)
  {
    && |g| == 5 && h(WORD_0) == g[0] && h(WORD_1) == g[1] && h(WORD_2) == g[2]
    && h(WORD_3) == g[3] && h(WORD_4) == g[4]
  }

  function PickWord(top: Word, mask: Word, w: Word): Word
  {
    if top & mask != 0 then w else 0
  }

  /** What the symbol shifted out adds. */
  function FedWord(top: Word): Word
  {
    PickWord(top, 1, WORD_0) ^ PickWord(top, 2, WORD_1) ^ PickWord(top, 4, WORD_2) ^ PickWord(top, 8, WORD_3)
    ^ PickWord(top, 16, WORD_4)
  }

  lemma PickIs(h: Word -> nat, top: Word, mask: Word, w: Word)
    requires Numbers(h)
    ensures h(PickWord(top, mask, w)) == Pick(BitAt(top, mask), h(w))
  {
  }

  lemma AddUp(h: Word -> nat, a: Word, b: Word, c: Word)
    requires Numbers(h) && c == a ^ b
    ensures h(c) == Xor(h(a), h(b))
  {
    assert NumbersAddUp(h, a, b);
  }

  lemma FiveAddUp(h: Word -> nat, a: Word, b: Word, c: Word, d: Word, e: Word, two: Word, three: Word, four: Word, five: Word)
    requires Numbers(h) && two == a ^ b && three == two ^ c && four == three ^ d && five == four ^ e
    ensures h(five) == PickXor(h(a), h(b), h(c), h(d), h(e))
  {
    AddUp(h, a, b, two);
    AddUp(h, two, c, three);
    AddUp(h, three, d, four);
    AddUp(h, four, e, five);
  }

  lemma FedIs(h: Word -> nat, g: seq<nat>, top: Word)
    requires Numbers(h) && AreWords(h, g)
    ensures h(FedWord(top)) == Feedback(LowSymbol(top), g, 5)
  {
    var a, b, c, d, e :=
      PickWord(top, 1, WORD_0), PickWord(top, 2, WORD_1), PickWord(top, 4, WORD_2), PickWord(top, 8, WORD_3), PickWord(top, 16, WORD_4);
    FiveAddUp(h, a, b, c, d, e, a ^ b, a ^ b ^ c, a ^ b ^ c ^ d, a ^ b ^ c ^ d ^ e);
    PickIs(h, top, 1, WORD_0);
    PickIs(h, top, 2, WORD_1);
    PickIs(h, top, 4, WORD_2);
    PickIs(h, top, 8, WORD_3);
    PickIs(h, top, 16, WORD_4);
    FeedbackBits(LowSymbol(top), g, BitAt(top, 16), BitAt(top, 8), BitAt(top, 4), BitAt(top, 2), BitAt(top, 1));
  }

  function StepWord(w: Word, v: Word): Word
  {
    (w << 5) ^ v ^ FedWord(w >> 35)
  }

  lemma StepWordParts(h: Word -> nat, g: seq<nat>, w: Word, v: Word)
    requires Numbers(h) && AreWords(h, g)
    ensures h(StepWord(w, v)) == Xor(Xor(h(w << 5), h(v)), Feedback(LowSymbol(w >> 35), g, 5))
  {
    assert NumbersAddUp(h, w << 5, v);
    assert NumbersAddUp(h, (w << 5) ^ v, FedWord(w >> 35));
    FedIs(h, g, w >> 35);
  }

  lemma StepWordIs(w: Word, v: Word)
    requires v & 31 == v
    ensures Step(Number(LowSymbol, w), LowSymbol(v)) == Number(LowSymbol, StepWord(w, v))
  {
    LowSymbolReads();
    NumbersAre();
    FirstWordSymbols();
    WordSymbols2();
    LastWordSymbols();
    WordsAreGenerators(LowSymbol);
    NoSymbols(LowSymbol, v);
    StepWordParts(w => Number(LowSymbol, w), GENERATOR, w, v);
    WordSplits(LowSymbol, w);
  }

  lemma StepIs(w: Word, v: Word, s: Symbol, next: Word)
    requires StepWord(w, v) == next && v & 31 == v && LowSymbol(v) == s
    ensures Step(Number(LowSymbol, w), s) == Number(LowSymbol, next)
  {
    StepWordIs(w, v);
  }

  /** The remainder from a trace of its states. */
  lemma {:induction false} TraceEnds(h: Word -> nat, trace: seq<Word>, symbols: seq<Symbol>, k: nat)
    requires |trace| == |symbols| + 1 && k <= |symbols|
    requires forall i :: 0 <= i < |symbols| ==> Step(h(trace[i]), symbols[i]) == h(trace[i + 1])
    ensures Polymod(h(trace[k]), symbols[k..]) == h(trace[|symbols|])
    decreases |symbols| - k
  {
    if k < |symbols| {
      assert symbols[k..][1..] == symbols[k + 1..];
      TraceEnds(h, trace, symbols, k + 1);
    }
  }

  // ---------------------------------------------------------------- the vector

  const BODY := "raw(deadbeef)"
  const SYMBOLS: seq<Symbol> := [9, 18, 14, 20, 10, 21, 22, 0, 18, 21, 19, 0, 22, 22, 23, 0, 11, 0, 7, 5, 9, 7, 16, 1, 6, 27]
  const VALUES: seq<Word> := [9, 18, 14, 20, 10, 21, 22, 0, 18, 21, 19, 0, 22, 22, 23, 0, 11, 0, 7, 5, 9, 7, 16, 1, 6, 27]
  const TRACE: seq<Word> :=
    [ 0x1, 0x29, 0x532, 0xA64E, 0x14C9D4, 0x2993A8A, 0x53275155,
      0xA64EA2AB6, 0xB943A04F49, 0xBB1544F79, 0x83F46CF6BC, 0x1AC0FCB86E, 0x43CB8275B, 0x879704EB76,
      0x96ADFF012B, 0x180F487998, 0x5DCA20199B, 0xD2619D7E8A, 0xB685B6EAD5, 0x6AD65E565, 0xD5ACBCACA5,
      0x4F218CAF3C, 0x26E9C19974, 0xC69323CDBD, 0x812FAABF26, 0x41B8358B3B, 0x1 ]

  lemma Values0()
    ensures forall i :: 0 <= i < 9 ==> VALUES[i] & 31 == VALUES[i] && LowSymbol(VALUES[i]) == SYMBOLS[i]
  {
  }

  lemma Values9()
    ensures forall i :: 9 <= i < 18 ==> VALUES[i] & 31 == VALUES[i] && LowSymbol(VALUES[i]) == SYMBOLS[i]
  {
  }

  lemma Values18()
    ensures forall i :: 18 <= i < 26 ==> VALUES[i] & 31 == VALUES[i] && LowSymbol(VALUES[i]) == SYMBOLS[i]
  {
  }

  lemma Traced0()
    ensures forall i :: 0 <= i < 7 ==> StepWord(TRACE[i], VALUES[i]) == TRACE[i + 1]
  {
  }

  lemma Traced7()
    ensures forall i :: 7 <= i < 14 ==> StepWord(TRACE[i], VALUES[i]) == TRACE[i + 1]
  {
  }

  lemma Traced14()
    ensures forall i :: 14 <= i < 20 ==> StepWord(TRACE[i], VALUES[i]) == TRACE[i + 1]
  {
  }

  lemma Traced20()
    ensures forall i :: 20 <= i < 26 ==> StepWord(TRACE[i], VALUES[i]) == TRACE[i + 1]
  {
  }

  lemma TraceSteps(i: nat)
    requires i < 26
    ensures Step(Number(LowSymbol, TRACE[i]), SYMBOLS[i]) == Number(LowSymbol, TRACE[i + 1])
  {
    Values0();
    Values9();
    Values18();
    Traced0();
    Traced7();
    Traced14();
    Traced20();
    StepIs(TRACE[i], VALUES[i], SYMBOLS[i], TRACE[i + 1]);
  }

  ghost predicate IsTrace(f: Word -> Symbol, trace: seq<Word>, symbols: seq<Symbol>)
  {
    && |trace| == |symbols| + 1
    && forall i :: 0 <= i < |symbols| ==> Step(Number(f, trace[i]), symbols[i]) == Number(f, trace[i + 1])
  }

  /** The state ends where it starts. */
  lemma TraceReturns(f: Word -> Symbol, trace: seq<Word>, symbols: seq<Symbol>)
    requires IsTrace(f, trace, symbols) && trace[0] == trace[|symbols|] == 1 && Reads(f, Xor) && f(1) == 1
    ensures Polymod(1, symbols) == 1
  {
    NoSymbols(f, 1);
    TraceEnds(w => Number(f, w), trace, symbols, 0);
    assert symbols[0..] == symbols;
  }

  lemma VectorIsTrace()
    ensures IsTrace(LowSymbol, TRACE, SYMBOLS)
  {
    forall i | 0 <= i < 26
      ensures Step(Number(LowSymbol, TRACE[i]), SYMBOLS[i]) == Number(LowSymbol, TRACE[i + 1])
    {
      TraceSteps(i);
    }
  }

  lemma OneIsOne()
    ensures LowSymbol(1) == 1
  {
  }

  lemma VectorRemainder()
    ensures Polymod(1, SYMBOLS) == 1
  {
    VectorIsTrace();
    LowSymbolReads();
    OneIsOne();
    TraceReturns(LowSymbol, TRACE, SYMBOLS);
  }

  lemma ChunkIs(charset: Charset, s: string, i: nat, j: nat, k: nat)
    requires |s| == 3 && s[0] in charset && s[1] in charset && s[2] in charset
    requires Find(charset, s[0]) == i && Find(charset, s[1]) == j && Find(charset, s[2]) == k
    ensures Chunk(charset, s) == [i % 32, j % 32, k % 32, i / 32 * 9 + j / 32 * 3 + k / 32]
  {
  }

  lemma LastChunkIs(charset: Charset, s: string, i: nat)
    requires |s| == 1 && s[0] in charset && Find(charset, s[0]) == i
    ensures Expand(charset, s) == [i % 32, i / 32]
  {
  }

  lemma FoundInVector(charset: Charset)
    requires |charset| == 95 && (forall j :: 0 <= j < 95 ==> Placed(charset[j], j))
    requires charset[73] == 'r' && charset[18] == 'a' && charset[78] == 'w' && charset[10] == '(' && charset[21] == 'd'
    requires charset[22] == 'e' && charset[19] == 'b' && charset[23] == 'f' && charset[11] == ')'
    ensures AllIn(BODY, charset)
    ensures Find(charset, 'r') == 73 && Find(charset, 'a') == 18 && Find(charset, 'w') == 78
    ensures Find(charset, '(') == 10 && Find(charset, 'd') == 21 && Find(charset, 'e') == 22
    ensures Find(charset, 'b') == 19 && Find(charset, 'f') == 23 && Find(charset, ')') == 11
  {
    FoundAt(charset, 'r', 73);
    FoundAt(charset, 'a', 18);
    FoundAt(charset, 'w', 78);
    FoundAt(charset, '(', 10);
    FoundAt(charset, 'd', 21);
    FoundAt(charset, 'e', 22);
    FoundAt(charset, 'b', 19);
    FoundAt(charset, 'f', 23);
    FoundAt(charset, ')', 11);
  }

  lemma ExpandVector(charset: Charset)
    requires AllIn(BODY, charset)
    requires Find(charset, 'r') == 73 && Find(charset, 'a') == 18 && Find(charset, 'w') == 78
    requires Find(charset, '(') == 10 && Find(charset, 'd') == 21 && Find(charset, 'e') == 22
    requires Find(charset, 'b') == 19 && Find(charset, 'f') == 23 && Find(charset, ')') == 11
    ensures Expand(charset, BODY) == [9, 18, 14, 20, 10, 21, 22, 0, 18, 21, 19, 0, 22, 22, 23, 0, 11, 0]
  {
    ExpandVectorTail(charset);
    ExpandVectorHead(charset, [18, 21, 19, 0, 22, 22, 23, 0, 11, 0]);
  }

  lemma ExpandVectorTail(charset: Charset)
    requires AllIn(BODY, charset)
    requires Find(charset, 'a') == 18 && Find(charset, 'd') == 21 && Find(charset, 'e') == 22
    requires Find(charset, 'b') == 19 && Find(charset, 'f') == 23 && Find(charset, ')') == 11
    ensures Expand(charset, "adbeef)") == [18, 21, 19, 0, 22, 22, 23, 0, 11, 0]
  {
    LastChunkIs(charset, ")", 11);
    ChunkIs(charset, "eef", 22, 22, 23);
    ExpandChunk(charset, "eef", ")", "eef)", [22, 22, 23, 0], [11, 0]);
    ChunkIs(charset, "adb", 18, 21, 19);
    ExpandChunk(charset, "adb", "eef)", "adbeef)", [18, 21, 19, 0], [22, 22, 23, 0, 11, 0]);
  }

  lemma ExpandVectorHead(charset: Charset, rest: seq<Symbol>)
    requires AllIn(BODY, charset)
    requires Find(charset, 'r') == 73 && Find(charset, 'a') == 18 && Find(charset, 'w') == 78
    requires Find(charset, '(') == 10 && Find(charset, 'd') == 21 && Find(charset, 'e') == 22
    requires Expand(charset, "adbeef)") == rest
    ensures Expand(charset, BODY) == [9, 18, 14, 20, 10, 21, 22, 0] + rest
  {
    ChunkIs(charset, "(de", 10, 21, 22);
    ExpandChunk(charset, "(de", "adbeef)", "(deadbeef)", [10, 21, 22, 0], rest);
    ChunkIs(charset, "raw", 73, 18, 78);
    ExpandChunk(charset, "raw", "(deadbeef)", BODY, [9, 18, 14, 20], [10, 21, 22, 0] + rest);
  }

  lemma ExpandChunk(charset: Charset, s: string, t: string, whole: string, chunk: seq<Symbol>, rest: seq<Symbol>)
    requires |s| == 3 && whole == s + t
    requires Chunk(charset, s) == chunk && Expand(charset, t) == rest
    ensures Expand(charset, whole) == chunk + rest
  {
    ExpandHead(charset, whole);
    assert whole[..3] == s && whole[3..] == t;
  }

  lemma EncodesVector(ab: Alphabet)
    requires ab.Valid() && ab.sum == CHECKSUM_CHARSET
    ensures Encode(ab, [7, 5, 9, 7, 16, 1, 6, 27]) == "89f8spxm"
  {
  }

  lemma VectorSymbols()
    ensures [9, 18, 14, 20, 10, 21, 22, 0, 18, 21, 19, 0, 22, 22, 23, 0, 11, 0] + [7, 5, 9, 7, 16, 1, 6, 27] == SYMBOLS
  {
  }

  lemma VectorIsCreated(ab: Alphabet)
    requires ab.Valid() && ab.sum == CHECKSUM_CHARSET && AllIn(BODY, ab.body)
    requires Expand(ab.body, BODY) == [9, 18, 14, 20, 10, 21, 22, 0, 18, 21, 19, 0, 22, 22, 23, 0, 11, 0]
    ensures DescsumCreate(ab, BODY) == Ok(BODY + "#" + "89f8spxm")
  {
    VectorRemainder();
    VectorSymbols();
    CreatesVector(ab, BODY, Expand(ab.body, BODY), [7, 5, 9, 7, 16, 1, 6, 27]);
    EncodesVector(ab);
  }

  lemma VectorText()
    ensures BODY + "#" + "89f8spxm" == "raw(deadbeef)#89f8spxm"
  {
  }

  lemma VectorOf(ab: Alphabet, charset: Charset)
    requires ab.Valid() && ab.body == charset && ab.sum == CHECKSUM_CHARSET && AllIn(BODY, charset)
    requires Expand(charset, BODY) == [9, 18, 14, 20, 10, 21, 22, 0, 18, 21, 19, 0, 22, 22, 23, 0, 11, 0]
    ensures DescsumCreate(ab, BODY) == Ok("raw(deadbeef)#89f8spxm")
  {
    VectorIsCreated(ab);
    VectorText();
  }

  /** "raw(deadbeef)#89f8spxm" is a valid descriptor of BIP 380, section "Test Vectors". */
  lemma Vector()
    ensures BIP380.Valid() && DescsumCreate(BIP380, "raw(deadbeef)") == Ok("raw(deadbeef)#89f8spxm")
  {
    Bip380IsValid();
    CharactersPlaced();
    VectorPlaces();
    FoundInVector(INPUT_CHARSET);
    ExpandVector(INPUT_CHARSET);
    VectorOf(BIP380, INPUT_CHARSET);
  }

  lemma CreatesVector(ab: Alphabet, body: string, symbols: seq<Symbol>, sum: seq<Symbol>)
    requires ab.Valid() && AllIn(body, ab.body) && Expand(ab.body, body) == symbols
    requires |sum| == 8 && Polymod(1, symbols + sum) == 1
    ensures DescsumCreate(ab, body) == Ok(body + "#" + Encode(ab, sum))
  {
    ChecksumSymbols(symbols, sum);
  }
}
