/** Checksums of output descriptors (BIP 380, section "Checksum"): expansion of the text into
    symbols, creation and verification of the eight checksum characters. */
module Descriptors {
  import opened Bits
  import opened Bch
  import opened Wrappers

  /** The three groups of the charset of bodies. */
  const GROUP_0 := "0123456789()[],'/*abcdefgh@:$%{}"
  const GROUP_1 := "IJKLMNOPQRSTUVWXYZ&+-.;<=>?!^_|~"
  const GROUP_2 := "ijklmnopqrstuvwxyzABCDEFGH`#\"\\ "
  const INPUT_CHARSET := GROUP_0 + GROUP_1 + GROUP_2
  const CHECKSUM_CHARSET := "qpzry9x8gf2tvdw0s3jn54khce6mua7l"

  /** A charset whose positions fit into three groups of 32. */
  type Charset = text: string | |text| <= 96

  /** The charsets of bodies and of checksums. */
  datatype Alphabet = Alphabet(body: Charset, sum: string) {
    /** Each symbol has a checksum character of its own. */
    ghost predicate Valid()
    {
      |sum| == 32 && forall i, j :: 0 <= i < j < 32 ==> sum[i] != sum[j]
    }
  }

  const BIP380 := Alphabet(INPUT_CHARSET, CHECKSUM_CHARSET)

  function Rank(c: char): int
  {
    match c
    case 'q' => 0 case 'p' => 1 case 'z' => 2 case 'r' => 3 case 'y' => 4 case '9' => 5 case 'x' => 6 case '8' => 7
    case 'g' => 8 case 'f' => 9 case '2' => 10 case 't' => 11 case 'v' => 12 case 'd' => 13 case 'w' => 14 case '0' => 15
    case 's' => 16 case '3' => 17 case 'j' => 18 case 'n' => 19 case '5' => 20 case '4' => 21 case 'k' => 22 case 'h' => 23
    case 'c' => 24 case 'e' => 25 case '6' => 26 case 'm' => 27 case 'u' => 28 case 'a' => 29 case '7' => 30 case 'l' => 31
    case _ => -1
  }

  lemma LowRanks()
    ensures forall i :: 0 <= i < 16 ==> Rank(CHECKSUM_CHARSET[i]) == i
  {
    assert forall i :: 0 <= i < 8 ==> Rank(CHECKSUM_CHARSET[i]) == i;
    assert forall i :: 8 <= i < 16 ==> Rank(CHECKSUM_CHARSET[i]) == i;
  }

  lemma HighRanks()
    ensures forall i :: 16 <= i < 32 ==> Rank(CHECKSUM_CHARSET[i]) == i
  {
    assert forall i :: 16 <= i < 24 ==> Rank(CHECKSUM_CHARSET[i]) == i;
    assert forall i :: 24 <= i < 32 ==> Rank(CHECKSUM_CHARSET[i]) == i;
  }

  lemma Bip380IsValid()
    ensures BIP380.Valid()
  {
    LowRanks();
    HighRanks();
    assert forall i :: 0 <= i < 32 ==> Rank(CHECKSUM_CHARSET[i]) == i;
  }

  /** The exceptions a malformed argument runs into. */
  datatype Exception = TypeError | IndexError

  // ---------------------------------------------------------------- characters and symbols

  predicate IsFirst(text: string, c: char, i: int)
  {
    0 <= i < |text| && text[i] == c && forall j :: 0 <= j < i ==> text[j] != c
  }

  lemma {:induction false} HasFirst(text: string, c: char)
    requires c in text
    ensures exists i :: IsFirst(text, c, i)
  {
    var n := |text| - 1;
    if c in text[..n] {
      HasFirst(text[..n], c);
      var i :| IsFirst(text[..n], c, i);
      assert IsFirst(text, c, i);
    } else {
      assert IsFirst(text, c, n);
    }
  }

  /** str.find of a single character. */
  function Find(text: string, c: char): (i: int)
    ensures if c in text then IsFirst(text, c, i) else i == -1
  {
    if c in text then
      HasFirst(text, c);
      var i: int :| 0 <= i < |text| && IsFirst(text, c, i);
      i
    else -1
  }

  predicate AllIn(s: string, charset: string)
  {
    forall i :: 0 <= i < |s| ==> s[i] in charset
  }

  /** The low five bits of a character's position, and its group. */
  function Position(charset: Charset, c: char): Symbol
  {
    if c in charset then Find(charset, c) % 32 else 0
  }

  function Group(charset: Charset, c: char): (g: nat)
    ensures g < 3
  {
    if c in charset then Find(charset, c) / 32 else 0
  }

  function Positions(charset: Charset, s: string): seq<Symbol>
  {
    seq(|s|, i requires 0 <= i < |s| => Position(charset, s[i]))
  }

  function Groups(charset: Charset, s: string): seq<nat>
  {
    seq(|s|, i requires 0 <= i < |s| => Group(charset, s[i]))
  }

  /** One symbol for the groups of up to three characters. */
  function GroupTail(groups: seq<nat>): seq<Symbol>
    requires |groups| <= 3 && forall i :: 0 <= i < |groups| ==> groups[i] < 3
  {
    if |groups| == 0 then []
    else
      var tail: Symbol :=
        if |groups| == 3 then groups[0] * 9 + groups[1] * 3 + groups[2]
        else if |groups| == 2 then groups[0] * 3 + groups[1]
        else groups[0];
      [tail]
  }

  function Chunk(charset: Charset, s: string): seq<Symbol>
    requires |s| <= 3
  {
    Positions(charset, s) + GroupTail(Groups(charset, s))
  }

  /** The symbols of a descriptor: three characters at a time, each chunk followed by its groups. */
  function Expand(charset: Charset, s: string): seq<Symbol>
  {
    if |s| <= 3 then Chunk(charset, s) else Chunk(charset, s[..3]) + Expand(charset, s[3..])
  }

  lemma ExpandHead(charset: Charset, s: string)
    requires |s| >= 3
    ensures Expand(charset, s) == Chunk(charset, s[..3]) + Expand(charset, s[3..])
  {
    if |s| == 3 {
      assert s[..3] == s && s[3..] == "";
    }
  }

  lemma Associative(x: seq<Symbol>, y: seq<Symbol>, z: seq<Symbol>)
    ensures x + (y + z) == x + y + z
  {
  }

  lemma {:induction false} ExpandAppend(charset: Charset, s: string, t: string)
    requires |s| % 3 == 0
    ensures Expand(charset, s + t) == Expand(charset, s) + Expand(charset, t)
  {
    if s == "" {
      assert s + t == t;
    } else {
      ExpandHead(charset, s);
      ExpandHead(charset, s + t);
      assert (s + t)[..3] == s[..3] && (s + t)[3..] == s[3..] + t;
      ExpandAppend(charset, s[3..], t);
      Associative(Chunk(charset, s[..3]), Expand(charset, s[3..]), Expand(charset, t));
    }
  }

  /** The final symbols when `symbols` and `groups` are written and the characters of `s` are still to come. */
  function Expanding(charset: Charset, symbols: seq<Symbol>, groups: seq<nat>, s: string): seq<Symbol>
    requires |groups| < 3 && forall i :: 0 <= i < |groups| ==> groups[i] < 3
    decreases |s|
  {
    if s == "" then symbols + GroupTail(groups)
    else
      var symbols', groups' := symbols + [Position(charset, s[0])], groups + [Group(charset, s[0])];
      if |groups'| == 3 then Expanding(charset, symbols' + GroupTail(groups'), [], s[1..])
      else Expanding(charset, symbols', groups', s[1..])
  }

  lemma PushPending(charset: Charset, symbols: seq<Symbol>, pending: string, c: char)
    ensures symbols + Positions(charset, pending) + [Position(charset, c)] == symbols + Positions(charset, pending + [c])
    ensures Groups(charset, pending) + [Group(charset, c)] == Groups(charset, pending + [c])
  {}

  lemma FlushPending(charset: Charset, symbols: seq<Symbol>, pending: string, s: string)
    requires |pending| == 3
    ensures symbols + Positions(charset, pending) + GroupTail(Groups(charset, pending)) == symbols + Chunk(charset, pending)
    ensures symbols + Expand(charset, pending + s) == symbols + Chunk(charset, pending) + Expand(charset, s)
    ensures symbols + Chunk(charset, pending) + Positions(charset, "") == symbols + Chunk(charset, pending)
  {
    ExpandAppend(charset, pending, s);
  }

  lemma {:induction false} ExpandingGroups(charset: Charset, symbols: seq<Symbol>, s: string, pending: string)
    requires |pending| < 3
    ensures Expanding(charset, symbols + Positions(charset, pending), Groups(charset, pending), s)
            == symbols + Expand(charset, pending + s)
    decreases |s|
  {
    if s == "" {
      assert pending + s == pending;
      var p, g := Positions(charset, pending), GroupTail(Groups(charset, pending));
      assert symbols + p + g == symbols + (p + g);
    } else {
      var longer := pending + [s[0]];
      PushPending(charset, symbols, pending, s[0]);
      assert pending + s == longer + s[1..];
      if |longer| == 3 {
        FlushPending(charset, symbols, longer, s[1..]);
        ExpandingGroups(charset, symbols + Chunk(charset, longer), s[1..], "");
        assert "" + s[1..] == s[1..];
      } else {
        ExpandingGroups(charset, symbols, s[1..], longer);
      }
    }
  }

  lemma ExpandingAll(charset: Charset, s: string)
    ensures Expanding(charset, [], [], s) == Expand(charset, s)
  {
    ExpandingGroups(charset, [], s, "");
    assert [] + Positions(charset, "") == [] && "" + s == s;
  }

  /** descsum_expand: None for a character outside the charset. */
  method DescsumExpand(s: string, charset: Charset) returns (r: Option<seq<Symbol>>)
    ensures r == if AllIn(s, charset) then Some(Expand(charset, s)) else None
  {
    var groups: seq<nat> := [];
    var symbols: seq<Symbol> := [];
    for k := 0 to |s|
      invariant forall i :: 0 <= i < k ==> s[i] in charset
      invariant |groups| < 3 && forall i :: 0 <= i < |groups| ==> groups[i] < 3
      invariant Expanding(charset, symbols, groups, s[k..]) == Expanding(charset, [], [], s)
    {
      var c := s[k];
      if c !in charset {
        assert !AllIn(s, charset);
        return None;
      }
      assert s[k..][1..] == s[k + 1..];
      var v := Find(charset, c);
      symbols := symbols + [v % 32];
      groups := groups + [v / 32];
      if |groups| == 3 {
        symbols := symbols + [groups[0] * 9 + groups[1] * 3 + groups[2]];
        groups := [];
      }
    }
    ExpandingAll(charset, s);
    assert s[|s|..] == "";
    ghost var complete := symbols + GroupTail(groups);
    if |groups| == 1 {
      symbols := symbols + [groups[0]];
    } else if |groups| == 2 {
      symbols := symbols + [groups[0] * 3 + groups[1]];
    }
    assert symbols == complete;
    assert AllIn(s, charset);
    return Some(symbols);
  }

  lemma SameCharacter(charset: Charset, c: char, d: char)
    requires c in charset && d in charset
    requires Position(charset, c) == Position(charset, d) && Group(charset, c) == Group(charset, d)
    ensures c == d
  {}

  lemma SameGroups(g: seq<nat>, h: seq<nat>)
    requires |g| == |h| <= 3 && forall i :: 0 <= i < |g| ==> g[i] < 3 && h[i] < 3
    requires GroupTail(g) == GroupTail(h)
    ensures g == h
  {
    if |g| > 0 {
      assert GroupTail(g)[0] == GroupTail(h)[0];
    }
  }

  lemma ChunkInjective(charset: Charset, s: string, t: string)
    requires |s| == |t| <= 3 && AllIn(s, charset) && AllIn(t, charset)
    requires Chunk(charset, s) == Chunk(charset, t)
    ensures s == t
  {
    var n := |s|;
    assert Chunk(charset, s)[..n] == Positions(charset, s) && Chunk(charset, t)[..n] == Positions(charset, t);
    assert Chunk(charset, s)[n..] == GroupTail(Groups(charset, s));
    assert Chunk(charset, t)[n..] == GroupTail(Groups(charset, t));
    SameGroups(Groups(charset, s), Groups(charset, t));
    forall i | 0 <= i < n
      ensures s[i] == t[i]
    {
      assert Positions(charset, s)[i] == Positions(charset, t)[i];
      assert Groups(charset, s)[i] == Groups(charset, t)[i];
      SameCharacter(charset, s[i], t[i]);
    }
  }

  lemma {:induction false} ExpandInjective(charset: Charset, s: string, t: string)
    requires |s| == |t| && AllIn(s, charset) && AllIn(t, charset)
    requires Expand(charset, s) == Expand(charset, t)
    ensures s == t
  {
    if |s| <= 3 {
      ChunkInjective(charset, s, t);
    } else {
      var x, y := Expand(charset, s), Expand(charset, t);
      assert x[..4] == Chunk(charset, s[..3]) && x[4..] == Expand(charset, s[3..]);
      assert y[..4] == Chunk(charset, t[..3]) && y[4..] == Expand(charset, t[3..]);
      ChunkInjective(charset, s[..3], t[..3]);
      ExpandInjective(charset, s[3..], t[3..]);
      assert s == s[..3] + s[3..] && t == t[..3] + t[3..];
    }
  }

  // ---------------------------------------------------------------- reading symbols back

  /** The character in this group at this position. */
  function CharacterAt(charset: Charset, group: nat, position: Symbol): char
  {
    if 32 * group + position < |charset| then charset[32 * group + position] else '?'
  }

  /** Up to three characters, whose groups are the digits of the last symbol in base three. */
  function ReadChunk(charset: Charset, symbols: seq<Symbol>): string
    requires 2 <= |symbols| <= 4
  {
    var n := |symbols| - 1;
    var groups: nat := symbols[n];
    if n == 1 then [CharacterAt(charset, groups, symbols[0])]
    else if n == 2 then [CharacterAt(charset, groups / 3, symbols[0]), CharacterAt(charset, groups % 3, symbols[1])]
    else [ CharacterAt(charset, groups / 9, symbols[0]), CharacterAt(charset, groups / 3 % 3, symbols[1]),
           CharacterAt(charset, groups % 3, symbols[2]) ]
  }

  function ReadText(charset: Charset, symbols: seq<Symbol>): string
  {
    if |symbols| < 2 then ""
    else if |symbols| <= 4 then ReadChunk(charset, symbols)
    else ReadChunk(charset, symbols[..4]) + ReadText(charset, symbols[4..])
  }

  lemma CharacterIsRead(charset: Charset, c: char)
    requires c in charset
    ensures CharacterAt(charset, Group(charset, c), Position(charset, c)) == c
  {
  }

  lemma OneIsRead(charset: Charset, c: char)
    requires c in charset
    ensures ReadChunk(charset, Chunk(charset, [c])) == [c]
  {
    assert Chunk(charset, [c]) == [Position(charset, c), Group(charset, c)];
    CharacterIsRead(charset, c);
  }

  lemma TwoAreRead(charset: Charset, c: char, d: char)
    requires c in charset && d in charset
    ensures ReadChunk(charset, Chunk(charset, [c, d])) == [c, d]
  {
    assert Chunk(charset, [c, d]) == [Position(charset, c), Position(charset, d), Group(charset, c) * 3 + Group(charset, d)];
    CharacterIsRead(charset, c);
    CharacterIsRead(charset, d);
  }

  lemma ThreeDigits(a: nat, b: nat, c: nat, t: nat)
    requires a < 3 && b < 3 && c < 3 && t == a * 9 + b * 3 + c
    ensures t / 9 == a && t / 3 % 3 == b && t % 3 == c
  {
    assert t / 3 == a * 3 + b;
  }

  lemma ChunkOfThree(charset: Charset, s: string)
    requires |s| == 3
    ensures Chunk(charset, s)
         == [ Position(charset, s[0]), Position(charset, s[1]), Position(charset, s[2]),
              Group(charset, s[0]) * 9 + Group(charset, s[1]) * 3 + Group(charset, s[2]) ]
  {
  }

  lemma ThreeAreRead(charset: Charset, s: string)
    requires |s| == 3 && AllIn(s, charset)
    ensures ReadChunk(charset, Chunk(charset, s)) == s
  {
    ChunkOfThree(charset, s);
    ThreeDigits(Group(charset, s[0]), Group(charset, s[1]), Group(charset, s[2]), Chunk(charset, s)[3]);
    CharacterIsRead(charset, s[0]);
    CharacterIsRead(charset, s[1]);
    CharacterIsRead(charset, s[2]);
  }

  lemma ChunkIsRead(charset: Charset, s: string)
    requires 1 <= |s| <= 3 && AllIn(s, charset)
    ensures ReadChunk(charset, Chunk(charset, s)) == s
  {
    if |s| == 1 {
      assert s == [s[0]];
      OneIsRead(charset, s[0]);
    } else if |s| == 2 {
      assert s == [s[0], s[1]];
      TwoAreRead(charset, s[0], s[1]);
    } else {
      ThreeAreRead(charset, s);
    }
  }

  /** The text can be read back from its symbols. */
  lemma {:induction false} TextIsRead(charset: Charset, s: string)
    requires AllIn(s, charset)
    ensures ReadText(charset, Expand(charset, s)) == s
  {
    if |s| > 3 {
      var x := Expand(charset, s);
      TextIsRead(charset, s[3..]);
      ChunkIsRead(charset, s[..3]);
      assert x[..4] == Chunk(charset, s[..3]) && x[4..] == Expand(charset, s[3..]) && |x| > 4;
      assert s == s[..3] + s[3..];
    } else if s != "" {
      ChunkIsRead(charset, s);
    }
  }

  // ---------------------------------------------------------------- checksums

  function Checksum(symbols: seq<Symbol>): nat
  {
    Xor(Polymod(1, symbols + Zeros()), 1)
  }

  /** The `i`-th of eight base-32 digits. */
  function Digit(checksum: nat, i: nat): Symbol
    requires i < 8
  {
    Five(Shr(checksum, 5 * (7 - i)));
    Low(Shr(checksum, 5 * (7 - i)), 5)
  }

  function Digits(checksum: nat): seq<Symbol>
  {
    seq(8, i requires 0 <= i < 8 => Digit(checksum, i))
  }

  function Encode(ab: Alphabet, symbols: seq<Symbol>): string
    requires ab.Valid()
  {
    seq(|symbols|, i requires 0 <= i < |symbols| => ab.sum[symbols[i]])
  }

  function Decode(ab: Alphabet, text: string): seq<Symbol>
    requires ab.Valid()
    requires AllIn(text, ab.sum)
  {
    seq(|text|, i requires 0 <= i < |text| => Find(ab.sum, text[i]))
  }

  /** descsum_create: concatenating to a failed expansion is a TypeError. */
  function DescsumCreate(ab: Alphabet, s: string): Result<string, Exception>
    requires ab.Valid()
  {
    if AllIn(s, ab.body) then
      Ok(s + "#" + Encode(ab, Digits(Checksum(Expand(ab.body, s)))))
    else Raise(TypeError)
  }

  /** descsum_check: a descriptor of fewer than nine characters has no `s[-9]`. */
  function DescsumCheck(ab: Alphabet, s: string, require: bool): Result<bool, Exception>
    requires ab.Valid()
  {
    if '#' !in s then Ok(!require)
    else if |s| < 9 then Raise(IndexError)
    else
      var body, sum := s[..|s| - 9], s[|s| - 8..];
      if s[|s| - 9] != '#' then Ok(false)
      else if !AllIn(sum, ab.sum) then Ok(false)
      else if !AllIn(body, ab.body) then Raise(TypeError)
      else Ok(Polymod(1, Expand(ab.body, body) + Decode(ab, sum)) == 1)
  }

  predicate Accepted(ab: Alphabet, s: string, require: bool)
    requires ab.Valid()
  {
    DescsumCheck(ab, s, require) == Ok(true)
  }

  lemma DecodeEncode(ab: Alphabet, symbols: seq<Symbol>)
    requires ab.Valid()
    ensures AllIn(Encode(ab, symbols), ab.sum)
    ensures Decode(ab, Encode(ab, symbols)) == symbols
  {
  }

  lemma EncodeDecode(ab: Alphabet, text: string)
    requires ab.Valid()
    requires AllIn(text, ab.sum)
    ensures Encode(ab, Decode(ab, text)) == text
  {}

  lemma {:induction false} PackDigits(checksum: nat, n: nat)
    requires n <= 8 && Fits(checksum)
    ensures Pack(Digits(checksum)[..n]) == Shr(checksum, 40 - 5 * n)
  {
    if n > 0 {
      PackDigits(checksum, n - 1);
      var d := Digits(checksum)[..n];
      assert d[..n - 1] == Digits(checksum)[..n - 1];
      ShrAdd(checksum, 40 - 5 * n, 5);
      Five(Shr(checksum, 40 - 5 * n));
    }
  }

  /** What descsum_check asks of a body and eight further characters. */
  predicate Passes(ab: Alphabet, body: string, sum: string)
    requires ab.Valid()
  {
    AllIn(sum, ab.sum) && Polymod(1, Expand(ab.body, body) + Decode(ab, sum)) == 1
  }

  lemma CheckSplit(ab: Alphabet, body: string, sum: string, require: bool)
    requires ab.Valid() && AllIn(body, ab.body) && |sum| == 8
    ensures DescsumCheck(ab, body + "#" + sum, require) == Ok(Passes(ab, body, sum))
  {
    var s := body + "#" + sum;
    assert s[|body|] == '#' && s[..|s| - 9] == body && s[|s| - 8..] == sum;
  }

  /** The remainder is one for exactly one choice of the last eight symbols. */
  lemma ChecksumSymbols(symbols: seq<Symbol>, sum: seq<Symbol>)
    requires |sum| == 8
    ensures Polymod(1, symbols + sum) == 1 <==> sum == Digits(Checksum(symbols))
  {
    var zero := Polymod(1, symbols + Zeros());
    var checksum := Checksum(symbols);
    PolymodAppend(1, symbols, sum);
    PolymodAppend(1, symbols, Zeros());
    LastEight(Polymod(1, symbols), sum);
    assert Polymod(1, symbols + sum) == Xor(zero, Pack(sum));
    XorAssoc(zero, zero, 1);
    XorSelf(zero);
    XorZero(1);
    if Xor(zero, Pack(sum)) == 1 {
      XorCancel(zero, Pack(sum), checksum);
    }
    ChecksumFits(symbols);
    PackDigits(checksum, 8);
    assert Digits(checksum)[..8] == Digits(checksum);
    if Pack(sum) == checksum {
      PackInjective(sum, Digits(checksum));
    }
  }

  lemma ChecksumFits(symbols: seq<Symbol>)
    ensures Fits(Checksum(symbols))
  {
    FitsOne();
    PolymodFits(1, symbols + Zeros());
    XorShr(Polymod(1, symbols + Zeros()), 1, 40);
    XorZero(0);
  }

  /** For a given body, the created checksum is accepted and no other eight characters are. */
  lemma ChecksumIsUnique(ab: Alphabet, body: string, sum: string, require: bool)
    requires ab.Valid()
    requires AllIn(body, ab.body) && |sum| == 8
    ensures Accepted(ab, body + "#" + sum, require) <==> DescsumCreate(ab, body) == Ok(body + "#" + sum)
  {
    var symbols := Expand(ab.body, body);
    var digits := Digits(Checksum(symbols));
    CheckSplit(ab, body, sum, require);
    DecodeEncode(ab, digits);
    if AllIn(sum, ab.sum) {
      ChecksumSymbols(symbols, Decode(ab, sum));
      EncodeDecode(ab, sum);
    }
    var created := body + "#" + Encode(ab, digits);
    assert created[|body| + 1..] == Encode(ab, digits);
    assert (body + "#" + sum)[|body| + 1..] == sum;
  }

  /** What descsum_create returns passes descsum_check. */
  lemma RoundTrip(ab: Alphabet, body: string, require: bool)
    requires ab.Valid()
    requires AllIn(body, ab.body)
    ensures DescsumCreate(ab, body).Ok? && Accepted(ab, DescsumCreate(ab, body).value, require)
  {
    ChecksumIsUnique(ab, body, Encode(ab, Digits(Checksum(Expand(ab.body, body)))), require);
  }

  lemma CheckedIsCreated(ab: Alphabet, s: string, require: bool) returns (body: string)
    requires ab.Valid() && Accepted(ab, s, require) && '#' in s
    ensures AllIn(body, ab.body) && DescsumCreate(ab, body) == Ok(s)
  {
    body := s[..|s| - 9];
    ChecksumAtEnd(s);
    ChecksumIsUnique(ab, body, s[|s| - 8..], require);
  }

  lemma ChecksumAtEnd(s: string)
    requires |s| >= 9 && s[|s| - 9] == '#'
    ensures s == s[..|s| - 9] + "#" + s[|s| - 8..]
  {
  }

  /** descsum_check says True exactly for what descsum_create returns, and for descriptors without a checksum where none is
      required. */
  lemma CheckedIff(ab: Alphabet, s: string, require: bool)
    requires ab.Valid()
    ensures Accepted(ab, s, require)
       <==> if '#' in s then exists body :: AllIn(body, ab.body) && DescsumCreate(ab, body) == Ok(s) else !require
  {
    if '#' in s {
      if Accepted(ab, s, require) {
        var body := CheckedIsCreated(ab, s, require);
      }
      if body :| AllIn(body, ab.body) && DescsumCreate(ab, body) == Ok(s) {
        RoundTrip(ab, body, require);
      }
    }
  }

  /** It raises exactly on a descriptor that is too short for a checksum, and on a foreign character in front of a checksum
      that can be read; without a number sign it never does. */
  lemma RaisesIff(ab: Alphabet, s: string, require: bool)
    requires ab.Valid()
    ensures DescsumCheck(ab, s, require) == Raise(IndexError) <==> '#' in s && |s| < 9
    ensures DescsumCheck(ab, s, require) == Raise(TypeError)
       <==> exists body, sum :: s == body + "#" + sum && |sum| == 8 && AllIn(sum, ab.sum) && !AllIn(body, ab.body)
  {
    if '#' in s && |s| >= 9 && s[|s| - 9] == '#' {
      assert s == s[..|s| - 9] + "#" + s[|s| - 8..];
    }
    if body, sum :| s == body + "#" + sum && |sum| == 8 && AllIn(sum, ab.sum) && !AllIn(body, ab.body) {
      assert s[|body|] == '#' && s[..|s| - 9] == body && s[|s| - 8..] == sum;
    }
  }

  // ---------------------------------------------------------------- error detection

  /** Two descriptors whose symbols differ within eight consecutive places are never both accepted. */
  lemma BurstRejected(ab: Alphabet, body: string, sum: string, body': string, sum': string, xs: seq<Symbol>,
                      u: seq<Symbol>, v: seq<Symbol>, rest: seq<Symbol>)
    requires ab.Valid() && AllIn(sum, ab.sum) && AllIn(sum', ab.sum)
    requires Expand(ab.body, body) + Decode(ab, sum) == xs + u + rest
    requires Expand(ab.body, body') + Decode(ab, sum') == xs + v + rest
    requires |u| == |v| == 8 && u != v
    ensures !(Passes(ab, body, sum) && Passes(ab, body', sum'))
  {
    BurstDetected(xs, u, v, rest);
  }

  lemma ExpandInThree(charset: Charset, p: string, m: string, q: string)
    requires |p| % 3 == 0 && (|m| % 3 == 0 || q == "")
    ensures Expand(charset, p + m + q) == Expand(charset, p) + Expand(charset, m) + Expand(charset, q)
  {
    ExpandAppend(charset, p, m);
    if q == "" {
      assert p + m + q == p + m;
    } else {
      ExpandAppend(charset, p + m, q);
    }
  }

  lemma ExpandLength(charset: Charset, s: string)
    requires |s| <= 6
    ensures |s| == 6 ==> |Expand(charset, s)| == 8
    ensures |Expand(charset, s)| <= 8
  {
    if |s| > 3 {
      assert |Expand(charset, s[3..])| == |s| - 3 + 1;
    }
  }

  /** Changing characters within two adjacent groups of three is always detected. */
  lemma TwoGroupsDetected(ab: Alphabet, p: string, m: string, m': string, q: string, sum: string)
    requires ab.Valid() && AllIn(m, ab.body) && AllIn(m', ab.body) && AllIn(sum, ab.sum) && |sum| == 8
    requires |p| % 3 == 0 && |m| == |m'| && m != m'
    requires |m| == 6 || (|m| < 6 && q == "")
    ensures !(Passes(ab, p + m + q, sum) && Passes(ab, p + m' + q, sum))
  {
    ExpandLength(ab.body, m);
    SameLength(ab.body, m, m');
    var n := 8 - |Expand(ab.body, m)|;
    var tail := Expand(ab.body, q) + Decode(ab, sum);
    var u, v := Expand(ab.body, m) + tail[..n], Expand(ab.body, m') + tail[..n];
    Windows(ab.body, p, m, q, Decode(ab, sum), n);
    Windows(ab.body, p, m', q, Decode(ab, sum), n);
    DifferentWindows(ab.body, m, m', tail[..n]);
    BurstRejected(ab, p + m + q, sum, p + m' + q, sum, Expand(ab.body, p), u, v, tail[n..]);
  }

  lemma DifferentWindows(charset: Charset, m: string, m': string, t: seq<Symbol>)
    requires |m| == |m'| && m != m' && AllIn(m, charset) && AllIn(m', charset)
    requires |Expand(charset, m)| == |Expand(charset, m')|
    ensures Expand(charset, m) + t != Expand(charset, m') + t
  {
    var x, y := Expand(charset, m), Expand(charset, m');
    assert x == (x + t)[..|x|] && y == (y + t)[..|x|];
    if x == y {
      ExpandInjective(charset, m, m');
    }
  }

  lemma Windows(charset: Charset, p: string, m: string, q: string, d: seq<Symbol>, n: nat)
    requires |p| % 3 == 0 && (|m| % 3 == 0 || q == "") && n <= |d|
    ensures n <= |Expand(charset, q) + d|
    ensures Expand(charset, p + m + q) + d ==
            Expand(charset, p) + (Expand(charset, m) + (Expand(charset, q) + d)[..n]) + (Expand(charset, q) + d)[n..]
  {
    ExpandInThree(charset, p, m, q);
    Regroup(Expand(charset, p), Expand(charset, m), Expand(charset, q), d, n);
  }

  lemma Regroup(a: seq<Symbol>, b: seq<Symbol>, c: seq<Symbol>, d: seq<Symbol>, n: nat)
    requires n <= |d|
    ensures a + b + c + d == a + (b + (c + d)[..n]) + (c + d)[n..]
  {}

  lemma SameLength(charset: Charset, s: string, t: string)
    requires |s| == |t|
    ensures |Expand(charset, s)| == |Expand(charset, t)|
  {
    if |s| > 3 {
      SameLength(charset, s[3..], t[3..]);
    }
  }

  /** Changing any characters of the body within four consecutive places is always detected; one
      replaced character is the case of a single place. */
  lemma FourCharactersDetected(ab: Alphabet, body: string, body': string, i: nat, sum: string, require: bool)
    requires ab.Valid() && AllIn(body, ab.body) && AllIn(body', ab.body) && |sum| == 8
    requires |body| == |body'| && body != body' && i < |body|
    requires forall j :: 0 <= j < |body| && !(i <= j < i + 4) ==> body[j] == body'[j]
    ensures Accepted(ab, body + "#" + sum, require) ==> DescsumCheck(ab, body' + "#" + sum, require) == Ok(false)
  {
    CheckSplit(ab, body, sum, require);
    CheckSplit(ab, body', sum, require);
    if AllIn(sum, ab.sum) {
      var a := GroupStart(i);
      var p, m, m', q := SplitAround(ab.body, body, body', a);
      TwoGroupsDetected(ab, p, m, m', q, sum);
    }
  }

  lemma GroupStart(i: nat) returns (a: nat)
    ensures a % 3 == 0 && a <= i < a + 3
  {
    a := i - i % 3;
  }

  lemma SplitAround(charset: Charset, s: string, t: string, a: nat)
    returns (p: string, m: string, m': string, q: string)
    requires |s| == |t| && a <= |s| && s != t && AllIn(s, charset) && AllIn(t, charset)
    requires forall j :: 0 <= j < |s| && !(a <= j < a + 6) ==> s[j] == t[j]
    ensures |p| == a && |m| == |m'| && m != m' && (|m| == 6 || (|m| < 6 && q == ""))
    ensures AllIn(p, charset) && AllIn(m, charset) && AllIn(m', charset) && AllIn(q, charset)
    ensures s == p + m + q && t == p + m' + q
  {
    var b := if a + 6 <= |s| then a + 6 else |s|;
    p, m, m', q := s[..a], s[a..b], t[a..b], s[b..];
    assert t[..a] == p && t[b..] == q;
    assert t == t[..a] + t[a..b] + t[b..];
    assert s == p + m + q;
    assert m == m' ==> s == t;
  }
}
