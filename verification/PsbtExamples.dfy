/** Inputs on which the results about signing apply: a way to write runestones that can be read back, a deposit and a
    wallet. */
module PsbtExamples {
  import opened Wrappers
  import opened Transactions
  import opened RuneAllocation
  import opened CoinSelection
  import opened RunePsbt
  import opened PsbtValidation

  // ---------------------------------------------------------------- writing runestones

  /** Seven bits to a byte, the lowest first; all bytes but the last have their top bit set. */
  function Varint(n: nat): Script
  {
    if n < 128 then [n] else [n % 128 + 128] + Varint(n / 128)
  }

  /** The number and what follows it can be told apart. */
  lemma {:induction false} VarintSplits(m: nat, s: Script, n: nat, t: Script)
    requires Varint(m) + s == Varint(n) + t
    ensures m == n && s == t
  {
    assert (Varint(m) + s)[0] == Varint(m)[0] && (Varint(n) + t)[0] == Varint(n)[0];
    if m < 128 {
      assert s == (Varint(m) + s)[1..] && t == (Varint(n) + t)[1..];
    } else {
      assert (Varint(m) + s)[1..] == Varint(m / 128) + s && (Varint(n) + t)[1..] == Varint(n / 128) + t;
      VarintSplits(m / 128, s, n / 128, t);
    }
  }

  function WriteEdict(e: Edict): Script
  {
    Varint(e.id.block) + (Varint(e.id.tx) + (Varint(e.amount) + Varint(e.output)))
  }

  function WriteEdicts(edicts: seq<Edict>): Script
  {
    if edicts == [] then [] else WriteEdict(edicts[0]) + WriteEdicts(edicts[1..])
  }

  const DEFAULT_OUTPUT_TAG: Byte := 22

  function WritePayload(stone: Runestone): Script
  {
    (if stone.pointer.Some? then [DEFAULT_OUTPUT_TAG] + Varint(stone.pointer.value) else []) + ([0] + WriteEdicts(stone.edicts))
  }

  const OP_13: Byte := 93

  /** A runestone in its output; with one edict these are the bytes of the protocol. */
  function Write(stone: Runestone): Script
  {
    [OP_RETURN, OP_13] + (Varint(|WritePayload(stone)|) + WritePayload(stone))
  }

  lemma EdictSplits(d: Edict, s: Script, e: Edict, t: Script)
    requires WriteEdict(d) + s == WriteEdict(e) + t
    ensures d == e && s == t
  {
    assert WriteEdict(d) + s == Varint(d.id.block) + (Varint(d.id.tx) + (Varint(d.amount) + (Varint(d.output) + s)));
    assert WriteEdict(e) + t == Varint(e.id.block) + (Varint(e.id.tx) + (Varint(e.amount) + (Varint(e.output) + t)));
    VarintSplits(d.id.block, Varint(d.id.tx) + (Varint(d.amount) + (Varint(d.output) + s)),
                 e.id.block, Varint(e.id.tx) + (Varint(e.amount) + (Varint(e.output) + t)));
    VarintSplits(d.id.tx, Varint(d.amount) + (Varint(d.output) + s), e.id.tx, Varint(e.amount) + (Varint(e.output) + t));
    VarintSplits(d.amount, Varint(d.output) + s, e.amount, Varint(e.output) + t);
    VarintSplits(d.output, s, e.output, t);
  }

  lemma {:induction false} EdictsDiffer(ds: seq<Edict>, es: seq<Edict>)
    requires WriteEdicts(ds) == WriteEdicts(es)
    ensures ds == es
  {
    if ds != [] && es != [] {
      EdictSplits(ds[0], WriteEdicts(ds[1..]), es[0], WriteEdicts(es[1..]));
      EdictsDiffer(ds[1..], es[1..]);
      assert ds == [ds[0]] + ds[1..] && es == [es[0]] + es[1..];
    }
  }

  lemma PayloadsDiffer(a: Runestone, b: Runestone)
    requires WritePayload(a) == WritePayload(b)
    ensures a == b
  {
    var s, t := [0] + WriteEdicts(a.edicts), [0] + WriteEdicts(b.edicts);
    assert a.pointer.Some? ==> WritePayload(a) == [DEFAULT_OUTPUT_TAG] + (Varint(a.pointer.value) + s);
    assert b.pointer.Some? ==> WritePayload(b) == [DEFAULT_OUTPUT_TAG] + (Varint(b.pointer.value) + t);
    assert a.pointer == None ==> WritePayload(a) == s;
    assert b.pointer == None ==> WritePayload(b) == t;
    assert a.pointer.Some? == b.pointer.Some? by {
      assert WritePayload(a)[0] == if a.pointer.Some? then DEFAULT_OUTPUT_TAG else 0;
      assert WritePayload(b)[0] == if b.pointer.Some? then DEFAULT_OUTPUT_TAG else 0;
    }
    if a.pointer.Some? {
      assert WritePayload(a)[1..] == Varint(a.pointer.value) + s && WritePayload(b)[1..] == Varint(b.pointer.value) + t;
      VarintSplits(a.pointer.value, s, b.pointer.value, t);
    }
    assert s[1..] == WriteEdicts(a.edicts) && t[1..] == WriteEdicts(b.edicts);
    EdictsDiffer(a.edicts, b.edicts);
  }

  /** Different runestones are written differently. */
  lemma WritingIsInjective(a: Runestone, b: Runestone)
    requires Write(a) == Write(b)
    ensures a == b
  {
    assert Write(a)[2..] == Varint(|WritePayload(a)|) + WritePayload(a);
    assert Write(b)[2..] == Varint(|WritePayload(b)|) + WritePayload(b);
    VarintSplits(|WritePayload(a)|, WritePayload(a), |WritePayload(b)|, WritePayload(b));
    PayloadsDiffer(a, b);
  }

  ghost predicate Writes(s: Script, stone: Runestone)
  {
    Write(stone) == s
  }

  ghost function Read(s: Script): Option<Runestone>
  {
    if exists stone :: Writes(s, stone) then
      var stone :| Writes(s, stone);
      Some(stone)
    else None
  }

  ghost function ExampleCodec(): Codec
  {
    Codec(Write, s => Read(s))
  }

  lemma ReadsBack(stone: Runestone)
    ensures Read(Write(stone)) == Some(stone)
  {
    assert Writes(Write(stone), stone);
    WritingIsInjective(stone, Read(Write(stone)).value);
  }

  /** So there is a way to write runestones as the results on PSBTs require. */
  lemma ExampleRoundTrips()
    ensures RoundTrips(ExampleCodec())
  {
    forall stone
      ensures IsOpReturn(ExampleCodec().encipher(stone)) && ExampleCodec().decipher(Write(stone)) == Some(stone)
    {
      ReadsBack(stone);
    }
  }

  // ---------------------------------------------------------------- a deposit

  /** The script of a P2WPKH address. */
  function ReceiverScript(): Script
  {
    [0, 20] + seq(20, i => 0)
  }

  /** A federator that has accepted one deposit of `net` units. */
  ghost function ExampleView(net: nat): View
  {
    View((txHash, logIndex) => Some(Deposit(Accepted, "receiver", net, 0)), name => Some(0), address => Some(ReceiverScript()),
         Ord(o => Some(map[0 := net]), rune => Some(RuneId(840_000, 1))), ExampleCodec())
  }

  function ExampleRequest(net: nat): Request
  {
    Request("event", 0, "receiver", "RUNE", 0, net)
  }

  /** So for every amount and pointer there is an input that is signed. */
  lemma ExampleIsSignable(net: nat, pointer: nat)
    requires pointer <= FIRST_RUNE_OUTPUT
    ensures Signable(ExampleView(net), ExampleRequest(net), pointer)
  {
    ReadsBack(Runestone([SignedEdict(ExampleView(net), ExampleRequest(net))], Some(pointer)));
  }

  // ---------------------------------------------------------------- exact funding

  /** A one-of-one multisig, and its change script of P2WSH. */
  function ExampleWallet(): Wallet
  {
    Wallet([0, 32] + seq(32, i => 0), "multisig", 7, Multisig(1, 37), 1)
  }

  function ExampleUtxo(amount: int): Utxo
  {
    Utxo(Outpoint("deposit", 0), amount, "multisig", 6, true, Some({7}))
  }

  /** The outputs of the example without a change output. */
  ghost function ExampleOutputs(net: nat): seq<TxOut>
  {
    [ TxOut(0, Write(LeaderStone(net))), TxOut(TARGET_POSTAGE_SAT, ExampleWallet().changeScript),
      TxOut(TARGET_POSTAGE_SAT, ReceiverScript()) ]
  }

  ghost function LeaderStone(net: nat): Runestone
  {
    Runestone([SignedEdict(ExampleView(net), ExampleRequest(net))], Some(RUNE_CHANGE_OUTPUT))
  }

  lemma {:induction false} VarintLength(n: nat, bytes: nat, bound: nat)
    requires n < bound && bound == Power128(bytes) && bytes > 0
    ensures |Varint(n)| <= bytes
    decreases bytes
  {
    if n >= 128 {
      SmallerQuotient(n, Power128(bytes - 1));
      VarintLength(n / 128, bytes - 1, Power128(bytes - 1));
    }
  }

  lemma SmallerQuotient(n: nat, bound: nat)
    requires n < 128 * bound
    ensures n / 128 < bound
  {
  }

  function Power128(bytes: nat): nat
  {
    if bytes == 0 then 1 else 128 * Power128(bytes - 1)
  }

  /** Amounts of 128 bits have at most 19 bytes, so that the script has at most 32. */
  lemma ScriptLength(net: nat)
    requires net < Power128(19)
    ensures |Write(LeaderStone(net))| <= 32
  {
    VarintLength(net, 19, Power128(19));
    var e := SignedEdict(ExampleView(net), ExampleRequest(net));
    assert Varint(840_000) == [840_000 % 128 + 128] + ([6562 % 128 + 128] + [51]);
    assert |WriteEdict(e)| == 3 + 1 + |Varint(net)| + 1;
    assert [e][1..] == [];
    assert |WriteEdicts([e])| == |WriteEdict(e)|;
  }

  lemma ThreeOutputs(a: TxOut, b: TxOut, c: TxOut)
    ensures OutputsSize([a, b, c]) == OutputSize(a) + OutputSize(b) + OutputSize(c)
  {
    assert [a, b, c][..2] == [a, b] && [a, b][..1] == [a] && [a][..0] == [];
    assert OutputsSize([a]) == OutputSize(a);
    assert OutputsSize([a, b]) == OutputsSize([a]) + OutputSize(b);
  }

  /** One input, one signature of 71 bytes, a redeem script of 37 bytes, and few outputs of `size` bytes in all. */
  lemma SmallTransaction(outs: seq<TxOut>, size: nat)
    requires |outs| < 253 && OutputsSize(outs) == size
    ensures VirtualSize(1, outs, Multisig(1, 37)) == 80 + size
  {
    assert WitnessSize(Multisig(1, 37)) == 112;
  }

  /** The transaction of the example has 163 bytes besides the runestone, and 43 more with a change output. */
  lemma ExampleSizes(net: nat, n: nat)
    requires n == |Write(LeaderStone(net))| <= 32
    ensures var outs := ExampleOutputs(net);
            && VirtualSize(1, outs, Multisig(1, 37)) == 163 + n
            && VirtualSize(1, outs + [TxOut(1, ExampleWallet().changeScript)], Multisig(1, 37)) == 206 + n
  {
    var outs, out := ExampleOutputs(net), TxOut(1, ExampleWallet().changeScript);
    ThreeOutputs(outs[0], outs[1], outs[2]);
    assert OutputSize(outs[0]) == 9 + n && OutputSize(outs[1]) == 43 && OutputSize(outs[2]) == 31 && OutputSize(out) == 43;
    assert (outs + [out])[..3] == outs;
    SmallTransaction(outs, 83 + n);
    SmallTransaction(outs + [out], 126 + n);
  }

  lemma ExampleSelects(net: nat, amount: int)
    requires net > 0
    ensures var w, u, v := ExampleWallet(), ExampleUtxo(amount), ExampleView(net);
            ListUtxos([u]) == [u] && SelectRunes(w, v.ord, map[0 := net], [u]) == Ok([u])
  {
    var w, u, v := ExampleWallet(), ExampleUtxo(amount), ExampleView(net);
    var required: map<Rune, int> := map[0 := net];
    assert [u][..0] == [] && [u][1..] == [];
    assert ListUtxos([u]) == InsertUtxo(ListUtxos([u][..0]), u) == [u];
    assert Balance(v.ord, 0, u) == net;
    assert HoldsAny(v.ord, required, u);
    assert Spend(v.ord, required, u) == map[0 := 0];
  }

  /** What create_rune_psbt makes of one output that holds the rune and is worth exactly outputs and fee. */
  lemma ExampleIsCreated(net: nat, amount: int)
    requires net > 0
    requires amount == TotalValue(ExampleOutputs(net)) + Fee(ExampleWallet(), Target(ExampleOutputs(net), 1), 1)
    ensures var v := ExampleView(net);
            Create(ExampleWallet(), v.ord, v.codec.encipher, [ExampleUtxo(amount)], [LeaderTransfer(v, ExampleRequest(net))],
                   1, 200) == Ok(PsbtValue([ExampleUtxo(amount)], ExampleOutputs(net)))
  {
    var w, u, v, outs := ExampleWallet(), ExampleUtxo(amount), ExampleView(net), ExampleOutputs(net);
    var t := LeaderTransfer(v, ExampleRequest(net));
    assert [t][..0] == [] && [u][..0] == [] && [u][1..] == [];
    assert CheckTransfers(v.ord, [t]) == None;
    assert RuneOutputs(v.ord, [t]) == RuneOutputs(v.ord, [t][..0]) + [outs[2]];
    assert Edicts(v.ord, [t]) == Edicts(v.ord, [t][..0]) + [SignedEdict(v, ExampleRequest(net))];
    assert Edicts(v.ord, [t]) == LeaderStone(net).edicts;
    assert v.codec.encipher(LeaderStone(net)) == Write(LeaderStone(net));
    assert Outputs(w, v.ord, v.codec.encipher, [t]) == outs;
    assert Required([t]) == Add(Required([t][..0]), 0, net) == map[0 := net];
    ExampleSelects(net, amount);
    assert Sats([u]) == u.amount + Sats([]);
    assert Funded(w, Target(outs, 1), 1, Sats([u]));
    assert [u] + [] == [u];
  }

  /** An input on which the leader's own PSBT is refused: exact funding, no change output, and a small transaction. */
  lemma ExactFundingIsRejected(net: nat) returns (amount: int, p: PsbtValue)
    requires 0 < net < Power128(19)
    ensures RoundTrips(ExampleCodec())
    ensures var w, v, q := ExampleWallet(), ExampleView(net), ExampleRequest(net);
            && Create(w, v.ord, v.codec.encipher, [ExampleUtxo(amount)], [LeaderTransfer(v, q)], 1, 200) == Ok(p)
            && |p.outputs| == 3
            && Validate(w, v, [q], p, 1, 1, 1) == Some(FeeTooHigh)
  {
    var w, v, q := ExampleWallet(), ExampleView(net), ExampleRequest(net);
    var outs, n := ExampleOutputs(net), |Write(LeaderStone(net))|;
    ScriptLength(net);
    ExampleSizes(net, n);
    amount := TotalValue(outs) + 206 + n;
    p := PsbtValue([ExampleUtxo(amount)], outs);
    ExampleIsCreated(net, amount);
    ExampleRoundTrips();
    LeaderPsbtChecks(w, w, v, [ExampleUtxo(amount)], q, 1, 200, 1, 1, p);
  }
}
