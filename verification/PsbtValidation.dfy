/** What a federator checks before it signs a PSBT that moves runes back to Bitcoin, and how these checks
    meet the PSBTs and the fee rate of the leader. */
module PsbtValidation {
  import opened Wrappers
  import opened Transactions
  import opened RuneAllocation
  import opened CoinSelection
  import opened RunePsbt

  datatype Request = Request(
    eventTxHash: string,
    eventLogIndex: int,
    receiver: string,
    runeName: string,
    runeNumber: Rune,
    netAmount: int)

  datatype DepositStatus = Accepted | SendingToBtc | SentToBtc | SendingToBtcFailed

  datatype Deposit = Deposit(status: DepositStatus, receiver: string, netAmount: int, runeNumber: Rune)

  /** What a federator sees and parses on its own: its deposits by event, the number of a rune name, the script of
      an address. */
  datatype View = View(
    deposits: (string, int) -> Option<Deposit>,
    runeOf: string -> Option<Rune>,
    scriptOf: string -> Option<Script>,
    ord: Ord,
    codec: Codec)

  datatype Violation =
    | DuplicateTransfers
    | NoDeposit
    | NotAccepted
    | ReceiverMismatch
    | AmountMismatch
    | InvalidRuneName
    | RuneMismatch
    | NoRunestone
    | Cenotaph
    | WrongNumberOfOutputs
    | WrongRunestoneOutput
    | WrongRuneChangeOutput
    | WrongChangeOutput
    | WrongNumberOfEdicts
    | UnknownRune
    | WrongEdict
    | WrongPostage
    | InvalidAddress
    | WrongReceiver
    | FeeRateOutOfRange
    | FeeTooHigh
    | FeeTooLow

  // ---------------------------------------------------------------- the transfers

  predicate HasDuplicates(requests: seq<Request>)
  {
    exists i, j :: 0 <= i < j < |requests|
      && requests[i].eventTxHash == requests[j].eventTxHash && requests[i].eventLogIndex == requests[j].eventLogIndex
  }

  function CheckRequest(v: View, q: Request): Option<Violation>
  {
    match v.deposits(q.eventTxHash, q.eventLogIndex)
    case None => Some(NoDeposit)
    case Some(d) =>
      if d.status != Accepted then Some(NotAccepted)
      else if d.receiver != q.receiver then Some(ReceiverMismatch)
      else if d.netAmount != q.netAmount then Some(AmountMismatch)
      else
        match v.runeOf(q.runeName)
        case None => Some(InvalidRuneName)
        case Some(n) => if d.runeNumber != n || n != q.runeNumber then Some(RuneMismatch) else None
  }

  function CheckRequests(v: View, requests: seq<Request>): Option<Violation>
  {
    if requests == [] then None
    else
      var first := CheckRequest(v, requests[0]);
      if first.Some? then first else CheckRequests(v, requests[1..])
  }

  // ---------------------------------------------------------------- the outputs

  function CheckOutputs(w: Wallet, v: View, outs: seq<TxOut>, stone: Runestone, n: nat): Option<Violation>
  {
    if |outs| != n + 2 && |outs| != n + 3 then Some(WrongNumberOfOutputs)
    else if outs[0].value != 0 || outs[0].script != v.codec.encipher(stone) then Some(WrongRunestoneOutput)
    else if outs[1].value != TARGET_POSTAGE_SAT || outs[1].script != w.changeScript then Some(WrongRuneChangeOutput)
    else if |outs| == n + 3 && outs[|outs| - 1].script != w.changeScript then Some(WrongChangeOutput)
    else if |stone.edicts| != n then Some(WrongNumberOfEdicts)
    else None
  }

  /** The transfer paid by output `vout`. Whatever the transfer, it is the first edict that is looked at. */
  function CheckTransferOutput(v: View, outs: seq<TxOut>, stone: Runestone, q: Request, vout: nat): Option<Violation>
    requires |stone.edicts| > 0 && vout < |outs|
  {
    var edict := stone.edicts[0];
    match v.runeOf(q.runeName)
    case None => Some(UnknownRune)
    case Some(rune) =>
      if v.ord.ids(rune) == None then Some(UnknownRune)
      else if edict.amount != q.netAmount || Some(edict.id) != v.ord.ids(rune) || edict.output != vout then Some(WrongEdict)
      else if outs[vout].value != TARGET_POSTAGE_SAT then Some(WrongPostage)
      else if v.scriptOf(q.receiver) == None then Some(InvalidAddress)
      else if Some(outs[vout].script) != v.scriptOf(q.receiver) then Some(WrongReceiver)
      else None
  }

  function CheckTransferOutputs(v: View, outs: seq<TxOut>, stone: Runestone, requests: seq<Request>, i: nat): Option<Violation>
    requires |stone.edicts| == |requests| && i <= |requests| && |requests| + 2 <= |outs|
    decreases |requests| - i
  {
    if i == |requests| then None
    else
      var first := CheckTransferOutput(v, outs, stone, requests[i], i + 2);
      if first.Some? then first else CheckTransferOutputs(v, outs, stone, requests, i + 1)
  }

  // ---------------------------------------------------------------- the fee

  function Max(a: int, b: int): int
  {
    if a < b then b else a
  }

  const FEE_RATE_MARGIN := 3

  /** The own estimate and the least rate decide which rates of the leader are acceptable. */
  predicate RateInWindow(estimate: int, minRate: int, rate: int)
  {
    Max(estimate / FEE_RATE_MARGIN, minRate) <= rate <= Max(estimate, minRate) * FEE_RATE_MARGIN
  }

  /** The fee has to lie within a factor of 11/10 of the rate times the size. */
  function CheckFee(size: int, rate: int, fee: int): Option<Violation>
  {
    if 10 * fee >= 11 * (size * rate) then Some(FeeTooHigh)
    else if 11 * fee < 10 * (size * rate) then Some(FeeTooLow)
    else None
  }

  function CheckFees(w: Wallet, p: PsbtValue, rate: int, estimate: int, minRate: int): Option<Violation>
  {
    if !RateInWindow(estimate, minRate, rate) then Some(FeeRateOutOfRange)
    else CheckFee(VirtualSize(|p.inputs|, p.outputs, w.multisig), rate, PaidFee(p))
  }

  // ---------------------------------------------------------------- all checks

  function CheckStructure(w: Wallet, v: View, requests: seq<Request>, p: PsbtValue): Option<Violation>
  {
    match RunestoneOf(v.codec, p.outputs)
    case None => Some(NoRunestone)
    case Some(stone) =>
      if IsCenotaph(p.outputs, stone) then Some(Cenotaph)
      else
        var wrong := CheckOutputs(w, v, p.outputs, stone, |requests|);
        if wrong.Some? then wrong else CheckTransferOutputs(v, p.outputs, stone, requests, 0)
  }

  /** The first violation, or none: then the federator signs. */
  function Validate(w: Wallet, v: View, requests: seq<Request>, p: PsbtValue, rate: int, estimate: int, minRate: int)
    : Option<Violation>
  {
    if HasDuplicates(requests) then Some(DuplicateTransfers)
    else if CheckRequests(v, requests).Some? then CheckRequests(v, requests)
    else if CheckStructure(w, v, requests, p).Some? then CheckStructure(w, v, requests, p)
    else CheckFees(w, p, rate, estimate, minRate)
  }

  // ---------------------------------------------------------------- one transfer only

  /** Every transfer is compared with the first edict, and that has one output only. */
  lemma NextOutputRejected(v: View, outs: seq<TxOut>, stone: Runestone, requests: seq<Request>)
    requires |stone.edicts| == |requests| >= 2 && |requests| + 2 <= |outs|
    ensures CheckTransferOutputs(v, outs, stone, requests, 0).Some?
  {
    var first := CheckTransferOutput(v, outs, stone, requests[0], 2);
    var second := CheckTransferOutput(v, outs, stone, requests[1], 3);
    assert first == None ==> second.Some?;
  }

  lemma AtMostOne(w: Wallet, v: View, requests: seq<Request>, p: PsbtValue)
    ensures CheckStructure(w, v, requests, p) == None ==> |requests| <= 1
  {
    var stone := RunestoneOf(v.codec, p.outputs);
    if stone.Some? && CheckOutputs(w, v, p.outputs, stone.value, |requests|) == None && |requests| >= 2 {
      NextOutputRejected(v, p.outputs, stone.value, requests);
    }
  }

  /** A message with several transfers is never signed. */
  lemma SeveralTransfersRejected(w: Wallet, v: View, requests: seq<Request>, p: PsbtValue, rate: int, estimate: int, minRate: int)
    requires |requests| >= 2
    ensures Validate(w, v, requests, p, rate, estimate, minRate).Some?
  {
    AtMostOne(w, v, requests, p);
  }

  // ---------------------------------------------------------------- what a signature vouches for

  /** A signed message is about a deposit that the federator itself has accepted, and the only edict moves the
      deposit's net amount of its rune to the output that pays the deposit's receiver. */
  lemma SignedIsSeen(w: Wallet, v: View, q: Request, p: PsbtValue, rate: int, estimate: int, minRate: int)
    requires Validate(w, v, [q], p, rate, estimate, minRate) == None
    ensures v.deposits(q.eventTxHash, q.eventLogIndex).Some?
    ensures var d := v.deposits(q.eventTxHash, q.eventLogIndex).value;
            && d.status == Accepted
            && v.ord.ids(d.runeNumber).Some? && d.netAmount >= 0
            && RunestoneOf(v.codec, p.outputs).Some?
            && RunestoneOf(v.codec, p.outputs).value.edicts
               == [Edict(v.ord.ids(d.runeNumber).value, d.netAmount, FIRST_RUNE_OUTPUT)]
            && v.scriptOf(d.receiver).Some? && |p.outputs| >= 3
            && p.outputs[FIRST_RUNE_OUTPUT] == TxOut(TARGET_POSTAGE_SAT, v.scriptOf(d.receiver).value)
            && p.outputs[RUNE_CHANGE_OUTPUT] == TxOut(TARGET_POSTAGE_SAT, w.changeScript)
  {
    var stone := RunestoneOf(v.codec, p.outputs).value;
    assert CheckRequests(v, [q]) == None;
    assert CheckRequest(v, q) == None;
    assert CheckTransferOutput(v, p.outputs, stone, [q][0], 2) == None;
    assert stone.edicts == [stone.edicts[0]];
  }

  /** The only edict of a signed PSBT. */
  function SignedEdict(v: View, q: Request): Edict
    requires v.ord.ids(q.runeNumber).Some? && q.netAmount >= 0
  {
    Edict(v.ord.ids(q.runeNumber).value, q.netAmount, FIRST_RUNE_OUTPUT)
  }

  /** Where the runes of a signed PSBT go: what the edict gives to the receiver, the rest to the default output. */
  lemma SignedAllocation(w: Wallet, v: View, q: Request, p: PsbtValue, rate: int, estimate: int, minRate: int,
                         id: RuneId, total: nat)
    requires Validate(w, v, [q], p, rate, estimate, minRate) == None
    ensures v.ord.ids(q.runeNumber).Some? && q.netAmount >= 0 && RunestoneOf(v.codec, p.outputs).Some?
    ensures var outs, stone := p.outputs, RunestoneOf(v.codec, p.outputs).value;
            var r, units := Allocate(outs, stone, id, total).outputs, Gets(SignedEdict(v, q), id, total);
            && 3 <= |r| == |outs| <= 4 && !IsCenotaph(outs, stone)
            && forall o :: 0 <= o < |outs| ==>
                 r[o] == if IsOpReturn(outs[o].script) then 0
                         else (if o == FIRST_RUNE_OUTPUT then units else 0)
                                + (if o == DefaultOutput(outs, stone) then total - units else 0)
  {
    SignedIsSeen(w, v, q, p, rate, estimate, minRate);
    assert CheckRequest(v, q) == None;
    OneEdictAllocates(p.outputs, RunestoneOf(v.codec, p.outputs).value, SignedEdict(v, q), id, total);
  }

  /** Neither the runes in the inputs nor the pointer nor a zero amount are checked. Of the rune of the request the
      receiver gets exactly the net amount if and only if the inputs hold exactly that, or they hold more, the amount
      is not zero and the runestone does not point to the receiver. */
  lemma SignedPaysExactlyIff(w: Wallet, v: View, q: Request, p: PsbtValue, rate: int, estimate: int, minRate: int, total: nat)
    requires Validate(w, v, [q], p, rate, estimate, minRate) == None
    requires !IsOpReturn(w.changeScript)
    requires v.scriptOf(q.receiver).Some? && !IsOpReturn(v.scriptOf(q.receiver).value)
    ensures v.ord.ids(q.runeNumber).Some? && RunestoneOf(v.codec, p.outputs).Some? && |p.outputs| >= 3
    ensures var stone := RunestoneOf(v.codec, p.outputs).value;
            var r := Allocate(p.outputs, stone, v.ord.ids(q.runeNumber).value, total).outputs;
            && |r| == |p.outputs|
            && (r[FIRST_RUNE_OUTPUT] == q.netAmount <==>
                  || total == q.netAmount
                  || (0 < q.netAmount < total && stone.pointer != Some(FIRST_RUNE_OUTPUT)))
  {
    SignedIsSeen(w, v, q, p, rate, estimate, minRate);
    assert CheckRequest(v, q) == None;
    SignedAllocation(w, v, q, p, rate, estimate, minRate, v.ord.ids(q.runeNumber).value, total);
    assert FirstDestination(p.outputs, 0) <= RUNE_CHANGE_OUTPUT;
  }

  /** Units in the outputs that pay the script `s`. */
  function UnitsPaidTo(outs: seq<TxOut>, held: seq<nat>, s: Script): nat
    requires |held| == |outs|
  {
    if outs == [] then 0
    else
      var last := |outs| - 1;
      UnitsPaidTo(outs[..last], held[..last], s) + if outs[last].script == s then held[last] else 0
  }

  lemma UnitsOfFew(outs: seq<TxOut>, held: seq<nat>, s: Script)
    requires 3 <= |held| == |outs| <= 4
    ensures UnitsPaidTo(outs, held, s)
         == (if outs[0].script == s then held[0] else 0) + (if outs[1].script == s then held[1] else 0)
              + (if outs[2].script == s then held[2] else 0)
              + (if |outs| == 4 && outs[3].script == s then held[3] else 0)
  {
    assert outs[..1][..0] == [] && outs[..2][..1] == outs[..1] && outs[..3][..2] == outs[..2];
    assert held[..1][..0] == [] && held[..2][..1] == held[..1] && held[..3][..2] == held[..2];
    assert UnitsPaidTo(outs[..1], held[..1], s) == if outs[0].script == s then held[0] else 0;
    assert UnitsPaidTo(outs[..2], held[..2], s)
        == UnitsPaidTo(outs[..1], held[..1], s) + if outs[1].script == s then held[1] else 0;
    assert UnitsPaidTo(outs[..3], held[..3], s)
        == UnitsPaidTo(outs[..2], held[..2], s) + if outs[2].script == s then held[2] else 0;
    assert |outs| == 3 ==> outs[..3] == outs && held[..3] == held;
  }

  /** What one signature can take from the multisig, of every rune: what the edict gives, and all the rest, including
      all of the other runes, exactly if the runestone points to the receiver or to its own OP_RETURN, which burns it. */
  lemma RunesTaken(w: Wallet, v: View, q: Request, p: PsbtValue, rate: int, estimate: int, minRate: int, id: RuneId, total: nat)
    requires Validate(w, v, [q], p, rate, estimate, minRate) == None && RoundTrips(v.codec)
    requires !IsOpReturn(w.changeScript) && v.scriptOf(q.receiver).Some?
    requires !IsOpReturn(v.scriptOf(q.receiver).value) && v.scriptOf(q.receiver).value != w.changeScript
    ensures v.ord.ids(q.runeNumber).Some? && q.netAmount >= 0 && RunestoneOf(v.codec, p.outputs).Some?
    ensures var stone := RunestoneOf(v.codec, p.outputs).value;
            var r, units := Allocate(p.outputs, stone, id, total).outputs, Gets(SignedEdict(v, q), id, total);
            && |r| == |p.outputs|
            && total - UnitsPaidTo(p.outputs, r, w.changeScript)
            == if stone.pointer in {Some(0), Some(FIRST_RUNE_OUTPUT)} then total else units
  {
    SignedIsSeen(w, v, q, p, rate, estimate, minRate);
    assert CheckRequest(v, q) == None;
    var stone := RunestoneOf(v.codec, p.outputs).value;
    SignedAllocation(w, v, q, p, rate, estimate, minRate, id, total);
    SignedShape(w, v, q, p, stone);
    assert FirstDestination(p.outputs, 0) == RUNE_CHANGE_OUTPUT;
    UnitsOfFew(p.outputs, Allocate(p.outputs, stone, id, total).outputs, w.changeScript);
  }

  lemma SignedShape(w: Wallet, v: View, q: Request, p: PsbtValue, stone: Runestone)
    requires CheckStructure(w, v, [q], p) == None && RunestoneOf(v.codec, p.outputs) == Some(stone) && RoundTrips(v.codec)
    ensures 3 <= |p.outputs| <= 4 && IsOpReturn(p.outputs[0].script)
    ensures p.outputs[1].script == w.changeScript && (|p.outputs| == 4 ==> p.outputs[3].script == w.changeScript)
  {
    assert IsOpReturn(v.codec.encipher(stone));
  }

  // ---------------------------------------------------------------- each way to pay the receiver wrongly

  /** The request is about an accepted deposit, and the runestone with this pointer can be read back. */
  ghost predicate Signable(v: View, q: Request, pointer: nat)
  {
    && CheckRequest(v, q) == None && q.netAmount >= 0 && v.ord.ids(q.runeNumber).Some?
    && v.scriptOf(q.receiver).Some? && !IsOpReturn(v.scriptOf(q.receiver).value)
    && pointer <= FIRST_RUNE_OUTPUT
    && var stone := Runestone([SignedEdict(v, q)], Some(pointer));
       v.codec.decipher(v.codec.encipher(stone)) == Some(stone)
  }

  /** Whatever the output that is spent: there is a PSBT with this pointer that is signed. */
  lemma SignedWithPointer(w: Wallet, v: View, q: Request, pointer: nat, u: Utxo) returns (p: PsbtValue)
    requires Signable(v, q, pointer)
    ensures Validate(w, v, [q], p, 1, 1, 1) == None
    ensures |p.inputs| == 1 && p.inputs[0].outpoint == u.outpoint
    ensures RunestoneOf(v.codec, p.outputs) == Some(Runestone([SignedEdict(v, q)], Some(pointer)))
  {
    var stone := Runestone([SignedEdict(v, q)], Some(pointer));
    var outs := [ TxOut(0, v.codec.encipher(stone)), TxOut(TARGET_POSTAGE_SAT, w.changeScript),
                  TxOut(TARGET_POSTAGE_SAT, v.scriptOf(q.receiver).value) ];
    var size := VirtualSize(1, outs, w.multisig);
    p := PsbtValue([u.(amount := TotalValue(outs) + size)], outs);
    assert Sats(p.inputs) == p.inputs[0].amount + Sats([]);
    SizeIsPositive(1, outs, w.multisig);
    FeeAtRate(size, 1, size);
    LeaderOutputsAccepted(w, v, outs, stone, q);
    assert [q][1..] == [];
    assert CheckRequests(v, [q]) == None;
  }

  /** Inputs that hold too little: the receiver gets less than the net amount. */
  lemma ShortInputsAreSigned(w: Wallet, v: View, q: Request, u: Utxo, total: nat) returns (p: PsbtValue, stone: Runestone)
    requires Signable(v, q, RUNE_CHANGE_OUTPUT) && total < q.netAmount && !IsOpReturn(w.changeScript)
    ensures Validate(w, v, [q], p, 1, 1, 1) == None && RunestoneOf(v.codec, p.outputs) == Some(stone) && |p.outputs| >= 3
    ensures var r := Allocate(p.outputs, stone, v.ord.ids(q.runeNumber).value, total).outputs;
            |r| >= 3 && r[FIRST_RUNE_OUTPUT] == total < q.netAmount
  {
    p := SignedWithPointer(w, v, q, RUNE_CHANGE_OUTPUT, u);
    stone := RunestoneOf(v.codec, p.outputs).value;
    SignedIsSeen(w, v, q, p, 1, 1, 1);
    SignedAllocation(w, v, q, p, 1, 1, 1, v.ord.ids(q.runeNumber).value, total);
  }

  /** A net amount of zero: the receiver gets everything. */
  lemma ZeroAmountTakesAll(w: Wallet, v: View, q: Request, u: Utxo, total: nat) returns (p: PsbtValue, stone: Runestone)
    requires Signable(v, q, RUNE_CHANGE_OUTPUT) && q.netAmount == 0 < total && !IsOpReturn(w.changeScript)
    ensures Validate(w, v, [q], p, 1, 1, 1) == None && RunestoneOf(v.codec, p.outputs) == Some(stone) && |p.outputs| >= 3
    ensures var r := Allocate(p.outputs, stone, v.ord.ids(q.runeNumber).value, total).outputs;
            |r| >= 3 && r[FIRST_RUNE_OUTPUT] == total > q.netAmount
  {
    p := SignedWithPointer(w, v, q, RUNE_CHANGE_OUTPUT, u);
    stone := RunestoneOf(v.codec, p.outputs).value;
    SignedIsSeen(w, v, q, p, 1, 1, 1);
    SignedAllocation(w, v, q, p, 1, 1, 1, v.ord.ids(q.runeNumber).value, total);
  }

  /** A pointer to the receiver: it gets everything. */
  lemma PointerTakesRest(w: Wallet, v: View, q: Request, u: Utxo, total: nat) returns (p: PsbtValue, stone: Runestone)
    requires Signable(v, q, FIRST_RUNE_OUTPUT) && 0 < q.netAmount < total && !IsOpReturn(w.changeScript)
    ensures Validate(w, v, [q], p, 1, 1, 1) == None && RunestoneOf(v.codec, p.outputs) == Some(stone) && |p.outputs| >= 3
    ensures var r := Allocate(p.outputs, stone, v.ord.ids(q.runeNumber).value, total).outputs;
            |r| >= 3 && r[FIRST_RUNE_OUTPUT] == total > q.netAmount
  {
    p := SignedWithPointer(w, v, q, FIRST_RUNE_OUTPUT, u);
    stone := RunestoneOf(v.codec, p.outputs).value;
    SignedIsSeen(w, v, q, p, 1, 1, 1);
    SignedAllocation(w, v, q, p, 1, 1, 1, v.ord.ids(q.runeNumber).value, total);
  }

  // ---------------------------------------------------------------- one deposit, any number of signatures

  function Spends(us: seq<Utxo>): set<Outpoint>
  {
    set u | u in us :: u.outpoint
  }

  /** The transactions can be mined one after the other, when these outputs are unspent. */
  predicate Minable(unspent: set<Outpoint>, ps: seq<PsbtValue>)
  {
    ps == [] || (Spends(ps[0].inputs) <= unspent && Minable(unspent - Spends(ps[0].inputs), ps[1..]))
  }

  /** Transactions exclude each other exactly if they share an input. */
  lemma {:induction false} MinableIff(unspent: set<Outpoint>, ps: seq<PsbtValue>)
    ensures Minable(unspent, ps) <==>
              && (forall i :: 0 <= i < |ps| ==> Spends(ps[i].inputs) <= unspent)
              && (forall i, j :: 0 <= i < j < |ps| ==> Spends(ps[i].inputs) !! Spends(ps[j].inputs))
  {
    if ps != [] {
      var rest, left := ps[1..], unspent - Spends(ps[0].inputs);
      MinableIff(left, rest);
      assert forall i :: 0 < i < |ps| ==> ps[i] == rest[i - 1];
      assert forall i :: 0 <= i < |rest| ==> rest[i] == ps[i + 1];
    }
  }

  /** The PSBT is signed for the request, spends this output, and moves the net amount to the receiver. */
  ghost predicate SignedSpending(w: Wallet, v: View, q: Request, p: PsbtValue, o: Outpoint)
    requires Signable(v, q, RUNE_CHANGE_OUTPUT)
  {
    && Validate(w, v, [q], p, 1, 1, 1) == None && Spends(p.inputs) == {o}
    && RunestoneOf(v.codec, p.outputs) == Some(Runestone([SignedEdict(v, q)], Some(RUNE_CHANGE_OUTPUT)))
  }

  lemma SignedForOne(w: Wallet, v: View, q: Request, u: Utxo) returns (p: PsbtValue)
    requires Signable(v, q, RUNE_CHANGE_OUTPUT)
    ensures SignedSpending(w, v, q, p, u.outpoint)
  {
    p := SignedWithPointer(w, v, q, RUNE_CHANGE_OUTPUT, u);
    assert p.inputs == [p.inputs[0]];
  }

  /** That a deposit was signed for is not recorded: for one request, a PSBT is signed for each output to spend, and all
      of them can be mined. */
  lemma SignedForEach(w: Wallet, v: View, q: Request, us: seq<Utxo>) returns (ps: seq<PsbtValue>)
    requires Signable(v, q, RUNE_CHANGE_OUTPUT)
    requires forall i, j :: 0 <= i < j < |us| ==> us[i].outpoint != us[j].outpoint
    ensures |ps| == |us| && Minable(Spends(us), ps)
    ensures forall i :: 0 <= i < |ps| ==> SignedSpending(w, v, q, ps[i], us[i].outpoint)
  {
    ps := SignEach(w, v, q, us);
    forall i | 0 <= i < |ps|
      ensures Spends(ps[i].inputs) <= Spends(us)
    {
      assert us[i] in us;
    }
    MinableIff(Spends(us), ps);
  }

  lemma {:induction false} SignEach(w: Wallet, v: View, q: Request, us: seq<Utxo>) returns (ps: seq<PsbtValue>)
    requires Signable(v, q, RUNE_CHANGE_OUTPUT)
    ensures |ps| == |us| && forall i :: 0 <= i < |ps| ==> SignedSpending(w, v, q, ps[i], us[i].outpoint)
  {
    if us == [] {
      ps := [];
    } else {
      var before := SignEach(w, v, q, us[..|us| - 1]);
      var p := SignedForOne(w, v, q, us[|us| - 1]);
      ps := before + [p];
    }
  }

  // ---------------------------------------------------------------- what a signature can cost

  /** What goes to the script `s`. */
  function PaidTo(outs: seq<TxOut>, s: Script): int
  {
    if outs == [] then 0
    else PaidTo(outs[..|outs| - 1], s) + if outs[|outs| - 1].script == s then outs[|outs| - 1].value else 0
  }

  function NotPaidTo(outs: seq<TxOut>, s: Script): int
  {
    TotalValue(outs) - PaidTo(outs, s)
  }

  /** How many of the transfers go to somebody else. */
  function Outsiders(v: View, requests: seq<Request>, s: Script): nat
  {
    if requests == [] then 0
    else Outsiders(v, requests[..|requests| - 1], s) + if v.scriptOf(requests[|requests| - 1].receiver) == Some(s) then 0 else 1
  }

  ghost predicate Pays(v: View, out: TxOut, q: Request)
  {
    out.value == TARGET_POSTAGE_SAT && Some(out.script) == v.scriptOf(q.receiver)
  }

  /** The receivers' outputs, one after the other. */
  lemma {:induction false} PostagesPaid(v: View, paid: seq<TxOut>, requests: seq<Request>, s: Script)
    requires |paid| == |requests|
    requires forall k :: 0 <= k < |requests| ==> Pays(v, paid[k], requests[k])
    ensures NotPaidTo(paid, s) == Outsiders(v, requests, s) * TARGET_POSTAGE_SAT
  {
    if requests != [] {
      var last := |requests| - 1;
      PostagesPaid(v, paid[..last], requests[..last], s);
      assert Pays(v, paid[last], requests[last]);
    }
  }

  lemma {:induction false} NotPaidAppend(a: seq<TxOut>, b: seq<TxOut>, s: Script)
    ensures NotPaidTo(a + b, s) == NotPaidTo(a, s) + NotPaidTo(b, s)
  {
    if b == [] {
      assert a + b == a;
    } else {
      assert (a + b)[..|a + b| - 1] == a + b[..|b| - 1];
      NotPaidAppend(a, b[..|b| - 1], s);
    }
  }

  lemma NotPaidSingle(out: TxOut, s: Script)
    ensures NotPaidTo([out], s) == if out.script == s then 0 else out.value
  {
    assert [out][..0] == [];
    assert TotalValue([out]) == out.value;
    assert PaidTo([out][..0], s) == 0;
  }

  /** In a structurally valid PSBT only the postages of outsiders and the fee are not paid back. */
  lemma StructureBound(w: Wallet, v: View, requests: seq<Request>, p: PsbtValue)
    requires CheckStructure(w, v, requests, p) == None
    ensures NotPaidTo(p.outputs, w.changeScript) == Outsiders(v, requests, w.changeScript) * TARGET_POSTAGE_SAT
  {
    var stone, n, outs, s := RunestoneOf(v.codec, p.outputs).value, |requests|, p.outputs, w.changeScript;
    var paid := outs[2..n + 2];
    AtMostOne(w, v, requests, p);
    assert n == 1 ==> CheckTransferOutput(v, outs, stone, requests[0], 2) == None;
    PostagesPaid(v, paid, requests, s);
    NotPaidSingle(outs[0], s);
    NotPaidSingle(outs[1], s);
    NotPaidAppend([outs[0]], [outs[1]], s);
    NotPaidAppend([outs[0]] + [outs[1]], paid, s);
    if |outs| == n + 3 {
      NotPaidSingle(outs[n + 2], s);
      NotPaidAppend([outs[0]] + [outs[1]] + paid, [outs[n + 2]], s);
      assert outs == [outs[0]] + [outs[1]] + paid + [outs[n + 2]];
    } else {
      assert outs == [outs[0]] + [outs[1]] + paid;
    }
  }

  lemma RateTimesSize(size: int, rate: int, bound: int)
    requires size >= 0 && rate <= bound
    ensures size * rate <= size * bound
  {
  }

  lemma FeeBounds(w: Wallet, p: PsbtValue, rate: int, estimate: int, minRate: int)
    requires CheckFees(w, p, rate, estimate, minRate) == None
    ensures var size := VirtualSize(|p.inputs|, p.outputs, w.multisig);
            && 10 * PaidFee(p) < 11 * (size * (Max(estimate, minRate) * 3))
            && 11 * PaidFee(p) >= 10 * (size * Max(estimate / 3, minRate))
  {
    var size := VirtualSize(|p.inputs|, p.outputs, w.multisig);
    RateTimesSize(size, rate, Max(estimate, minRate) * 3);
    RateTimesSize(size, Max(estimate / 3, minRate), rate);
  }

  /** If the federator signs, then all that leaves the multisig is a postage for each receiver outside it and the
      fee, and the fee is bounded from above and below by the federator's own estimate. */
  lemma SigningBound(w: Wallet, v: View, requests: seq<Request>, p: PsbtValue, rate: int, estimate: int, minRate: int)
    requires Validate(w, v, requests, p, rate, estimate, minRate) == None
    ensures Sats(p.inputs) - PaidTo(p.outputs, w.changeScript)
         == Outsiders(v, requests, w.changeScript) * TARGET_POSTAGE_SAT + PaidFee(p)
    ensures var size := VirtualSize(|p.inputs|, p.outputs, w.multisig);
            && 10 * PaidFee(p) < 11 * (size * (Max(estimate, minRate) * 3))
            && 11 * PaidFee(p) >= 10 * (size * Max(estimate / 3, minRate))
  {
    StructureBound(w, v, requests, p);
    FeeBounds(w, p, rate, estimate, minRate);
  }

  // ---------------------------------------------------------------- the leader's PSBT

  /** The transfer the leader builds for a request. */
  function LeaderTransfer(v: View, q: Request): Transfer
  {
    Transfer(q.runeNumber, v.scriptOf(q.receiver), q.netAmount, TARGET_POSTAGE_SAT)
  }

  lemma OneEdict(codec: Codec, e: Edict, stone: Runestone)
    requires RoundTrips(codec)
    requires codec.decipher(codec.encipher(Runestone([e], Some(RUNE_CHANGE_OUTPUT)))) == Some(stone)
    ensures stone == Runestone([e], Some(RUNE_CHANGE_OUTPUT))
  {
    assert multiset(stone.edicts) == multiset([e]);
    assert |multiset(stone.edicts)| == |stone.edicts| == 1;
    assert stone.edicts[0] in multiset([e]);
  }

  lemma LeaderOutputsAccepted(w: Wallet, v: View, outs: seq<TxOut>, stone: Runestone, q: Request)
    requires CheckRequest(v, q) == None && q.netAmount >= 0
    requires v.ord.ids(q.runeNumber).Some? && v.scriptOf(q.receiver).Some?
    requires stone.edicts == [SignedEdict(v, q)] && stone.pointer.Some? && stone.pointer.value <= FIRST_RUNE_OUTPUT
    requires |outs| == 3 || (|outs| == 4 && outs[3].script == w.changeScript)
    requires outs[0] == TxOut(0, v.codec.encipher(stone)) && outs[1] == TxOut(TARGET_POSTAGE_SAT, w.changeScript)
    requires outs[2] == TxOut(TARGET_POSTAGE_SAT, v.scriptOf(q.receiver).value)
    ensures !IsCenotaph(outs, stone)
    ensures CheckOutputs(w, v, outs, stone, 1) == None && CheckTransferOutputs(v, outs, stone, [q], 0) == None
  {
    assert CheckTransferOutput(v, outs, stone, q, 2) == None;
    assert CheckTransferOutputs(v, outs, stone, [q], 1) == None;
  }

  /** Every structural check passes on what create_rune_psbt builds for one transfer. */
  lemma LeaderStructureAccepted(leader: Wallet, w: Wallet, v: View, raw: seq<Utxo>, q: Request, rate: int, maxNumInputs: int,
                                p: PsbtValue)
    requires RoundTrips(v.codec) && w.changeScript == leader.changeScript && CheckRequest(v, q) == None
    ensures Create(leader, v.ord, v.codec.encipher, raw, [LeaderTransfer(v, q)], rate, maxNumInputs) == Ok(p) ==>
              CheckStructure(w, v, [q], p) == None
  {
    var ts := [LeaderTransfer(v, q)];
    if Create(leader, v.ord, v.codec.encipher, raw, ts, rate, maxNumInputs) == Ok(p) {
      var _, t, us, vs := CreatedFrom(leader, v.ord, v.codec.encipher, raw, ts, rate, maxNumInputs);
      TransferAt(v.ord, ts, 0);
      var e := Edict(v.ord.ids(q.runeNumber).value, q.netAmount, FIRST_RUNE_OUTPUT);
      assert Edicts(v.ord, ts) == [e];
      assert IsOpReturn(v.codec.encipher(Runestone([e], Some(RUNE_CHANGE_OUTPUT))));
      assert t.outs <= p.outputs;
      assert p.outputs[0] == t.outs[0] && p.outputs[1] == t.outs[1] && p.outputs[2] == t.outs[2];
      var stone := RunestoneOf(v.codec, p.outputs).value;
      OneEdict(v.codec, e, stone);
      LeaderOutputsAccepted(w, v, p.outputs, stone, q);
    }
  }

  lemma FeeAtRate(size: int, rate: int, fee: int)
    requires size > 0 && rate > 0 && fee == rate * size
    ensures CheckFee(size, rate, fee) == None
  {
    assert fee == size * rate > 0;
  }

  lemma FeeForLarger(size: int, larger: int, rate: int, fee: int)
    requires 0 < size <= larger && rate > 0 && fee == rate * larger
    ensures CheckFee(size, rate, fee) == None <==> 10 * larger < 11 * size
  {
    assert size * rate == rate * size && rate * larger >= rate * size > 0;
    assert 10 * fee - 11 * (size * rate) == rate * (10 * larger - 11 * size);
    if 10 * larger < 11 * size {
      assert rate * (10 * larger - 11 * size) < 0;
    } else {
      assert rate * (10 * larger - 11 * size) >= 0;
    }
  }

  /** The fee of the leader's PSBT passes exactly when a change output was added, or the change output that was
      paid for but left out is less than a tenth of the size. */
  lemma LeaderFeeAcceptedIff(leader: Wallet, ord: Ord, encipher: Runestone -> Script, raw: seq<Utxo>, ts: seq<Transfer>,
                             rate: int, maxNumInputs: int, p: PsbtValue)
    requires rate > 0 && Create(leader, ord, encipher, raw, ts, rate, maxNumInputs) == Ok(p)
    ensures CheckFee(VirtualSize(|p.inputs|, p.outputs, leader.multisig), rate, PaidFee(p)) == None <==>
              || |p.outputs| == |ts| + FIRST_RUNE_OUTPUT + 1
              || 10 * VirtualSize(|p.inputs|, p.outputs + [TxOut(1, leader.changeScript)], leader.multisig)
                   < 11 * VirtualSize(|p.inputs|, p.outputs, leader.multisig)
  {
    SatoshisConserved(leader, ord, encipher, raw, ts, rate, maxNumInputs);
    FeeCoversSize(leader, ord, encipher, raw, ts, rate, maxNumInputs);
    var size := VirtualSize(|p.inputs|, p.outputs, leader.multisig);
    SizeIsPositive(|p.inputs|, p.outputs, leader.multisig);
    if |p.outputs| == |ts| + FIRST_RUNE_OUTPUT + 1 {
      FeeAtRate(size, rate, PaidFee(p));
    } else {
      var larger := VirtualSize(|p.inputs|, p.outputs + [TxOut(1, leader.changeScript)], leader.multisig);
      SizeGrows(|p.inputs|, p.outputs, leader.multisig, TxOut(1, leader.changeScript));
      FeeForLarger(size, larger, rate, PaidFee(p));
    }
  }

  /** The change output that was paid for, but left out, is a tenth of the size or more. */
  predicate PaysForTooMuch(m: Multisig, p: PsbtValue, changeScript: Script)
  {
    && |p.outputs| == FIRST_RUNE_OUTPUT + 1
    && 10 * VirtualSize(|p.inputs|, p.outputs + [TxOut(1, changeScript)], m) >= 11 * VirtualSize(|p.inputs|, p.outputs, m)
  }

  /** Only two of the checks can fail on the leader's PSBT for a deposit that the federator has seen: the rate is outside
      the window, or the fee is too high since it pays for a change output that is not there. */
  lemma LeaderPsbtChecks(leader: Wallet, w: Wallet, v: View, raw: seq<Utxo>, q: Request, rate: int, maxNumInputs: int,
                         estimate: int, minRate: int, p: PsbtValue)
    requires RoundTrips(v.codec) && w.changeScript == leader.changeScript && w.multisig == leader.multisig
    requires CheckRequest(v, q) == None && rate > 0
    requires Create(leader, v.ord, v.codec.encipher, raw, [LeaderTransfer(v, q)], rate, maxNumInputs) == Ok(p)
    ensures Validate(w, v, [q], p, rate, estimate, minRate)
         == if !RateInWindow(estimate, minRate, rate) then Some(FeeRateOutOfRange)
            else if PaysForTooMuch(w.multisig, p, w.changeScript) then Some(FeeTooHigh)
            else None
  {
    var ts := [LeaderTransfer(v, q)];
    LeaderStructureAccepted(leader, w, v, raw, q, rate, maxNumInputs, p);
    LeaderFeeAcceptedIff(leader, v.ord, v.codec.encipher, raw, ts, rate, maxNumInputs, p);
    LeaderFeeIsEnough(leader, v.ord, v.codec.encipher, raw, ts, rate, maxNumInputs, p);
    SignedSize(w, v, q, p);
    assert [q][1..] == [];
    assert CheckRequests(v, [q]) == None;
  }

  lemma SignedSize(w: Wallet, v: View, q: Request, p: PsbtValue)
    requires CheckStructure(w, v, [q], p) == None
    ensures |p.outputs| == 3 || |p.outputs| == 4
  {
  }

  lemma LeaderFeeIsEnough(leader: Wallet, ord: Ord, encipher: Runestone -> Script, raw: seq<Utxo>, ts: seq<Transfer>,
                          rate: int, maxNumInputs: int, p: PsbtValue)
    requires rate > 0 && Create(leader, ord, encipher, raw, ts, rate, maxNumInputs) == Ok(p)
    ensures CheckFee(VirtualSize(|p.inputs|, p.outputs, leader.multisig), rate, PaidFee(p)) != Some(FeeTooLow)
  {
    FeeCoversSize(leader, ord, encipher, raw, ts, rate, maxNumInputs);
    SizeIsPositive(|p.inputs|, p.outputs, leader.multisig);
    EnoughIsNotTooLow(VirtualSize(|p.inputs|, p.outputs, leader.multisig), rate, PaidFee(p));
  }

  lemma EnoughIsNotTooLow(size: int, rate: int, fee: int)
    requires size > 0 && rate > 0 && fee >= rate * size
    ensures CheckFee(size, rate, fee) != Some(FeeTooLow)
  {
    assert rate * size == size * rate > 0;
  }

  /** So a federator that has seen the deposit, and whose window holds the rate, accepts the leader's PSBT exactly when
      a change output was added, or the one that was paid for but left out is less than a tenth of the size. */
  lemma LeaderPsbtAcceptedIff(leader: Wallet, w: Wallet, v: View, raw: seq<Utxo>, q: Request, rate: int, maxNumInputs: int,
                              estimate: int, minRate: int, p: PsbtValue)
    requires RoundTrips(v.codec) && w.changeScript == leader.changeScript && w.multisig == leader.multisig
    requires CheckRequest(v, q) == None && rate > 0 && RateInWindow(estimate, minRate, rate)
    ensures Create(leader, v.ord, v.codec.encipher, raw, [LeaderTransfer(v, q)], rate, maxNumInputs) == Ok(p) ==>
              (Validate(w, v, [q], p, rate, estimate, minRate) == None <==>
                || |p.outputs| == 4
                || 10 * VirtualSize(|p.inputs|, p.outputs + [TxOut(1, w.changeScript)], w.multisig)
                     < 11 * VirtualSize(|p.inputs|, p.outputs, w.multisig))
  {
    if Create(leader, v.ord, v.codec.encipher, raw, [LeaderTransfer(v, q)], rate, maxNumInputs) == Ok(p) {
      LeaderPsbtChecks(leader, w, v, raw, q, rate, maxNumInputs, estimate, minRate, p);
      LeaderStructureAccepted(leader, w, v, raw, q, rate, maxNumInputs, p);
      SignedSize(w, v, q, p);
    }
  }

  lemma SizeIsPositive(inputs: nat, outs: seq<TxOut>, m: Multisig)
    ensures VirtualSize(inputs, outs, m) > 0
  {
  }

  // ---------------------------------------------------------------- the leader's fee rate

  /** The leader adds a tenth to its estimate, and never goes below the least rate. */
  function AdjustedRate(estimate: int, minRate: int): int
  {
    Max(11 * estimate / 10, minRate)
  }

  function MinFeeRate(mainnet: bool): int
  {
    if mainnet then 15 else 1
  }

  /** Whenever the two estimates differ by at most a factor of two, the leader's rate lies in the window. */
  lemma RateAccepted(leaderEstimate: int, estimate: int, mainnet: bool)
    requires 0 <= leaderEstimate <= 2 * estimate && estimate <= 2 * leaderEstimate
    ensures RateInWindow(estimate, MinFeeRate(mainnet), AdjustedRate(leaderEstimate, MinFeeRate(mainnet)))
    ensures AdjustedRate(leaderEstimate, MinFeeRate(mainnet)) > 0
  {
  }

  /** The exact condition for any two estimates: the adjusted rate is no less than a third of the follower's estimate,
      and a tenth more than the leader's is no more than three times the larger of the follower's and the least rate. */
  lemma RateAcceptedIff(leaderEstimate: int, estimate: int, minRate: int)
    requires minRate > 0
    ensures RateInWindow(estimate, minRate, AdjustedRate(leaderEstimate, minRate))
       <==> && estimate < 3 * AdjustedRate(leaderEstimate, minRate) + 3
            && 11 * leaderEstimate < 30 * Max(estimate, minRate) + 10
  {
  }
}
