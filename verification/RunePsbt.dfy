/** Building the PSBT of a rune transfer: the runestone, the outputs, the inputs and the bitcoin change. */
module RunePsbt {
  import opened Wrappers
  import opened Transactions
  import opened RuneAllocation
  import opened CoinSelection

  /** A requested transfer; the receiver's script is there if the address parses. */
  datatype Transfer = Transfer(rune: Rune, receiver: Option<Script>, amount: int, postage: int)

  const TARGET_POSTAGE_SAT := 10_000
  const RUNE_CHANGE_OUTPUT := 1
  const FIRST_RUNE_OUTPUT := 2

  // ---------------------------------------------------------------- the outputs

  function CheckTransfer(ord: Ord, t: Transfer): Option<Error>
  {
    if t.postage <= 0 then Some(ValueError)
    else if t.amount == 0 then Some(ZeroTransferAmount)
    else if t.amount < 0 then Some(ValueError)
    else if t.receiver == None then Some(ValueError)
    else if ord.ids(t.rune) == None then Some(LookupError)
    else None
  }

  /** The error of the first transfer that has one. */
  function CheckTransfers(ord: Ord, ts: seq<Transfer>): Option<Error>
  {
    if ts == [] then None
    else
      var before := CheckTransfers(ord, ts[..|ts| - 1]);
      if before.Some? then before else CheckTransfer(ord, ts[|ts| - 1])
  }

  /** The edict of the transfer at place `i` names the output that pays its receiver. */
  function Edicts(ord: Ord, ts: seq<Transfer>): (es: seq<Edict>)
    requires CheckTransfers(ord, ts) == None
    ensures |es| == |ts|
  {
    if ts == [] then []
    else
      var last := ts[|ts| - 1];
      Edicts(ord, ts[..|ts| - 1]) + [Edict(ord.ids(last.rune).value, last.amount, |ts| - 1 + FIRST_RUNE_OUTPUT)]
  }

  function RuneOutputs(ord: Ord, ts: seq<Transfer>): (outs: seq<TxOut>)
    requires CheckTransfers(ord, ts) == None
    ensures |outs| == |ts|
  {
    if ts == [] then []
    else
      var last := ts[|ts| - 1];
      RuneOutputs(ord, ts[..|ts| - 1]) + [TxOut(last.postage, last.receiver.value)]
  }

  function Add(required: map<Rune, int>, r: Rune, amount: int): map<Rune, int>
  {
    required[r := (if r in required then required[r] else 0) + amount]
  }

  function Required(ts: seq<Transfer>): map<Rune, int>
  {
    if ts == [] then map[]
    else Add(Required(ts[..|ts| - 1]), ts[|ts| - 1].rune, ts[|ts| - 1].amount)
  }

  /** The outputs before the bitcoin change: the runestone, the rune change, the receivers. */
  function Outputs(w: Wallet, ord: Ord, encipher: Runestone -> Script, ts: seq<Transfer>): (outs: seq<TxOut>)
    requires CheckTransfers(ord, ts) == None
    ensures |outs| == |ts| + FIRST_RUNE_OUTPUT
  {
    [ TxOut(0, encipher(Runestone(Edicts(ord, ts), Some(RUNE_CHANGE_OUTPUT)))),
      TxOut(TARGET_POSTAGE_SAT, w.changeScript) ] + RuneOutputs(ord, ts)
  }

  // ---------------------------------------------------------------- the unspent outputs

  /** Stable insertion by falling number of confirmations. */
  function InsertUtxo(us: seq<Utxo>, u: Utxo): seq<Utxo>
  {
    if us == [] || us[|us| - 1].confirmations >= u.confirmations then us + [u]
    else InsertUtxo(us[..|us| - 1], u) + [us[|us| - 1]]
  }

  function ListUtxos(raw: seq<Utxo>): seq<Utxo>
  {
    if raw == [] then [] else InsertUtxo(ListUtxos(raw[..|raw| - 1]), raw[|raw| - 1])
  }

  ghost predicate OldestFirst(us: seq<Utxo>)
  {
    forall i, j :: 0 <= i < j < |us| ==> us[i].confirmations >= us[j].confirmations
  }

  ghost predicate DistinctOutpoints(us: seq<Utxo>)
  {
    forall i, j :: 0 <= i < j < |us| ==> us[i].outpoint != us[j].outpoint
  }

  lemma {:induction false} InsertUtxoKeeps(us: seq<Utxo>, u: Utxo)
    ensures multiset(InsertUtxo(us, u)) == multiset(us) + multiset{u}
    ensures forall v :: v in InsertUtxo(us, u) <==> v in us || v == u
  {
    if us != [] {
      assert us == us[..|us| - 1] + [us[|us| - 1]];
      InsertUtxoKeeps(us[..|us| - 1], u);
    }
  }

  lemma {:induction false} InsertUtxoOrders(us: seq<Utxo>, u: Utxo)
    requires OldestFirst(us)
    ensures OldestFirst(InsertUtxo(us, u))
  {
    if us != [] && us[|us| - 1].confirmations < u.confirmations {
      var front, last := us[..|us| - 1], us[|us| - 1];
      InsertUtxoOrders(front, u);
      InsertUtxoKeeps(front, u);
      assert forall v :: v in front ==> v.confirmations >= last.confirmations;
      var r := InsertUtxo(front, u);
      assert forall i :: 0 <= i < |r| ==> r[i] in r;
    }
  }

  lemma {:induction false} InsertUtxoDistinct(us: seq<Utxo>, u: Utxo)
    requires DistinctOutpoints(us) && forall v :: v in us ==> v.outpoint != u.outpoint
    ensures DistinctOutpoints(InsertUtxo(us, u))
  {
    if us != [] {
      var front, last := us[..|us| - 1], us[|us| - 1];
      assert last in us;
      if last.confirmations < u.confirmations {
        InsertUtxoDistinct(front, u);
        InsertUtxoKeeps(front, u);
        assert forall v :: v in front ==> v.outpoint != last.outpoint;
        var r := InsertUtxo(front, u);
        assert forall i :: 0 <= i < |r| ==> r[i] in r;
      }
    }
  }

  /** list_utxos gives the same outputs, those with most confirmations first. */
  lemma {:induction false} ListUtxosMeets(raw: seq<Utxo>)
    ensures OldestFirst(ListUtxos(raw)) && multiset(ListUtxos(raw)) == multiset(raw)
    ensures forall u :: u in ListUtxos(raw) <==> u in raw
    ensures DistinctOutpoints(raw) ==> DistinctOutpoints(ListUtxos(raw))
  {
    if raw != [] {
      var front, last := raw[..|raw| - 1], raw[|raw| - 1];
      assert raw == front + [last];
      ListUtxosMeets(front);
      InsertUtxoKeeps(ListUtxos(front), last);
      InsertUtxoOrders(ListUtxos(front), last);
      if DistinctOutpoints(raw) {
        assert forall v :: v in front ==> v.outpoint != last.outpoint;
        InsertUtxoDistinct(ListUtxos(front), last);
      }
    }
  }

  // ---------------------------------------------------------------- the whole PSBT

  datatype PsbtValue = PsbtValue(inputs: seq<Utxo>, outputs: seq<TxOut>)

  /** psbt.get_fee() */
  function PaidFee(p: PsbtValue): int
  {
    Sats(p.inputs) - TotalValue(p.outputs)
  }

  function WithChange(w: Wallet, outs: seq<TxOut>, change: int): seq<TxOut>
  {
    if change > 0 then outs + [TxOut(change, w.changeScript)] else outs
  }

  function Finish(w: Wallet, t: Target, maxNumInputs: int, inputs: seq<Utxo>): Result<PsbtValue, Error>
  {
    if |inputs| > maxNumInputs then Raise(RuntimeError)
    else Ok(PsbtValue(inputs, WithChange(w, t.outs, Change(w, t, |inputs|, Sats(inputs)))))
  }

  /** The PSBT, or the first error. */
  function Create(w: Wallet, ord: Ord, encipher: Runestone -> Script, raw: seq<Utxo>,
                  ts: seq<Transfer>, feeRate: int, maxNumInputs: int): Result<PsbtValue, Error>
  {
    if ts == [] then Raise(ValueError)
    else if CheckTransfers(ord, ts).Some? then Raise(CheckTransfers(ord, ts).value)
    else
      var utxos, t := ListUtxos(raw), Target(Outputs(w, ord, encipher, ts), feeRate);
      match SelectRunes(w, ord, Required(ts), utxos)
      case Raise(e) => Raise(e)
      case Ok(runeInputs) =>
        match FundFee(w, ord, t, |runeInputs|, Sats(runeInputs), utxos)
        case Raise(e) => Raise(e)
        case Ok(feeInputs) => Finish(w, t, maxNumInputs, runeInputs + feeInputs)
  }

  // ---------------------------------------------------------------- what the transfers ask for

  lemma {:induction false} CheckedTransfers(ord: Ord, ts: seq<Transfer>)
    requires CheckTransfers(ord, ts) == None
    ensures forall i :: 0 <= i < |ts| ==> CheckTransfer(ord, ts[i]) == None
  {
    if ts != [] {
      CheckedTransfers(ord, ts[..|ts| - 1]);
    }
  }

  /** The output and the edict of each transfer. */
  lemma {:induction false} TransferAt(ord: Ord, ts: seq<Transfer>, i: nat)
    requires CheckTransfers(ord, ts) == None && i < |ts|
    ensures ord.ids(ts[i].rune).Some? && ts[i].receiver.Some? && ts[i].amount > 0
    ensures Edicts(ord, ts)[i] == Edict(ord.ids(ts[i].rune).value, ts[i].amount, i + FIRST_RUNE_OUTPUT)
    ensures RuneOutputs(ord, ts)[i] == TxOut(ts[i].postage, ts[i].receiver.value)
  {
    if i < |ts| - 1 {
      TransferAt(ord, ts[..|ts| - 1], i);
    }
  }

  /** Units of the rune `id` that the transfers move. */
  function Moved(ord: Ord, ts: seq<Transfer>, id: RuneId): int
  {
    if ts == [] then 0
    else Moved(ord, ts[..|ts| - 1], id) + if ord.ids(ts[|ts| - 1].rune) == Some(id) then ts[|ts| - 1].amount else 0
  }

  function MovedTo(ord: Ord, ts: seq<Transfer>, id: RuneId, o: int): int
  {
    if FIRST_RUNE_OUTPUT <= o < |ts| + FIRST_RUNE_OUTPUT && ord.ids(ts[o - FIRST_RUNE_OUTPUT].rune) == Some(id)
    then ts[o - FIRST_RUNE_OUTPUT].amount else 0
  }

  lemma {:induction false} EdictsAsk(ord: Ord, ts: seq<Transfer>, id: RuneId, o: nat)
    requires CheckTransfers(ord, ts) == None
    ensures Asked(Edicts(ord, ts), id) == Moved(ord, ts, id)
    ensures AskedFor(Edicts(ord, ts), id, o) == MovedTo(ord, ts, id, o)
  {
    if ts != [] {
      var es, front := Edicts(ord, ts), ts[..|ts| - 1];
      EdictsAsk(ord, front, id, o);
      assert es[..|es| - 1] == Edicts(ord, front);
    }
  }

  /** Different runes have different ids. */
  ghost predicate IdsAreUnique(ids: Rune -> Option<RuneId>)
  {
    forall q, r :: ids(q).Some? && ids(q) == ids(r) ==> q == r
  }

  lemma {:induction false} MovedIsRequired(ord: Ord, ts: seq<Transfer>, r: Rune)
    requires IdsAreUnique(ord.ids) && ord.ids(r).Some?
    ensures Moved(ord, ts, ord.ids(r).value) == if r in Required(ts) then Required(ts)[r] else 0
  {
    if ts != [] {
      MovedIsRequired(ord, ts[..|ts| - 1], r);
    }
  }

  lemma {:induction false} NothingMoved(ord: Ord, ts: seq<Transfer>, id: RuneId)
    requires forall i :: 0 <= i < |ts| ==> ord.ids(ts[i].rune) != Some(id)
    ensures Moved(ord, ts, id) == 0
  {
    if ts != [] {
      NothingMoved(ord, ts[..|ts| - 1], id);
    }
  }

  lemma {:induction false} RequiredIsPositive(ord: Ord, ts: seq<Transfer>)
    requires CheckTransfers(ord, ts) == None
    ensures forall r :: r in Required(ts) ==> Required(ts)[r] > 0
    ensures ts != [] ==> !Covered(Required(ts))
    ensures forall r :: r in Required(ts) <==> exists i :: 0 <= i < |ts| && ts[i].rune == r
  {
    if ts != [] {
      var front, last := ts[..|ts| - 1], ts[|ts| - 1];
      RequiredIsPositive(ord, front);
      assert last.rune in Required(ts);
      forall r
        ensures r in Required(ts) <==> exists i :: 0 <= i < |ts| && ts[i].rune == r
      {
        if r in Required(ts) && r != last.rune {
          var i :| 0 <= i < |front| && front[i].rune == r;
          assert ts[i].rune == r;
        }
        if i :| 0 <= i < |ts| && ts[i].rune == r {
          assert i < |front| ==> front[i].rune == r;
        }
      }
    }
  }

  // ---------------------------------------------------------------- bitcoin: conservation, change and fee

  /** The two phases behind a PSBT. */
  lemma CreatedFrom(w: Wallet, ord: Ord, encipher: Runestone -> Script, raw: seq<Utxo>,
                    ts: seq<Transfer>, feeRate: int, maxNumInputs: int)
    returns (p: PsbtValue, t: Target, runeInputs: seq<Utxo>, feeInputs: seq<Utxo>)
    requires Create(w, ord, encipher, raw, ts, feeRate, maxNumInputs).Ok?
    ensures Create(w, ord, encipher, raw, ts, feeRate, maxNumInputs) == Ok(p)
    ensures CheckTransfers(ord, ts) == None && t == Target(Outputs(w, ord, encipher, ts), feeRate)
    ensures p.inputs == runeInputs + feeInputs && |p.inputs| <= maxNumInputs
    ensures p.outputs == WithChange(w, t.outs, Change(w, t, |p.inputs|, Sats(p.inputs)))
    ensures RuneSelectionOutcome(w, ord, Required(ts), ListUtxos(raw), Ok(runeInputs))
    ensures FundingOutcome(w, ord, t, |runeInputs|, Sats(runeInputs), ListUtxos(raw), Ok(feeInputs))
  {
    p := Create(w, ord, encipher, raw, ts, feeRate, maxNumInputs).value;
    t := Target(Outputs(w, ord, encipher, ts), feeRate);
    runeInputs := SelectRunes(w, ord, Required(ts), ListUtxos(raw)).value;
    feeInputs := FundFee(w, ord, t, |runeInputs|, Sats(runeInputs), ListUtxos(raw)).value;
    RequiredIsPositive(ord, ts);
    SelectRunesMeets(w, ord, Required(ts), ListUtxos(raw));
    FundFeeMeets(w, ord, t, |runeInputs|, Sats(runeInputs), ListUtxos(raw));
  }

  lemma {:induction false} SatsAppend(us: seq<Utxo>, vs: seq<Utxo>)
    ensures Sats(us + vs) == Sats(us) + Sats(vs)
  {
    if us == [] {
      assert us + vs == vs;
    } else {
      assert (us + vs)[1..] == us[1..] + vs;
      SatsAppend(us[1..], vs);
    }
  }

  /** What the inputs are worth is what the outputs are worth and the fee; the change is nothing, or no dust. */
  lemma SatoshisConserved(w: Wallet, ord: Ord, encipher: Runestone -> Script, raw: seq<Utxo>,
                          ts: seq<Transfer>, feeRate: int, maxNumInputs: int)
    requires Create(w, ord, encipher, raw, ts, feeRate, maxNumInputs).Ok?
    ensures var p := Create(w, ord, encipher, raw, ts, feeRate, maxNumInputs).value;
            var outs := Outputs(w, ord, encipher, ts);
            && Sats(p.inputs) == TotalValue(p.outputs) + Fee(w, Target(outs, feeRate), |p.inputs|)
            && (|| p.outputs == outs
                || (&& |p.outputs| == |outs| + 1 && p.outputs[..|outs|] == outs
                    && p.outputs[|outs|].script == w.changeScript && p.outputs[|outs|].value >= 1000))
  {
    var p, t, runeInputs, feeInputs := CreatedFrom(w, ord, encipher, raw, ts, feeRate, maxNumInputs);
    SatsAppend(runeInputs, feeInputs);
    var change := Change(w, t, |p.inputs|, Sats(p.inputs));
    assert change == 0 || change >= DUST_SAT;
    if change > 0 {
      AppendedOutput(0, t.outs, TxOut(change, w.changeScript));
    }
  }

  lemma RateTimes(rate: int, small: int, large: int)
    requires rate >= 0 && small <= large
    ensures rate * small <= rate * large
    ensures rate > 0 && small < large ==> rate * small < rate * large
  {
  }

  /** The fee is never below the rate times the size of the transaction as it is, and is equal to that exactly
      when a change output was added. */
  lemma FeeCoversSize(w: Wallet, ord: Ord, encipher: Runestone -> Script, raw: seq<Utxo>,
                      ts: seq<Transfer>, feeRate: int, maxNumInputs: int)
    requires feeRate > 0 && Create(w, ord, encipher, raw, ts, feeRate, maxNumInputs).Ok?
    ensures var p := Create(w, ord, encipher, raw, ts, feeRate, maxNumInputs).value;
            var size := VirtualSize(|p.inputs|, p.outputs, w.multisig);
            && PaidFee(p) >= feeRate * size
            && (PaidFee(p) == feeRate * size <==> |p.outputs| == |ts| + FIRST_RUNE_OUTPUT + 1)
  {
    SatoshisConserved(w, ord, encipher, raw, ts, feeRate, maxNumInputs);
    var p, t, runeInputs, feeInputs := CreatedFrom(w, ord, encipher, raw, ts, feeRate, maxNumInputs);
    var change := Change(w, t, |p.inputs|, Sats(p.inputs));
    var estimated := VirtualSize(|p.inputs|, t.outs + [TxOut(1, w.changeScript)], w.multisig);
    var size := VirtualSize(|p.inputs|, p.outputs, w.multisig);
    if |p.outputs| == |t.outs| + 1 {
      assert p.outputs == t.outs + [TxOut(p.outputs[|t.outs|].value, w.changeScript)];
      SizeIgnoresValue(|p.inputs|, t.outs, w.multisig, p.outputs[|t.outs|].value, 1, w.changeScript);
    } else {
      SizeGrows(|p.inputs|, t.outs, w.multisig, TxOut(1, w.changeScript));
      RateTimes(feeRate, size, estimated);
    }
  }

  // ---------------------------------------------------------------- no input twice

  lemma {:induction false} PartsAreDistinct(w: Wallet, ord: Ord, runes: set<Rune>, us: seq<Utxo>)
    requires DistinctOutpoints(us)
    ensures DistinctOutpoints(EligibleIn(w, ord, runes, us)) && DistinctOutpoints(RuneFree(ord, us))
    ensures forall u :: u in EligibleIn(w, ord, runes, us) || u in RuneFree(ord, us) ==> u in us
  {
    if us != [] {
      assert us == [us[0]] + us[1..];
      PartsAreDistinct(w, ord, runes, us[1..]);
      assert forall u :: u in us[1..] ==> u.outpoint != us[0].outpoint;
      forall all: seq<Utxo> | all == EligibleIn(w, ord, runes, us[1..]) || all == RuneFree(ord, us[1..])
        ensures DistinctOutpoints([us[0]] + all)
      {
        assert forall i :: 0 <= i < |all| ==> all[i] in us[1..];
      }
    }
  }

  /** The second phase goes over the same list again, yet no output is spent twice. */
  lemma InputsAreDistinct(w: Wallet, ord: Ord, encipher: Runestone -> Script, raw: seq<Utxo>,
                          ts: seq<Transfer>, feeRate: int, maxNumInputs: int)
    requires DistinctOutpoints(raw) && Create(w, ord, encipher, raw, ts, feeRate, maxNumInputs).Ok?
    ensures var p := Create(w, ord, encipher, raw, ts, feeRate, maxNumInputs).value;
            DistinctOutpoints(p.inputs) && forall u :: u in p.inputs ==> u in raw && Spendable(w, u)
  {
    var p, t, runeInputs, feeInputs := CreatedFrom(w, ord, encipher, raw, ts, feeRate, maxNumInputs);
    ListUtxosMeets(raw);
    PartsAreDistinct(w, ord, Required(ts).Keys, ListUtxos(raw));
    forall i, j | 0 <= i < j < |p.inputs|
      ensures p.inputs[i].outpoint != p.inputs[j].outpoint
    {
      if i < |runeInputs| <= j {
        assert runeInputs[i] in runeInputs && feeInputs[j - |runeInputs|] in feeInputs;
      }
    }
  }

  // ---------------------------------------------------------------- runes: conservation

  /** How a runestone is written into a script and read back; the edicts may come back in another order. */
  datatype Codec = Codec(encipher: Runestone -> Script, decipher: Script -> Option<Runestone>)

  ghost predicate RoundTrips(codec: Codec)
  {
    forall stone {:trigger codec.encipher(stone)} ::
      && IsOpReturn(codec.encipher(stone))
      && var read := codec.decipher(codec.encipher(stone));
         read.Some? && read.value.pointer == stone.pointer && multiset(read.value.edicts) == multiset(stone.edicts)
  }

  /** The runestone of a transaction is in its first output that holds one. */
  function RunestoneOf(codec: Codec, outs: seq<TxOut>): Option<Runestone>
  {
    if outs == [] then None
    else
      var first := codec.decipher(outs[0].script);
      if first.Some? then first else RunestoneOf(codec, outs[1..])
  }

  /** What each output of the chain really holds. */
  type Holdings = (Outpoint, RuneId) -> nat

  /** ord's answers are true, for every output that it has indexed. */
  ghost predicate Truthful(ord: Ord, holdings: Holdings)
  {
    forall o, r | ord.balances(o).Some? && ord.ids(r).Some? ::
      holdings(o, ord.ids(r).value) == if r in ord.balances(o).value then ord.balances(o).value[r] else 0
  }

  function InputUnits(holdings: Holdings, id: RuneId, us: seq<Utxo>): nat
  {
    if us == [] then 0 else holdings(us[0].outpoint, id) + InputUnits(holdings, id, us[1..])
  }

  lemma {:induction false} InputsHold(ord: Ord, holdings: Holdings, r: Rune, us: seq<Utxo>, more: seq<Utxo>)
    requires Truthful(ord, holdings) && ord.ids(r).Some? && forall u :: u in us ==> Indexed(ord, u)
    ensures InputUnits(holdings, ord.ids(r).value, us + more) >= Held(ord, r, us)
  {
    if us != [] {
      assert (us + more)[1..] == us[1..] + more;
      assert us[0] in us;
      InputsHold(ord, holdings, r, us[1..], more);
    }
  }

  /** The inputs hold what the transfers move, of every rune there is. */
  lemma InputsCover(ord: Ord, holdings: Holdings, ts: seq<Transfer>, id: RuneId, us: seq<Utxo>, more: seq<Utxo>)
    requires IdsAreUnique(ord.ids) && Truthful(ord, holdings) && CheckTransfers(ord, ts) == None
    requires Sufficient(ord, Required(ts), us) && forall u :: u in us ==> Indexed(ord, u)
    ensures 0 <= Moved(ord, ts, id) <= InputUnits(holdings, id, us + more)
  {
    RequiredIsPositive(ord, ts);
    if i :| 0 <= i < |ts| && ord.ids(ts[i].rune) == Some(id) {
      MovedIsRequired(ord, ts, ts[i].rune);
      InputsHold(ord, holdings, ts[i].rune, us, more);
    } else {
      NothingMoved(ord, ts, id);
    }
  }

  /** Receivers are addresses, and the change goes to a P2WSH script; neither is an OP_RETURN. */
  ghost predicate PaysAddresses(w: Wallet, ts: seq<Transfer>)
  {
    && !IsOpReturn(w.changeScript)
    && forall i :: 0 <= i < |ts| && ts[i].receiver.Some? ==> !IsOpReturn(ts[i].receiver.value)
  }

  lemma EdictsPayAddresses(w: Wallet, ord: Ord, encipher: Runestone -> Script, ts: seq<Transfer>, outs: seq<TxOut>)
    requires CheckTransfers(ord, ts) == None && PaysAddresses(w, ts) && Outputs(w, ord, encipher, ts) <= outs
    ensures Definite(Edicts(ord, ts), |outs|)
    ensures forall e :: e in Edicts(ord, ts) ==> !IsOpReturn(outs[e.output].script)
  {
    forall e | e in Edicts(ord, ts)
      ensures e.amount > 0 && e.output < |outs| && !IsOpReturn(outs[e.output].script)
    {
      var i :| 0 <= i < |ts| && Edicts(ord, ts)[i] == e;
      TransferAt(ord, ts, i);
      assert outs[e.output] == Outputs(w, ord, encipher, ts)[e.output] == RuneOutputs(ord, ts)[i];
    }
  }

  lemma ReceiversPaid(w: Wallet, ord: Ord, encipher: Runestone -> Script, ts: seq<Transfer>, outs: seq<TxOut>)
    requires CheckTransfers(ord, ts) == None && Outputs(w, ord, encipher, ts) <= outs
    ensures forall i :: 0 <= i < |ts| ==>
              ts[i].receiver.Some? && outs[i + FIRST_RUNE_OUTPUT] == TxOut(ts[i].postage, ts[i].receiver.value)
  {
    forall i | 0 <= i < |ts|
      ensures ts[i].receiver.Some? && outs[i + FIRST_RUNE_OUTPUT] == TxOut(ts[i].postage, ts[i].receiver.value)
    {
      TransferAt(ord, ts, i);
      assert outs[i + FIRST_RUNE_OUTPUT] == Outputs(w, ord, encipher, ts)[i + FIRST_RUNE_OUTPUT] == RuneOutputs(ord, ts)[i];
    }
  }

  /** Each receiver gets exactly its amount, all the rest of every rune goes to the rune change output of the
      multisig, and nothing is burned, whatever order the edicts are processed in. */
  lemma RunesConserved(w: Wallet, ord: Ord, holdings: Holdings, codec: Codec, raw: seq<Utxo>,
                       ts: seq<Transfer>, feeRate: int, maxNumInputs: int, id: RuneId)
    requires IdsAreUnique(ord.ids) && Truthful(ord, holdings) && RoundTrips(codec) && PaysAddresses(w, ts)
    requires Create(w, ord, codec.encipher, raw, ts, feeRate, maxNumInputs).Ok?
    ensures var p := Create(w, ord, codec.encipher, raw, ts, feeRate, maxNumInputs).value;
            var total := InputUnits(holdings, id, p.inputs);
            && RunestoneOf(codec, p.outputs).Some?
            && var r := Allocate(p.outputs, RunestoneOf(codec, p.outputs).value, id, total);
               && r.burned == 0
               && |r.outputs| == |p.outputs| >= |ts| + FIRST_RUNE_OUTPUT
               && p.outputs[RUNE_CHANGE_OUTPUT] == TxOut(TARGET_POSTAGE_SAT, w.changeScript)
               && (forall i :: 0 <= i < |ts| ==>
                     ts[i].receiver.Some? && p.outputs[i + FIRST_RUNE_OUTPUT] == TxOut(ts[i].postage, ts[i].receiver.value))
               && r.outputs[RUNE_CHANGE_OUTPUT] == total - Moved(ord, ts, id)
               && forall o :: 0 <= o < |r.outputs| && o != RUNE_CHANGE_OUTPUT ==> r.outputs[o] == MovedTo(ord, ts, id, o)
  {
    var p, t, runeInputs, feeInputs := CreatedFrom(w, ord, codec.encipher, raw, ts, feeRate, maxNumInputs);
    var total := InputUnits(holdings, id, p.inputs);
    var sent := Runestone(Edicts(ord, ts), Some(RUNE_CHANGE_OUTPUT));
    InputsCover(ord, holdings, ts, id, runeInputs, feeInputs);
    assert IsOpReturn(codec.encipher(sent));
    assert t.outs <= p.outputs;
    assert p.outputs[0].script == codec.encipher(sent);
    ReceiversPaid(w, ord, codec.encipher, ts, p.outputs);
    var stone := RunestoneOf(codec, p.outputs).value;
    EdictsPayAddresses(w, ord, codec.encipher, ts, p.outputs);
    EdictsAsk(ord, ts, id, 0);
    forall o: nat
      ensures AskedFor(Edicts(ord, ts), id, o) == MovedTo(ord, ts, id, o)
    {
      EdictsAsk(ord, ts, id, o);
    }
    DefiniteEdictsAllocate(p.outputs, stone, Edicts(ord, ts), id, total);
  }

  // ---------------------------------------------------------------- when there is a PSBT

  /** The inputs: the shortest sufficient choice for the runes, then the shortest funding, and not too many. */
  ghost predicate Plan(w: Wallet, ord: Ord, required: map<Rune, int>, t: Target, utxos: seq<Utxo>, maxNumInputs: int,
                       us: seq<Utxo>, vs: seq<Utxo>)
  {
    && Chosen(w, ord, required, utxos, us)
    && FundedBy(w, ord, t, |us|, Sats(us), utxos, vs)
    && |us| + |vs| <= maxNumInputs
  }

  lemma PlanGivesPsbt(w: Wallet, ord: Ord, encipher: Runestone -> Script, raw: seq<Utxo>, ts: seq<Transfer>, t: Target,
                      maxNumInputs: int, us: seq<Utxo>, vs: seq<Utxo>)
    requires ts != [] && CheckTransfers(ord, ts) == None && t.outs == Outputs(w, ord, encipher, ts)
    requires Plan(w, ord, Required(ts), t, ListUtxos(raw), maxNumInputs, us, vs)
    ensures Create(w, ord, encipher, raw, ts, t.feeRate, maxNumInputs).Ok?
  {
    RequiredIsPositive(ord, ts);
    SelectedIff(w, ord, Required(ts), ListUtxos(raw), us);
    FundedIff(w, ord, t, |us|, Sats(us), ListUtxos(raw), vs);
  }

  lemma PsbtHasPlan(w: Wallet, ord: Ord, encipher: Runestone -> Script, raw: seq<Utxo>, ts: seq<Transfer>, t: Target,
                    maxNumInputs: int)
    returns (us: seq<Utxo>, vs: seq<Utxo>)
    requires Create(w, ord, encipher, raw, ts, t.feeRate, maxNumInputs).Ok?
    requires CheckTransfers(ord, ts) == None && t.outs == Outputs(w, ord, encipher, ts)
    ensures Plan(w, ord, Required(ts), t, ListUtxos(raw), maxNumInputs, us, vs)
  {
    us := SelectRunes(w, ord, Required(ts), ListUtxos(raw)).value;
    vs := FundFee(w, ord, t, |us|, Sats(us), ListUtxos(raw)).value;
    RequiredIsPositive(ord, ts);
    SelectedIff(w, ord, Required(ts), ListUtxos(raw), us);
    FundedIff(w, ord, t, |us|, Sats(us), ListUtxos(raw), vs);
  }

  ghost predicate HasPlan(w: Wallet, ord: Ord, required: map<Rune, int>, t: Target, utxos: seq<Utxo>, maxNumInputs: int)
  {
    exists us, vs :: Plan(w, ord, required, t, utxos, maxNumInputs, us, vs)
  }

  /** There is a PSBT exactly when each transfer is valid, the eligible outputs hold enough of every rune, some number
      of rune-free outputs funds it, what is looked at on the way is indexed and ours, and the inputs are not too many. */
  lemma CreatedIff(w: Wallet, ord: Ord, encipher: Runestone -> Script, raw: seq<Utxo>,
                   ts: seq<Transfer>, feeRate: int, maxNumInputs: int)
    ensures Create(w, ord, encipher, raw, ts, feeRate, maxNumInputs).Ok? <==>
              && ts != [] && CheckTransfers(ord, ts) == None
              && HasPlan(w, ord, Required(ts), Target(Outputs(w, ord, encipher, ts), feeRate), ListUtxos(raw), maxNumInputs)
  {
    if ts != [] && CheckTransfers(ord, ts) == None {
      var t := Target(Outputs(w, ord, encipher, ts), feeRate);
      if HasPlan(w, ord, Required(ts), t, ListUtxos(raw), maxNumInputs) {
        var us, vs :| Plan(w, ord, Required(ts), t, ListUtxos(raw), maxNumInputs, us, vs);
        PlanGivesPsbt(w, ord, encipher, raw, ts, t, maxNumInputs, us, vs);
      }
      if Create(w, ord, encipher, raw, ts, feeRate, maxNumInputs).Ok? {
        var us, vs := PsbtHasPlan(w, ord, encipher, raw, ts, t, maxNumInputs);
      }
    }
  }
}
