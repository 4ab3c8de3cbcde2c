/** The multisig wallet builds the PSBT step by step; the result is the one of RunePsbt.Create. */
module OrdMultisig {
  import opened Wrappers
  import opened Transactions
  import opened RuneAllocation
  import opened CoinSelection
  import opened RunePsbt

  class Psbt {
    var inputs: seq<Utxo>
    var outputs: seq<TxOut>

    constructor ()
      ensures Value() == PsbtValue([], [])
    {
      inputs, outputs := [], [];
    }

    ghost function Value(): PsbtValue
      reads this
    {
      PsbtValue(inputs, outputs)
    }

    method AddInput(u: Utxo)
      modifies this
      ensures Value() == PsbtValue(old(inputs) + [u], old(outputs))
    {
      inputs := inputs + [u];
    }

    method AddOutput(out: TxOut)
      modifies this
      ensures Value() == PsbtValue(old(inputs), old(outputs) + [out])
    {
      outputs := outputs + [out];
    }

    method GetFee() returns (fee: int)
      ensures fee == PaidFee(Value())
    {
      fee := Sats(inputs) - TotalValue(outputs);
    }
  }

  /** `us` in front of what the rest of a loop returns. */
  ghost function After(us: seq<Utxo>, r: Result<seq<Utxo>, Error>): Result<seq<Utxo>, Error>
  {
    match r
    case Ok(vs) => Ok(us + vs)
    case Raise(e) => Raise(e)
  }

  lemma AfterNothing(r: Result<seq<Utxo>, Error>)
    ensures After([], r) == r
  {
    match r
    case Ok(vs) => assert [] + vs == vs;
    case Raise(_) =>
  }

  lemma AfterNext(us: seq<Utxo>, u: Utxo, r: Result<seq<Utxo>, Error>)
    ensures After(us, Prepend(u, r)) == After(us + [u], r)
    ensures Sats(us + [u]) == Sats(us) + u.amount
  {
    SatsAppend(us, [u]);
    assert Sats([u]) == u.amount;
    match r
    case Ok(vs) => assert us + ([u] + vs) == us + [u] + vs;
    case Raise(_) =>
  }

  lemma {:induction false} FirstError(ord: Ord, ts: seq<Transfer>, i: nat)
    requires i < |ts| && CheckTransfers(ord, ts[..i]) == None && CheckTransfer(ord, ts[i]).Some?
    ensures CheckTransfers(ord, ts) == CheckTransfer(ord, ts[i])
    decreases |ts|
  {
    var front := ts[..|ts| - 1];
    if i < |front| {
      assert front[..i] == ts[..i];
      FirstError(ord, front, i);
    } else {
      assert front == ts[..i];
    }
  }

  datatype Popped = Popped(utxo: Utxo, rest: seq<Utxo>)

  /** The first output without runes, and what is behind it; IndexError is running out of outputs. */
  function FirstWithoutRunes(ord: Ord, utxos: seq<Utxo>): Result<Popped, Error>
  {
    if utxos == [] then Raise(InsufficientBtcBalance)
    else if !Indexed(ord, utxos[0]) then Raise(UnindexedOutput)
    else if HasRunes(ord, utxos[0]) then FirstWithoutRunes(ord, utxos[1..])
    else Ok(Popped(utxos[0], utxos[1..]))
  }

  /** What the fee loop does with the output that is popped, or raises. */
  ghost predicate Pops(wallet: Wallet, ord: Ord, t: Target, inputs: nat, sat: int, utxos: seq<Utxo>, next: Result<Popped, Error>)
  {
    match next
    case Raise(e) => FundFee(wallet, ord, t, inputs, sat, utxos) == Raise(e)
    case Ok(popped) =>
      && Indexed(ord, popped.utxo) && !HasRunes(ord, popped.utxo) && |popped.rest| < |utxos|
      && FundFee(wallet, ord, t, inputs, sat, utxos) == FundFee(wallet, ord, t, inputs, sat, [popped.utxo] + popped.rest)
  }

  lemma {:induction false} PoppedFirst(wallet: Wallet, ord: Ord, t: Target, inputs: nat, sat: int, utxos: seq<Utxo>)
    requires !Funded(wallet, t, inputs, sat)
    ensures Pops(wallet, ord, t, inputs, sat, utxos, FirstWithoutRunes(ord, utxos))
  {
    if utxos != [] {
      assert utxos == [utxos[0]] + utxos[1..];
      if Indexed(ord, utxos[0]) && HasRunes(ord, utxos[0]) {
        PoppedFirst(wallet, ord, t, inputs, sat, utxos[1..]);
      }
    }
  }

  /** How the inputs already added and the rest of the queue go on. */
  ghost predicate Turns(wallet: Wallet, ord: Ord, t: Target, inputs: nat, sat: int, added: seq<Utxo>, queue: seq<Utxo>,
                        next: Result<Popped, Error>)
  {
    var all := After(added, FundFee(wallet, ord, t, inputs, sat, queue));
    match next
    case Raise(e) => all == Raise(e)
    case Ok(popped) =>
      && |popped.rest| < |queue|
      && Sats(added + [popped.utxo]) == Sats(added) + popped.utxo.amount
      && all == (if !popped.utxo.hasWitnessScript then After(added, FundFee(wallet, ord, t, inputs, sat, popped.rest))
                 else if !Ours(wallet, popped.utxo) then Raise(ValueError)
                 else After(added + [popped.utxo], FundFee(wallet, ord, t, inputs + 1, sat + popped.utxo.amount, popped.rest)))
  }

  /** One turn of the fee loop. */
  lemma FeeLoopTurn(wallet: Wallet, ord: Ord, t: Target, inputs: nat, sat: int, added: seq<Utxo>, queue: seq<Utxo>)
    requires !Funded(wallet, t, inputs, sat)
    ensures Turns(wallet, ord, t, inputs, sat, added, queue, FirstWithoutRunes(ord, queue))
  {
    PoppedFirst(wallet, ord, t, inputs, sat, queue);
    match FirstWithoutRunes(ord, queue)
    case Raise(_) =>
    case Ok(popped) =>
      assert ([popped.utxo] + popped.rest)[1..] == popped.rest;
      AfterNext(added, popped.utxo, FundFee(wallet, ord, t, inputs + 1, sat + popped.utxo.amount, popped.rest));
  }

  lemma FeeLoopEnds(wallet: Wallet, ord: Ord, t: Target, inputs: nat, sat: int, added: seq<Utxo>, queue: seq<Utxo>)
    requires Funded(wallet, t, inputs, sat)
    ensures After(added, FundFee(wallet, ord, t, inputs, sat, queue)) == Ok(added)
  {
    assert added + [] == added;
  }

  class OrdMultisig {
    const wallet: Wallet
    const ord: Ord
    const encipher: Runestone -> Script

    constructor (wallet: Wallet, ord: Ord, encipher: Runestone -> Script)
      ensures this.wallet == wallet && this.ord == ord && this.encipher == encipher
    {
      this.wallet, this.ord, this.encipher := wallet, ord, encipher;
    }

    /** The first loop: edicts, outputs and required amounts, or the error of the first bad transfer. */
    method PlanTransfers(ts: seq<Transfer>)
      returns (error: Option<Error>, edicts: seq<Edict>, outputs: seq<TxOut>, required: map<Rune, int>)
      ensures error == CheckTransfers(ord, ts)
      ensures error == None ==> edicts == Edicts(ord, ts) && outputs == RuneOutputs(ord, ts) && required == Required(ts)
    {
      edicts, outputs, required := [], [], map[];
      for i := 0 to |ts|
        invariant CheckTransfers(ord, ts[..i]) == None
        invariant edicts == Edicts(ord, ts[..i]) && outputs == RuneOutputs(ord, ts[..i]) && required == Required(ts[..i])
      {
        assert ts[..i + 1][..i] == ts[..i];
        error := CheckTransfer(ord, ts[i]);
        if error.Some? {
          FirstError(ord, ts, i);
          return;
        }
        edicts := edicts + [Edict(ord.ids(ts[i].rune).value, ts[i].amount, i + FIRST_RUNE_OUTPUT)];
        outputs := outputs + [TxOut(ts[i].postage, ts[i].receiver.value)];
        required := Add(required, ts[i].rune, ts[i].amount);
      }
      assert ts[..|ts|] == ts;
      error := None;
    }

    method AddPsbtInput(psbt: Psbt, u: Utxo) returns (error: Option<Error>)
      modifies psbt
      ensures error == (if Ours(wallet, u) then None else Some(ValueError))
      ensures psbt.Value() == old(if Ours(wallet, u) then PsbtValue(psbt.inputs + [u], psbt.outputs) else psbt.Value())
    {
      if u.fingerprints == None || wallet.fingerprint !in u.fingerprints.value {
        return Some(ValueError);
      }
      psbt.AddInput(u);
      return None;
    }

    /** Coin selection for the runes. */
    method AddRuneInputs(psbt: Psbt, utxos: seq<Utxo>, runes: map<Rune, int>) returns (error: Option<Error>, sat: int)
      requires psbt.inputs == []
      modifies psbt
      ensures psbt.outputs == old(psbt.outputs)
      ensures match error
              case None => SelectRunes(wallet, ord, runes, utxos) == Ok(psbt.inputs) && sat == Sats(psbt.inputs)
              case Some(e) => SelectRunes(wallet, ord, runes, utxos) == Raise(e)
    {
      var required := runes;
      sat := 0;
      ghost var all := SelectRunes(wallet, ord, runes, utxos);
      AfterNothing(all);
      assert utxos[0..] == utxos;
      for i := 0 to |utxos|
        invariant psbt.outputs == old(psbt.outputs) && sat == Sats(psbt.inputs)
        invariant After(psbt.inputs, SelectRunes(wallet, ord, required, utxos[i..])) == all
      {
        var u := utxos[i];
        assert utxos[i..][1..] == utxos[i + 1..];
        if !u.hasWitnessScript {
          continue;
        }
        if !Indexed(ord, u) {
          return Some(UnindexedOutput), sat;
        }
        if !HasRunes(ord, u) {
          continue;
        }
        if u.address != wallet.changeAddress {
          if u.confirmations < wallet.minNonChangeConfirmations {
            continue;
          }
        }
        if !HoldsAny(ord, required, u) {
          continue;
        }
        ghost var rest := SelectRunes(wallet, ord, Spend(ord, required, u), utxos[i + 1..]);
        AfterNext(psbt.inputs, u, rest);
        sat := sat + u.amount;
        required := Spend(ord, required, u);
        error := AddPsbtInput(psbt, u);
        if error.Some? {
          return;
        }
        if Covered(required) {
          return None, sat;
        }
      }
      return Some(InsufficientRuneBalance), sat;
    }

    /** The fee of the PSBT with a change output added, and whether inputs worth `sat` pay for it. */
    method EstimateFee(psbt: Psbt, feeRate: int, sat: int) returns (fee: int, funded: bool)
      ensures fee == Fee(wallet, Target(psbt.outputs, feeRate), |psbt.inputs|)
      ensures funded == Funded(wallet, Target(psbt.outputs, feeRate), |psbt.inputs|, sat)
    {
      var outputSat := TotalValue(psbt.outputs);
      var size := VirtualSize(|psbt.inputs|, psbt.outputs + [TxOut(1, wallet.changeScript)], wallet.multisig);
      fee := feeRate * size;
      funded := sat == outputSat + fee || sat >= outputSat + fee + DUST_SAT;
    }

    /** Pops outputs up to and including the first one without runes. */
    method PopWithoutRunes(utxos: seq<Utxo>) returns (r: Result<Popped, Error>)
      ensures r == FirstWithoutRunes(ord, utxos)
    {
      var rest := utxos;
      while rest != []
        invariant FirstWithoutRunes(ord, utxos) == FirstWithoutRunes(ord, rest)
        decreases |rest|
      {
        var u := rest[0];
        rest := rest[1..];
        if !Indexed(ord, u) {
          return Raise(UnindexedOutput);
        }
        if !HasRunes(ord, u) {
          return Ok(Popped(u, rest));
        }
      }
      return Raise(InsufficientBtcBalance);
    }

    /** Spends an output that was popped. */
    method AddFeeInput(psbt: Psbt, u: Utxo, sat: int) returns (error: Option<Error>, sum: int)
      modifies psbt
      ensures error == (if Ours(wallet, u) then None else Some(ValueError)) && sum == sat + u.amount
      ensures psbt.outputs == old(psbt.outputs)
      ensures error == None ==> psbt.inputs == old(psbt.inputs) + [u]
      ensures error.Some? ==> psbt.inputs == old(psbt.inputs)
    {
      sum := sat + u.amount;
      error := AddPsbtInput(psbt, u);
    }

    /** Coin selection for the fee: pops outputs until the inputs pay for themselves. */
    method AddFeeInputs(psbt: Psbt, utxos: seq<Utxo>, feeRate: int, runeSat: int)
      returns (error: Option<Error>, sat: int, fee: int)
      modifies psbt
      ensures psbt.outputs == old(psbt.outputs)
      ensures old(psbt.inputs) <= psbt.inputs
      ensures var t, n := Target(psbt.outputs, feeRate), |old(psbt.inputs)|;
              match error
              case None =>
                && FundFee(wallet, ord, t, n, runeSat, utxos) == Ok(psbt.inputs[n..])
                && sat == runeSat + Sats(psbt.inputs[n..])
                && fee == Fee(wallet, t, |psbt.inputs|) && sat - TotalValue(psbt.outputs) - fee >= 0
              case Some(e) => FundFee(wallet, ord, t, n, runeSat, utxos) == Raise(e)
    {
      var queue := utxos;
      sat := runeSat;
      ghost var t, n := Target(psbt.outputs, feeRate), |psbt.inputs|;
      ghost var all := FundFee(wallet, ord, t, n, runeSat, utxos);
      ghost var added: seq<Utxo> := [];
      AfterNothing(all);
      while true
        invariant psbt.outputs == t.outs && psbt.inputs == old(psbt.inputs) + added
        invariant sat == runeSat + Sats(added)
        invariant After(added, FundFee(wallet, ord, t, |psbt.inputs|, sat, queue)) == all
        decreases |queue|
      {
        var funded: bool;
        fee, funded := EstimateFee(psbt, feeRate, sat);
        if funded {
          break;
        }
        FeeLoopTurn(wallet, ord, t, |psbt.inputs|, sat, added, queue);
        var next := PopWithoutRunes(queue);
        if next.Raise? {
          return Some(next.error), sat, fee;
        }
        queue := next.value.rest;
        var u := next.value.utxo;
        if !u.hasWitnessScript {
          continue;
        }
        error, sat := AddFeeInput(psbt, u, sat);
        if error.Some? {
          return;
        }
        added := added + [u];
        assert psbt.inputs == old(psbt.inputs) + added;
      }
      FeeLoopEnds(wallet, ord, t, |psbt.inputs|, sat, added, queue);
      assert psbt.inputs[n..] == added;
      error := None;
    }

    /** The runestone at output 0, the rune change at output 1, then the receivers. */
    method AddOutputs(psbt: Psbt, edicts: seq<Edict>, runeOutputs: seq<TxOut>)
      requires psbt.Value() == PsbtValue([], [])
      modifies psbt
      ensures psbt.inputs == []
      ensures psbt.outputs
           == [ TxOut(0, encipher(Runestone(edicts, Some(RUNE_CHANGE_OUTPUT)))),
                TxOut(TARGET_POSTAGE_SAT, wallet.changeScript) ] + runeOutputs
    {
      psbt.AddOutput(TxOut(0, encipher(Runestone(edicts, Some(RUNE_CHANGE_OUTPUT)))));
      psbt.AddOutput(TxOut(TARGET_POSTAGE_SAT, wallet.changeScript));
      ghost var fixed := psbt.outputs;
      for i := 0 to |runeOutputs|
        invariant psbt.inputs == [] && psbt.outputs == fixed + runeOutputs[..i]
      {
        psbt.AddOutput(runeOutputs[i]);
      }
      assert runeOutputs[..|runeOutputs|] == runeOutputs;
    }

    /** The bitcoin change, if there is any; what is not given out then is the fee. */
    method AddChange(psbt: Psbt, sat: int, fee: int)
      requires sat == Sats(psbt.inputs) && sat - TotalValue(psbt.outputs) - fee >= 0
      modifies psbt
      ensures psbt.inputs == old(psbt.inputs)
      ensures psbt.outputs == WithChange(wallet, old(psbt.outputs), sat - TotalValue(old(psbt.outputs)) - fee)
      ensures PaidFee(psbt.Value()) == fee
    {
      var change := sat - TotalValue(psbt.outputs) - fee;
      if change > 0 {
        AppendedOutput(0, psbt.outputs, TxOut(change, wallet.changeScript));
        psbt.AddOutput(TxOut(change, wallet.changeScript));
      }
      var paid := psbt.GetFee();
      assert paid == fee;
    }

    /** create_rune_psbt */
    method CreateRunePsbt(ts: seq<Transfer>, raw: seq<Utxo>, feeRate: int, maxNumInputs: int)
      returns (r: Result<Psbt, Error>)
      ensures match r
              case Ok(psbt) => fresh(psbt) && Create(wallet, ord, encipher, raw, ts, feeRate, maxNumInputs) == Ok(psbt.Value())
              case Raise(e) => Create(wallet, ord, encipher, raw, ts, feeRate, maxNumInputs) == Raise(e)
    {
      if |ts| == 0 {
        return Raise(ValueError);
      }
      var error, edicts, runeOutputs, required := PlanTransfers(ts);
      if error.Some? {
        return Raise(error.value);
      }
      var psbt := new Psbt();
      AddOutputs(psbt, edicts, runeOutputs);
      assert psbt.outputs == Outputs(wallet, ord, encipher, ts);
      var utxos := ListUtxos(raw);
      var runeError, runeSat := AddRuneInputs(psbt, utxos, required);
      if runeError.Some? {
        return Raise(runeError.value);
      }
      ghost var runeInputs := psbt.inputs;
      var feeError, sat, fee := AddFeeInputs(psbt, utxos, feeRate, runeSat);
      if feeError.Some? {
        return Raise(feeError.value);
      }
      assert psbt.inputs == runeInputs + psbt.inputs[|runeInputs|..];
      SatsAppend(runeInputs, psbt.inputs[|runeInputs|..]);
      if |psbt.inputs| > maxNumInputs {
        return Raise(RuntimeError);
      }
      AddChange(psbt, sat, fee);
      return Ok(psbt);
    }
  }
}
