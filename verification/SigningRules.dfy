/** When exactly a federator signs, in terms of the message, the PSBT and the federator's own view. */
module SigningRules {
  import opened Wrappers
  import opened Transactions
  import opened RuneAllocation
  import opened CoinSelection
  import opened RunePsbt
  import opened PsbtValidation

  /** The request repeats an accepted deposit of the federator. */
  ghost predicate Seen(v: View, q: Request)
  {
    exists d :: Repeats(v, q, d)
  }

  ghost predicate Repeats(v: View, q: Request, d: Deposit)
  {
    && v.deposits(q.eventTxHash, q.eventLogIndex) == Some(d) && d.status == Accepted
    && q.receiver == d.receiver && q.netAmount == d.netAmount
    && q.runeNumber == d.runeNumber && v.runeOf(q.runeName) == Some(d.runeNumber)
  }

  lemma CheckRequestIff(v: View, q: Request)
    ensures CheckRequest(v, q) == None <==> Seen(v, q)
  {
    if CheckRequest(v, q) == None {
      assert Repeats(v, q, v.deposits(q.eventTxHash, q.eventLogIndex).value);
    }
  }

  lemma {:induction false} CheckRequestsIff(v: View, requests: seq<Request>)
    ensures CheckRequests(v, requests) == None <==> forall i :: 0 <= i < |requests| ==> Seen(v, requests[i])
  {
    if requests != [] {
      CheckRequestIff(v, requests[0]);
      CheckRequestsIff(v, requests[1..]);
      assert forall i :: 0 < i < |requests| ==> requests[i] == requests[1..][i - 1];
      assert forall i :: 0 <= i < |requests| - 1 ==> requests[1..][i] == requests[i + 1];
    }
  }

  /** A runestone, then the outputs for rune change and for the receiver, if there is one, each of 10,000 satoshis, then at
      most one output of any value for the change. */
  ghost predicate Outputs(w: Wallet, v: View, outs: seq<TxOut>, stone: Runestone, n: nat)
  {
    && n + 2 <= |outs| <= n + 3
    && outs[0] == TxOut(0, v.codec.encipher(stone)) && outs[1] == TxOut(10_000, w.changeScript)
    && (|outs| == n + 3 ==> outs[n + 2].script == w.changeScript)
    && |stone.edicts| == n && (stone.pointer.Some? ==> stone.pointer.value < |outs|)
  }

  /** The only edict and the output that it names are for the receiver of the request. */
  ghost predicate PaysReceiver(v: View, outs: seq<TxOut>, stone: Runestone, q: Request)
    requires |outs| >= 3
  {
    && q.netAmount >= 0 && v.runeOf(q.runeName).Some? && v.ord.ids(v.runeOf(q.runeName).value).Some?
    && stone.edicts == [Edict(v.ord.ids(v.runeOf(q.runeName).value).value, q.netAmount, 2)]
    && v.scriptOf(q.receiver).Some? && outs[2] == TxOut(10_000, v.scriptOf(q.receiver).value)
  }

  ghost predicate Structure(w: Wallet, v: View, requests: seq<Request>, outs: seq<TxOut>)
  {
    && |requests| <= 1 && RunestoneOf(v.codec, outs).Some?
    && Outputs(w, v, outs, RunestoneOf(v.codec, outs).value, |requests|)
    && (|requests| == 1 ==> PaysReceiver(v, outs, RunestoneOf(v.codec, outs).value, requests[0]))
  }

  lemma CheckTransferIff(v: View, outs: seq<TxOut>, stone: Runestone, q: Request)
    requires |stone.edicts| == 1 && |outs| >= 3
    ensures CheckTransferOutputs(v, outs, stone, [q], 0) == None <==> PaysReceiver(v, outs, stone, q)
  {
    assert CheckTransferOutputs(v, outs, stone, [q], 0) == CheckTransferOutput(v, outs, stone, q, 2) by {
      assert CheckTransferOutputs(v, outs, stone, [q], 1) == None;
    }
    assert stone.edicts == [stone.edicts[0]];
  }

  lemma OutputsIff(w: Wallet, v: View, requests: seq<Request>, outs: seq<TxOut>, stone: Runestone)
    requires |requests| <= 1
    ensures !IsCenotaph(outs, stone) && CheckOutputs(w, v, outs, stone, |requests|) == None
              && CheckTransferOutputs(v, outs, stone, requests, 0) == None
       <==> Outputs(w, v, outs, stone, |requests|) && (|requests| == 1 ==> PaysReceiver(v, outs, stone, requests[0]))
  {
    if |requests| == 1 && |stone.edicts| == 1 && |outs| >= 3 {
      assert requests == [requests[0]];
      CheckTransferIff(v, outs, stone, requests[0]);
    }
  }

  lemma StructureIff(w: Wallet, v: View, requests: seq<Request>, p: PsbtValue)
    ensures CheckStructure(w, v, requests, p) == None <==> Structure(w, v, requests, p.outputs)
  {
    AtMostOne(w, v, requests, p);
    if |requests| <= 1 && RunestoneOf(v.codec, p.outputs).Some? {
      OutputsIff(w, v, requests, p.outputs, RunestoneOf(v.codec, p.outputs).value);
    }
  }

  /** The rate is not below the least one nor below a third of the estimate, rounded down, and not above three times the
      larger of the two. */
  ghost predicate RateIsFair(estimate: int, minRate: int, rate: int)
  {
    rate >= minRate && 3 * rate > estimate - 3 && (rate <= 3 * estimate || rate <= 3 * minRate)
  }

  /** The fee is at least ten elevenths, and less than eleven tenths, of the size times the rate. */
  ghost predicate FeeIsFair(size: int, rate: int, fee: int)
  {
    11 * fee >= 10 * (size * rate) && 10 * fee < 11 * (size * rate)
  }

  /** A federator signs exactly the PSBTs of this form, for at most one transfer. */
  lemma SignedIff(w: Wallet, v: View, requests: seq<Request>, p: PsbtValue, rate: int, estimate: int, minRate: int)
    ensures Validate(w, v, requests, p, rate, estimate, minRate) == None
       <==> && |requests| <= 1 && (|requests| == 1 ==> Seen(v, requests[0]))
            && Structure(w, v, requests, p.outputs) && RateIsFair(estimate, minRate, rate)
            && FeeIsFair(VirtualSize(|p.inputs|, p.outputs, w.multisig), rate, PaidFee(p))
  {
    CheckRequestsIff(v, requests);
    StructureIff(w, v, requests, p);
    assert RateInWindow(estimate, minRate, rate) <==> RateIsFair(estimate, minRate, rate);
  }

  /** Once the messages, the structure and the rate are accepted, the fee decides. */
  lemma FeeDecides(w: Wallet, v: View, requests: seq<Request>, p: PsbtValue, rate: int, estimate: int, minRate: int)
    requires (forall i :: 0 <= i < |requests| ==> Seen(v, requests[i])) && Structure(w, v, requests, p.outputs)
    requires RateIsFair(estimate, minRate, rate)
    ensures var size, fee := VirtualSize(|p.inputs|, p.outputs, w.multisig), PaidFee(p);
            Validate(w, v, requests, p, rate, estimate, minRate)
            == if 10 * fee >= 11 * (size * rate) then Some(FeeTooHigh)
               else if 11 * fee < 10 * (size * rate) then Some(FeeTooLow)
               else None
  {
    CheckRequestsIff(v, requests);
    StructureIff(w, v, requests, p);
    assert RateInWindow(estimate, minRate, rate) <==> RateIsFair(estimate, minRate, rate);
  }

  // ---------------------------------------------------------------- the reason of a refusal

  predicate AboutRequest(x: Violation)
  {
    x in {NoDeposit, NotAccepted, ReceiverMismatch, AmountMismatch, InvalidRuneName, RuneMismatch}
  }

  predicate AboutFee(x: Violation)
  {
    x in {FeeRateOutOfRange, FeeTooHigh, FeeTooLow}
  }

  predicate AboutStructure(found: Option<Violation>)
  {
    found.Some? ==> !AboutRequest(found.value) && !AboutFee(found.value) && found.value != DuplicateTransfers
  }

  /** What makes this request not repeat an accepted deposit, in the order of the checks. */
  ghost predicate Explains(v: View, q: Request, x: Violation)
  {
    match v.deposits(q.eventTxHash, q.eventLogIndex)
    case None => x == NoDeposit
    case Some(d) =>
      match x
      case NotAccepted => d.status != Accepted
      case ReceiverMismatch => d.status == Accepted && d.receiver != q.receiver
      case AmountMismatch => d.status == Accepted && d.receiver == q.receiver && d.netAmount != q.netAmount
      case InvalidRuneName =>
        d.status == Accepted && d.receiver == q.receiver && d.netAmount == q.netAmount && v.runeOf(q.runeName) == None
      case RuneMismatch =>
        && d.status == Accepted && d.receiver == q.receiver && d.netAmount == q.netAmount
        && v.runeOf(q.runeName).Some? && (v.runeOf(q.runeName).value != d.runeNumber || q.runeNumber != d.runeNumber)
      case _ => false
  }

  lemma {:induction false} RequestsExplained(v: View, requests: seq<Request>)
    requires CheckRequests(v, requests).Some?
    ensures var x := CheckRequests(v, requests).value;
            AboutRequest(x) && exists i :: 0 <= i < |requests| && Explains(v, requests[i], x)
  {
    if CheckRequest(v, requests[0]) == None {
      RequestsExplained(v, requests[1..]);
      var i :| 0 <= i < |requests| - 1 && Explains(v, requests[1..][i], CheckRequests(v, requests).value);
      assert requests[i + 1] == requests[1..][i];
    } else {
      assert Explains(v, requests[0], CheckRequests(v, requests).value);
    }
  }

  lemma {:induction false} TransfersAreStructure(v: View, outs: seq<TxOut>, stone: Runestone, requests: seq<Request>, i: nat)
    requires |stone.edicts| == |requests| && i <= |requests| && |requests| + 2 <= |outs|
    ensures AboutStructure(CheckTransferOutputs(v, outs, stone, requests, i))
    decreases |requests| - i
  {
    if i < |requests| {
      TransfersAreStructure(v, outs, stone, requests, i + 1);
    }
  }

  lemma StructureIsStructure(w: Wallet, v: View, requests: seq<Request>, p: PsbtValue)
    ensures AboutStructure(CheckStructure(w, v, requests, p))
  {
    if RunestoneOf(v.codec, p.outputs).Some? {
      var stone := RunestoneOf(v.codec, p.outputs).value;
      if CheckOutputs(w, v, p.outputs, stone, |requests|) == None {
        TransfersAreStructure(v, p.outputs, stone, requests, 0);
      }
    }
  }

  ghost predicate SameEvent(q: Request, r: Request)
  {
    q.eventTxHash == r.eventTxHash && q.eventLogIndex == r.eventLogIndex
  }

  ghost predicate SomeSameEvent(requests: seq<Request>)
  {
    exists i, j :: 0 <= i < j < |requests| && SameEvent(requests[i], requests[j])
  }

  /** The first thing that is wrong is the reason: two requests for one event, then a request that does not repeat an accepted
      deposit, then the runestone and the outputs, then the rate, then the fee. */
  lemma RefusalHasReason(w: Wallet, v: View, requests: seq<Request>, p: PsbtValue, rate: int, estimate: int, minRate: int, x: Violation)
    requires Validate(w, v, requests, p, rate, estimate, minRate) == Some(x)
    ensures if SomeSameEvent(requests) then x == DuplicateTransfers
            else if exists i :: 0 <= i < |requests| && !Seen(v, requests[i]) then
              AboutRequest(x) && exists i :: 0 <= i < |requests| && Explains(v, requests[i], x)
            else if !Structure(w, v, requests, p.outputs) then x != DuplicateTransfers && !AboutRequest(x) && !AboutFee(x)
            else if !RateIsFair(estimate, minRate, rate) then x == FeeRateOutOfRange
            else x in {FeeTooHigh, FeeTooLow}
  {
    DuplicatesIff(requests);
    CheckRequestsIff(v, requests);
    StructureIff(w, v, requests, p);
    StructureIsStructure(w, v, requests, p);
    if CheckRequests(v, requests).Some? {
      RequestsExplained(v, requests);
    }
    assert RateInWindow(estimate, minRate, rate) <==> RateIsFair(estimate, minRate, rate);
  }

  lemma DuplicatesIff(requests: seq<Request>)
    ensures HasDuplicates(requests) <==> SomeSameEvent(requests)
  {
    if SomeSameEvent(requests) {
      var i, j :| 0 <= i < j < |requests| && SameEvent(requests[i], requests[j]);
      assert requests[i].eventTxHash == requests[j].eventTxHash;
    }
    if HasDuplicates(requests) {
      var i, j :| 0 <= i < j < |requests|
        && requests[i].eventTxHash == requests[j].eventTxHash && requests[i].eventLogIndex == requests[j].eventLogIndex;
      assert SameEvent(requests[i], requests[j]);
    }
  }

  // ---------------------------------------------------------------- the least fee

  /** What a federator signs pays at least ten elevenths of its size times the federator's own least rate: a third of its
      estimate, and 15 satoshis per byte on mainnet, 1 elsewhere. */
  lemma LeastFee(w: Wallet, v: View, requests: seq<Request>, p: PsbtValue, rate: int, estimate: int, mainnet: bool)
    requires Validate(w, v, requests, p, rate, estimate, MinFeeRate(mainnet)) == None
    ensures var size := VirtualSize(|p.inputs|, p.outputs, w.multisig);
            && 11 * PaidFee(p) >= 10 * (size * rate)
            && 11 * PaidFee(p) >= 10 * (size * (estimate / 3))
            && 11 * PaidFee(p) >= 10 * (size * (if mainnet then 15 else 1))
  {
    SignedIff(w, v, requests, p, rate, estimate, MinFeeRate(mainnet));
    var size := VirtualSize(|p.inputs|, p.outputs, w.multisig);
    RateTimesSize(size, estimate / 3, rate);
    RateTimesSize(size, if mainnet then 15 else 1, rate);
  }
}
