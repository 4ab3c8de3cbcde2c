/** The service that sends token deposits back to Bitcoin, one undisturbed call at a time. */
module RuneTokenService {
  import opened Wrappers
  import opened Transactions
  import opened RuneAllocation
  import opened CoinSelection
  import opened RunePsbt
  import opened PsbtValidation
  import opened TokenDeposits

  /** What a call can raise. */
  datatype Failure = NotFound | ValidationError | BuildError | FinalizeError | BroadcastError | MessengerError

  /** What the outside answers during a call. */
  datatype Answers = Answers(
    balances: Outpoint -> Option<map<Rune, nat>>,
    utxos: seq<Utxo>,
    estimate: int,
    ownEstimate: int,
    responses: seq<SignedPsbt>,
    txId: string,
    broadcastRaises: bool,
    messengerRaises: bool)

  /** The steps of one call of handle_accepted_rune_token_deposit. */
  function HandleSteps(cfg: Config, s: State, key: EventKey, x: Answers): State
  {
    var built := Apply(cfg, Apply(cfg, s, Start(key)), Build(0, x.balances, x.utxos, x.estimate, x.ownEstimate));
    var stored := Apply(cfg, Apply(cfg, built, Combine(0, x.responses)), Store(0));
    var sent := Apply(cfg, stored, BroadcastPsbt(0, x.txId, x.broadcastRaises));
    Apply(cfg, if x.messengerRaises then Apply(cfg, sent, NotifyRaises(0)) else sent, Record(0))
  }

  /** Most of the leader's own checks raise the same error as the checks of the deposit do. */
  function FailureOf(f: BuildFailure): Failure
  {
    match f
    case Refused(violation) =>
      if violation in {NoDeposit, InvalidRuneName, InvalidAddress} then BuildError else ValidationError
    case _ => BuildError
  }

  // ---------------------------------------------------------------- what can come of a call

  ghost predicate IsPayable(rows: map<EventKey, Row>, key: EventKey)
  {
    key in rows && rows[key].deposit.status == Accepted && rows[key].deposit.netAmount != 0
  }

  function OwnRequest(cfg: Config, rows: map<EventKey, Row>, key: EventKey): Request
    requires key in rows
  {
    RequestFor(cfg, key, rows[key].deposit)
  }

  /** The wallet makes this PSBT for the deposit, at a rate that is not too high. */
  ghost predicate IsCreated(cfg: Config, rows: map<EventKey, Row>, key: EventKey, x: Answers, p: PsbtValue)
    requires key in rows
  {
    var v := OwnView(cfg, rows, x.balances);
    && x.estimate <= cfg.maxFeeRate
    && Create(cfg.wallet, v.ord, cfg.codec.encipher, x.utxos, [LeaderTransfer(v, OwnRequest(cfg, rows, key))],
              AdjustedRate(x.estimate, cfg.minFeeRate), MAX_NUM_INPUTS) == Ok(p)
  }

  /** All checks of the node itself, at the estimate that it makes the second time. */
  function OwnChecks(cfg: Config, rows: map<EventKey, Row>, key: EventKey, x: Answers, p: PsbtValue): Option<Violation>
    requires key in rows
  {
    Validate(cfg.wallet, OwnView(cfg, rows, x.balances), [OwnRequest(cfg, rows, key)], p,
             AdjustedRate(x.estimate, cfg.minFeeRate), x.ownEstimate, cfg.minFeeRate)
  }

  /** The PSBT of an ACCEPTED deposit, which the node itself would sign. */
  ghost predicate Passes(cfg: Config, rows: map<EventKey, Row>, key: EventKey, x: Answers, p: PsbtValue)
  {
    IsPayable(rows, key) && IsCreated(cfg, rows, key, x, p) && OwnChecks(cfg, rows, key, x, p) == None
  }

  ghost predicate IsRefused(cfg: Config, rows: map<EventKey, Row>, key: EventKey, x: Answers, violation: Violation)
    requires key in rows
  {
    exists p :: IsCreated(cfg, rows, key, x, p) && OwnChecks(cfg, rows, key, x, p) == Some(violation)
  }

  /** The node refuses the PSBT of its own wallet with a validation error; the other checks raise other errors. */
  ghost predicate RefusesItself(cfg: Config, rows: map<EventKey, Row>, key: EventKey, x: Answers)
    requires key in rows
  {
    exists violation :: violation !in {NoDeposit, InvalidRuneName, InvalidAddress} && IsRefused(cfg, rows, key, x, violation)
  }

  /** The signed PSBTs are the first of the own one and the responses, as many as required, each a copy of the PSBT
      signed by another cosigner. */
  ghost predicate Prepares(cfg: Config, rows: map<EventKey, Row>, key: EventKey, x: Answers, p: PsbtValue,
                           signed: seq<SignedPsbt>)
  {
    && Passes(cfg, rows, key, x, p)
    && signed <= [SignedPsbt(p, cfg.self)] + x.responses && ProperlySigned(cfg, p, signed)
  }

  ghost predicate IsPrepared(cfg: Config, rows: map<EventKey, Row>, key: EventKey, x: Answers)
  {
    exists p, signed :: Prepares(cfg, rows, key, x, p, signed)
  }

  lemma {:induction false} SignersAreAll(signed: seq<SignedPsbt>)
    requires forall i, j :: 0 <= i < j < |signed| ==> signed[i].signer != signed[j].signer
    ensures |Signers(signed)| == |signed|
  {
    if signed != [] {
      var front, last := signed[..|signed| - 1], signed[|signed| - 1];
      assert signed == front + [last];
      SignersAreAll(front);
      assert last.signer !in Signers(front);
      assert Signers(signed) == Signers(front) + {last.signer};
    }
  }

  /** Exactly properly signed copies finalize. */
  lemma FinalizesIff(cfg: Config, p: PsbtValue, signed: seq<SignedPsbt>)
    requires |signed| == cfg.requiredSigners
    ensures Finalizes(cfg, p, signed) <==> ProperlySigned(cfg, p, signed)
  {
    if Finalizes(cfg, p, signed) {
      FinalizedIsSigned(cfg, p, signed);
    }
    if ProperlySigned(cfg, p, signed) {
      SignersAreAll(signed);
      assert Signers(signed) * cfg.cosigners == Signers(signed);
    }
  }

  /** The steps that build and combine: what they leave is the PSBT and the signed PSBTs of `Prepares`, or nothing. */
  ghost function CombinedSteps(cfg: Config, rows: map<EventKey, Row>, broadcasts: seq<Broadcasting>, key: EventKey, x: Answers): State
  {
    var started := Apply(cfg, State(rows, [], broadcasts), Start(key));
    Apply(cfg, Apply(cfg, started, Build(0, x.balances, x.utxos, x.estimate, x.ownEstimate)), Combine(0, x.responses))
  }

  lemma BuiltIff(cfg: Config, rows: map<EventKey, Row>, key: EventKey, x: Answers, p: PsbtValue)
    requires IsPayable(rows, key)
    ensures BuildPsbt(cfg, rows, OwnRequest(cfg, rows, key), x.balances, x.utxos, x.estimate, x.ownEstimate) == Ok(p)
       <==> Passes(cfg, rows, key, x, p)
  {
  }

  lemma SignedInOrderIff(cfg: Config, p: PsbtValue, responses: seq<SignedPsbt>, signed: seq<SignedPsbt>)
    requires |signed| == cfg.requiredSigners
    ensures signed <= [SignedPsbt(p, cfg.self)] + responses <==> signed == SignedInOrder(cfg, p, responses)
  {
  }

  ghost predicate IsCombined(cfg: Config, rows: map<EventKey, Row>, key: EventKey, x: Answers, h: Handling)
  {
    h.key == key && h.stage.Combined? && Prepares(cfg, rows, key, x, h.stage.psbt, h.stage.signed)
  }

  lemma PreparedStepsAre(cfg: Config, rows: map<EventKey, Row>, broadcasts: seq<Broadcasting>, key: EventKey, x: Answers,
                         p: PsbtValue, signed: seq<SignedPsbt>)
    requires Prepares(cfg, rows, key, x, p, signed)
    ensures CombinedSteps(cfg, rows, broadcasts, key, x)
         == State(rows, [Handling(key, OwnRequest(cfg, rows, key), Combined(p, signed))], broadcasts)
  {
    var q := OwnRequest(cfg, rows, key);
    BuiltIff(cfg, rows, key, x, p);
    SignedInOrderIff(cfg, p, x.responses, signed);
    FinalizesIff(cfg, p, signed);
    BuiltStep(cfg, rows, broadcasts, key, x, q, p);
    CombinedStep(cfg, State(rows, [Handling(key, q, Built(p))], broadcasts), key, x, q, p, signed);
  }

  lemma BuiltStep(cfg: Config, rows: map<EventKey, Row>, broadcasts: seq<Broadcasting>, key: EventKey, x: Answers,
                  q: Request, p: PsbtValue)
    requires IsPayable(rows, key) && q == OwnRequest(cfg, rows, key)
    requires BuildPsbt(cfg, rows, q, x.balances, x.utxos, x.estimate, x.ownEstimate) == Ok(p)
    ensures Apply(cfg, Apply(cfg, State(rows, [], broadcasts), Start(key)),
                  Build(0, x.balances, x.utxos, x.estimate, x.ownEstimate))
         == State(rows, [Handling(key, q, Built(p))], broadcasts)
  {
  }

  lemma CombinedStep(cfg: Config, s: State, key: EventKey, x: Answers, q: Request, p: PsbtValue, signed: seq<SignedPsbt>)
    requires s.handlings == [Handling(key, q, Built(p))]
    requires signed == SignedInOrder(cfg, p, x.responses) && |signed| == cfg.requiredSigners && Finalizes(cfg, p, signed)
    ensures Apply(cfg, s, Combine(0, x.responses)) == s.(handlings := [Handling(key, q, Combined(p, signed))])
  {
  }

  lemma NothingBuilt(cfg: Config, rows: map<EventKey, Row>, broadcasts: seq<Broadcasting>, key: EventKey, x: Answers)
    requires IsPayable(rows, key) ==>
               BuildPsbt(cfg, rows, OwnRequest(cfg, rows, key), x.balances, x.utxos, x.estimate, x.ownEstimate).Raise?
    ensures var s := CombinedSteps(cfg, rows, broadcasts, key, x);
            && s.rows == rows && s.broadcasts == broadcasts && |s.handlings| <= 1
            && (s.handlings == [] || s.handlings[0].stage == Over)
  {
  }

  lemma NothingCombined(cfg: Config, s: State, key: EventKey, x: Answers, q: Request, p: PsbtValue)
    requires s.handlings == [Handling(key, q, Built(p))]
    requires var signed := SignedInOrder(cfg, p, x.responses); |signed| < cfg.requiredSigners || !Finalizes(cfg, p, signed)
    ensures Apply(cfg, s, Combine(0, x.responses)) == s.(handlings := [Handling(key, q, Over)])
  {
  }

  lemma CombinedStepsAre(cfg: Config, rows: map<EventKey, Row>, broadcasts: seq<Broadcasting>, key: EventKey, x: Answers)
    ensures var s := CombinedSteps(cfg, rows, broadcasts, key, x);
            && s.rows == rows && s.broadcasts == broadcasts && |s.handlings| <= 1
            && (s.handlings == [] || s.handlings[0].stage == Over || IsCombined(cfg, rows, key, x, s.handlings[0]))
  {
    if !IsPayable(rows, key) {
      NothingBuilt(cfg, rows, broadcasts, key, x);
    } else {
      var q := OwnRequest(cfg, rows, key);
      match BuildPsbt(cfg, rows, q, x.balances, x.utxos, x.estimate, x.ownEstimate)
      case Raise(_) => NothingBuilt(cfg, rows, broadcasts, key, x);
      case Ok(p) =>
        var signed := SignedInOrder(cfg, p, x.responses);
        BuiltStep(cfg, rows, broadcasts, key, x, q, p);
        if |signed| < cfg.requiredSigners || !Finalizes(cfg, p, signed) {
          NothingCombined(cfg, State(rows, [Handling(key, q, Built(p))], broadcasts), key, x, q, p);
        } else {
          BuiltIff(cfg, rows, key, x, p);
          SignedInOrderIff(cfg, p, x.responses, signed);
          FinalizesIff(cfg, p, signed);
          PreparedStepsAre(cfg, rows, broadcasts, key, x, p, signed);
        }
    }
  }

  // ---------------------------------------------------------------- the steps of a call

  /** The row after a call that broadcast: the PSBT is stored, and the status tells how far the call got. */
  ghost predicate Sent(row: Row, now: Row, p: PsbtValue, x: Answers)
  {
    && now.deposit == row.deposit.(status := now.deposit.status) && now.finalizedPsbt == Some(p)
    && (now.deposit.status == SendingToBtcFailed <==> x.broadcastRaises)
    && (now.deposit.status == SentToBtc <==> !x.broadcastRaises && !x.messengerRaises)
    && now.deposit.status in {SendingToBtc, SentToBtc, SendingToBtcFailed}
    && now.btcTxId == if now.deposit.status == SentToBtc then Some(x.txId) else row.btcTxId
  }

  /** The tables after a call. */
  ghost predicate IsSent(rows: map<EventKey, Row>, broadcasts: seq<Broadcasting>, now: map<EventKey, Row>,
                         calls: seq<Broadcasting>, key: EventKey, p: PsbtValue, signed: seq<SignedPsbt>, x: Answers)
  {
    && key in rows && now.Keys == rows.Keys && (forall other :: other in rows && other != key ==> now[other] == rows[other])
    && Sent(rows[key], now[key], p, x) && calls == broadcasts + [Broadcasting(key, p, signed)]
  }

  lemma StopsAt(cfg: Config, s: State, x: Answers)
    requires |s.handlings| <= 1 && (s.handlings == [] || s.handlings[0].stage == Over)
    ensures Apply(cfg, s, Store(0)) == s && Apply(cfg, s, BroadcastPsbt(0, x.txId, x.broadcastRaises)) == s
    ensures Apply(cfg, s, NotifyRaises(0)) == s && Apply(cfg, s, Record(0)) == s
  {
  }

  lemma SentSteps(cfg: Config, s: State, key: EventKey, p: PsbtValue, signed: seq<SignedPsbt>, x: Answers)
    requires |s.handlings| == 1 && s.handlings[0].key == key && s.handlings[0].stage == Combined(p, signed)
    requires TokenDeposits.HasStatus(s, key, Accepted)
    ensures var sent := Apply(cfg, Apply(cfg, s, Store(0)), BroadcastPsbt(0, x.txId, x.broadcastRaises));
            var t := Apply(cfg, if x.messengerRaises then Apply(cfg, sent, NotifyRaises(0)) else sent, Record(0));
            IsSent(s.rows, s.broadcasts, t.rows, t.broadcasts, key, p, signed, x)
  {
  }

  /** What a whole call comes to, in the steps of the machine: it broadcasts what it has prepared, or does nothing. */
  lemma HandleStepsAre(cfg: Config, rows: map<EventKey, Row>, broadcasts: seq<Broadcasting>, key: EventKey, x: Answers)
    ensures var t := HandleSteps(cfg, State(rows, [], broadcasts), key, x);
            && (!IsPrepared(cfg, rows, key, x) ==> t.rows == rows && t.broadcasts == broadcasts)
            && (forall p, signed :: Prepares(cfg, rows, key, x, p, signed) ==>
                  IsSent(rows, broadcasts, t.rows, t.broadcasts, key, p, signed, x))
  {
    var combined := CombinedSteps(cfg, rows, broadcasts, key, x);
    CombinedStepsAre(cfg, rows, broadcasts, key, x);
    if combined.handlings == [] || combined.handlings[0].stage == Over {
      StopsAt(cfg, combined, x);
    }
    forall p, signed | Prepares(cfg, rows, key, x, p, signed)
      ensures var t := HandleSteps(cfg, State(rows, [], broadcasts), key, x);
              IsSent(rows, broadcasts, t.rows, t.broadcasts, key, p, signed, x)
    {
      PreparedStepsAre(cfg, rows, broadcasts, key, x, p, signed);
      SentSteps(cfg, combined, key, p, signed, x);
    }
  }

  /** What PreparePsbt returns or raises: what is prepared, or the reason why nothing is. */
  ghost predicate Outcome(cfg: Config, rows: map<EventKey, Row>, key: EventKey, x: Answers,
                          r: Result<Option<(PsbtValue, seq<SignedPsbt>)>, Failure>)
  {
    match r
    case Ok(Some((p, signed))) => Prepares(cfg, rows, key, x, p, signed)
    case Ok(None) => |x.responses| + 1 < cfg.requiredSigners && exists p :: Passes(cfg, rows, key, x, p)
    case Raise(NotFound) => key !in rows
    case Raise(ValidationError) => key in rows && (!IsPayable(rows, key) || RefusesItself(cfg, rows, key, x))
    case Raise(BuildError) =>
      IsPayable(rows, key) && !RefusesItself(cfg, rows, key, x) && forall p :: !Passes(cfg, rows, key, x, p)
    case Raise(FinalizeError) =>
      && |x.responses| + 1 >= cfg.requiredSigners && !IsPrepared(cfg, rows, key, x)
      && exists p :: Passes(cfg, rows, key, x, p)
    case Raise(_) => false
  }

  lemma CreatedIsUnique(cfg: Config, rows: map<EventKey, Row>, key: EventKey, x: Answers, p: PsbtValue, q: PsbtValue)
    requires key in rows && IsCreated(cfg, rows, key, x, p) && IsCreated(cfg, rows, key, x, q)
    ensures p == q
  {
  }

  /** What is built was created and has passed the checks; otherwise it was refused, or not created at all. */
  ghost predicate IsBuilt(cfg: Config, rows: map<EventKey, Row>, key: EventKey, x: Answers, built: Result<PsbtValue, BuildFailure>)
    requires key in rows
  {
    match built
    case Ok(p) => IsCreated(cfg, rows, key, x, p) && OwnChecks(cfg, rows, key, x, p) == None
    case Raise(Refused(violation)) => IsRefused(cfg, rows, key, x, violation)
    case Raise(_) => forall p :: !IsCreated(cfg, rows, key, x, p)
  }

  lemma BuildCases(cfg: Config, rows: map<EventKey, Row>, key: EventKey, x: Answers)
    requires key in rows
    ensures IsBuilt(cfg, rows, key, x, BuildPsbt(cfg, rows, OwnRequest(cfg, rows, key), x.balances, x.utxos, x.estimate, x.ownEstimate))
  {
    var built := BuildPsbt(cfg, rows, OwnRequest(cfg, rows, key), x.balances, x.utxos, x.estimate, x.ownEstimate);
    if built.Raise? && built.error.Refused? {
      var v := OwnView(cfg, rows, x.balances);
      var p := Create(cfg.wallet, v.ord, cfg.codec.encipher, x.utxos, [LeaderTransfer(v, OwnRequest(cfg, rows, key))],
                      AdjustedRate(x.estimate, cfg.minFeeRate), MAX_NUM_INPUTS).value;
      assert IsCreated(cfg, rows, key, x, p) && OwnChecks(cfg, rows, key, x, p) == Some(built.error.violation);
    }
  }

  lemma RefusedCannotPass(cfg: Config, rows: map<EventKey, Row>, key: EventKey, x: Answers, violation: Violation)
    requires key in rows && IsRefused(cfg, rows, key, x, violation)
    ensures forall p :: !Passes(cfg, rows, key, x, p)
    ensures RefusesItself(cfg, rows, key, x) <==> violation !in {NoDeposit, InvalidRuneName, InvalidAddress}
  {
    var q :| IsCreated(cfg, rows, key, x, q) && OwnChecks(cfg, rows, key, x, q) == Some(violation);
    forall p | IsCreated(cfg, rows, key, x, p)
      ensures p == q
    {
      CreatedIsUnique(cfg, rows, key, x, p, q);
    }
  }

  lemma BuildFails(cfg: Config, rows: map<EventKey, Row>, key: EventKey, x: Answers, f: BuildFailure)
    requires IsPayable(rows, key)
    requires BuildPsbt(cfg, rows, OwnRequest(cfg, rows, key), x.balances, x.utxos, x.estimate, x.ownEstimate) == Raise(f)
    ensures Outcome(cfg, rows, key, x, Raise(FailureOf(f)))
  {
    BuildCases(cfg, rows, key, x);
    if f.Refused? {
      RefusedCannotPass(cfg, rows, key, x, f.violation);
    }
  }

  /** There is only one way to prepare a deposit. */
  lemma PreparedIsUnique(cfg: Config, rows: map<EventKey, Row>, key: EventKey, x: Answers,
                         p: PsbtValue, signed: seq<SignedPsbt>, q: PsbtValue, others: seq<SignedPsbt>)
    requires Prepares(cfg, rows, key, x, p, signed) && Prepares(cfg, rows, key, x, q, others)
    ensures p == q && signed == others
  {
    CreatedIsUnique(cfg, rows, key, x, p, q);
    SignedInOrderIff(cfg, p, x.responses, signed);
    SignedInOrderIff(cfg, p, x.responses, others);
  }

  lemma PreparedIsSigned(cfg: Config, rows: map<EventKey, Row>, key: EventKey, x: Answers, p: PsbtValue, signed: seq<SignedPsbt>)
    requires Prepares(cfg, rows, key, x, p, signed)
    ensures Passes(cfg, rows, key, x, p) && cfg.requiredSigners <= |x.responses| + 1
  {
  }

  lemma RefusedIsNotPrepared(cfg: Config, rows: map<EventKey, Row>, key: EventKey, x: Answers)
    requires key in rows && RefusesItself(cfg, rows, key, x)
    ensures forall p :: !Passes(cfg, rows, key, x, p)
  {
    var violation :| violation !in {NoDeposit, InvalidRuneName, InvalidAddress} && IsRefused(cfg, rows, key, x, violation);
    RefusedCannotPass(cfg, rows, key, x, violation);
  }

  /** The outcome tells whether something is prepared, and what. */
  lemma OutcomeDecides(cfg: Config, rows: map<EventKey, Row>, key: EventKey, x: Answers,
                       r: Result<Option<(PsbtValue, seq<SignedPsbt>)>, Failure>)
    requires Outcome(cfg, rows, key, x, r)
    ensures forall p, signed :: Prepares(cfg, rows, key, x, p, signed) <==> r == Ok(Some((p, signed)))
  {
    if key in rows && RefusesItself(cfg, rows, key, x) {
      RefusedIsNotPrepared(cfg, rows, key, x);
    }
    forall p, signed | Prepares(cfg, rows, key, x, p, signed)
      ensures r == Ok(Some((p, signed)))
    {
      PreparedIsSigned(cfg, rows, key, x, p, signed);
      if r.Ok? && r.value.Some? {
        var (q, others) := r.value.value;
        PreparedIsUnique(cfg, rows, key, x, p, signed, q, others);
      }
    }
  }

  lemma BuildPasses(cfg: Config, rows: map<EventKey, Row>, key: EventKey, x: Answers, p: PsbtValue, signed: seq<SignedPsbt>)
    requires IsPayable(rows, key) && signed == SignedInOrder(cfg, p, x.responses)
    requires BuildPsbt(cfg, rows, OwnRequest(cfg, rows, key), x.balances, x.utxos, x.estimate, x.ownEstimate) == Ok(p)
    ensures |signed| < cfg.requiredSigners ==> Outcome(cfg, rows, key, x, Ok(None))
    ensures |signed| >= cfg.requiredSigners && Finalizes(cfg, p, signed) ==> Outcome(cfg, rows, key, x, Ok(Some((p, signed))))
    ensures |signed| >= cfg.requiredSigners && !Finalizes(cfg, p, signed) ==> Outcome(cfg, rows, key, x, Raise(FinalizeError))
  {
    BuiltIff(cfg, rows, key, x, p);
    if |signed| >= cfg.requiredSigners {
      FinalizesIff(cfg, p, signed);
      forall q, others | Prepares(cfg, rows, key, x, q, others)
        ensures q == p && others == signed
      {
        BuiltIff(cfg, rows, key, x, q);
        SignedInOrderIff(cfg, p, x.responses, others);
      }
    }
  }

  // ---------------------------------------------------------------- the service

  class RuneTokenService {
    const cfg: Config
    var rows: map<EventKey, Row>
    var broadcasts: seq<Broadcasting>

    constructor (cfg: Config)
      ensures this.cfg == cfg && rows == map[] && broadcasts == []
    {
      this.cfg, rows, broadcasts := cfg, map[], [];
    }

    /** Everything up to the finalized PSBT; nothing is stored yet. */
    method PreparePsbt(key: EventKey, x: Answers) returns (r: Result<Option<(PsbtValue, seq<SignedPsbt>)>, Failure>)
      ensures Outcome(cfg, rows, key, x, r)
    {
      if key !in rows {
        return Raise(NotFound);
      }
      if rows[key].deposit.status != Accepted || rows[key].deposit.netAmount == 0 {
        return Raise(ValidationError);
      }
      var built := BuildPsbt(cfg, rows, OwnRequest(cfg, rows, key), x.balances, x.utxos, x.estimate, x.ownEstimate);
      if built.Raise? {
        BuildFails(cfg, rows, key, x, built.error);
        return Raise(FailureOf(built.error));
      }
      var unsignedPsbt := built.value;
      var signedPsbts := [SignedPsbt(unsignedPsbt, cfg.self)] + x.responses;
      if |signedPsbts| > cfg.requiredSigners {
        signedPsbts := signedPsbts[..cfg.requiredSigners];
      }
      BuildPasses(cfg, rows, key, x, unsignedPsbt, signedPsbts);
      if |signedPsbts| < cfg.requiredSigners {
        return Ok(None);
      }
      if !Finalizes(cfg, unsignedPsbt, signedPsbts) {
        return Raise(FinalizeError);
      }
      return Ok(Some((unsignedPsbt, signedPsbts)));
    }

    /** Broadcasts a PSBT that is stored with its deposit in SENDING_TO_BTC. */
    method Broadcast(key: EventKey, finalizedPsbt: PsbtValue, signedPsbts: seq<SignedPsbt>, raises: bool) returns (ok: bool)
      requires key in rows && rows[key].deposit.status == SendingToBtc && rows[key].finalizedPsbt == Some(finalizedPsbt)
      modifies `broadcasts
      ensures broadcasts == old(broadcasts) + [Broadcasting(key, finalizedPsbt, signedPsbts)] && ok == !raises
    {
      broadcasts := broadcasts + [Broadcasting(key, finalizedPsbt, signedPsbts)];
      ok := !raises;
    }

    /** Stores the PSBT, broadcasts it, and records what became of it. */
    method SendPsbt(key: EventKey, finalizedPsbt: PsbtValue, signedPsbts: seq<SignedPsbt>, x: Answers)
      returns (outcome: Result<(), Failure>)
      requires key in rows
      modifies `rows, `broadcasts
      ensures IsSent(old(rows), old(broadcasts), rows, broadcasts, key, finalizedPsbt, signedPsbts, x)
      ensures outcome == Raise(BroadcastError) <==> x.broadcastRaises
      ensures outcome == Raise(MessengerError) <==> !x.broadcastRaises && x.messengerRaises
      ensures outcome == Ok(()) <==> rows[key].deposit.status == SentToBtc
    {
      var row := WithStatus(rows[key], SendingToBtc).(finalizedPsbt := Some(finalizedPsbt));
      rows := rows[key := row];
      var ok := Broadcast(key, finalizedPsbt, signedPsbts, x.broadcastRaises);
      if !ok {
        rows := rows[key := WithStatus(row, SendingToBtcFailed)];
        return Raise(BroadcastError);
      }
      if x.messengerRaises {
        return Raise(MessengerError);
      }
      rows := rows[key := WithStatus(row, SentToBtc).(btcTxId := Some(x.txId))];
      return Ok(());
    }

    method HandleAcceptedRuneTokenDeposit(key: EventKey, x: Answers) returns (outcome: Result<(), Failure>)
      modifies `rows, `broadcasts
      ensures !IsPrepared(cfg, old(rows), key, x) ==> rows == old(rows) && broadcasts == old(broadcasts)
      ensures forall p, signed :: Prepares(cfg, old(rows), key, x, p, signed) ==>
                IsSent(old(rows), old(broadcasts), rows, broadcasts, key, p, signed, x)
      ensures IsPrepared(cfg, old(rows), key, x) ==>
                && (outcome == Raise(BroadcastError) <==> x.broadcastRaises)
                && (outcome == Raise(MessengerError) <==> !x.broadcastRaises && x.messengerRaises)
                && (outcome == Ok(()) <==> !x.broadcastRaises && !x.messengerRaises)
      ensures !IsPrepared(cfg, old(rows), key, x) ==>
                Outcome(cfg, old(rows), key, x, if outcome.Ok? then Ok(None) else Raise(outcome.error))
    {
      var r := PreparePsbt(key, x);
      OutcomeDecides(cfg, rows, key, x, r);
      if r.Raise? {
        return Raise(r.error);
      }
      if r.value == None {
        return Ok(());
      }
      var (finalizedPsbt, signedPsbts) := r.value.value;
      outcome := SendPsbt(key, finalizedPsbt, signedPsbts, x);
    }
  }

  // ---------------------------------------------------------------- the leader's own checks

  /** Names are parsed back to their runes, and PSBTs can be built at all. */
  ghost predicate Wired(cfg: Config)
  {
    && RoundTrips(cfg.codec) && cfg.minFeeRate > 0
    && forall r: Rune :: cfg.runeOf(cfg.nameOf(r)) == Some(r)
  }

  /** The node refuses its own PSBT only because its second estimate of the fee rate has moved too far from the first, or
      because the fee pays for a change output that is not there. */
  lemma OwnChecksAre(cfg: Config, rows: map<EventKey, Row>, key: EventKey, x: Answers, p: PsbtValue)
    requires Wired(cfg) && IsPayable(rows, key) && IsCreated(cfg, rows, key, x, p)
    ensures OwnChecks(cfg, rows, key, x, p)
         == if !RateInWindow(x.ownEstimate, cfg.minFeeRate, AdjustedRate(x.estimate, cfg.minFeeRate)) then Some(FeeRateOutOfRange)
            else if PaysForTooMuch(cfg.wallet.multisig, p, cfg.wallet.changeScript) then Some(FeeTooHigh)
            else None
  {
    var v, q := OwnView(cfg, rows, x.balances), OwnRequest(cfg, rows, key);
    assert EventKey(key.txHash, key.logIndex) == key;
    assert CheckRequest(v, q) == None;
    LeaderPsbtChecks(cfg.wallet, cfg.wallet, v, x.utxos, q, AdjustedRate(x.estimate, cfg.minFeeRate), MAX_NUM_INPUTS,
                     x.ownEstimate, cfg.minFeeRate, p);
  }

  /** The estimate has moved out of the window, or the fee pays for a change output that is not there. */
  predicate UnacceptableFee(cfg: Config, x: Answers, p: PsbtValue)
  {
    || !RateInWindow(x.ownEstimate, cfg.minFeeRate, AdjustedRate(x.estimate, cfg.minFeeRate))
    || PaysForTooMuch(cfg.wallet.multisig, p, cfg.wallet.changeScript)
  }

  /** So for a deposit that is ACCEPTED with an amount these are the reasons for a validation error. */
  lemma ValidationErrorIff(cfg: Config, rows: map<EventKey, Row>, key: EventKey, x: Answers)
    requires Wired(cfg) && IsPayable(rows, key)
    ensures RefusesItself(cfg, rows, key, x) <==>
              exists p :: IsCreated(cfg, rows, key, x, p) && UnacceptableFee(cfg, x, p)
  {
    if RefusesItself(cfg, rows, key, x) {
      var violation :| violation !in {NoDeposit, InvalidRuneName, InvalidAddress} && IsRefused(cfg, rows, key, x, violation);
      var p :| IsCreated(cfg, rows, key, x, p) && OwnChecks(cfg, rows, key, x, p) == Some(violation);
      OwnChecksAre(cfg, rows, key, x, p);
    }
    if p :| IsCreated(cfg, rows, key, x, p) && UnacceptableFee(cfg, x, p) {
      OwnChecksAre(cfg, rows, key, x, p);
      assert IsRefused(cfg, rows, key, x, OwnChecks(cfg, rows, key, x, p).value);
    }
  }
}
