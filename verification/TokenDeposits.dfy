/** Rune token deposits on their way back to Bitcoin: building, signing and combining a PSBT, storing it, and
    broadcasting it. Each action is one committed transaction, one outside event, or a crash. */
module TokenDeposits {
  import opened Wrappers
  import opened Transactions
  import opened RuneAllocation
  import opened CoinSelection
  import opened RunePsbt
  import opened PsbtValidation

  /** The unique key of the table of token deposits. */
  datatype EventKey = EventKey(txHash: string, logIndex: int)

  /** A row: the deposit, and the PSBT and the transaction id once they are known. */
  datatype Row = Row(deposit: Deposit, finalizedPsbt: Option<PsbtValue>, btcTxId: Option<string>)

  type Signer = int

  /** A federator's signature on every input of a PSBT. */
  datatype SignedPsbt = SignedPsbt(psbt: PsbtValue, signer: Signer)

  datatype Config = Config(
    wallet: Wallet,
    cosigners: set<Signer>,
    self: Signer,
    requiredSigners: nat,
    maxFeeRate: int,
    minFeeRate: int,
    runeOf: string -> Option<Rune>,
    nameOf: Rune -> string,
    scriptOf: string -> Option<Script>,
    ids: Rune -> Option<RuneId>,
    codec: Codec)

  const MAX_NUM_INPUTS := 200

  /** A call of broadcast_psbt, with the signed PSBTs that were combined. */
  datatype Broadcasting = Broadcasting(key: EventKey, psbt: PsbtValue, signed: seq<SignedPsbt>)

  /** How far a call of handle_accepted_rune_token_deposit has got. */
  datatype Stage =
    | Started
    | Built(psbt: PsbtValue)
    | Combined(psbt: PsbtValue, signed: seq<SignedPsbt>)
    | Storing(psbt: PsbtValue, signed: seq<SignedPsbt>)
    | Broadcast(txId: string)
    | Raised
    | Over

  datatype Handling = Handling(key: EventKey, request: Request, stage: Stage)

  datatype State = State(rows: map<EventKey, Row>, handlings: seq<Handling>, broadcasts: seq<Broadcasting>)

  const EMPTY := State(map[], [], [])

  datatype Action =
    | Event(key: EventKey, receiver: string, net: int, rune: Rune)
    | Start(key: EventKey)
    | Build(handling: nat, balances: Outpoint -> Option<map<Rune, nat>>, utxos: seq<Utxo>, estimate: int, ownEstimate: int)
    | Combine(handling: nat, responses: seq<SignedPsbt>)
    | Store(handling: nat)
    | BroadcastPsbt(handling: nat, txId: string, raises: bool)
    | NotifyRaises(handling: nat)
    | Record(handling: nat)
    | Crash

  // ---------------------------------------------------------------- one step at a time

  function RequestFor(cfg: Config, key: EventKey, d: Deposit): Request
  {
    Request(key.txHash, key.logIndex, d.receiver, cfg.nameOf(d.runeNumber), d.runeNumber, d.netAmount)
  }

  /** What the leader itself sees when it answers its own question. */
  function OwnView(cfg: Config, rows: map<EventKey, Row>, balances: Outpoint -> Option<map<Rune, nat>>): View
  {
    View((txHash, logIndex) => var key := EventKey(txHash, logIndex); if key in rows then Some(rows[key].deposit) else None,
         cfg.runeOf, cfg.scriptOf, Ord(balances, cfg.ids), cfg.codec)
  }

  /** Why there is no unsigned PSBT: the fee rate is too high, it cannot be built, or the leader's own checks refuse it. */
  datatype BuildFailure = FeeRateTooHigh | NotBuilt(error: Error) | Refused(violation: Violation)

  function BuildPsbt(cfg: Config, rows: map<EventKey, Row>, q: Request, balances: Outpoint -> Option<map<Rune, nat>>, utxos: seq<Utxo>,
                     estimate: int, ownEstimate: int): Result<PsbtValue, BuildFailure>
  {
    if estimate > cfg.maxFeeRate then Raise(FeeRateTooHigh)
    else
      var rate, v := AdjustedRate(estimate, cfg.minFeeRate), OwnView(cfg, rows, balances);
      match Create(cfg.wallet, v.ord, cfg.codec.encipher, utxos, [LeaderTransfer(v, q)], rate, MAX_NUM_INPUTS)
      case Raise(e) => Raise(NotBuilt(e))
      case Ok(p) =>
        match Validate(cfg.wallet, v, [q], p, rate, ownEstimate, cfg.minFeeRate)
        case Some(violation) => Raise(Refused(violation))
        case None => Ok(p)
  }

  function Signers(signed: seq<SignedPsbt>): set<Signer>
  {
    set x | x in signed :: x.signer
  }

  /** The own signature first, then the responses, and no more than are required. */
  function SignedInOrder(cfg: Config, p: PsbtValue, responses: seq<SignedPsbt>): seq<SignedPsbt>
  {
    var signed := [SignedPsbt(p, cfg.self)] + responses;
    if |signed| <= cfg.requiredSigners then signed else signed[..cfg.requiredSigners]
  }

  /** Combining raises if some signed PSBT is another one; finalizing raises without enough cosigners. */
  predicate Finalizes(cfg: Config, p: PsbtValue, signed: seq<SignedPsbt>)
  {
    (forall x :: x in signed ==> x.psbt == p) && |Signers(signed) * cfg.cosigners| >= cfg.requiredSigners
  }

  predicate HasStatus(s: State, key: EventKey, status: DepositStatus)
  {
    key in s.rows && s.rows[key].deposit.status == status
  }

  function WithStatus(row: Row, status: DepositStatus): Row
  {
    row.(deposit := row.deposit.(status := status))
  }

  function SetStage(s: State, i: nat, stage: Stage): State
    requires i < |s.handlings|
  {
    s.(handlings := s.handlings[i := s.handlings[i].(stage := stage)])
  }

  function CombineSigned(cfg: Config, s: State, i: nat, responses: seq<SignedPsbt>): State
    requires i < |s.handlings| && s.handlings[i].stage.Built?
  {
    var p := s.handlings[i].stage.psbt;
    var signed := SignedInOrder(cfg, p, responses);
    if |signed| < cfg.requiredSigners || !Finalizes(cfg, p, signed) then SetStage(s, i, Over)
    else SetStage(s, i, Combined(p, signed))
  }

  /** The status moves to SENDING_TO_BTC and the PSBT is stored, in one transaction, before it is broadcast. */
  function StorePsbt(s: State, i: nat): State
    requires i < |s.handlings| && s.handlings[i].stage.Combined?
  {
    var h := s.handlings[i];
    if !HasStatus(s, h.key, Accepted) then SetStage(s, i, Over)
    else
      var row := WithStatus(s.rows[h.key], SendingToBtc).(finalizedPsbt := Some(h.stage.psbt));
      SetStage(s, i, Storing(h.stage.psbt, h.stage.signed)).(rows := s.rows[h.key := row])
  }

  function RecordResult(s: State, i: nat): State
    requires i < |s.handlings| && s.handlings[i].key in s.rows
  {
    var h := s.handlings[i];
    match h.stage
    case Raised => SetStage(s, i, Over).(rows := s.rows[h.key := WithStatus(s.rows[h.key], SendingToBtcFailed)])
    case Broadcast(txId) =>
      if !HasStatus(s, h.key, SendingToBtc) then SetStage(s, i, Over)
      else SetStage(s, i, Over).(rows := s.rows[h.key := WithStatus(s.rows[h.key], SentToBtc).(btcTxId := Some(txId))])
    case _ => s
  }

  /** An action whose condition does not hold raises or does nothing: there is no effect. */
  function Apply(cfg: Config, s: State, a: Action): State
  {
    match a
    case Event(key, receiver, net, rune) =>
      if key in s.rows then s
      else s.(rows := s.rows[key := Row(Deposit(Accepted, receiver, net, rune), None, None)])
    case Start(key) =>
      if !HasStatus(s, key, Accepted) || s.rows[key].deposit.netAmount == 0 then s
      else s.(handlings := s.handlings + [Handling(key, RequestFor(cfg, key, s.rows[key].deposit), Started)])
    case Build(i, balances, utxos, estimate, ownEstimate) =>
      if i < |s.handlings| && s.handlings[i].stage.Started? then
        var p := BuildPsbt(cfg, s.rows, s.handlings[i].request, balances, utxos, estimate, ownEstimate);
        SetStage(s, i, if p.Ok? then Built(p.value) else Over)
      else s
    case Combine(i, responses) =>
      if i < |s.handlings| && s.handlings[i].stage.Built? then CombineSigned(cfg, s, i, responses) else s
    case Store(i) =>
      if i < |s.handlings| && s.handlings[i].stage.Combined? then StorePsbt(s, i) else s
    case BroadcastPsbt(i, txId, raises) =>
      if i < |s.handlings| && s.handlings[i].stage.Storing? then
        var h := s.handlings[i];
        SetStage(s, i, if raises then Raised else Broadcast(txId)).(
          broadcasts := s.broadcasts + [Broadcasting(h.key, h.stage.psbt, h.stage.signed)])
      else s
    case NotifyRaises(i) =>
      if i < |s.handlings| && s.handlings[i].stage.Broadcast? then SetStage(s, i, Over) else s
    case Record(i) =>
      if i < |s.handlings| && s.handlings[i].key in s.rows then RecordResult(s, i) else s
    case Crash => s.(handlings := [])
  }

  function Run(cfg: Config, actions: seq<Action>): State
  {
    if actions == [] then EMPTY
    else Apply(cfg, Run(cfg, actions[..|actions| - 1]), actions[|actions| - 1])
  }

  // ---------------------------------------------------------------- the status machine

  ghost function StatusOf(s: State, key: EventKey): Option<DepositStatus>
  {
    if key in s.rows then Some(s.rows[key].deposit.status) else None
  }

  ghost predicate Edge(before: Option<DepositStatus>, now: Option<DepositStatus>)
  {
    match before
    case None => now == None || now == Some(Accepted)
    case Some(Accepted) => now == Some(Accepted) || now == Some(SendingToBtc)
    case Some(SendingToBtc) => now == Some(SendingToBtc) || now == Some(SentToBtc) || now == Some(SendingToBtcFailed)
    case Some(end) => now == Some(end)
  }

  /** The deposit is sending: the call at this place has stored its PSBT. */
  ghost predicate Sending(s: State, i: int)
  {
    0 <= i < |s.handlings|
    && (s.handlings[i].stage.Storing? || s.handlings[i].stage.Broadcast? || s.handlings[i].stage.Raised?)
  }

  ghost predicate Called(s: State, key: EventKey)
  {
    exists k :: 0 <= k < |s.broadcasts| && s.broadcasts[k].key == key
  }

  ghost predicate Stored(s: State, key: EventKey, p: PsbtValue)
  {
    key in s.rows && s.rows[key].deposit.status != Accepted && s.rows[key].finalizedPsbt == Some(p)
  }

  ghost predicate HandlingsValid(s: State)
  {
    && (forall i :: Sending(s, i) ==> StatusOf(s, s.handlings[i].key) == Some(SendingToBtc))
    && (forall i, j :: Sending(s, i) && Sending(s, j) && i != j ==> s.handlings[i].key != s.handlings[j].key)
    && (forall i :: Sending(s, i) && s.handlings[i].stage.Storing? ==>
          !Called(s, s.handlings[i].key) && Stored(s, s.handlings[i].key, s.handlings[i].stage.psbt))
  }

  ghost predicate BroadcastsValid(s: State)
  {
    && (forall j, k :: 0 <= j < k < |s.broadcasts| ==> s.broadcasts[j].key != s.broadcasts[k].key)
    && (forall k :: 0 <= k < |s.broadcasts| ==> Stored(s, s.broadcasts[k].key, s.broadcasts[k].psbt))
  }

  ghost predicate Inv(s: State)
  {
    HandlingsValid(s) && BroadcastsValid(s)
  }

  lemma SameCalls(s: State, t: State)
    requires s.broadcasts == t.broadcasts
    ensures forall key :: Called(s, key) == Called(t, key)
  {
  }

  lemma QuietRows(cfg: Config, s: State, a: Action)
    requires !a.Store? && !a.BroadcastPsbt? && !a.Record?
    ensures var t := Apply(cfg, s, a);
            && t.broadcasts == s.broadcasts
            && (forall key :: key in s.rows ==> key in t.rows && t.rows[key] == s.rows[key])
            && (forall key :: key in t.rows && key !in s.rows ==> t.rows[key].deposit.status == Accepted)
  {
  }

  /** Steps that leave every existing row alone, and at most end what was in progress. */
  lemma QuietKeeps(cfg: Config, s: State, a: Action)
    requires Inv(s) && !a.Store? && !a.BroadcastPsbt? && !a.Record?
    ensures var t := Apply(cfg, s, a);
            Inv(t) && forall key :: Edge(StatusOf(s, key), StatusOf(t, key))
  {
    QuietRows(cfg, s, a);
    QuietHandlings(cfg, s, a);
    KeptIsEnough(s, Apply(cfg, s, a));
  }

  lemma QuietHandlings(cfg: Config, s: State, a: Action)
    requires !a.Store? && !a.BroadcastPsbt? && !a.Record?
    ensures var t := Apply(cfg, s, a);
            forall i :: Sending(t, i) ==> Sending(s, i) && t.handlings[i] == s.handlings[i]
  {
  }

  lemma KeptIsEnough(s: State, t: State)
    requires Inv(s) && t.broadcasts == s.broadcasts
    requires forall key :: key in s.rows ==> key in t.rows && t.rows[key] == s.rows[key]
    requires forall key :: key in t.rows && key !in s.rows ==> t.rows[key].deposit.status == Accepted
    requires forall i :: Sending(t, i) ==> Sending(s, i) && t.handlings[i] == s.handlings[i]
    ensures Inv(t) && forall key :: Edge(StatusOf(s, key), StatusOf(t, key))
  {
    SameCalls(s, t);
    assert forall key, p :: Stored(s, key, p) ==> Stored(t, key, p);
  }

  lemma StoreKeeps(cfg: Config, s: State, i: nat)
    requires Inv(s) && i < |s.handlings| && s.handlings[i].stage.Combined? && HasStatus(s, s.handlings[i].key, Accepted)
    ensures var t := StorePsbt(s, i);
            Inv(t) && forall key :: Edge(StatusOf(s, key), StatusOf(t, key))
  {
    var t, key := StorePsbt(s, i), s.handlings[i].key;
    SameCalls(s, t);
    assert !Called(s, key);
    assert forall j :: Sending(t, j) <==> Sending(s, j) || j == i;
    assert forall j :: Sending(s, j) ==> t.handlings[j] == s.handlings[j] && s.handlings[j].key != key;
    assert forall k, p :: Stored(s, k, p) ==> k != key && Stored(t, k, p);
  }

  lemma BroadcastKeeps(cfg: Config, s: State, i: nat, txId: string, raises: bool)
    requires Inv(s) && i < |s.handlings| && s.handlings[i].stage.Storing?
    ensures Inv(Apply(cfg, s, BroadcastPsbt(i, txId, raises)))
  {
    var t, key := Apply(cfg, s, BroadcastPsbt(i, txId, raises)), s.handlings[i].key;
    assert Sending(s, i) && !Called(s, key);
    assert forall j :: Sending(t, j) == Sending(s, j);
    assert forall k :: 0 <= k < |s.broadcasts| ==> t.broadcasts[k] == s.broadcasts[k] && Called(s, s.broadcasts[k].key);
    forall k
      ensures Called(t, k) ==> Called(s, k) || k == key
    {
    }
    assert forall k, p :: Stored(s, k, p) == Stored(t, k, p);
  }

  lemma RecordKeeps(cfg: Config, s: State, i: nat)
    requires Inv(s)
    ensures var t := Apply(cfg, s, Record(i));
            Inv(t) && forall key :: Edge(StatusOf(s, key), StatusOf(t, key))
  {
    var t := Apply(cfg, s, Record(i));
    if i < |s.handlings| && (s.handlings[i].stage.Raised? || s.handlings[i].stage.Broadcast?) {
      assert Sending(s, i);
      RecordEnds(s, t, i, s.handlings[i].key);
    }
  }

  /** The call at this place ends, and only its row gets another status. */
  lemma RecordEnds(s: State, t: State, i: nat, key: EventKey)
    requires Inv(s) && Sending(s, i) && s.handlings[i].key == key && t.broadcasts == s.broadcasts
    requires t.handlings == s.handlings[i := s.handlings[i].(stage := Over)]
    requires key in s.rows && key in t.rows && t.rows == s.rows[key := t.rows[key]]
    requires t.rows[key].deposit.status in {SentToBtc, SendingToBtcFailed} && t.rows[key].finalizedPsbt == s.rows[key].finalizedPsbt
    ensures Inv(t) && forall k :: Edge(StatusOf(s, k), StatusOf(t, k))
  {
    SameCalls(s, t);
    assert forall j :: Sending(t, j) <==> Sending(s, j) && j != i;
    assert forall k, p :: Stored(s, k, p) ==> Stored(t, k, p);
  }

  lemma StepKeeps(cfg: Config, s: State, a: Action)
    requires Inv(s)
    ensures Inv(Apply(cfg, s, a))
    ensures forall key :: Edge(StatusOf(s, key), StatusOf(Apply(cfg, s, a), key))
  {
    match a
    case Store(i) =>
      if i < |s.handlings| && s.handlings[i].stage.Combined? {
        if HasStatus(s, s.handlings[i].key, Accepted) {
          StoreKeeps(cfg, s, i);
        } else {
          var t := Apply(cfg, s, a);
          SameCalls(s, t);
          assert forall j :: Sending(t, j) ==> Sending(s, j) && t.handlings[j] == s.handlings[j];
          assert forall key, p :: Stored(s, key, p) == Stored(t, key, p);
        }
      }
    case BroadcastPsbt(i, txId, raises) =>
      if i < |s.handlings| && s.handlings[i].stage.Storing? {
        BroadcastKeeps(cfg, s, i, txId, raises);
      }
    case Record(i) => RecordKeeps(cfg, s, i);
    case _ => QuietKeeps(cfg, s, a);
  }

  lemma {:induction false} RunKeeps(cfg: Config, actions: seq<Action>)
    ensures Inv(Run(cfg, actions))
  {
    if actions != [] {
      RunKeeps(cfg, actions[..|actions| - 1]);
      StepKeeps(cfg, Run(cfg, actions[..|actions| - 1]), actions[|actions| - 1]);
    }
  }

  /** Over every run with crashes: one broadcast at most for each token deposit. */
  lemma BroadcastAtMostOnce(cfg: Config, actions: seq<Action>, j: nat, k: nat)
    requires j < k < |Run(cfg, actions).broadcasts|
    ensures Run(cfg, actions).broadcasts[j].key != Run(cfg, actions).broadcasts[k].key
  {
    RunKeeps(cfg, actions);
  }

  /** ACCEPTED to SENDING_TO_BTC to SENT_TO_BTC or SENDING_TO_BTC_FAILED, and nothing else. */
  lemma StatusesFollowEdges(cfg: Config, actions: seq<Action>, a: Action, key: EventKey)
    ensures Edge(StatusOf(Run(cfg, actions), key), StatusOf(Run(cfg, actions + [a]), key))
  {
    assert (actions + [a])[..|actions|] == actions;
    RunKeeps(cfg, actions);
    StepKeeps(cfg, Run(cfg, actions), a);
  }

  lemma OnlyBroadcastCalls(cfg: Config, s: State, a: Action)
    requires Apply(cfg, s, a).broadcasts != s.broadcasts
    ensures a.BroadcastPsbt? && a.handling < |s.handlings| && s.handlings[a.handling].stage.Storing?
    ensures var h := s.handlings[a.handling];
            Apply(cfg, s, a).broadcasts == s.broadcasts + [Broadcasting(h.key, h.stage.psbt, h.stage.signed)]
  {
  }

  /** A step that broadcasts finds the PSBT stored with the deposit in SENDING_TO_BTC. */
  lemma BroadcastIsStored(cfg: Config, actions: seq<Action>, a: Action)
    requires Run(cfg, actions + [a]).broadcasts != Run(cfg, actions).broadcasts
    ensures var s, t := Run(cfg, actions), Run(cfg, actions + [a]);
            && |t.broadcasts| == |s.broadcasts| + 1 && s.broadcasts <= t.broadcasts
            && var b := t.broadcasts[|s.broadcasts|];
               HasStatus(s, b.key, SendingToBtc) && s.rows[b.key].finalizedPsbt == Some(b.psbt)
  {
    assert (actions + [a])[..|actions|] == actions;
    RunKeeps(cfg, actions);
    var s := Run(cfg, actions);
    OnlyBroadcastCalls(cfg, s, a);
    assert Sending(s, a.handling) && Stored(s, s.handlings[a.handling].key, s.handlings[a.handling].stage.psbt);
  }

  // ---------------------------------------------------------------- deposits are events

  /** Action `i` is the first event with that key. */
  ghost predicate FirstEvent(actions: seq<Action>, i: int, key: EventKey, d: Deposit)
  {
    && 0 <= i < |actions| && actions[i] == Event(key, d.receiver, d.netAmount, d.runeNumber)
    && forall j :: 0 <= j < i && actions[j].Event? ==> actions[j].key != key
  }

  lemma StepKeepsEvents(cfg: Config, s: State, a: Action, key: EventKey)
    ensures var t := Apply(cfg, s, a);
            && (key in t.rows <==> key in s.rows || (a.Event? && a.key == key))
            && (key in s.rows ==>
                  && t.rows[key].deposit.receiver == s.rows[key].deposit.receiver
                  && t.rows[key].deposit.netAmount == s.rows[key].deposit.netAmount
                  && t.rows[key].deposit.runeNumber == s.rows[key].deposit.runeNumber)
            && (key !in s.rows && key in t.rows ==>
                  t.rows[key] == Row(Deposit(Accepted, a.receiver, a.net, a.rune), None, None))
  {
  }

  /** Over every run: there is a row exactly for each event that happened, and it has the receiver, the amount and the rune of
      the first one. */
  lemma {:induction false} RowsAreEvents(cfg: Config, actions: seq<Action>, key: EventKey)
    ensures var rows := Run(cfg, actions).rows;
            && (key in rows <==> exists i :: 0 <= i < |actions| && actions[i].Event? && actions[i].key == key)
            && (key in rows ==> exists i :: FirstEvent(actions, i, key, rows[key].deposit))
  {
    if actions != [] {
      var front, last := actions[..|actions| - 1], actions[|actions| - 1];
      var s := Run(cfg, front);
      RowsAreEvents(cfg, front, key);
      StepKeepsEvents(cfg, s, last, key);
      assert forall i :: 0 <= i < |front| ==> front[i] == actions[i];
      if key in s.rows {
        var i :| FirstEvent(front, i, key, s.rows[key].deposit);
        assert FirstEvent(actions, i, key, Run(cfg, actions).rows[key].deposit);
      } else if last.Event? && last.key == key {
        assert FirstEvent(actions, |front|, key, Run(cfg, actions).rows[key].deposit);
      }
    }
  }

  // ---------------------------------------------------------------- no resumption

  /** The deposit is SENDING_TO_BTC, and no call is sending it. */
  ghost predicate Stuck(s: State, key: EventKey)
  {
    HasStatus(s, key, SendingToBtc) && forall i :: Sending(s, i) ==> s.handlings[i].key != key
  }

  lemma StuckStep(cfg: Config, s: State, a: Action, key: EventKey)
    requires Inv(s) && Stuck(s, key)
    ensures var t := Apply(cfg, s, a);
            && Stuck(t, key) && s.broadcasts <= t.broadcasts
            && forall k :: |s.broadcasts| <= k < |t.broadcasts| ==> t.broadcasts[k].key != key
  {
    var t := Apply(cfg, s, a);
    match a
    case Store(i) =>
    case BroadcastPsbt(i, txId, raises) => assert i < |s.handlings| && s.handlings[i].stage.Storing? ==> Sending(s, i);
    case Record(i) =>
      assert i < |s.handlings| && (s.handlings[i].stage.Raised? || s.handlings[i].stage.Broadcast?) ==> Sending(s, i);
    case _ =>
      QuietRows(cfg, s, a);
      QuietHandlings(cfg, s, a);
  }

  /** Nothing takes it up again or broadcasts it. */
  lemma {:induction false} NeverResumed(cfg: Config, actions: seq<Action>, more: seq<Action>, key: EventKey)
    requires Stuck(Run(cfg, actions), key)
    ensures var s, t := Run(cfg, actions), Run(cfg, actions + more);
            && Stuck(t, key) && s.broadcasts <= t.broadcasts
            && forall k :: |s.broadcasts| <= k < |t.broadcasts| ==> t.broadcasts[k].key != key
  {
    if more == [] {
      assert actions + more == actions;
    } else {
      var front, last := more[..|more| - 1], more[|more| - 1];
      assert (actions + more)[..|actions + more| - 1] == actions + front;
      NeverResumed(cfg, actions, front, key);
      RunKeeps(cfg, actions + front);
      StuckStep(cfg, Run(cfg, actions + front), last, key);
    }
  }

  /** A crash keeps what was committed and broadcast, and leaves exactly the deposits that were being sent in that state. */
  lemma CrashedIsStuck(cfg: Config, actions: seq<Action>, key: EventKey)
    ensures var s, t := Run(cfg, actions), Run(cfg, actions + [Crash]);
            t.rows == s.rows && t.broadcasts == s.broadcasts && (Stuck(t, key) <==> HasStatus(s, key, SendingToBtc))
  {
    assert (actions + [Crash])[..|actions|] == actions;
  }

  // ---------------------------------------------------------------- signatures

  lemma {:induction false} SignersAreFew(signed: seq<SignedPsbt>)
    ensures |Signers(signed)| <= |signed|
    ensures |Signers(signed)| == |signed| ==> forall i, j :: 0 <= i < j < |signed| ==> signed[i].signer != signed[j].signer
  {
    if signed != [] {
      var front, last := signed[..|signed| - 1], signed[|signed| - 1];
      assert signed == front + [last];
      SignersAreFew(front);
      assert Signers(signed) == Signers(front) + {last.signer};
    }
  }

  lemma SubsetIsSmaller(a: set<Signer>, b: set<Signer>)
    requires a <= b
    ensures |a| <= |b|
    ensures |a| == |b| ==> a == b
  {
    assert b == a + (b - a);
  }

  /** Exactly as many signed copies of the PSBT as are required, from different cosigners. */
  ghost predicate ProperlySigned(cfg: Config, p: PsbtValue, signed: seq<SignedPsbt>)
  {
    && |signed| == cfg.requiredSigners
    && (forall x :: x in signed ==> x.psbt == p && x.signer in cfg.cosigners)
    && (forall i, j :: 0 <= i < j < |signed| ==> signed[i].signer != signed[j].signer)
  }

  /** What finalizes, out of no more signed PSBTs than required, is properly signed. */
  lemma FinalizedIsSigned(cfg: Config, p: PsbtValue, signed: seq<SignedPsbt>)
    requires |signed| == cfg.requiredSigners && Finalizes(cfg, p, signed)
    ensures ProperlySigned(cfg, p, signed)
  {
    SignersAreFew(signed);
    SubsetIsSmaller(Signers(signed) * cfg.cosigners, Signers(signed));
    forall x | x in signed
      ensures x.signer in cfg.cosigners
    {
      assert x.signer in Signers(signed) * cfg.cosigners;
    }
  }

  ghost predicate StageSigned(cfg: Config, stage: Stage)
  {
    (stage.Combined? || stage.Storing?) ==> ProperlySigned(cfg, stage.psbt, stage.signed)
  }

  ghost predicate AllSigned(cfg: Config, s: State)
  {
    && (forall i :: 0 <= i < |s.handlings| ==> StageSigned(cfg, s.handlings[i].stage))
    && (forall k :: 0 <= k < |s.broadcasts| ==> ProperlySigned(cfg, s.broadcasts[k].psbt, s.broadcasts[k].signed))
  }

  lemma CombineIsSigned(cfg: Config, s: State, i: nat, responses: seq<SignedPsbt>)
    requires i < |s.handlings| && s.handlings[i].stage.Built?
    ensures StageSigned(cfg, CombineSigned(cfg, s, i, responses).handlings[i].stage)
  {
    var p := s.handlings[i].stage.psbt;
    var signed := SignedInOrder(cfg, p, responses);
    if |signed| == cfg.requiredSigners && Finalizes(cfg, p, signed) {
      FinalizedIsSigned(cfg, p, signed);
    }
  }

  lemma StepSigned(cfg: Config, s: State, a: Action)
    requires AllSigned(cfg, s)
    ensures AllSigned(cfg, Apply(cfg, s, a))
  {
    if a.Combine? && a.handling < |s.handlings| && s.handlings[a.handling].stage.Built? {
      CombineIsSigned(cfg, s, a.handling, a.responses);
    }
  }

  /** Over every run, what is broadcast was combined from that many signed copies of different cosigners. */
  lemma {:induction false} BroadcastIsSigned(cfg: Config, actions: seq<Action>)
    ensures AllSigned(cfg, Run(cfg, actions))
  {
    if actions != [] {
      BroadcastIsSigned(cfg, actions[..|actions| - 1]);
      StepSigned(cfg, Run(cfg, actions[..|actions| - 1]), actions[|actions| - 1]);
    }
  }

  // ---------------------------------------------------------------- the receiver gets the deposit

  function TransferFor(cfg: Config, d: Deposit): Transfer
  {
    Transfer(d.runeNumber, cfg.scriptOf(d.receiver), d.netAmount, TARGET_POSTAGE_SAT)
  }

  function RequestedTransfer(cfg: Config, q: Request): Transfer
  {
    Transfer(q.runeNumber, cfg.scriptOf(q.receiver), q.netAmount, TARGET_POSTAGE_SAT)
  }

  /** create_rune_psbt built the PSBT for the transfer, from true answers of ord if these are assumed. */
  ghost predicate BuiltFrom(cfg: Config, holdings: Option<Holdings>, t: Transfer, p: PsbtValue,
                            balances: Outpoint -> Option<map<Rune, nat>>, utxos: seq<Utxo>, rate: int)
  {
    && (holdings.Some? ==> Truthful(Ord(balances, cfg.ids), holdings.value))
    && Create(cfg.wallet, Ord(balances, cfg.ids), cfg.codec.encipher, utxos, [t], rate, MAX_NUM_INPUTS) == Ok(p)
    && IsPriced(cfg, p)
  }

  /** At most 200 inputs, and a fee that the limits of the node allow. */
  ghost predicate IsPriced(cfg: Config, p: PsbtValue)
  {
    var size := VirtualSize(|p.inputs|, p.outputs, cfg.wallet.multisig);
    && |p.inputs| <= 200
    && 11 * PaidFee(p) >= 10 * (size * cfg.minFeeRate)
    && 10 * PaidFee(p) < 11 * (size * Max(11 * cfg.maxFeeRate / 10, cfg.minFeeRate))
  }

  lemma BuildIsPriced(cfg: Config, s: State, q: Request, a: Action)
    requires a.Build? && BuildPsbt(cfg, s.rows, q, a.balances, a.utxos, a.estimate, a.ownEstimate).Ok?
    ensures IsPriced(cfg, BuildPsbt(cfg, s.rows, q, a.balances, a.utxos, a.estimate, a.ownEstimate).value)
  {
    var p := BuildPsbt(cfg, s.rows, q, a.balances, a.utxos, a.estimate, a.ownEstimate).value;
    var size, rate := VirtualSize(|p.inputs|, p.outputs, cfg.wallet.multisig), AdjustedRate(a.estimate, cfg.minFeeRate);
    RateTimesSize(size, cfg.minFeeRate, rate);
    RateTimesSize(size, rate, Max(11 * cfg.maxFeeRate / 10, cfg.minFeeRate));
  }

  ghost predicate BuiltFor(cfg: Config, holdings: Option<Holdings>, t: Transfer, p: PsbtValue)
  {
    exists balances, utxos, rate :: BuiltFrom(cfg, holdings, t, p, balances, utxos, rate)
  }

  /** ord answers truthfully whenever a PSBT is built. */
  ghost predicate OrdIsTruthful(cfg: Config, holdings: Option<Holdings>, a: Action)
  {
    a.Build? && holdings.Some? ==> Truthful(Ord(a.balances, cfg.ids), holdings.value)
  }

  ghost predicate HandlingBuilt(cfg: Config, holdings: Option<Holdings>, s: State, h: Handling)
  {
    && h.key in s.rows
    && TransferFor(cfg, s.rows[h.key].deposit) == RequestedTransfer(cfg, h.request)
    && (HasPsbt(h.stage) ==>
          BuiltFor(cfg, holdings, RequestedTransfer(cfg, h.request), h.stage.psbt))
  }

  ghost predicate BroadcastBuilt(cfg: Config, holdings: Option<Holdings>, s: State, b: Broadcasting)
  {
    b.key in s.rows && BuiltFor(cfg, holdings, TransferFor(cfg, s.rows[b.key].deposit), b.psbt)
  }

  ghost predicate AllBuilt(cfg: Config, holdings: Option<Holdings>, s: State)
  {
    && (forall i :: 0 <= i < |s.handlings| ==> HandlingBuilt(cfg, holdings, s, s.handlings[i]))
    && (forall k :: 0 <= k < |s.broadcasts| ==> BroadcastBuilt(cfg, holdings, s, s.broadcasts[k]))
  }

  /** The receiver, the amount and the rune of a row never change. */
  ghost predicate TransfersKept(cfg: Config, s: State, t: State)
  {
    forall key :: key in s.rows ==>
      key in t.rows && TransferFor(cfg, t.rows[key].deposit) == TransferFor(cfg, s.rows[key].deposit)
  }

  lemma StepKeepsTransfers(cfg: Config, s: State, a: Action)
    ensures TransfersKept(cfg, s, Apply(cfg, s, a))
  {
  }

  lemma BuildIsBuilt(cfg: Config, holdings: Option<Holdings>, s: State, q: Request, a: Action)
    requires a.Build? && OrdIsTruthful(cfg, holdings, a)
    requires BuildPsbt(cfg, s.rows, q, a.balances, a.utxos, a.estimate, a.ownEstimate).Ok?
    ensures BuiltFor(cfg, holdings, RequestedTransfer(cfg, q),
                     BuildPsbt(cfg, s.rows, q, a.balances, a.utxos, a.estimate, a.ownEstimate).value)
  {
    BuildIsPriced(cfg, s, q, a);
    assert BuiltFrom(cfg, holdings, RequestedTransfer(cfg, q),
                     BuildPsbt(cfg, s.rows, q, a.balances, a.utxos, a.estimate, a.ownEstimate).value,
                     a.balances, a.utxos, AdjustedRate(a.estimate, cfg.minFeeRate));
  }

  lemma BuildGoesOn(cfg: Config, holdings: Option<Holdings>, s: State, a: Action)
    requires AllBuilt(cfg, holdings, s) && OrdIsTruthful(cfg, holdings, a)
    requires a.Build? && a.handling < |s.handlings| && s.handlings[a.handling].stage.Started?
    ensures HandlingBuilt(cfg, holdings, Apply(cfg, s, a), Apply(cfg, s, a).handlings[a.handling])
  {
    var h := s.handlings[a.handling];
    assert HandlingBuilt(cfg, holdings, s, h);
    if BuildPsbt(cfg, s.rows, h.request, a.balances, a.utxos, a.estimate, a.ownEstimate).Ok? {
      BuildIsBuilt(cfg, holdings, s, h.request, a);
    }
  }

  predicate HasPsbt(stage: Stage)
  {
    stage.Built? || stage.Combined? || stage.Storing?
  }

  /** The same call, and if it has a PSBT, the one it had. */
  ghost predicate Continues(h: Handling, g: Handling)
  {
    && g.key == h.key && g.request == h.request
    && (HasPsbt(g.stage) ==> HasPsbt(h.stage) && g.stage.psbt == h.stage.psbt)
  }

  lemma HandlingContinues(cfg: Config, s: State, a: Action, i: nat)
    requires i < |s.handlings| && i < |Apply(cfg, s, a).handlings|
    requires !(a.Build? && a.handling == i && s.handlings[i].stage.Started?)
    ensures Continues(s.handlings[i], Apply(cfg, s, a).handlings[i])
  {
  }

  lemma StillBuilt(cfg: Config, holdings: Option<Holdings>, s: State, t: State, h: Handling, g: Handling)
    requires HandlingBuilt(cfg, holdings, s, h) && Continues(h, g) && TransfersKept(cfg, s, t)
    ensures HandlingBuilt(cfg, holdings, t, g)
  {
  }

  lemma NewHandling(cfg: Config, holdings: Option<Holdings>, s: State, a: Action, i: nat)
    requires |s.handlings| <= i < |Apply(cfg, s, a).handlings|
    ensures HandlingBuilt(cfg, holdings, Apply(cfg, s, a), Apply(cfg, s, a).handlings[i])
  {
  }

  /** Each call goes on from what it was, or is new. */
  lemma HandlingGoesOn(cfg: Config, holdings: Option<Holdings>, s: State, a: Action, i: nat)
    requires AllBuilt(cfg, holdings, s) && OrdIsTruthful(cfg, holdings, a)
    requires i < |Apply(cfg, s, a).handlings|
    ensures HandlingBuilt(cfg, holdings, Apply(cfg, s, a), Apply(cfg, s, a).handlings[i])
  {
    if i >= |s.handlings| {
      NewHandling(cfg, holdings, s, a, i);
    } else if a.Build? && a.handling == i && s.handlings[i].stage.Started? {
      BuildGoesOn(cfg, holdings, s, a);
    } else {
      StepKeepsTransfers(cfg, s, a);
      HandlingContinues(cfg, s, a, i);
      StillBuilt(cfg, holdings, s, Apply(cfg, s, a), s.handlings[i], Apply(cfg, s, a).handlings[i]);
    }
  }

  lemma StepBuilt(cfg: Config, holdings: Option<Holdings>, s: State, a: Action)
    requires AllBuilt(cfg, holdings, s) && OrdIsTruthful(cfg, holdings, a)
    ensures AllBuilt(cfg, holdings, Apply(cfg, s, a))
  {
    var t := Apply(cfg, s, a);
    StepKeepsTransfers(cfg, s, a);
    forall i: nat | i < |t.handlings|
      ensures HandlingBuilt(cfg, holdings, t, t.handlings[i])
    {
      HandlingGoesOn(cfg, holdings, s, a, i);
    }
    forall b | BroadcastBuilt(cfg, holdings, s, b)
      ensures BroadcastBuilt(cfg, holdings, t, b)
    {
    }
    if t.broadcasts != s.broadcasts {
      OnlyBroadcastCalls(cfg, s, a);
      assert HandlingBuilt(cfg, holdings, s, s.handlings[a.handling]);
    }
  }

  lemma {:induction false} RunBuilt(cfg: Config, holdings: Option<Holdings>, actions: seq<Action>)
    requires forall i :: 0 <= i < |actions| ==> OrdIsTruthful(cfg, holdings, actions[i])
    ensures AllBuilt(cfg, holdings, Run(cfg, actions))
  {
    if actions != [] {
      var before, a := actions[..|actions| - 1], actions[|actions| - 1];
      RunBuilt(cfg, holdings, before);
      StepBuilt(cfg, holdings, Run(cfg, before), a);
    }
  }

  lemma BuiltPaysReceiver(cfg: Config, holdings: Holdings, t: Transfer, p: PsbtValue, id: RuneId)
    requires IdsAreUnique(cfg.ids) && RoundTrips(cfg.codec) && PaysAddresses(cfg.wallet, [t])
    requires BuiltFor(cfg, Some(holdings), t, p)
    ensures var total := InputUnits(holdings, id, p.inputs);
            var paid := if cfg.ids(t.rune) == Some(id) then t.amount else 0;
            && RunestoneOf(cfg.codec, p.outputs).Some?
            && |p.outputs| >= 3 && p.outputs[2].value == t.postage && Some(p.outputs[2].script) == t.receiver
            && p.outputs[1] == TxOut(10_000, cfg.wallet.changeScript)
            && var r := Allocate(p.outputs, RunestoneOf(cfg.codec, p.outputs).value, id, total);
               && r.burned == 0 && |r.outputs| == |p.outputs|
               && r.outputs[2] == paid && r.outputs[1] == total - paid
  {
    var balances, utxos, rate :| BuiltFrom(cfg, Some(holdings), t, p, balances, utxos, rate);
    var ord := Ord(balances, cfg.ids);
    RunesConserved(cfg.wallet, ord, holdings, cfg.codec, utxos, [t], rate, MAX_NUM_INPUTS, id);
    var q, target, us, vs := CreatedFrom(cfg.wallet, ord, cfg.codec.encipher, utxos, [t], rate, MAX_NUM_INPUTS);
    TransferAt(ord, [t], 0);
    assert target.outs <= p.outputs && p.outputs[2] == target.outs[2] == RuneOutputs(ord, [t])[0];
    OneMoved(ord, t, id);
  }

  lemma OneMoved(ord: Ord, t: Transfer, id: RuneId)
    ensures Moved(ord, [t], id) == if ord.ids(t.rune) == Some(id) then t.amount else 0
    ensures MovedTo(ord, [t], id, 2) == Moved(ord, [t], id)
  {
    assert [t][..0] == [];
  }

  /** Over every run: a broadcast transaction pays the deposit's receiver exactly its net amount of its rune, returns
      all other runes of its inputs to the multisig, and burns nothing. */
  lemma BroadcastPaysReceiver(cfg: Config, holdings: Holdings, actions: seq<Action>, k: nat, id: RuneId)
    requires forall i :: 0 <= i < |actions| ==> OrdIsTruthful(cfg, Some(holdings), actions[i])
    requires IdsAreUnique(cfg.ids) && RoundTrips(cfg.codec)
    requires !IsOpReturn(cfg.wallet.changeScript)
    requires forall address :: cfg.scriptOf(address).Some? ==> !IsOpReturn(cfg.scriptOf(address).value)
    requires k < |Run(cfg, actions).broadcasts|
    ensures var b := Run(cfg, actions).broadcasts[k];
            && b.key in Run(cfg, actions).rows
            && var d := Run(cfg, actions).rows[b.key].deposit;
               var total := InputUnits(holdings, id, b.psbt.inputs);
               var paid := if cfg.ids(d.runeNumber) == Some(id) then d.netAmount else 0;
               && RunestoneOf(cfg.codec, b.psbt.outputs).Some? && |b.psbt.outputs| >= 3
               && b.psbt.outputs[2].value == 10_000 && Some(b.psbt.outputs[2].script) == cfg.scriptOf(d.receiver)
               && b.psbt.outputs[1] == TxOut(10_000, cfg.wallet.changeScript)
               && var r := Allocate(b.psbt.outputs, RunestoneOf(cfg.codec, b.psbt.outputs).value, id, total);
                  && r.burned == 0 && |r.outputs| == |b.psbt.outputs|
                  && r.outputs[2] == paid && r.outputs[1] == total - paid
  {
    RunBuilt(cfg, Some(holdings), actions);
    var s := Run(cfg, actions);
    assert BroadcastBuilt(cfg, Some(holdings), s, s.broadcasts[k]);
    BuiltPaysReceiver(cfg, holdings, TransferFor(cfg, s.rows[s.broadcasts[k].key].deposit), s.broadcasts[k].psbt, id);
  }

  /** Over every run: a broadcast transaction has at most 200 inputs, and its fee is within a factor of 11/10 of the limits of
      the node for the rate. */
  lemma BroadcastIsPriced(cfg: Config, actions: seq<Action>, k: nat)
    requires k < |Run(cfg, actions).broadcasts|
    ensures var p := Run(cfg, actions).broadcasts[k].psbt;
            var size := VirtualSize(|p.inputs|, p.outputs, cfg.wallet.multisig);
            && |p.inputs| <= 200
            && 11 * PaidFee(p) >= 10 * (size * cfg.minFeeRate)
            && 10 * PaidFee(p) < 11 * (size * Max(11 * cfg.maxFeeRate / 10, cfg.minFeeRate))
  {
    RunBuilt(cfg, None, actions);
    var s := Run(cfg, actions);
    assert BroadcastBuilt(cfg, None, s, s.broadcasts[k]);
  }
}
