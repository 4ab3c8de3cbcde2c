/** Over every run of the deposit machine: the statuses only move forward, and acceptTransferFromBtc is called at
    most once for each deposit. */
module SubmittedOnce {
  import opened Wrappers
  import opened RuneDeposits

  ghost function StatusOf(db: Db, key: Key): Option<Status>
  {
    if key in db.deposits then Some(db.deposits[key].status) else None
  }

  /** The edges of the status machine. */
  ghost predicate Edge(before: Option<Status>, now: Option<Status>)
  {
    match before
    case None => now == None || now == Some(Detected) || now == Some(Accepted)
    case Some(Detected) => now == Some(Detected) || now == Some(Accepted)
    case Some(Accepted) => now == Some(Accepted) || now == Some(SendingToEvm)
    case Some(SendingToEvm) => now == Some(SendingToEvm) || now == Some(SentToEvm) || now == Some(SendingToEvmFailed)
    case Some(SentToEvm) => now == Some(SentToEvm) || now == Some(ConfirmedInEvm) || now == Some(EvmTransactionFailed)
    case Some(end) => now == Some(end)
  }

  /** What a scan may do to the deposits. */
  ghost predicate OnlyDetects(db: Db, db': Db)
  {
    forall key :: Edge(StatusOf(db, key), StatusOf(db', key))
      && (StatusOf(db, key) == Some(Accepted) ==> StatusOf(db', key) == Some(Accepted))
      && (StatusOf(db, key) == Some(SendingToEvm) ==> StatusOf(db', key) == Some(SendingToEvm))
      && (StatusOf(db, key) == Some(SentToEvm) ==> StatusOf(db', key) == Some(SentToEvm))
  }

  lemma {:induction false} StoreRunesDetects(cfg: Config, fee: Percentage, db: Db, e: Entry, user: EvmAddress, bs: seq<RuneBalance>)
    ensures OnlyDetects(db, StoreRunes(cfg, fee, db, e, user, bs))
  {
    if bs != [] {
      StoreRunesDetects(cfg, fee, db, e, user, bs[..|bs| - 1]);
    }
  }

  lemma {:induction false} StoreEntriesDetects(cfg: Config, fee: Percentage, db: Db, es: seq<Entry>)
    ensures OnlyDetects(db, StoreEntries(cfg, fee, db, es))
  {
    if es != [] {
      var before, e := StoreEntries(cfg, fee, db, es[..|es| - 1]), es[|es| - 1];
      StoreEntriesDetects(cfg, fee, db, es[..|es| - 1]);
      if e.address in before.users && e.balances.Some? {
        StoreRunesDetects(cfg, fee, StoreTx(cfg, before, e), e, before.users[e.address], e.balances.value);
      }
    }
  }

  ghost predicate Active(s: State, i: int)
  {
    0 <= i < |s.sends| && s.sends[i].stage != Done
  }

  /** A send in progress owns its deposit, which is SENDING_TO_EVM. */
  ghost predicate SendsValid(s: State)
  {
    && (forall i :: Active(s, i) ==> StatusOf(s.db, s.sends[i].call.key) == Some(SendingToEvm))
    && (forall i, j :: Active(s, i) && Active(s, j) && i != j ==> s.sends[i].call.key != s.sends[j].call.key)
  }

  ghost predicate Called(s: State, key: Key)
  {
    exists k :: 0 <= k < |s.submissions| && s.submissions[k].key == key
  }

  ghost predicate BeforeSending(status: Option<Status>)
  {
    status in {None, Some(Detected), Some(Accepted)}
  }

  /** No deposit is submitted twice, none while it may still be sent. */
  ghost predicate SubmissionsValid(s: State)
  {
    && (forall j, k :: 0 <= j < k < |s.submissions| ==> s.submissions[j].key != s.submissions[k].key)
    && (forall key :: Called(s, key) ==> !BeforeSending(StatusOf(s.db, key)))
    && (forall i :: Active(s, i) && s.sends[i].stage == Prepared ==> !Called(s, s.sends[i].call.key))
  }

  ghost predicate Inv(s: State)
  {
    SendsValid(s) && SubmissionsValid(s)
  }

  lemma SameCalls(s: State, t: State)
    requires s.submissions == t.submissions
    ensures forall key :: Called(s, key) == Called(t, key)
  {
  }

  lemma CommitKeeps(cfg: Config, s: State, i: nat, fee: Percentage)
    requires Inv(s)
    ensures var t := Apply(cfg, s, Commit(i, fee));
            Inv(t) && forall key :: Edge(StatusOf(s.db, key), StatusOf(t.db, key))
  {
    var t := Apply(cfg, s, Commit(i, fee));
    SameCalls(s, t);
    if i < |s.scans| && s.scans[i].Listed? {
      StoreEntriesDetects(cfg, fee, s.db, s.scans[i].entries);
    }
    assert forall j :: Active(t, j) == Active(s, j);
  }

  lemma BeginSendKeeps(cfg: Config, s: State, key: Key, numRequired: nat)
    requires Inv(s) && HasStatus(s.db, key, Accepted) && numRequired <= |s.db.deposits[key].signatures|
    ensures var t := PrepareSend(s, key, numRequired);
            Inv(t) && forall k :: Edge(StatusOf(s.db, k), StatusOf(t.db, k))
  {
    var t := PrepareSend(s, key, numRequired);
    SameCalls(s, t);
    assert forall j :: j != |s.sends| ==> Active(t, j) == Active(s, j);
    assert forall j :: Active(s, j) ==> t.sends[j] == s.sends[j] && s.sends[j].call.key != key;
    assert !Called(s, key);
  }

  lemma SubmitKeeps(cfg: Config, s: State, i: nat, txHash: Hash, raises: bool)
    requires Inv(s) && AtStage(s, i, Prepared)
    ensures Inv(Apply(cfg, s, Submit(i, txHash, raises)))
  {
    var t := Apply(cfg, s, Submit(i, txHash, raises));
    assert forall j :: Active(t, j) == Active(s, j);
    assert forall j :: Active(s, j) ==> t.sends[j].call == s.sends[j].call;
    var key := s.sends[i].call.key;
    assert Active(s, i) && !Called(s, key);
    assert forall k :: 0 <= k < |s.submissions| ==> t.submissions[k] == s.submissions[k] && Called(s, s.submissions[k].key);
    forall k
      ensures Called(t, k) ==> Called(s, k) || k == key
    {
    }
  }

  lemma RecordKeeps(cfg: Config, s: State, i: nat)
    requires Inv(s)
    ensures var t := Apply(cfg, s, Record(i));
            Inv(t) && forall key :: Edge(StatusOf(s.db, key), StatusOf(t.db, key))
  {
    var t := Apply(cfg, s, Record(i));
    SameCalls(s, t);
    if i < |s.sends| && (s.sends[i].stage.Submitted? || s.sends[i].stage.Raised?) {
      assert Active(s, i);
      assert forall j :: Active(t, j) <==> Active(s, j) && j != i;
    }
  }

  lemma StageKeeps(cfg: Config, s: State, a: Action)
    requires Inv(s) && (a.Abandon? || a.NotifyRaises?)
    ensures Inv(Apply(cfg, s, a))
  {
    var t := Apply(cfg, s, a);
    SameCalls(s, t);
    assert forall j :: Active(t, j) ==> Active(s, j) && t.sends[j].call == s.sends[j].call;
  }

  /** Steps that do not touch the deposits, and at most forget what was in progress. */
  lemma OutsideKeeps(cfg: Config, s: State, a: Action)
    requires Inv(s)
    requires a.Mine? || a.Register? || a.BeginScan? || a.List? || a.Crash?
    ensures var t := Apply(cfg, s, a); Inv(t) && t.db.deposits == s.db.deposits
  {
    var t := Apply(cfg, s, a);
    SameCalls(s, t);
    assert forall j :: Active(t, j) ==> Active(s, j) && t.sends[j] == s.sends[j];
  }

  lemma DepositKeeps(cfg: Config, s: State, a: Action)
    requires Inv(s) && (a.Update? || a.Confirm?)
    ensures var t := Apply(cfg, s, a);
            Inv(t) && forall key :: Edge(StatusOf(s.db, key), StatusOf(t.db, key))
  {
    var t := Apply(cfg, s, a);
    SameCalls(s, t);
    if a.Update? && HasStatus(s.db, a.key, Accepted) {
      CollectKeepsStatus(s.db.deposits[a.key].(messageHash := Some(a.hash)), Prune(cfg, a.currentFederators, a.hash, a.answers));
    }
    assert forall j :: Active(t, j) == Active(s, j);
  }

  lemma StepKeeps(cfg: Config, s: State, a: Action)
    requires Inv(s)
    ensures Inv(Apply(cfg, s, a))
    ensures forall key :: Edge(StatusOf(s.db, key), StatusOf(Apply(cfg, s, a).db, key))
  {
    match a
    case Commit(i, fee) => CommitKeeps(cfg, s, i, fee);
    case BeginSend(key, frozen, numRequired) =>
      if !frozen && HasStatus(s.db, key, Accepted) && numRequired <= |s.db.deposits[key].signatures| {
        BeginSendKeeps(cfg, s, key, numRequired);
      }
    case Submit(i, txHash, raises) =>
      if AtStage(s, i, Prepared) {
        SubmitKeeps(cfg, s, i, txHash, raises);
      }
    case Record(i) => RecordKeeps(cfg, s, i);
    case Abandon(_) => StageKeeps(cfg, s, a);
    case NotifyRaises(_) => StageKeeps(cfg, s, a);
    case Update(_, _, _, _) => DepositKeeps(cfg, s, a);
    case Confirm(_, _) => DepositKeeps(cfg, s, a);
    case _ => OutsideKeeps(cfg, s, a);
  }

  lemma {:induction false} RunKeeps(cfg: Config, actions: seq<Action>)
    ensures Inv(Run(cfg, actions))
  {
    if actions != [] {
      RunKeeps(cfg, actions[..|actions| - 1]);
      StepKeeps(cfg, Run(cfg, actions[..|actions| - 1]), actions[|actions| - 1]);
    }
  }

  /** Whatever mixture of scans, leader iterations and crashes: one call at most for each deposit. */
  lemma SubmittedAtMostOnce(cfg: Config, actions: seq<Action>, j: nat, k: nat)
    requires j < k < |Run(cfg, actions).submissions|
    ensures Run(cfg, actions).submissions[j].key != Run(cfg, actions).submissions[k].key
  {
    RunKeeps(cfg, actions);
  }

  /** Every step of every run takes the status of every deposit along an edge, or leaves it. */
  lemma StatusesFollowEdges(cfg: Config, actions: seq<Action>, a: Action, key: Key)
    ensures Edge(StatusOf(Run(cfg, actions).db, key), StatusOf(Run(cfg, actions + [a]).db, key))
  {
    assert (actions + [a])[..|actions|] == actions;
    RunKeeps(cfg, actions);
    StepKeeps(cfg, Run(cfg, actions), a);
  }

  // ---------------------------------------------------------------- no resumption

  ghost predicate InProgress(s: State, key: Key)
  {
    exists i :: Active(s, i) && s.sends[i].call.key == key
  }

  /** The deposit is SENDING_TO_EVM, and nobody is sending it: the send was given up, or crashed. */
  ghost predicate Stuck(s: State, key: Key)
  {
    StatusOf(s.db, key) == Some(SendingToEvm) && !InProgress(s, key)
  }

  lemma StuckStatus(cfg: Config, s: State, a: Action, key: Key)
    requires Inv(s) && Stuck(s, key)
    ensures StatusOf(Apply(cfg, s, a).db, key) == Some(SendingToEvm)
  {
    match a
    case Commit(i, fee) =>
      if i < |s.scans| && s.scans[i].Listed? {
        StoreEntriesDetects(cfg, fee, s.db, s.scans[i].entries);
      }
    case Record(i) => assert i < |s.sends| && s.sends[i].call.key == key ==> !Active(s, i);
    case Update(_, _, _, _) => DepositKeeps(cfg, s, a);
    case _ =>
  }

  /** No step takes it up again or submits it. */
  lemma StuckStep(cfg: Config, s: State, a: Action, key: Key)
    requires Inv(s) && Stuck(s, key)
    ensures var t := Apply(cfg, s, a);
            && Stuck(t, key)
            && s.submissions <= t.submissions
            && forall k :: |s.submissions| <= k < |t.submissions| ==> t.submissions[k].key != key
  {
    var t := Apply(cfg, s, a);
    StuckStatus(cfg, s, a, key);
    forall i | Active(t, i)
      ensures t.sends[i].call.key != key
    {
      assert i < |s.sends| ==> Active(s, i) && t.sends[i].call == s.sends[i].call;
    }
    if a.Submit? && AtStage(s, a.send, Prepared) {
      assert Active(s, a.send);
    }
  }

  /** After a send was given up the deposit is not resumed: whatever happens afterwards, it stays SENDING_TO_EVM,
      nobody is sending it, and no further call is made for it. */
  lemma {:induction false} NeverResumed(cfg: Config, actions: seq<Action>, more: seq<Action>, key: Key)
    requires Stuck(Run(cfg, actions), key)
    ensures var s, t := Run(cfg, actions), Run(cfg, actions + more);
            && Stuck(t, key)
            && s.submissions <= t.submissions
            && forall k :: |s.submissions| <= k < |t.submissions| ==> t.submissions[k].key != key
  {
    if more == [] {
      assert actions + more == actions;
    } else {
      var front, last := more[..|more| - 1], more[|more| - 1];
      assert (actions + more)[..|actions + more| - 1] == actions + front;
      NeverResumed(cfg, actions, front, key);
      RunKeeps(cfg, actions + front);
      StuckStep(cfg, Run(cfg, actions + front), last, key);
    }
  }

  /** Giving up a prepared send, because the account cannot pay or has too many transactions pending, gets there. */
  lemma AbandonedIsStuck(cfg: Config, actions: seq<Action>, i: nat)
    requires AtStage(Run(cfg, actions), i, Prepared)
    ensures Stuck(Run(cfg, actions + [Abandon(i)]), Run(cfg, actions).sends[i].call.key)
  {
    assert (actions + [Abandon(i)])[..|actions|] == actions;
    RunKeeps(cfg, actions);
    var s, t := Run(cfg, actions), Run(cfg, actions + [Abandon(i)]);
    assert Active(s, i);
    assert forall j :: Active(t, j) ==> Active(s, j) && j != i && t.sends[j].call == s.sends[j].call;
  }

  /** A crash keeps what was committed and submitted, and leaves exactly the deposits that were being sent in that state. */
  lemma CrashedIsStuck(cfg: Config, actions: seq<Action>, key: Key)
    ensures var s, t := Run(cfg, actions), Run(cfg, actions + [Crash]);
            && t.db == s.db && t.chain == s.chain && t.submissions == s.submissions
            && (Stuck(t, key) <==> HasStatus(s.db, key, SendingToEvm))
  {
    assert (actions + [Crash])[..|actions|] == actions;
    assert forall i :: !Active(Run(cfg, actions + [Crash]), i);
  }
}
