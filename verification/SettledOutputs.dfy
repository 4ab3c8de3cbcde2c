/** What the stored last block has moved past is settled: no later scan touches its deposits. */
module SettledOutputs {
  import opened Wrappers
  import opened Transactions
  import opened RuneAllocation
  import opened RuneDeposits
  import opened CheckpointSafety
  import Backing
  import SubmittedOnce

  // ---------------------------------------------------------------- what scans leave alone

  /** What a scan writes into a deposit, and whether it is ACCEPTED or later. */
  datatype Terms = Terms(user: EvmAddress, amount: nat, net: int, accepted: bool)

  ghost function TermsOf(db: Db, key: Key): Option<Terms>
  {
    if key !in db.deposits then None
    else
      var d := db.deposits[key];
      Some(Terms(d.user, d.amount, d.net, d.status != Detected))
  }

  ghost predicate SameTerms(db: Db, db': Db, o: Outpoint)
  {
    forall key: Key :: key.outpoint == o ==> TermsOf(db', key) == TermsOf(db, key)
  }

  lemma {:induction false} StoreRunesLeavesOthers(cfg: Config, fee: Percentage, db: Db, e: Entry, user: EvmAddress,
                                                  bs: seq<RuneBalance>, o: Outpoint)
    requires e.outpoint != o
    ensures SameTerms(db, StoreRunes(cfg, fee, db, e, user, bs), o)
  {
    if bs != [] {
      StoreRunesLeavesOthers(cfg, fee, db, e, user, bs[..|bs| - 1], o);
    }
  }

  lemma {:induction false} StoreEntriesLeavesOthers(cfg: Config, fee: Percentage, db: Db, es: seq<Entry>, o: Outpoint)
    requires forall e :: e in es && e.balances.Some? ==> e.outpoint != o
    ensures SameTerms(db, StoreEntries(cfg, fee, db, es), o)
  {
    if es != [] {
      var front, e := es[..|es| - 1], es[|es| - 1];
      assert es == front + [e];
      StoreEntriesLeavesOthers(cfg, fee, db, front, o);
      var before := StoreEntries(cfg, fee, db, front);
      if e.address in before.users && e.balances.Some? {
        StoreRunesLeavesOthers(cfg, fee, StoreTx(cfg, before, e), e, before.users[e.address], e.balances.value, o);
      }
    }
  }

  // ---------------------------------------------------------------- what scans list

  /** The list can only accept what the scan moves the last block past. */
  predicate Tight(cfg: Config)
  {
    cfg.listsinceblockBuffer <= cfg.requiredConfirmations || cfg.listsinceblockBuffer <= 1
  }

  /** The entry is about output `k`, which comes after `last`; and not after `newLast` if the entry accepts it and the
      configuration is tight. */
  ghost predicate AheadAt(cfg: Config, chain: Chain, last: Option<int>, newLast: int, e: Entry, k: int)
  {
    && 0 <= k < |chain.mined| && chain.mined[k].output.outpoint == e.outpoint && After(last, chain.mined[k].height)
    && (Tight(cfg) && e.confirmations >= cfg.requiredConfirmations ==> chain.mined[k].height <= newLast)
  }

  ghost predicate EntryAhead(cfg: Config, chain: Chain, last: Option<int>, newLast: int, e: Entry)
  {
    e.balances.Some? ==> exists k :: AheadAt(cfg, chain, last, newLast, e, k)
  }

  ghost predicate EntriesAhead(cfg: Config, chain: Chain, last: Option<int>, newLast: int, es: seq<Entry>)
  {
    forall e :: e in es ==> EntryAhead(cfg, chain, last, newLast, e)
  }

  ghost predicate ScansAhead(cfg: Config, s: State)
  {
    forall i :: 0 <= i < |s.scans| && s.scans[i].Listed? ==>
      EntriesAhead(cfg, s.chain, s.scans[i].lastRead, s.scans[i].newLast, s.scans[i].entries)
  }

  lemma {:induction false} ListMinedAhead(cfg: Config, chain: Chain, last: Option<int>, unindexed: set<Outpoint>, n: nat)
    requires n <= |chain.mined| && 1 <= cfg.listsinceblockBuffer
    requires forall k :: 0 <= k < |chain.mined| ==> 1 <= chain.mined[k].height <= chain.tip
    ensures EntriesAhead(cfg, chain, last, LastBlock(chain.tip, cfg.listsinceblockBuffer),
                         ListMined(cfg, chain, last, unindexed, n))
  {
    if n > 0 {
      ListMinedAhead(cfg, chain, last, unindexed, n - 1);
      var before, es := ListMined(cfg, chain, last, unindexed, n - 1), ListMined(cfg, chain, last, unindexed, n);
      if es != before {
        var e := es[|es| - 1];
        assert AheadAt(cfg, chain, last, LastBlock(chain.tip, cfg.listsinceblockBuffer), e, n - 1);
      }
    }
  }

  lemma {:induction false} ListUnconfirmedAhead(cfg: Config, chain: Chain, last: Option<int>, newLast: int, pool: seq<Unconfirmed>)
    ensures EntriesAhead(cfg, chain, last, newLast, ListUnconfirmed(cfg, pool))
  {
    if pool != [] {
      ListUnconfirmedAhead(cfg, chain, last, newLast, pool[..|pool| - 1]);
    }
  }

  /** Blocks are only appended. */
  lemma StillAhead(cfg: Config, chain: Chain, longer: Chain, last: Option<int>, newLast: int, es: seq<Entry>)
    requires chain.mined <= longer.mined && EntriesAhead(cfg, chain, last, newLast, es)
    ensures EntriesAhead(cfg, longer, last, newLast, es)
  {
    forall e | e in es && e.balances.Some?
      ensures EntryAhead(cfg, longer, last, newLast, e)
    {
      assert EntryAhead(cfg, chain, last, newLast, e);
      var k :| AheadAt(cfg, chain, last, newLast, e, k);
      assert longer.mined[k] == chain.mined[k];
      assert AheadAt(cfg, longer, last, newLast, e, k);
    }
  }

  lemma ListKeepsAhead(cfg: Config, s: State, a: Action)
    requires a.List? && ScansAhead(cfg, s) && Inv(cfg, s)
    ensures ScansAhead(cfg, Apply(cfg, s, a))
  {
    if a.scan < |s.scans| && s.scans[a.scan].Begun? {
      assert ScanValid(cfg, s, s.scans[a.scan]);
      var last := s.scans[a.scan].lastRead;
      ListMinedAhead(cfg, s.chain, last, a.unindexed, |s.chain.mined|);
      ListUnconfirmedAhead(cfg, s.chain, last, LastBlock(s.chain.tip, cfg.listsinceblockBuffer), a.pool);
    }
  }

  lemma StepKeepsAhead(cfg: Config, s: State, a: Action)
    requires ScansAhead(cfg, s) && Inv(cfg, s)
    ensures ScansAhead(cfg, Apply(cfg, s, a))
  {
    var t := Apply(cfg, s, a);
    match a
    case Mine(outputs) =>
      assert s.chain.mined <= t.chain.mined;
      forall i | 0 <= i < |s.scans| && s.scans[i].Listed?
        ensures EntriesAhead(cfg, t.chain, s.scans[i].lastRead, s.scans[i].newLast, s.scans[i].entries)
      {
        StillAhead(cfg, s.chain, t.chain, s.scans[i].lastRead, s.scans[i].newLast, s.scans[i].entries);
      }
    case List(_, _, _) => ListKeepsAhead(cfg, s, a);
    case _ =>
  }

  lemma {:induction false} RunKeepsAhead(cfg: Config, actions: seq<Action>)
    ensures ScansAhead(cfg, Run(cfg, actions))
  {
    if actions != [] {
      RunKeepsAhead(cfg, actions[..|actions| - 1]);
      RunKeeps(cfg, actions[..|actions| - 1]);
      StepKeepsAhead(cfg, Run(cfg, actions[..|actions| - 1]), actions[|actions| - 1]);
    }
  }

  // ---------------------------------------------------------------- settled outputs

  ghost predicate SettledAt(s: State, o: Outpoint, k: int)
  {
    && 0 <= k < |s.chain.mined| && s.chain.mined[k].output.outpoint == o
    && !After(s.db.lastBlock, s.chain.mined[k].height)
  }

  /** The output is on the chain, at or below the stored last block. */
  ghost predicate Settled(s: State, o: Outpoint)
  {
    exists k :: SettledAt(s, o, k)
  }

  lemma CommitLeavesSettled(cfg: Config, s: State, i: nat, fee: Percentage, o: Outpoint)
    requires i < |s.scans| && s.scans[i].Listed? && Backing.OutpointsUnique(s.chain) && ScansAhead(cfg, s) && Settled(s, o)
    ensures SameTerms(s.db, CommitScan(cfg, s, i, fee).db, o)
  {
    var scan := s.scans[i];
    if s.db.lastBlock == scan.lastRead {
      forall e | e in scan.entries && e.balances.Some?
        ensures e.outpoint != o
      {
        assert EntryAhead(cfg, s.chain, scan.lastRead, scan.newLast, e);
        var j :| AheadAt(cfg, s.chain, scan.lastRead, scan.newLast, e, j);
        var k :| SettledAt(s, o, k);
      }
      StoreEntriesLeavesOthers(cfg, fee, s.db, scan.entries, o);
    }
  }

  lemma UpdateKeepsTerms(cfg: Config, s: State, a: Action, o: Outpoint)
    requires a.Update?
    ensures SameTerms(s.db, Apply(cfg, s, a).db, o)
  {
    if HasStatus(s.db, a.key, Accepted) {
      var named := s.db.deposits[a.key].(messageHash := Some(a.hash));
      CollectKeepsTerms(named, Prune(cfg, a.currentFederators, a.hash, a.answers));
    }
  }

  lemma {:induction false} CollectKeepsTerms(d: Deposit, answers: seq<Answer>)
    ensures var r := Collect(d, answers); r.user == d.user && r.amount == d.amount && r.net == d.net && r.status == d.status
  {
    if answers != [] {
      CollectKeepsTerms(d, answers[..|answers| - 1]);
    }
  }

  /** The sending side changes statuses only, and none back to DETECTED; a send in progress has taken its deposit beyond. */
  lemma SendingKeepsTerms(cfg: Config, s: State, a: Action, o: Outpoint)
    requires SubmittedOnce.Inv(s)
    requires !a.Commit? && !a.Update?
    ensures SameTerms(s.db, Apply(cfg, s, a).db, o)
  {
    if a.Record? && a.send < |s.sends| {
      assert SubmittedOnce.Active(s, a.send) || s.sends[a.send].stage.Done?;
    }
  }

  lemma StepLeavesSettled(cfg: Config, s: State, a: Action, o: Outpoint)
    requires Backing.OutpointsUnique(s.chain) && ScansAhead(cfg, s) && SubmittedOnce.Inv(s) && Inv(cfg, s) && Settled(s, o)
    ensures SameTerms(s.db, Apply(cfg, s, a).db, o) && Settled(Apply(cfg, s, a), o)
  {
    var t := Apply(cfg, s, a);
    var k :| SettledAt(s, o, k);
    if a.Commit? {
      if a.scan < |s.scans| && s.scans[a.scan].Listed? {
        CommitLeavesSettled(cfg, s, a.scan, a.fee, o);
        assert ScanValid(cfg, s, s.scans[a.scan]);
      }
    } else if a.Update? {
      UpdateKeepsTerms(cfg, s, a, o);
    } else {
      SendingKeepsTerms(cfg, s, a, o);
    }
    assert SettledAt(t, o, k);
  }

  lemma RunInvariants(cfg: Config, actions: seq<Action>)
    ensures var s := Run(cfg, actions);
            Backing.OutpointsUnique(s.chain) && ScansAhead(cfg, s) && SubmittedOnce.Inv(s) && Inv(cfg, s)
  {
    RunKeepsAhead(cfg, actions);
    RunKeeps(cfg, actions);
    SubmittedOnce.RunKeeps(cfg, actions);
    Backing.RunIsBacked(cfg, Backing.FeesOf(actions), actions);
  }

  /** Over every run: once the stored last block has moved past an output, its deposits keep user, amount and net amount,
      none is added, and none that is not ACCEPTED by then ever will be. */
  lemma {:induction false} SettledIsFinal(cfg: Config, actions: seq<Action>, more: seq<Action>, o: Outpoint)
    requires Settled(Run(cfg, actions), o)
    ensures Settled(Run(cfg, actions + more), o)
    ensures SameTerms(Run(cfg, actions).db, Run(cfg, actions + more).db, o)
  {
    if more == [] {
      assert actions + more == actions;
    } else {
      var front, last := more[..|more| - 1], more[|more| - 1];
      assert (actions + more)[..|actions + more| - 1] == actions + front;
      SettledIsFinal(cfg, actions, front, o);
      RunInvariants(cfg, actions + front);
      StepLeavesSettled(cfg, Run(cfg, actions + front), last, o);
    }
  }

  /** What a scan missed it has missed for good: over every run, the deposits of an output at or below the stored last
      block have been accepted if and only if the scan that moved past it did not miss it. */
  lemma AcceptedIffNotMissed(cfg: Config, actions: seq<Action>, k: nat)
    requires k < |Run(cfg, actions).chain.mined|
    requires var s := Run(cfg, actions); var m := s.chain.mined[k];
             Relevant(cfg, m) && s.db.lastBlock.Some? && m.height <= s.db.lastBlock.value
    ensures var s := Run(cfg, actions); var m := s.chain.mined[k];
            DepositsAreAccepted(s.db, m.output) <==> !WasMissed(cfg, actions, m)
  {
    NoDepositIsLost(cfg, actions, k);
    var m := Run(cfg, actions).chain.mined[k];
    if WasMissed(cfg, actions, m) {
      MissedStaysMissed(cfg, actions, m);
    }
  }

  lemma MissedStaysMissed(cfg: Config, actions: seq<Action>, m: Mined)
    requires WasMissed(cfg, actions, m)
    ensures !DepositsAreAccepted(Run(cfg, actions).db, m.output)
  {
    var i :| MissedAt(cfg, actions, m, i);
    MissedIsSettled(cfg, actions, m, i);
    SettledStays(cfg, actions, actions[..i + 1], actions[i + 1..], m.output);
  }

  lemma SettledStays(cfg: Config, actions: seq<Action>, front: seq<Action>, rest: seq<Action>, o: Output)
    requires actions == front + rest && Settled(Run(cfg, front), o.outpoint)
    ensures DepositsAreAccepted(Run(cfg, actions).db, o) <==> DepositsAreAccepted(Run(cfg, front).db, o)
  {
    SettledIsFinal(cfg, front, rest, o.outpoint);
    SameTermsAccepted(Run(cfg, front).db, Run(cfg, actions).db, o);
  }

  lemma SameTermsAccepted(db: Db, db': Db, o: Output)
    requires SameTerms(db, db', o.outpoint)
    ensures DepositsAreAccepted(db', o) <==> DepositsAreAccepted(db, o)
  {
    forall r: Rune
      ensures DepositIsAccepted(db', Key(o.outpoint, r)) <==> DepositIsAccepted(db, Key(o.outpoint, r))
    {
      assert TermsOf(db', Key(o.outpoint, r)) == TermsOf(db, Key(o.outpoint, r));
    }
  }

  lemma MissedIsSettled(cfg: Config, actions: seq<Action>, m: Mined, i: nat)
    requires MissedAt(cfg, actions, m, i)
    ensures Settled(Run(cfg, actions[..i + 1]), m.output.outpoint)
  {
    var s, t := Run(cfg, actions[..i]), Run(cfg, actions[..i + 1]);
    assert actions[..i + 1][..i] == actions[..i];
    var k :| 0 <= k < |s.chain.mined| && s.chain.mined[k] == m;
    assert SettledAt(t, m.output.outpoint, k);
  }

  // ---------------------------------------------------------------- tight configurations

  /** What is ACCEPTED or later is settled. */
  ghost predicate AcceptedIsSettled(s: State)
  {
    forall key: Key :: DepositIsAccepted(s.db, key) ==> Settled(s, key.outpoint)
  }

  /** The entry accepts the deposits of the output. */
  ghost predicate Accepts(cfg: Config, e: Entry, o: Outpoint)
  {
    e.outpoint == o && e.balances.Some? && e.confirmations >= cfg.requiredConfirmations
  }

  lemma {:induction false} StoreRunesAccepts(cfg: Config, fee: Percentage, db: Db, e: Entry, user: EvmAddress,
                                             bs: seq<RuneBalance>, key: Key)
    requires e.balances.Some?
    requires DepositIsAccepted(StoreRunes(cfg, fee, db, e, user, bs), key)
    ensures DepositIsAccepted(db, key) || Accepts(cfg, e, key.outpoint)
  {
    if bs != [] && !DepositIsAccepted(db, key) && !Accepts(cfg, e, key.outpoint) {
      var before := StoreRunes(cfg, fee, db, e, user, bs[..|bs| - 1]);
      if DepositIsAccepted(before, key) {
        StoreRunesAccepts(cfg, fee, db, e, user, bs[..|bs| - 1], key);
      }
    }
  }

  /** A deposit is only accepted by an entry of its output. */
  lemma {:induction false} StoreEntriesAccepts(cfg: Config, fee: Percentage, db: Db, es: seq<Entry>, key: Key)
    requires DepositIsAccepted(StoreEntries(cfg, fee, db, es), key)
    ensures DepositIsAccepted(db, key) || exists e :: e in es && Accepts(cfg, e, key.outpoint)
  {
    if es != [] {
      var front, e := es[..|es| - 1], es[|es| - 1];
      assert es == front + [e];
      var before := StoreEntries(cfg, fee, db, front);
      if DepositIsAccepted(before, key) {
        StoreEntriesAccepts(cfg, fee, db, front, key);
      } else if e.address in before.users && e.balances.Some? {
        StoreRunesAccepts(cfg, fee, StoreTx(cfg, before, e), e, before.users[e.address], e.balances.value, key);
        assert e in es;
      }
    }
  }

  lemma CommitSettles(cfg: Config, s: State, i: nat, fee: Percentage, key: Key)
    requires i < |s.scans| && s.scans[i].Listed? && s.db.lastBlock == s.scans[i].lastRead
    requires Tight(cfg) && ScansAhead(cfg, s) && !DepositIsAccepted(s.db, key)
    requires DepositIsAccepted(CommitScan(cfg, s, i, fee).db, key)
    ensures Settled(CommitScan(cfg, s, i, fee), key.outpoint)
  {
    var scan := s.scans[i];
    StoreEntriesAccepts(cfg, fee, s.db, scan.entries, key);
    var e :| e in scan.entries && Accepts(cfg, e, key.outpoint);
    assert EntryAhead(cfg, s.chain, scan.lastRead, scan.newLast, e);
    var k :| AheadAt(cfg, s.chain, scan.lastRead, scan.newLast, e, k);
    assert SettledAt(CommitScan(cfg, s, i, fee), key.outpoint, k);
  }

  /** Only commits accept anything. */
  lemma OtherStepAccepts(cfg: Config, s: State, a: Action, key: Key)
    requires SubmittedOnce.Inv(s) && !a.Commit?
    ensures DepositIsAccepted(Apply(cfg, s, a).db, key) ==> DepositIsAccepted(s.db, key)
  {
    if a.Update? {
      UpdateKeepsTerms(cfg, s, a, key.outpoint);
    } else {
      SendingKeepsTerms(cfg, s, a, key.outpoint);
    }
  }

  lemma StepSettles(cfg: Config, s: State, a: Action, key: Key)
    requires Tight(cfg) && AcceptedIsSettled(s)
    requires Backing.OutpointsUnique(s.chain) && ScansAhead(cfg, s) && SubmittedOnce.Inv(s) && Inv(cfg, s)
    requires DepositIsAccepted(Apply(cfg, s, a).db, key)
    ensures Settled(Apply(cfg, s, a), key.outpoint)
  {
    if DepositIsAccepted(s.db, key) {
      StepLeavesSettled(cfg, s, a, key.outpoint);
    } else if a.Commit? {
      CommitSettles(cfg, s, a.scan, a.fee, key);
    } else {
      OtherStepAccepts(cfg, s, a, key);
    }
  }

  /** Over every run of a tight configuration a deposit is only accepted by the scan that moves past it. */
  lemma {:induction false} RunSettles(cfg: Config, actions: seq<Action>)
    requires Tight(cfg)
    ensures AcceptedIsSettled(Run(cfg, actions))
  {
    if actions != [] {
      var front, last := actions[..|actions| - 1], actions[|actions| - 1];
      RunSettles(cfg, front);
      RunInvariants(cfg, front);
      forall key: Key | DepositIsAccepted(Run(cfg, actions).db, key)
        ensures Settled(Run(cfg, actions), key.outpoint)
      {
        StepSettles(cfg, Run(cfg, front), last, key);
      }
    }
  }
}
