/** The stored last block never moves past a deposit: on a growing chain every output to a deposit address at or
    below it has been accepted, with a deposit for each of its runes. */
module CheckpointSafety {
  import opened Wrappers
  import opened Transactions
  import opened RuneDeposits

  // ---------------------------------------------------------------- what storing entries achieves

  /** Nothing accepted is ever lost, and the deposit addresses stay what they are. */
  ghost predicate Grows(db: Db, db': Db)
  {
    && (forall o :: TxIsAccepted(db, o) ==> TxIsAccepted(db', o))
    && (forall key :: DepositIsAccepted(db, key) ==> DepositIsAccepted(db', key))
    && (forall a :: a in db.users ==> a in db'.users)
  }

  lemma {:induction false} StoreRunesGrows(cfg: Config, fee: Percentage, db: Db, e: Entry, user: EvmAddress, bs: seq<RuneBalance>)
    ensures var r := StoreRunes(cfg, fee, db, e, user, bs);
            && Grows(db, r) && r.btcTxs == db.btcTxs && r.users == db.users && r.lastBlock == db.lastBlock
            && (e.confirmations >= cfg.requiredConfirmations ==>
                  forall b :: b in bs ==> DepositIsAccepted(r, Key(e.outpoint, b.rune)))
  {
    if bs != [] {
      assert bs == bs[..|bs| - 1] + [bs[|bs| - 1]];
      StoreRunesGrows(cfg, fee, db, e, user, bs[..|bs| - 1]);
    }
  }

  ghost predicate DepositsAreAccepted(db: Db, o: Output)
  {
    forall b :: b in o.runes ==> DepositIsAccepted(db, Key(o.outpoint, b.rune))
  }

  ghost predicate EntryIsStored(db: Db, e: Entry)
  {
    && TxIsAccepted(db, e.outpoint)
    && (e.address in db.users && e.balances.Some? ==>
          forall b :: b in e.balances.value ==> DepositIsAccepted(db, Key(e.outpoint, b.rune)))
  }

  lemma StoreEntryGrows(cfg: Config, fee: Percentage, db: Db, e: Entry)
    ensures var r := StoreEntry(cfg, fee, db, e);
            && Grows(db, r) && r.users == db.users && r.lastBlock == db.lastBlock
            && (e.confirmations >= cfg.requiredConfirmations ==> EntryIsStored(r, e))
  {
    if e.address in db.users && e.balances.Some? {
      StoreRunesGrows(cfg, fee, StoreTx(cfg, db, e), e, db.users[e.address], e.balances.value);
    }
  }

  lemma {:induction false} StoreEntriesGrows(cfg: Config, fee: Percentage, db: Db, es: seq<Entry>)
    ensures var r := StoreEntries(cfg, fee, db, es);
            && Grows(db, r) && r.users == db.users && r.lastBlock == db.lastBlock
            && forall e :: e in es && e.confirmations >= cfg.requiredConfirmations ==> EntryIsStored(r, e)
  {
    if es != [] {
      assert es == es[..|es| - 1] + [es[|es| - 1]];
      StoreEntriesGrows(cfg, fee, db, es[..|es| - 1]);
      StoreEntryGrows(cfg, fee, StoreEntries(cfg, fee, db, es[..|es| - 1]), es[|es| - 1]);
    }
  }

  // ---------------------------------------------------------------- what a list covers

  ghost predicate Relevant(cfg: Config, m: Mined)
  {
    m.output.address.Some? && m.output.address != Some(cfg.changeAddress)
  }

  /** The entry of a mined output in a list: its balances are there unless ord had dropped it. */
  ghost predicate Describes(m: Mined, e: Entry, dropped: set<Outpoint>)
  {
    && e.outpoint == m.output.outpoint && Some(e.address) == m.output.address
    && (e.outpoint !in dropped ==> e.balances == Some(m.output.runes))
  }

  ghost predicate Covers(m: Mined, es: seq<Entry>, confirmations: int, dropped: set<Outpoint>)
  {
    exists e :: e in es && e.confirmations >= confirmations && Describes(m, e, dropped)
  }

  lemma {:induction false} ListMinedCovers(cfg: Config, chain: Chain, last: Option<int>, unindexed: set<Outpoint>, n: nat, k: nat)
    requires k < n <= |chain.mined| && Relevant(cfg, chain.mined[k]) && After(last, chain.mined[k].height)
    ensures Covers(chain.mined[k], ListMined(cfg, chain, last, unindexed, n),
                   chain.tip - chain.mined[k].height + 1, unindexed)
  {
    var m, es := chain.mined[k], ListMined(cfg, chain, last, unindexed, n);
    if k == n - 1 {
      var e := es[|es| - 1];
      assert e in es && Describes(m, e, unindexed);
    } else {
      var before := ListMined(cfg, chain, last, unindexed, n - 1);
      ListMinedCovers(cfg, chain, last, unindexed, n - 1, k);
      var e :| e in before && e.confirmations >= chain.tip - m.height + 1 && Describes(m, e, unindexed);
      assert e in es;
    }
  }

  // ---------------------------------------------------------------- invariants

  ghost predicate HeightsValid(s: State)
  {
    && s.chain.tip >= 0
    && (forall k :: 0 <= k < |s.chain.mined| ==> 1 <= s.chain.mined[k].height <= s.chain.tip)
  }

  /** The last block a list would name now. */
  ghost function Reachable(cfg: Config, s: State): int
  {
    LastBlock(s.chain.tip, cfg.listsinceblockBuffer)
  }

  ghost predicate CheckpointSafe(cfg: Config, s: State)
  {
    && (s.db.lastBlock.Some? ==> s.db.lastBlock.value <= Reachable(cfg, s) && s.db.lastBlock.value <= s.chain.tip)
    && forall k :: 0 <= k < |s.chain.mined| ==>
         var m := s.chain.mined[k];
         Relevant(cfg, m) && s.db.lastBlock.Some? && m.height <= s.db.lastBlock.value ==> TxIsAccepted(s.db, m.output.outpoint)
  }

  /** The list of a scan holds every output between the block it started from and the block it will store. */
  ghost predicate ScanValid(cfg: Config, s: State, scan: Scan)
  {
    match scan
    case Begun(last) =>
      && cfg.requiredConfirmations <= cfg.listsinceblockBuffer && 1 <= cfg.listsinceblockBuffer
      && (last.Some? ==> last.value <= Reachable(cfg, s))
    case Listed(last, newLast, entries, dropped) =>
      && newLast <= s.chain.tip && newLast <= Reachable(cfg, s) && (last.Some? ==> last.value <= newLast)
      && forall k :: 0 <= k < |s.chain.mined| ==>
           var m := s.chain.mined[k];
           Relevant(cfg, m) && After(last, m.height) && m.height <= newLast ==>
             Covers(m, entries, cfg.requiredConfirmations, dropped)
    case Over => true
  }

  ghost predicate Inv(cfg: Config, s: State)
  {
    && HeightsValid(s) && CheckpointSafe(cfg, s)
    && forall i :: 0 <= i < |s.scans| ==> ScanValid(cfg, s, s.scans[i])
  }

  /** More of the chain, more accepted, the same scans: everything is kept. */
  lemma GrowthKeeps(cfg: Config, s: State, t: State)
    requires Inv(cfg, s)
    requires Grows(s.db, t.db) && t.db.lastBlock == s.db.lastBlock && t.chain == s.chain
    requires forall i :: 0 <= i < |t.scans| ==> t.scans[i] in s.scans || t.scans[i] == Over
    ensures Inv(cfg, t)
  {
    forall i | 0 <= i < |t.scans|
      ensures ScanValid(cfg, t, t.scans[i])
    {
      assert t.scans[i] != Over ==> ScanValid(cfg, s, t.scans[i]);
    }
  }

  lemma {:induction false} MineAllMeets(height: int, outputs: seq<Output>)
    ensures forall k :: 0 <= k < |outputs| ==> MineAll(height, outputs)[k] == Mined(height, outputs[k])
  {
    if outputs != [] {
      MineAllMeets(height, outputs[..|outputs| - 1]);
    }
  }

  lemma MineKeeps(cfg: Config, s: State, outputs: seq<Output>)
    requires Inv(cfg, s)
    ensures Inv(cfg, Apply(cfg, s, Mine(outputs)))
  {
    var t := Apply(cfg, s, Mine(outputs));
    MineAllMeets(s.chain.tip + 1, outputs);
    assert forall k :: 0 <= k < |s.chain.mined| ==> t.chain.mined[k] == s.chain.mined[k];
    forall i | 0 <= i < |t.scans|
      ensures ScanValid(cfg, t, t.scans[i])
    {
      assert ScanValid(cfg, s, s.scans[i]);
    }
  }

  lemma FewerConfirmations(m: Mined, es: seq<Entry>, confirmations: int, fewer: int, dropped: set<Outpoint>)
    requires Covers(m, es, confirmations, dropped) && fewer <= confirmations
    ensures Covers(m, es, fewer, dropped)
  {
    var e :| e in es && e.confirmations >= confirmations && Describes(m, e, dropped);
  }

  lemma CoversMore(m: Mined, es: seq<Entry>, rest: seq<Entry>, confirmations: int, dropped: set<Outpoint>)
    requires Covers(m, es, confirmations, dropped)
    ensures Covers(m, es + rest, confirmations, dropped)
  {
    var e :| e in es && e.confirmations >= confirmations && Describes(m, e, dropped);
    assert e in es + rest;
  }

  lemma ListedIsValid(cfg: Config, s: State, i: nat, pool: seq<Unconfirmed>, unindexed: set<Outpoint>)
    requires Inv(cfg, s) && i < |s.scans| && s.scans[i].Begun?
    ensures var t := ListScan(cfg, s, i, pool, unindexed); ScanValid(cfg, t, t.scans[i])
  {
    var t := ListScan(cfg, s, i, pool, unindexed);
    var last, n := s.scans[i].lastRead, |s.chain.mined|;
    assert ScanValid(cfg, s, s.scans[i]);
    forall k | 0 <= k < n && Relevant(cfg, s.chain.mined[k]) && After(last, s.chain.mined[k].height)
                 && s.chain.mined[k].height <= t.scans[i].newLast
      ensures Covers(s.chain.mined[k], t.scans[i].entries, cfg.requiredConfirmations, unindexed)
    {
      var m := s.chain.mined[k];
      ListMinedCovers(cfg, s.chain, last, unindexed, n, k);
      CoversMore(m, ListMined(cfg, s.chain, last, unindexed, n), ListUnconfirmed(cfg, pool), s.chain.tip - m.height + 1, unindexed);
      FewerConfirmations(m, t.scans[i].entries, s.chain.tip - m.height + 1, cfg.requiredConfirmations, unindexed);
    }
  }

  lemma ListKeeps(cfg: Config, s: State, i: nat, pool: seq<Unconfirmed>, unindexed: set<Outpoint>)
    requires Inv(cfg, s) && i < |s.scans| && s.scans[i].Begun?
    ensures Inv(cfg, ListScan(cfg, s, i, pool, unindexed))
  {
    var t := ListScan(cfg, s, i, pool, unindexed);
    ListedIsValid(cfg, s, i, pool, unindexed);
    forall j | 0 <= j < |t.scans| && j != i
      ensures ScanValid(cfg, t, t.scans[j])
    {
      assert ScanValid(cfg, s, s.scans[j]);
    }
  }

  /** Once the entries are stored, an output that they cover is accepted, and so are its deposits if its address is a
      deposit address and ord showed it. */
  lemma CoveredIsStored(cfg: Config, fee: Percentage, db: Db, es: seq<Entry>, m: Mined, dropped: set<Outpoint>)
    requires Covers(m, es, cfg.requiredConfirmations, dropped)
    ensures var r := StoreEntries(cfg, fee, db, es);
            && TxIsAccepted(r, m.output.outpoint)
            && (m.output.address.Some? && m.output.address.value in db.users && m.output.outpoint !in dropped ==>
                  DepositsAreAccepted(r, m.output))
  {
    StoreEntriesGrows(cfg, fee, db, es);
    var e :| e in es && e.confirmations >= cfg.requiredConfirmations && Describes(m, e, dropped);
    assert EntryIsStored(StoreEntries(cfg, fee, db, es), e);
  }

  lemma CommitKeeps(cfg: Config, s: State, i: nat, fee: Percentage)
    requires Inv(cfg, s) && i < |s.scans| && s.scans[i].Listed? && s.db.lastBlock == s.scans[i].lastRead
    ensures Inv(cfg, CommitScan(cfg, s, i, fee))
  {
    var t, scan := CommitScan(cfg, s, i, fee), s.scans[i];
    assert ScanValid(cfg, s, scan);
    StoreEntriesGrows(cfg, fee, s.db, scan.entries);
    forall k | 0 <= k < |s.chain.mined| && Relevant(cfg, s.chain.mined[k]) && s.chain.mined[k].height <= scan.newLast
      ensures TxIsAccepted(t.db, s.chain.mined[k].output.outpoint)
    {
      if After(scan.lastRead, s.chain.mined[k].height) {
        CoveredIsStored(cfg, fee, s.db, scan.entries, s.chain.mined[k], scan.dropped);
      }
    }
    forall j | 0 <= j < |t.scans|
      ensures ScanValid(cfg, t, t.scans[j])
    {
      assert ScanValid(cfg, s, s.scans[j]);
    }
  }

  /** The sending side moves statuses on, never back to DETECTED. */
  lemma StatusGrows(cfg: Config, s: State, a: Action)
    requires a.Record? || a.Confirm?
    ensures var t := Apply(cfg, s, a);
            && Grows(s.db, t.db) && t.db.lastBlock == s.db.lastBlock && t.chain == s.chain && t.scans == s.scans
  {
  }

  lemma SendingGrows(cfg: Config, s: State, a: Action)
    requires a.Update? || a.BeginSend? || a.Abandon? || a.Submit? || a.NotifyRaises? || a.Record? || a.Confirm? || a.Crash?
    ensures var t := Apply(cfg, s, a);
            && Grows(s.db, t.db) && t.db.lastBlock == s.db.lastBlock && t.chain == s.chain
            && (t.scans == s.scans || t.scans == [])
  {
    if a.Update? && HasStatus(s.db, a.key, Accepted) {
      CollectKeepsStatus(s.db.deposits[a.key].(messageHash := Some(a.hash)), Prune(cfg, a.currentFederators, a.hash, a.answers));
    } else if a.Record? || a.Confirm? {
      StatusGrows(cfg, s, a);
    }
  }

  lemma StepKeeps(cfg: Config, s: State, a: Action)
    requires Inv(cfg, s)
    ensures Inv(cfg, Apply(cfg, s, a))
  {
    var t := Apply(cfg, s, a);
    match a
    case Mine(outputs) => MineKeeps(cfg, s, outputs);
    case Register(_, _) => GrowthKeeps(cfg, s, t);
    case BeginScan => BeginKeeps(cfg, s);
    case List(i, pool, unindexed) =>
      if i < |s.scans| && s.scans[i].Begun? {
        ListKeeps(cfg, s, i, pool, unindexed);
      }
    case Commit(i, fee) =>
      if i < |s.scans| && s.scans[i].Listed? {
        if s.db.lastBlock == s.scans[i].lastRead {
          CommitKeeps(cfg, s, i, fee);
        } else {
          GrowthKeeps(cfg, s, t);
        }
      }
    case _ =>
      SendingGrows(cfg, s, a);
      GrowthKeeps(cfg, s, t);
  }

  lemma BeginKeeps(cfg: Config, s: State)
    requires Inv(cfg, s)
    ensures Inv(cfg, Apply(cfg, s, BeginScan))
  {
    var t := Apply(cfg, s, BeginScan);
    forall i | 0 <= i < |t.scans|
      ensures ScanValid(cfg, t, t.scans[i])
    {
      assert i < |s.scans| ==> ScanValid(cfg, s, s.scans[i]);
    }
  }

  lemma {:induction false} RunKeeps(cfg: Config, actions: seq<Action>)
    ensures Inv(cfg, Run(cfg, actions))
  {
    if actions != [] {
      RunKeeps(cfg, actions[..|actions| - 1]);
      StepKeeps(cfg, Run(cfg, actions[..|actions| - 1]), actions[|actions| - 1]);
    }
  }

  /** Action `i` moved the stored last block past the output. */
  ghost predicate PassedAt(cfg: Config, actions: seq<Action>, m: Mined, i: int)
  {
    && 0 <= i < |actions| && actions[i].Commit?
    && var s, t := Run(cfg, actions[..i]), Run(cfg, actions[..i + 1]);
       && m in s.chain.mined && After(s.db.lastBlock, m.height)
       && t.db.lastBlock.Some? && m.height <= t.db.lastBlock.value
  }

  /** Action `i` passed the output although its address was not a deposit address by then, or ord had dropped it and a
      deposit was missing. */
  ghost predicate MissedAt(cfg: Config, actions: seq<Action>, m: Mined, i: int)
  {
    && PassedAt(cfg, actions, m, i)
    && var s, t := Run(cfg, actions[..i]), Run(cfg, actions[..i + 1]);
       && !DepositsAreAccepted(t.db, m.output)
       && (m.output.address.Some? && m.output.address.value in s.db.users ==>
             && actions[i].scan < |s.scans| && s.scans[actions[i].scan].Listed?
             && m.output.outpoint in s.scans[actions[i].scan].dropped)
  }

  ghost predicate WasMissed(cfg: Config, actions: seq<Action>, m: Mined)
  {
    exists i :: MissedAt(cfg, actions, m, i)
  }

  lemma StillMissed(cfg: Config, actions: seq<Action>, last: Action, m: Mined)
    requires WasMissed(cfg, actions, m)
    ensures WasMissed(cfg, actions + [last], m)
  {
    var i :| MissedAt(cfg, actions, m, i);
    assert (actions + [last])[..i] == actions[..i] && (actions + [last])[..i + 1] == actions[..i + 1];
    assert MissedAt(cfg, actions + [last], m, i);
  }

  /** The step that passes an output accepts its deposits, or misses it. */
  lemma PassingAcceptsOrMisses(cfg: Config, actions: seq<Action>, last: Action, m: Mined)
    requires var s, t := Run(cfg, actions), Run(cfg, actions + [last]);
             && m in s.chain.mined && Relevant(cfg, m) && After(s.db.lastBlock, m.height)
             && t.db.lastBlock.Some? && m.height <= t.db.lastBlock.value
    ensures DepositsAreAccepted(Run(cfg, actions + [last]).db, m.output) || WasMissed(cfg, actions + [last], m)
  {
    assert (actions + [last])[..|actions|] == actions && (actions + [last])[..|actions| + 1] == actions + [last];
    var s := Run(cfg, actions);
    RunKeeps(cfg, actions);
    var k :| 0 <= k < |s.chain.mined| && s.chain.mined[k] == m;
    assert last.Commit? && last.scan < |s.scans| && s.scans[last.scan].Listed?;
    var scan := s.scans[last.scan];
    assert ScanValid(cfg, s, scan) && scan.lastRead == s.db.lastBlock;
    CoveredIsStored(cfg, last.fee, s.db, scan.entries, m, scan.dropped);
    if !DepositsAreAccepted(Run(cfg, actions + [last]).db, m.output) {
      assert MissedAt(cfg, actions + [last], m, |actions|);
    }
  }

  /** Over every run: an output to any address but the change address, at or below the stored last block, has been
      accepted; and each of its runes has a deposit at ACCEPTED or later, unless the scan that moved the last block past
      it did so before its address was a deposit address, or after ord had dropped it. */
  lemma {:induction false} NoDepositIsLost(cfg: Config, actions: seq<Action>, k: nat)
    requires k < |Run(cfg, actions).chain.mined|
    requires var s := Run(cfg, actions); var m := s.chain.mined[k];
             Relevant(cfg, m) && s.db.lastBlock.Some? && m.height <= s.db.lastBlock.value
    ensures var s := Run(cfg, actions); var m := s.chain.mined[k];
            && TxIsAccepted(s.db, m.output.outpoint)
            && (DepositsAreAccepted(s.db, m.output) || WasMissed(cfg, actions, m))
  {
    RunKeeps(cfg, actions);
    var front, last := actions[..|actions| - 1], actions[|actions| - 1];
    assert actions == front + [last];
    var s, m := Run(cfg, front), Run(cfg, actions).chain.mined[k];
    LastStepGrows(cfg, front, last, k);
    if After(s.db.lastBlock, m.height) {
      PassingAcceptsOrMisses(cfg, front, last, m);
    } else {
      NoDepositIsLost(cfg, front, k);
      if WasMissed(cfg, front, m) {
        StillMissed(cfg, front, last, m);
      }
    }
  }

  /** What a step does to an output at or below the last block: it was on the chain before, and nothing accepted is lost. */
  lemma LastStepGrows(cfg: Config, actions: seq<Action>, last: Action, k: nat)
    requires k < |Run(cfg, actions + [last]).chain.mined|
    requires var t := Run(cfg, actions + [last]); t.db.lastBlock.Some? && t.chain.mined[k].height <= t.db.lastBlock.value
    ensures var s, t := Run(cfg, actions), Run(cfg, actions + [last]);
            k < |s.chain.mined| && s.chain.mined[k] == t.chain.mined[k] && Grows(s.db, t.db)
  {
    assert (actions + [last])[..|actions|] == actions;
    RunKeeps(cfg, actions);
    var s := Run(cfg, actions);
    match last
    case Mine(outputs) => MineAllMeets(s.chain.tip + 1, outputs);
    case Commit(i, fee) =>
      if i < |s.scans| && s.scans[i].Listed? {
        StoreEntriesGrows(cfg, fee, s.db, s.scans[i].entries);
      }
    case Register(_, _) =>
    case BeginScan =>
    case List(_, _, _) =>
    case _ => SendingGrows(cfg, s, last);
  }

  /** The stored last block never moves back. */
  lemma LastBlockNeverDecreases(cfg: Config, actions: seq<Action>, a: Action)
    requires Run(cfg, actions).db.lastBlock.Some?
    ensures var before, now := Run(cfg, actions).db.lastBlock, Run(cfg, actions + [a]).db.lastBlock;
            now.Some? && before.value <= now.value
  {
    assert (actions + [a])[..|actions|] == actions;
    RunKeeps(cfg, actions);
    var s := Run(cfg, actions);
    if a.Commit? && a.scan < |s.scans| && s.scans[a.scan].Listed? {
      assert ScanValid(cfg, s, s.scans[a.scan]);
    }
  }
}
