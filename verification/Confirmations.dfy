/** Over every run of the deposit machine, what is accepted and what is submitted is deep enough in the Bitcoin chain. */
module Confirmations {
  import opened Wrappers
  import opened Transactions
  import opened RuneDeposits
  import ScannedOutputs
  import Decimals

  function Depth(chain: Chain, m: Mined): int
  {
    chain.tip - m.height + 1
  }

  ghost predicate AtDepth(chain: Chain, o: Outpoint, k: int, depth: int)
  {
    0 <= k < |chain.mined| && chain.mined[k].output.outpoint == o && Depth(chain, chain.mined[k]) >= depth
  }

  /** The output is on the chain with at least that many confirmations. */
  ghost predicate Confirmed(chain: Chain, o: Outpoint, confirmations: int)
  {
    exists k :: AtDepth(chain, o, k, confirmations)
  }

  ghost predicate EntryConfirmed(chain: Chain, e: Entry)
  {
    e.balances.Some? || e.confirmations >= 1 ==> Confirmed(chain, e.outpoint, e.confirmations)
  }

  ghost predicate EntriesConfirmed(chain: Chain, es: seq<Entry>)
  {
    forall e :: e in es ==> EntryConfirmed(chain, e)
  }

  /** Every deposit at ACCEPTED or later has its confirmations. */
  ghost predicate DepositsConfirmed(cfg: Config, chain: Chain, db: Db)
  {
    forall key :: key in db.deposits && db.deposits[key].status != Detected ==>
      Confirmed(chain, key.outpoint, cfg.requiredConfirmations)
  }

  /** Every accepted transaction has its confirmations. */
  ghost predicate TxsConfirmed(cfg: Config, chain: Chain, db: Db)
  {
    forall o :: TxIsAccepted(db, o) ==> Confirmed(chain, o, cfg.requiredConfirmations)
  }

  /** Confirmations are required, or nothing is ever scanned. */
  predicate Guarded(cfg: Config)
  {
    cfg.requiredConfirmations >= 1 || cfg.listsinceblockBuffer < 1
  }

  ghost predicate Inv(cfg: Config, s: State)
  {
    && DepositsConfirmed(cfg, s.chain, s.db)
    && (Guarded(cfg) ==> TxsConfirmed(cfg, s.chain, s.db))
    && (cfg.listsinceblockBuffer < 1 ==> s.scans == [])
    && (forall i :: 0 <= i < |s.scans| && s.scans[i].Listed? ==> EntriesConfirmed(s.chain, s.scans[i].entries))
    && (forall i :: 0 <= i < |s.sends| ==> Confirmed(s.chain, s.sends[i].call.key.outpoint, cfg.requiredConfirmations))
    && (forall k :: 0 <= k < |s.submissions| ==> Confirmed(s.chain, s.submissions[k].key.outpoint, cfg.requiredConfirmations))
  }

  lemma FewerConfirmed(chain: Chain, o: Outpoint, confirmations: int, fewer: int)
    requires Confirmed(chain, o, confirmations) && fewer <= confirmations
    ensures Confirmed(chain, o, fewer)
  {
    var k :| AtDepth(chain, o, k, confirmations);
    assert AtDepth(chain, o, k, fewer);
  }

  lemma StillConfirmed(chain: Chain, longer: Chain, o: Outpoint, confirmations: int)
    requires chain.mined <= longer.mined && chain.tip <= longer.tip && Confirmed(chain, o, confirmations)
    ensures Confirmed(longer, o, confirmations)
  {
    var k :| AtDepth(chain, o, k, confirmations);
    assert longer.mined[k] == chain.mined[k];
    assert AtDepth(longer, o, k, confirmations);
  }

  // ---------------------------------------------------------------- every step keeps it

  lemma {:induction false} StoreRunesConfirmed(cfg: Config, fee: Percentage, chain: Chain, db: Db, e: Entry, user: EvmAddress, bs: seq<RuneBalance>)
    requires DepositsConfirmed(cfg, chain, db) && Confirmed(chain, e.outpoint, e.confirmations)
    ensures DepositsConfirmed(cfg, chain, StoreRunes(cfg, fee, db, e, user, bs))
  {
    if bs != [] {
      StoreRunesConfirmed(cfg, fee, chain, db, e, user, bs[..|bs| - 1]);
      if e.confirmations >= cfg.requiredConfirmations {
        FewerConfirmed(chain, e.outpoint, e.confirmations, cfg.requiredConfirmations);
      }
    }
  }

  lemma {:induction false} StoreEntriesConfirmed(cfg: Config, fee: Percentage, chain: Chain, db: Db, es: seq<Entry>)
    requires DepositsConfirmed(cfg, chain, db) && EntriesConfirmed(chain, es)
    ensures DepositsConfirmed(cfg, chain, StoreEntries(cfg, fee, db, es))
  {
    if es != [] {
      var front, e := es[..|es| - 1], es[|es| - 1];
      assert es == front + [e];
      StoreEntriesConfirmed(cfg, fee, chain, db, front);
      var before := StoreEntries(cfg, fee, db, front);
      assert e in es && EntryConfirmed(chain, e);
      if e.address in before.users && e.balances.Some? {
        StoreRunesConfirmed(cfg, fee, chain, StoreTx(cfg, before, e), e, before.users[e.address], e.balances.value);
      }
    }
  }

  lemma StoreEntriesConfirmsTxs(cfg: Config, fee: Percentage, chain: Chain, db: Db, es: seq<Entry>)
    requires cfg.requiredConfirmations >= 1 && TxsConfirmed(cfg, chain, db) && EntriesConfirmed(chain, es)
    ensures TxsConfirmed(cfg, chain, StoreEntries(cfg, fee, db, es))
  {
    forall o | TxIsAccepted(StoreEntries(cfg, fee, db, es), o)
      ensures Confirmed(chain, o, cfg.requiredConfirmations)
    {
      ScannedOutputs.StoreEntriesTxs(cfg, fee, db, es, o);
      if !TxIsAccepted(db, o) {
        var e :| e in es && e.outpoint == o && e.confirmations >= cfg.requiredConfirmations;
        assert EntryConfirmed(chain, e);
        FewerConfirmed(chain, o, e.confirmations, cfg.requiredConfirmations);
      }
    }
  }

  lemma {:induction false} ListMinedConfirmed(cfg: Config, chain: Chain, last: Option<int>, unindexed: set<Outpoint>, n: nat)
    requires n <= |chain.mined|
    ensures EntriesConfirmed(chain, ListMined(cfg, chain, last, unindexed, n))
  {
    if n > 0 {
      ListMinedConfirmed(cfg, chain, last, unindexed, n - 1);
      var m := chain.mined[n - 1];
      assert AtDepth(chain, m.output.outpoint, n - 1, chain.tip - m.height + 1);
    }
  }

  lemma {:induction false} ListUnconfirmedConfirmed(cfg: Config, chain: Chain, pool: seq<Unconfirmed>)
    ensures EntriesConfirmed(chain, ListUnconfirmed(cfg, pool))
  {
    if pool != [] {
      ListUnconfirmedConfirmed(cfg, chain, pool[..|pool| - 1]);
    }
  }

  lemma MineKeeps(cfg: Config, s: State, outputs: seq<Output>)
    requires Inv(cfg, s)
    ensures Inv(cfg, Apply(cfg, s, Mine(outputs)))
  {
    var t := Apply(cfg, s, Mine(outputs));
    assert s.chain.mined <= t.chain.mined;
    forall o, n | Confirmed(s.chain, o, n)
      ensures Confirmed(t.chain, o, n)
    {
      StillConfirmed(s.chain, t.chain, o, n);
    }
    forall i | 0 <= i < |s.scans| && s.scans[i].Listed?
      ensures EntriesConfirmed(t.chain, s.scans[i].entries)
    {
      forall e | e in s.scans[i].entries
        ensures EntryConfirmed(t.chain, e)
      {
        assert EntryConfirmed(s.chain, e);
      }
    }
  }

  lemma ScanKeeps(cfg: Config, s: State, a: Action)
    requires Inv(cfg, s) && (a.BeginScan? || a.List? || a.Commit?)
    ensures Inv(cfg, Apply(cfg, s, a))
  {
    if a.List? && a.scan < |s.scans| && s.scans[a.scan].Begun? {
      ListMinedConfirmed(cfg, s.chain, s.scans[a.scan].lastRead, a.unindexed, |s.chain.mined|);
      ListUnconfirmedConfirmed(cfg, s.chain, a.pool);
    } else if a.Commit? && a.scan < |s.scans| && s.scans[a.scan].Listed? {
      StoreEntriesConfirmed(cfg, a.fee, s.chain, s.db, s.scans[a.scan].entries);
      if Guarded(cfg) {
        StoreEntriesConfirmsTxs(cfg, a.fee, s.chain, s.db, s.scans[a.scan].entries);
      }
    }
  }

  lemma RecordKeeps(cfg: Config, s: State, i: nat)
    requires Inv(cfg, s) && i < |s.sends| && s.sends[i].call.key in s.db.deposits
    ensures Inv(cfg, RecordSend(s, i))
  {
  }

  lemma UpdateKeeps(cfg: Config, s: State, a: Action)
    requires Inv(cfg, s) && (a.Update? || a.Confirm? || a.Record?)
    ensures Inv(cfg, Apply(cfg, s, a))
  {
    if a.Update? && HasStatus(s.db, a.key, Accepted) {
      CollectKeepsStatus(s.db.deposits[a.key].(messageHash := Some(a.hash)), Prune(cfg, a.currentFederators, a.hash, a.answers));
    } else if a.Record? && a.send < |s.sends| && s.sends[a.send].call.key in s.db.deposits {
      RecordKeeps(cfg, s, a.send);
    }
  }

  lemma SendKeeps(cfg: Config, s: State, a: Action)
    requires Inv(cfg, s) && (a.Register? || a.BeginSend? || a.Abandon? || a.Submit? || a.NotifyRaises? || a.Crash?)
    ensures Inv(cfg, Apply(cfg, s, a))
  {
  }

  lemma {:induction false} RunConfirms(cfg: Config, actions: seq<Action>)
    ensures Inv(cfg, Run(cfg, actions))
  {
    if actions != [] {
      var before, a := actions[..|actions| - 1], actions[|actions| - 1];
      RunConfirms(cfg, before);
      if a.Mine? {
        MineKeeps(cfg, Run(cfg, before), a.outputs);
      } else if a.BeginScan? || a.List? || a.Commit? {
        ScanKeeps(cfg, Run(cfg, before), a);
      } else if a.Update? || a.Confirm? || a.Record? {
        UpdateKeeps(cfg, Run(cfg, before), a);
      } else {
        SendKeeps(cfg, Run(cfg, before), a);
      }
    }
  }

  /** Over every run, every call is about an output on the chain with at least the required confirmations. */
  lemma SubmittedIsConfirmed(cfg: Config, actions: seq<Action>, i: nat)
    requires i < |Run(cfg, actions).submissions|
    ensures var s := Run(cfg, actions);
            Confirmed(s.chain, s.submissions[i].key.outpoint, cfg.requiredConfirmations)
  {
    RunConfirms(cfg, actions);
  }

  /** Over every run, a transaction is ACCEPTED only with the required confirmations, if any are required. */
  lemma AcceptedIsConfirmed(cfg: Config, actions: seq<Action>, o: Outpoint)
    requires cfg.requiredConfirmations >= 1 && TxIsAccepted(Run(cfg, actions).db, o)
    ensures Confirmed(Run(cfg, actions).chain, o, cfg.requiredConfirmations)
  {
    RunConfirms(cfg, actions);
  }

  /** The list of a scan of an empty chain with one output in the mempool. */
  lemma ListedAlone(cfg: Config, e: Entry)
    requires e.address != cfg.changeAddress && e.confirmations == 0 && e.balances == None
    ensures ListUnconfirmed(cfg, [Unconfirmed(e.outpoint, e.address, 0)]) == [e]
  {
    var pool := [Unconfirmed(e.outpoint, e.address, 0)];
    assert pool[..0] == [];
    assert ListUnconfirmed(cfg, pool) == ListUnconfirmed(cfg, pool[..0]) + [Entry(e.outpoint, e.address, 0, None)];
  }

  lemma StoredAlone(cfg: Config, fee: Percentage, db: Db, e: Entry)
    requires e.confirmations >= cfg.requiredConfirmations
    ensures TxIsAccepted(StoreEntries(cfg, fee, db, [e]), e.outpoint)
  {
    assert e in [e];
    ScannedOutputs.StoreEntriesTxs(cfg, fee, db, [e], e.outpoint);
  }

  lemma CommittedAlone(cfg: Config, fee: Percentage, s: State, newLast: int, e: Entry)
    requires s.scans == [Listed(None, newLast, [e], {})] && s.db.lastBlock == None && e.confirmations >= cfg.requiredConfirmations
    ensures var t := Apply(cfg, s, Commit(0, fee)); TxIsAccepted(t.db, e.outpoint) && t.chain == s.chain
  {
    StoredAlone(cfg, fee, s.db, e);
  }

  lemma ScannedAlone(cfg: Config, e: Entry)
    requires 1 <= cfg.listsinceblockBuffer && cfg.requiredConfirmations <= cfg.listsinceblockBuffer
    requires e.address != cfg.changeAddress && e.confirmations == 0 && e.balances == None
    ensures Apply(cfg, Apply(cfg, EMPTY, BeginScan), List(0, [Unconfirmed(e.outpoint, e.address, 0)], {}))
         == EMPTY.(scans := [Listed(None, LastBlock(0, cfg.listsinceblockBuffer), [e], {})])
  {
    ListedAlone(cfg, e);
  }

  /** Where none are required, a scan accepts what is in the mempool only. */
  lemma UnconfirmedIsAccepted(cfg: Config, o: Outpoint, address: string, fee: Percentage)
    requires !Guarded(cfg) && address != cfg.changeAddress
    ensures var s := Run(cfg, [BeginScan, List(0, [Unconfirmed(o, address, 0)], {}), Commit(0, fee)]);
            TxIsAccepted(s.db, o) && s.chain.mined == []
  {
    var list, e := List(0, [Unconfirmed(o, address, 0)], {}), Entry(o, address, 0, None);
    RunSnoc(cfg, [], BeginScan);
    RunSnoc(cfg, [BeginScan], list);
    RunSnoc(cfg, [BeginScan, list], Commit(0, fee));
    assert [] + [BeginScan] == [BeginScan] && [BeginScan] + [list] == [BeginScan, list];
    assert [BeginScan, list] + [Commit(0, fee)] == [BeginScan, list, Commit(0, fee)];
    ScannedAlone(cfg, e);
    CommittedAlone(cfg, fee, Run(cfg, [BeginScan, list]), LastBlock(0, cfg.listsinceblockBuffer), e);
  }

  /** So no run accepts a transaction too early exactly if confirmations are required, or nothing is ever scanned. */
  lemma AcceptedConfirmedIff(cfg: Config)
    ensures (forall actions, o :: TxIsAccepted(Run(cfg, actions).db, o) ==>
                Confirmed(Run(cfg, actions).chain, o, cfg.requiredConfirmations))
       <==> cfg.requiredConfirmations >= 1 || cfg.listsinceblockBuffer < 1
  {
    if Guarded(cfg) {
      forall actions, o | TxIsAccepted(Run(cfg, actions).db, o)
        ensures Confirmed(Run(cfg, actions).chain, o, cfg.requiredConfirmations)
      {
        RunConfirms(cfg, actions);
      }
    } else {
      var o, address, fee := Outpoint("", 0), cfg.changeAddress + "2", Decimals.Decimal(0, 0);
      UnconfirmedIsAccepted(cfg, o, address, fee);
      var actions := [BeginScan, List(0, [Unconfirmed(o, address, 0)], {}), Commit(0, fee)];
      assert TxIsAccepted(Run(cfg, actions).db, o);
    }
  }
}
