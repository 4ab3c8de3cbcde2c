/** What one scan finds and stores: exactly which transactions and deposits are there afterwards, which of them are accepted,
    and what their rows hold. */
module ScannedOutputs {
  import opened Wrappers
  import opened Transactions
  import opened RuneAllocation
  import opened RuneDeposits

  // ---------------------------------------------------------------- what a list holds

  /** The output is in a block after `last`, and not at the change address. */
  ghost predicate InLaterBlock(cfg: Config, last: Option<int>, m: Mined)
  {
    && (last.Some? ==> m.height > last.value)
    && m.output.address.Some? && m.output.address.value != cfg.changeAddress
  }

  /** The entry says where the output is, how deep it is, and what it holds unless ord had dropped it. */
  ghost predicate IsMinedEntry(cfg: Config, chain: Chain, last: Option<int>, dropped: set<Outpoint>, m: Mined, e: Entry)
  {
    && InLaterBlock(cfg, last, m)
    && e.outpoint == m.output.outpoint && Some(e.address) == m.output.address
    && e.confirmations == chain.tip - m.height + 1
    && (if e.outpoint in dropped then e.balances == None else e.balances == Some(m.output.runes))
  }

  lemma {:induction false} ListMinedIs(cfg: Config, chain: Chain, last: Option<int>, dropped: set<Outpoint>, n: nat, e: Entry)
    requires n <= |chain.mined|
    ensures e in ListMined(cfg, chain, last, dropped, n)
       <==> exists k :: 0 <= k < n && IsMinedEntry(cfg, chain, last, dropped, chain.mined[k], e)
  {
    if n > 0 {
      ListMinedIs(cfg, chain, last, dropped, n - 1, e);
      var before, all := ListMined(cfg, chain, last, dropped, n - 1), ListMined(cfg, chain, last, dropped, n);
      assert e in all <==> e in before || IsMinedEntry(cfg, chain, last, dropped, chain.mined[n - 1], e);
    }
  }

  /** Nothing is known about what an unconfirmed output holds. */
  ghost predicate IsPoolEntry(cfg: Config, u: Unconfirmed, e: Entry)
  {
    u.address != cfg.changeAddress && e.outpoint == u.outpoint && e.address == u.address
    && e.confirmations == 0 - u.depth && e.balances == None
  }

  lemma {:induction false} ListUnconfirmedIs(cfg: Config, pool: seq<Unconfirmed>, e: Entry)
    ensures e in ListUnconfirmed(cfg, pool) <==> exists k :: 0 <= k < |pool| && IsPoolEntry(cfg, pool[k], e)
  {
    if pool != [] {
      var front, u := pool[..|pool| - 1], pool[|pool| - 1];
      ListUnconfirmedIs(cfg, front, e);
      assert e in ListUnconfirmed(cfg, pool) <==> e in ListUnconfirmed(cfg, front) || IsPoolEntry(cfg, u, e);
      assert forall k :: 0 <= k < |front| ==> pool[k] == front[k];
    }
  }

  // ---------------------------------------------------------------- transactions

  lemma {:induction false} StoreRunesKeepsTxs(cfg: Config, fee: Percentage, db: Db, e: Entry, user: EvmAddress, bs: seq<RuneBalance>)
    ensures var r := StoreRunes(cfg, fee, db, e, user, bs); r.btcTxs == db.btcTxs && r.users == db.users
  {
    if bs != [] {
      StoreRunesKeepsTxs(cfg, fee, db, e, user, bs[..|bs| - 1]);
    }
  }

  /** The row of an entry: accepted if it was, or has the confirmations; its user is that of the address, or stays. */
  ghost predicate IsRow(cfg: Config, db: Db, e: Entry, row: BtcTx)
  {
    && row.address == e.address
    && (row.status == TxAccepted <==> TxIsAccepted(db, e.outpoint) || e.confirmations >= cfg.requiredConfirmations)
    && row.user == if e.address in db.users then Some(db.users[e.address])
                   else if e.outpoint in db.btcTxs then db.btcTxs[e.outpoint].user
                   else None
  }

  lemma StoreEntryTxs(cfg: Config, fee: Percentage, db: Db, e: Entry)
    ensures var r := StoreEntry(cfg, fee, db, e);
            && r.users == db.users && r.btcTxs.Keys == db.btcTxs.Keys + {e.outpoint}
            && (forall o :: o in db.btcTxs && o != e.outpoint ==> r.btcTxs[o] == db.btcTxs[o])
            && IsRow(cfg, db, e, r.btcTxs[e.outpoint])
  {
    if e.address in db.users && e.balances.Some? {
      StoreRunesKeepsTxs(cfg, fee, StoreTx(cfg, db, e), e, db.users[e.address], e.balances.value);
    }
  }

  ghost predicate Names(es: seq<Entry>, o: Outpoint)
  {
    exists e :: e in es && e.outpoint == o
  }

  /** An entry for the output has the confirmations. */
  ghost predicate Accepts(cfg: Config, es: seq<Entry>, o: Outpoint)
  {
    exists e :: e in es && e.outpoint == o && e.confirmations >= cfg.requiredConfirmations
  }

  lemma LastOf(cfg: Config, es: seq<Entry>, o: Outpoint)
    requires es != []
    ensures var front, e := es[..|es| - 1], es[|es| - 1];
            && (Names(es, o) <==> Names(front, o) || e.outpoint == o)
            && (Accepts(cfg, es, o) <==> Accepts(cfg, front, o) || (e.outpoint == o && e.confirmations >= cfg.requiredConfirmations))
  {
    var front, e := es[..|es| - 1], es[|es| - 1];
    assert es == front + [e];
    assert e in es;
  }

  /** Which transactions are there after storing entries, and which of them are accepted. */
  lemma {:induction false} StoreEntriesTxs(cfg: Config, fee: Percentage, db: Db, es: seq<Entry>, o: Outpoint)
    ensures var r := StoreEntries(cfg, fee, db, es);
            && r.users == db.users
            && (o in r.btcTxs <==> o in db.btcTxs || Names(es, o))
            && (TxIsAccepted(r, o) <==> TxIsAccepted(db, o) || Accepts(cfg, es, o))
            && (!Names(es, o) && o in db.btcTxs ==> r.btcTxs[o] == db.btcTxs[o])
  {
    if es != [] {
      var front, e := es[..|es| - 1], es[|es| - 1];
      StoreEntriesTxs(cfg, fee, db, front, o);
      StoreEntryTxs(cfg, fee, StoreEntries(cfg, fee, db, front), e);
      LastOf(cfg, es, o);
    }
  }

  /** The last entry for an output decides the address, and the user if it is a deposit address. */
  lemma {:induction false} LastEntryDecides(cfg: Config, fee: Percentage, db: Db, es: seq<Entry>, k: nat)
    requires k < |es| && forall j :: k < j < |es| ==> es[j].outpoint != es[k].outpoint
    ensures var r, e := StoreEntries(cfg, fee, db, es), es[k];
            && e.outpoint in r.btcTxs && r.btcTxs[e.outpoint].address == e.address
            && (e.address in db.users ==> r.btcTxs[e.outpoint].user == Some(db.users[e.address]))
  {
    var front, last := es[..|es| - 1], es[|es| - 1];
    StoreEntriesTxs(cfg, fee, db, front, es[k].outpoint);
    StoreEntryTxs(cfg, fee, StoreEntries(cfg, fee, db, front), last);
    if k < |front| {
      LastEntryDecides(cfg, fee, db, front, k);
    }
  }

  // ---------------------------------------------------------------- deposits

  ghost predicate Holds(bs: seq<RuneBalance>, rune: Rune)
  {
    exists b :: b in bs && b.rune == rune
  }

  /** The entry brings the rune of the key to a deposit address. */
  ghost predicate Brings(users: map<string, EvmAddress>, e: Entry, key: Key)
  {
    e.outpoint == key.outpoint && e.address in users && e.balances.Some? && Holds(e.balances.value, key.rune)
  }

  /** What a scan leaves as it is. */
  ghost predicate SameProgress(d: Deposit, r: Deposit)
  {
    r.messageHash == d.messageHash && r.signatures == d.signatures && r.signers == d.signers && r.evmTxHash == d.evmTxHash
    && (if d.status == Detected then r.status in {Detected, Accepted} else r.status == d.status)
  }

  /** A deposit that nobody has signed yet. */
  ghost predicate Fresh(r: Deposit)
  {
    r.messageHash == None && r.signatures == [] && r.signers == [] && r.evmTxHash == None && r.status in {Detected, Accepted}
  }

  ghost predicate Continues(db: Db, r: Db, key: Key)
  {
    && (key in db.deposits ==> key in r.deposits && SameProgress(db.deposits[key], r.deposits[key]))
    && (key !in db.deposits && key in r.deposits ==> Fresh(r.deposits[key]))
  }

  lemma ContinuesOn(db: Db, q: Db, r: Db, key: Key)
    requires Continues(db, q, key) && Continues(q, r, key)
    ensures Continues(db, r, key)
  {
  }

  lemma HoldsNext(bs: seq<RuneBalance>, rune: Rune)
    requires bs != []
    ensures Holds(bs, rune) <==> Holds(bs[..|bs| - 1], rune) || bs[|bs| - 1].rune == rune
  {
    assert bs == bs[..|bs| - 1] + [bs[|bs| - 1]];
    assert bs[|bs| - 1] in bs;
  }

  lemma {:induction false} StoreRunesDeposits(cfg: Config, fee: Percentage, db: Db, e: Entry, user: EvmAddress, bs: seq<RuneBalance>, key: Key)
    ensures var r := StoreRunes(cfg, fee, db, e, user, bs); var brings := e.outpoint == key.outpoint && Holds(bs, key.rune);
            && (key in r.deposits <==> key in db.deposits || brings)
            && (DepositIsAccepted(r, key) <==> DepositIsAccepted(db, key) || (brings && e.confirmations >= cfg.requiredConfirmations))
            && Continues(db, r, key) && (brings ==> r.deposits[key].user == user)
            && (!brings && key in db.deposits ==> r.deposits[key] == db.deposits[key])
  {
    if bs != [] {
      StoreRunesDeposits(cfg, fee, db, e, user, bs[..|bs| - 1], key);
      HoldsNext(bs, key.rune);
    }
  }

  lemma StoreEntryDeposits(cfg: Config, fee: Percentage, db: Db, e: Entry, key: Key)
    ensures var r := StoreEntry(cfg, fee, db, e); var brings := Brings(db.users, e, key);
            && (key in r.deposits <==> key in db.deposits || brings)
            && (DepositIsAccepted(r, key) <==> DepositIsAccepted(db, key) || (brings && e.confirmations >= cfg.requiredConfirmations))
            && Continues(db, r, key)
            && (!brings && key in db.deposits ==> r.deposits[key] == db.deposits[key])
  {
    if e.address in db.users && e.balances.Some? {
      StoreRunesDeposits(cfg, fee, StoreTx(cfg, db, e), e, db.users[e.address], e.balances.value, key);
    }
  }

  ghost predicate SomeBrings(users: map<string, EvmAddress>, es: seq<Entry>, key: Key)
  {
    exists e :: e in es && Brings(users, e, key)
  }

  ghost predicate SomeAccepts(cfg: Config, users: map<string, EvmAddress>, es: seq<Entry>, key: Key)
  {
    exists e :: e in es && Brings(users, e, key) && e.confirmations >= cfg.requiredConfirmations
  }

  lemma LastBrings(cfg: Config, users: map<string, EvmAddress>, es: seq<Entry>, key: Key)
    requires es != []
    ensures var front, e := es[..|es| - 1], es[|es| - 1];
            && (SomeBrings(users, es, key) <==> SomeBrings(users, front, key) || Brings(users, e, key))
            && (SomeAccepts(cfg, users, es, key) <==>
                  SomeAccepts(cfg, users, front, key) || (Brings(users, e, key) && e.confirmations >= cfg.requiredConfirmations))
  {
    var front, e := es[..|es| - 1], es[|es| - 1];
    assert es == front + [e];
    assert e in es;
  }

  /** Which deposits are there after storing entries, which of them are accepted, and that the others stay as they are. */
  lemma {:induction false} StoreEntriesDeposits(cfg: Config, fee: Percentage, db: Db, es: seq<Entry>, key: Key)
    ensures var r := StoreEntries(cfg, fee, db, es);
            && (key in r.deposits <==> key in db.deposits || SomeBrings(db.users, es, key))
            && (DepositIsAccepted(r, key) <==> DepositIsAccepted(db, key) || SomeAccepts(cfg, db.users, es, key))
            && Continues(db, r, key)
            && (!SomeBrings(db.users, es, key) && key in db.deposits ==> r.deposits[key] == db.deposits[key])
  {
    if es != [] {
      var front, e := es[..|es| - 1], es[|es| - 1];
      StoreEntriesDeposits(cfg, fee, db, front, key);
      StoreEntriesTxs(cfg, fee, db, front, e.outpoint);
      StoreEntryDeposits(cfg, fee, StoreEntries(cfg, fee, db, front), e, key);
      ContinuesOn(db, StoreEntries(cfg, fee, db, front), StoreEntries(cfg, fee, db, es), key);
      LastBrings(cfg, db.users, es, key);
    }
  }

  // ---------------------------------------------------------------- one scan

  ghost predicate NewlyMined(cfg: Config, s: State, o: Outpoint, confirmations: int)
  {
    exists k :: IsNewlyMined(cfg, s, o, confirmations, k)
  }

  /** Output `k` of the chain is after the stored last block, at no change address, and that deep. */
  ghost predicate IsNewlyMined(cfg: Config, s: State, o: Outpoint, confirmations: int, k: int)
  {
    && 0 <= k < |s.chain.mined| && s.chain.mined[k].output.outpoint == o && InLaterBlock(cfg, s.db.lastBlock, s.chain.mined[k])
    && s.chain.tip - s.chain.mined[k].height + 1 >= confirmations
  }

  ghost predicate InPool(cfg: Config, pool: seq<Unconfirmed>, o: Outpoint, confirmations: int)
  {
    exists k :: IsInPool(cfg, pool, o, confirmations, k)
  }

  ghost predicate IsInPool(cfg: Config, pool: seq<Unconfirmed>, o: Outpoint, confirmations: int, k: int)
  {
    0 <= k < |pool| && pool[k].outpoint == o && pool[k].address != cfg.changeAddress && 0 - pool[k].depth >= confirmations
  }

  /** A rune that a newly mined output, which ord still shows, brings to a deposit address. */
  ghost predicate IsNewRune(cfg: Config, s: State, dropped: set<Outpoint>, key: Key, confirmations: int, k: int)
  {
    && IsNewlyMined(cfg, s, key.outpoint, confirmations, k) && key.outpoint !in dropped
    && s.chain.mined[k].output.address.value in s.db.users && Holds(s.chain.mined[k].output.runes, key.rune)
  }

  ghost predicate NewRune(cfg: Config, s: State, dropped: set<Outpoint>, key: Key, confirmations: int)
  {
    exists k :: IsNewRune(cfg, s, dropped, key, confirmations, k)
  }

  function Entries(cfg: Config, s: State, pool: seq<Unconfirmed>, dropped: set<Outpoint>): seq<Entry>
  {
    ListMined(cfg, s.chain, s.db.lastBlock, dropped, |s.chain.mined|) + ListUnconfirmed(cfg, pool)
  }

  lemma EntryIs(cfg: Config, s: State, pool: seq<Unconfirmed>, dropped: set<Outpoint>, e: Entry)
    ensures e in Entries(cfg, s, pool, dropped)
       <==> || (exists k :: 0 <= k < |s.chain.mined| && IsMinedEntry(cfg, s.chain, s.db.lastBlock, dropped, s.chain.mined[k], e))
            || (exists k :: 0 <= k < |pool| && IsPoolEntry(cfg, pool[k], e))
  {
    ListMinedIs(cfg, s.chain, s.db.lastBlock, dropped, |s.chain.mined|, e);
    ListUnconfirmedIs(cfg, pool, e);
  }

  ghost predicate NamesWith(es: seq<Entry>, o: Outpoint, confirmations: int)
  {
    exists e :: e in es && e.outpoint == o && e.confirmations >= confirmations
  }

  lemma MinedIsNamed(cfg: Config, s: State, pool: seq<Unconfirmed>, dropped: set<Outpoint>, o: Outpoint, confirmations: int, k: int)
    requires IsNewlyMined(cfg, s, o, confirmations, k)
    ensures NamesWith(Entries(cfg, s, pool, dropped), o, confirmations)
  {
    var m := s.chain.mined[k];
    var e := Entry(o, m.output.address.value, s.chain.tip - m.height + 1, if o in dropped then None else Some(m.output.runes));
    assert IsMinedEntry(cfg, s.chain, s.db.lastBlock, dropped, s.chain.mined[k], e);
    EntryIs(cfg, s, pool, dropped, e);
  }

  lemma PoolIsNamed(cfg: Config, s: State, pool: seq<Unconfirmed>, dropped: set<Outpoint>, o: Outpoint, confirmations: int, k: int)
    requires IsInPool(cfg, pool, o, confirmations, k)
    ensures NamesWith(Entries(cfg, s, pool, dropped), o, confirmations)
  {
    var e := Entry(o, pool[k].address, 0 - pool[k].depth, None);
    assert IsPoolEntry(cfg, pool[k], e);
    EntryIs(cfg, s, pool, dropped, e);
  }

  /** What the list names, with at least so many confirmations. */
  lemma NamesIff(cfg: Config, s: State, pool: seq<Unconfirmed>, dropped: set<Outpoint>, o: Outpoint, confirmations: int)
    ensures NamesWith(Entries(cfg, s, pool, dropped), o, confirmations)
       <==> NewlyMined(cfg, s, o, confirmations) || InPool(cfg, pool, o, confirmations)
  {
    if NamesWith(Entries(cfg, s, pool, dropped), o, confirmations) {
      var e :| e in Entries(cfg, s, pool, dropped) && e.outpoint == o && e.confirmations >= confirmations;
      EntryIs(cfg, s, pool, dropped, e);
      if k :| 0 <= k < |s.chain.mined| && IsMinedEntry(cfg, s.chain, s.db.lastBlock, dropped, s.chain.mined[k], e) {
        assert IsNewlyMined(cfg, s, o, confirmations, k);
      } else {
        var k :| 0 <= k < |pool| && IsPoolEntry(cfg, pool[k], e);
        assert IsInPool(cfg, pool, o, confirmations, k);
      }
    }
    if k :| IsNewlyMined(cfg, s, o, confirmations, k) {
      MinedIsNamed(cfg, s, pool, dropped, o, confirmations, k);
    }
    if k :| IsInPool(cfg, pool, o, confirmations, k) {
      PoolIsNamed(cfg, s, pool, dropped, o, confirmations, k);
    }
  }

  ghost predicate BringsWith(users: map<string, EvmAddress>, es: seq<Entry>, key: Key, confirmations: int)
  {
    exists e :: e in es && Brings(users, e, key) && e.confirmations >= confirmations
  }

  lemma RuneIsBrought(cfg: Config, s: State, pool: seq<Unconfirmed>, dropped: set<Outpoint>, key: Key, confirmations: int, k: int)
    requires IsNewRune(cfg, s, dropped, key, confirmations, k)
    ensures BringsWith(s.db.users, Entries(cfg, s, pool, dropped), key, confirmations)
  {
    var m := s.chain.mined[k];
    var e := Entry(key.outpoint, m.output.address.value, s.chain.tip - m.height + 1, Some(m.output.runes));
    assert IsMinedEntry(cfg, s.chain, s.db.lastBlock, dropped, s.chain.mined[k], e);
    EntryIs(cfg, s, pool, dropped, e);
    assert Brings(s.db.users, e, key);
  }

  lemma BringsIff(cfg: Config, s: State, pool: seq<Unconfirmed>, dropped: set<Outpoint>, key: Key, confirmations: int)
    ensures BringsWith(s.db.users, Entries(cfg, s, pool, dropped), key, confirmations)
       <==> NewRune(cfg, s, dropped, key, confirmations)
  {
    if BringsWith(s.db.users, Entries(cfg, s, pool, dropped), key, confirmations) {
      var e :| e in Entries(cfg, s, pool, dropped) && Brings(s.db.users, e, key) && e.confirmations >= confirmations;
      EntryIs(cfg, s, pool, dropped, e);
      var k :| 0 <= k < |s.chain.mined| && IsMinedEntry(cfg, s.chain, s.db.lastBlock, dropped, s.chain.mined[k], e);
      assert IsNewRune(cfg, s, dropped, key, confirmations, k);
    }
    if k :| IsNewRune(cfg, s, dropped, key, confirmations, k) {
      RuneIsBrought(cfg, s, pool, dropped, key, confirmations, k);
    }
  }

  /** A scan that nothing comes between. */
  function Scanned(cfg: Config, s: State, pool: seq<Unconfirmed>, dropped: set<Outpoint>, fee: Percentage): State
  {
    var begun := Apply(cfg, s, BeginScan);
    Apply(cfg, Apply(cfg, begun, List(|s.scans|, pool, dropped)), Commit(|s.scans|, fee))
  }

  lemma ScannedIs(cfg: Config, s: State, pool: seq<Unconfirmed>, dropped: set<Outpoint>, fee: Percentage)
    requires cfg.requiredConfirmations <= cfg.listsinceblockBuffer && 1 <= cfg.listsinceblockBuffer
    ensures Scanned(cfg, s, pool, dropped, fee).db
         == StoreEntries(cfg, fee, s.db, Entries(cfg, s, pool, dropped))
              .(lastBlock := Some(LastBlock(s.chain.tip, cfg.listsinceblockBuffer)))
  {
    var begun := Apply(cfg, s, BeginScan);
    var listed := Apply(cfg, begun, List(|s.scans|, pool, dropped));
    assert begun.scans[|s.scans|] == Begun(s.db.lastBlock);
    assert listed.scans[|s.scans|]
        == Listed(s.db.lastBlock, LastBlock(s.chain.tip, cfg.listsinceblockBuffer), Entries(cfg, s, pool, dropped), dropped);
  }

  /** A transaction has a row after a scan exactly if it had one, or is after the last block or in the mempool and not at the
      change address; it is accepted exactly if it was, or one of these has the required confirmations. */
  lemma ScannedTxs(cfg: Config, s: State, pool: seq<Unconfirmed>, dropped: set<Outpoint>, fee: Percentage, o: Outpoint)
    requires cfg.requiredConfirmations <= cfg.listsinceblockBuffer && 1 <= cfg.listsinceblockBuffer
    ensures var r := Scanned(cfg, s, pool, dropped, fee).db;
            && (o in r.btcTxs <==>
                  o in s.db.btcTxs || exists n :: NewlyMined(cfg, s, o, n) || InPool(cfg, pool, o, n))
            && (TxIsAccepted(r, o) <==>
                  || TxIsAccepted(s.db, o) || NewlyMined(cfg, s, o, cfg.requiredConfirmations)
                  || InPool(cfg, pool, o, cfg.requiredConfirmations))
  {
    var es := Entries(cfg, s, pool, dropped);
    ScannedIs(cfg, s, pool, dropped, fee);
    StoreEntriesTxs(cfg, fee, s.db, es, o);
    NamesIff(cfg, s, pool, dropped, o, cfg.requiredConfirmations);
    forall n
      ensures NamesWith(es, o, n) <==> NewlyMined(cfg, s, o, n) || InPool(cfg, pool, o, n)
    {
      NamesIff(cfg, s, pool, dropped, o, n);
    }
    if Names(es, o) {
      var e :| e in es && e.outpoint == o;
      assert NamesWith(es, o, e.confirmations);
    }
  }

  /** A deposit is there after a scan exactly if it was, or an output after the last block, which ord still shows, brings its
      rune to a deposit address; it is accepted exactly if it was, or such an output has the required confirmations. A deposit
      that was there keeps its signatures and its progress, and a new one has none. */
  lemma ScannedDeposits(cfg: Config, s: State, pool: seq<Unconfirmed>, dropped: set<Outpoint>, fee: Percentage, key: Key)
    requires cfg.requiredConfirmations <= cfg.listsinceblockBuffer && 1 <= cfg.listsinceblockBuffer
    ensures var r := Scanned(cfg, s, pool, dropped, fee).db;
            && (key in r.deposits <==> key in s.db.deposits || exists n :: NewRune(cfg, s, dropped, key, n))
            && (DepositIsAccepted(r, key) <==>
                  DepositIsAccepted(s.db, key) || NewRune(cfg, s, dropped, key, cfg.requiredConfirmations))
            && Continues(s.db, r, key)
  {
    var es := Entries(cfg, s, pool, dropped);
    ScannedIs(cfg, s, pool, dropped, fee);
    StoreEntriesDeposits(cfg, fee, s.db, es, key);
    BringsIff(cfg, s, pool, dropped, key, cfg.requiredConfirmations);
    forall n
      ensures BringsWith(s.db.users, es, key, n) <==> NewRune(cfg, s, dropped, key, n)
    {
      BringsIff(cfg, s, pool, dropped, key, n);
    }
    if SomeBrings(s.db.users, es, key) {
      var e :| e in es && Brings(s.db.users, e, key);
      assert BringsWith(s.db.users, es, key, e.confirmations);
    }
  }

  /** What is only in the mempool is recorded by the scan, as DETECTED if it was not accepted before. */
  lemma UnconfirmedIsDetected(cfg: Config, s: State, pool: seq<Unconfirmed>, dropped: set<Outpoint>, fee: Percentage, u: Unconfirmed)
    requires 1 <= cfg.requiredConfirmations <= cfg.listsinceblockBuffer
    requires u in pool && u.address != cfg.changeAddress && forall m :: m in s.chain.mined ==> m.output.outpoint != u.outpoint
    ensures var r := Scanned(cfg, s, pool, dropped, fee).db;
            && u.outpoint in r.btcTxs
            && r.btcTxs[u.outpoint].status == (if TxIsAccepted(s.db, u.outpoint) then TxAccepted else TxDetected)
            && forall rune :: Key(u.outpoint, rune) in r.deposits ==> Key(u.outpoint, rune) in s.db.deposits
  {
    ScannedTxs(cfg, s, pool, dropped, fee, u.outpoint);
    var k :| 0 <= k < |pool| && pool[k] == u;
    assert IsInPool(cfg, pool, u.outpoint, 0 - u.depth, k);
    assert InPool(cfg, pool, u.outpoint, 0 - u.depth);
    forall rune
      ensures Key(u.outpoint, rune) in Scanned(cfg, s, pool, dropped, fee).db.deposits ==> Key(u.outpoint, rune) in s.db.deposits
    {
      ScannedDeposits(cfg, s, pool, dropped, fee, Key(u.outpoint, rune));
    }
  }
}
