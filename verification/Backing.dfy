/** Conservation over every run: what is submitted to the EVM chain is backed by what was deposited on Bitcoin. */
module Backing {
  import opened Wrappers
  import opened Transactions
  import opened RuneAllocation
  import opened RuneDeposits
  import opened SubmittedOnce
  import opened FeeArithmetic

  // ---------------------------------------------------------------- what backs a deposit

  type Users = map<string, EvmAddress>

  /** The fee percentages that scans of the run may be made with. */
  type Fees = iset<Percentage>

  ghost predicate UsedIn(actions: seq<Action>, fee: Percentage)
  {
    exists i :: 0 <= i < |actions| && actions[i].Commit? && actions[i].fee == fee
  }

  ghost function FeesOf(actions: seq<Action>): Fees
  {
    iset fee: Percentage | UsedIn(actions, fee)
  }

  /** The output went to a deposit address of one of these users, which is not the change address. */
  ghost predicate DepositedBy(cfg: Config, users: Users, m: Mined, who: iset<EvmAddress>)
  {
    && m.output.address.Some? && m.output.address.value != cfg.changeAddress
    && m.output.address.value in users && users[m.output.address.value] in who
  }

  ghost predicate BackedBy(cfg: Config, fees: Fees, users: Users, m: Mined, key: Key, user: EvmAddress, net: int,
                           j: int, fee: Percentage)
  {
    && m.output.outpoint == key.outpoint && DepositedBy(cfg, users, m, iset{user})
    && 0 <= j < |m.output.runes| && m.output.runes[j].rune == key.rune
    && fee in fees && net == cfg.netAmount(fee, m.output.runes[j].amount, m.output.runes[j].divisibility)
  }

  /** Some output of the chain to the user's deposit address holds the rune, and `net` is its amount without a fee. */
  ghost predicate Backed(cfg: Config, fees: Fees, users: Users, chain: Chain, key: Key, user: EvmAddress, net: int)
  {
    exists k, j, fee :: 0 <= k < |chain.mined| && BackedBy(cfg, fees, users, chain.mined[k], key, user, net, j, fee)
  }

  /** Every outpoint was created once, and holds each rune once. */
  ghost predicate OutpointsUnique(chain: Chain)
  {
    && (forall i, k :: 0 <= i < k < |chain.mined| ==> chain.mined[i].output.outpoint != chain.mined[k].output.outpoint)
    && (forall k :: 0 <= k < |chain.mined| ==> ValidRunes(chain.mined[k].output.runes))
  }

  ghost predicate DescribedBy(cfg: Config, m: Mined, e: Entry)
  {
    && m.output.outpoint == e.outpoint && m.output.address == Some(e.address) && e.address != cfg.changeAddress
    && Some(m.output.runes) == e.balances
  }

  /** The address and the balances of an entry are those of an output of the chain. */
  ghost predicate EntryTrue(cfg: Config, chain: Chain, e: Entry)
  {
    e.balances.Some? ==> exists k :: 0 <= k < |chain.mined| && DescribedBy(cfg, chain.mined[k], e)
  }

  ghost predicate EntriesTrue(cfg: Config, chain: Chain, es: seq<Entry>)
  {
    forall e :: e in es ==> EntryTrue(cfg, chain, e)
  }

  ghost predicate DepositsBacked(cfg: Config, fees: Fees, chain: Chain, db: Db)
  {
    forall key :: key in db.deposits ==> Backed(cfg, fees, db.users, chain, key, db.deposits[key].user, db.deposits[key].net)
  }

  ghost predicate CallBacked(cfg: Config, fees: Fees, users: Users, chain: Chain, call: Submission)
  {
    Backed(cfg, fees, users, chain, call.key, call.user, call.net)
  }

  ghost predicate Inv(cfg: Config, fees: Fees, s: State)
  {
    && OutpointsUnique(s.chain)
    && DepositsBacked(cfg, fees, s.chain, s.db)
    && (forall i :: 0 <= i < |s.scans| && s.scans[i].Listed? ==> EntriesTrue(cfg, s.chain, s.scans[i].entries))
    && (forall i :: 0 <= i < |s.sends| ==> CallBacked(cfg, fees, s.db.users, s.chain, s.sends[i].call))
    && (forall k :: 0 <= k < |s.submissions| ==> CallBacked(cfg, fees, s.db.users, s.chain, s.submissions[k]))
  }

  // ---------------------------------------------------------------- every step keeps it

  lemma {:induction false} StoreRunesBacked(cfg: Config, fees: Fees, fee: Percentage, chain: Chain, db: Db, e: Entry, k: nat, n: nat)
    requires DepositsBacked(cfg, fees, chain, db) && e.address in db.users && fee in fees
    requires k < |chain.mined| && DescribedBy(cfg, chain.mined[k], e) && n <= |chain.mined[k].output.runes|
    ensures var r := StoreRunes(cfg, fee, db, e, db.users[e.address], chain.mined[k].output.runes[..n]);
            DepositsBacked(cfg, fees, chain, r) && r.users == db.users
  {
    var bs := chain.mined[k].output.runes[..n];
    if n > 0 {
      assert bs[..n - 1] == chain.mined[k].output.runes[..n - 1];
      StoreRunesBacked(cfg, fees, fee, chain, db, e, k, n - 1);
      var b := bs[n - 1];
      assert BackedBy(cfg, fees, db.users, chain.mined[k], Key(e.outpoint, b.rune), db.users[e.address],
                      cfg.netAmount(fee, b.amount, b.divisibility), n - 1, fee);
    }
  }

  lemma {:induction false} StoreEntriesBacked(cfg: Config, fees: Fees, fee: Percentage, chain: Chain, db: Db, es: seq<Entry>)
    requires DepositsBacked(cfg, fees, chain, db) && EntriesTrue(cfg, chain, es) && fee in fees
    ensures DepositsBacked(cfg, fees, chain, StoreEntries(cfg, fee, db, es)) && StoreEntries(cfg, fee, db, es).users == db.users
  {
    if es != [] {
      var front, e := es[..|es| - 1], es[|es| - 1];
      assert es == front + [e];
      StoreEntriesBacked(cfg, fees, fee, chain, db, front);
      var before := StoreEntries(cfg, fee, db, front);
      assert e in es && EntryTrue(cfg, chain, e);
      if e.address in before.users && e.balances.Some? {
        var k :| 0 <= k < |chain.mined| && DescribedBy(cfg, chain.mined[k], e);
        var bs := chain.mined[k].output.runes;
        assert bs[..|bs|] == bs;
        StoreRunesBacked(cfg, fees, fee, chain, StoreTx(cfg, before, e), e, k, |bs|);
      }
    }
  }

  lemma {:induction false} ListMinedTrue(cfg: Config, chain: Chain, last: Option<int>, unindexed: set<Outpoint>, n: nat)
    requires n <= |chain.mined|
    ensures EntriesTrue(cfg, chain, ListMined(cfg, chain, last, unindexed, n))
  {
    if n > 0 {
      ListMinedTrue(cfg, chain, last, unindexed, n - 1);
      var es := ListMined(cfg, chain, last, unindexed, n);
      assert es != [] && es[|es| - 1].balances.Some? && es[|es| - 1] !in ListMined(cfg, chain, last, unindexed, n - 1)
        ==> DescribedBy(cfg, chain.mined[n - 1], es[|es| - 1]);
    }
  }

  lemma {:induction false} ListUnconfirmedTrue(cfg: Config, chain: Chain, pool: seq<Unconfirmed>)
    ensures EntriesTrue(cfg, chain, ListUnconfirmed(cfg, pool))
  {
    if pool != [] {
      ListUnconfirmedTrue(cfg, chain, pool[..|pool| - 1]);
    }
  }

  lemma {:induction false} MinedOutputs(height: int, outputs: seq<Output>)
    ensures forall k :: 0 <= k < |outputs| ==> MineAll(height, outputs)[k].output == outputs[k]
  {
    if outputs != [] {
      MinedOutputs(height, outputs[..|outputs| - 1]);
    }
  }

  lemma StillBacked(cfg: Config, fees: Fees, users: Users, chain: Chain, users': Users, longer: Chain, key: Key,
                    user: EvmAddress, net: int)
    requires chain.mined <= longer.mined && Backed(cfg, fees, users, chain, key, user, net)
    requires forall a :: a in users ==> a in users' && users'[a] == users[a]
    ensures Backed(cfg, fees, users', longer, key, user, net)
  {
    var k, j, fee :| 0 <= k < |chain.mined| && BackedBy(cfg, fees, users, chain.mined[k], key, user, net, j, fee);
    assert longer.mined[k] == chain.mined[k];
    assert BackedBy(cfg, fees, users', longer.mined[k], key, user, net, j, fee);
  }

  lemma StillTrue(cfg: Config, chain: Chain, longer: Chain, es: seq<Entry>)
    requires chain.mined <= longer.mined && EntriesTrue(cfg, chain, es)
    ensures EntriesTrue(cfg, longer, es)
  {
    forall e | e in es && e.balances.Some?
      ensures EntryTrue(cfg, longer, e)
    {
      assert EntryTrue(cfg, chain, e);
      var k :| 0 <= k < |chain.mined| && DescribedBy(cfg, chain.mined[k], e);
      assert longer.mined[k] == chain.mined[k];
    }
  }

  /** The chain and the deposit addresses only grow. */
  lemma GrowthKeeps(cfg: Config, fees: Fees, s: State, t: State)
    requires Inv(cfg, fees, s) && OutpointsUnique(t.chain) && s.chain.mined <= t.chain.mined
    requires forall a :: a in s.db.users ==> a in t.db.users && t.db.users[a] == s.db.users[a]
    requires t.db.deposits == s.db.deposits && t.scans == s.scans && t.sends == s.sends && t.submissions == s.submissions
    ensures Inv(cfg, fees, t)
  {
    forall key, user, net | Backed(cfg, fees, s.db.users, s.chain, key, user, net)
      ensures Backed(cfg, fees, t.db.users, t.chain, key, user, net)
    {
      StillBacked(cfg, fees, s.db.users, s.chain, t.db.users, t.chain, key, user, net);
    }
    forall i | 0 <= i < |s.scans| && s.scans[i].Listed?
      ensures EntriesTrue(cfg, t.chain, s.scans[i].entries)
    {
      StillTrue(cfg, s.chain, t.chain, s.scans[i].entries);
    }
    assert forall i :: 0 <= i < |s.sends| ==> CallBacked(cfg, fees, s.db.users, s.chain, s.sends[i].call);
    assert forall k :: 0 <= k < |s.submissions| ==> CallBacked(cfg, fees, s.db.users, s.chain, s.submissions[k]);
  }

  lemma MinedIsUnique(cfg: Config, s: State, outputs: seq<Output>)
    requires OutpointsUnique(s.chain)
    ensures OutpointsUnique(Apply(cfg, s, Mine(outputs)).chain)
    ensures s.chain.mined <= Apply(cfg, s, Mine(outputs)).chain.mined
  {
    MinedOutputs(s.chain.tip + 1, outputs);
  }

  lemma MineKeeps(cfg: Config, fees: Fees, s: State, outputs: seq<Output>)
    requires Inv(cfg, fees, s)
    ensures Inv(cfg, fees, Apply(cfg, s, Mine(outputs)))
  {
    MinedIsUnique(cfg, s, outputs);
    GrowthKeeps(cfg, fees, s, Apply(cfg, s, Mine(outputs)));
  }

  lemma ScanKeeps(cfg: Config, fees: Fees, s: State, a: Action)
    requires Inv(cfg, fees, s) && (a.BeginScan? || a.List? || a.Commit?) && (a.Commit? ==> a.fee in fees)
    ensures Inv(cfg, fees, Apply(cfg, s, a))
  {
    if a.List? && a.scan < |s.scans| && s.scans[a.scan].Begun? {
      ListMinedTrue(cfg, s.chain, s.scans[a.scan].lastRead, a.unindexed, |s.chain.mined|);
      ListUnconfirmedTrue(cfg, s.chain, a.pool);
    } else if a.Commit? && a.scan < |s.scans| && s.scans[a.scan].Listed? {
      StoreEntriesBacked(cfg, fees, a.fee, s.chain, s.db, s.scans[a.scan].entries);
    }
  }

  lemma {:induction false} CollectKeepsTransfer(d: Deposit, answers: seq<Answer>)
    ensures Collect(d, answers).net == d.net && Collect(d, answers).user == d.user
  {
    if answers != [] {
      CollectKeepsTransfer(d, answers[..|answers| - 1]);
    }
  }

  lemma UpdateKeeps(cfg: Config, fees: Fees, s: State, a: Action)
    requires Inv(cfg, fees, s) && a.Update?
    ensures Inv(cfg, fees, Apply(cfg, s, a))
  {
    if HasStatus(s.db, a.key, Accepted) {
      CollectKeepsTransfer(s.db.deposits[a.key].(messageHash := Some(a.hash)), Prune(cfg, a.currentFederators, a.hash, a.answers));
    }
  }

  ghost predicate SameTransfers(db: Db, db': Db)
  {
    && db'.deposits.Keys == db.deposits.Keys
    && forall key :: key in db.deposits ==>
         db'.deposits[key].user == db.deposits[key].user && db'.deposits[key].net == db.deposits[key].net
  }

  lemma RecordKeepsTransfers(s: State, i: nat)
    requires i < |s.sends| && s.sends[i].call.key in s.db.deposits
    ensures SameTransfers(s.db, RecordSend(s, i).db)
  {
  }

  lemma StatusKeepsTransfers(cfg: Config, s: State, a: Action)
    requires a.Confirm? || a.Record?
    ensures SameTransfers(s.db, Apply(cfg, s, a).db)
  {
    if a.Record? && a.send < |s.sends| && s.sends[a.send].call.key in s.db.deposits {
      RecordKeepsTransfers(s, a.send);
    }
  }

  lemma StatusKeepsRest(cfg: Config, s: State, a: Action)
    requires a.Confirm? || a.Record?
    ensures var t := Apply(cfg, s, a);
            && t.chain == s.chain && t.db.users == s.db.users && t.scans == s.scans && t.submissions == s.submissions
            && |t.sends| == |s.sends| && forall i :: 0 <= i < |s.sends| ==> t.sends[i].call == s.sends[i].call
  {
  }

  lemma StatusKeeps(cfg: Config, fees: Fees, s: State, a: Action)
    requires Inv(cfg, fees, s) && (a.Confirm? || a.Record?)
    ensures Inv(cfg, fees, Apply(cfg, s, a))
  {
    StatusKeepsTransfers(cfg, s, a);
    StatusKeepsRest(cfg, s, a);
  }

  lemma SendKeeps(cfg: Config, fees: Fees, s: State, a: Action)
    requires Inv(cfg, fees, s) && (a.BeginSend? || a.Abandon? || a.Submit? || a.NotifyRaises? || a.Crash?)
    ensures Inv(cfg, fees, Apply(cfg, s, a))
  {
  }

  /** All scans of the run were made with one of these fee percentages. */
  ghost predicate FeesIn(actions: seq<Action>, fees: Fees)
  {
    forall i :: 0 <= i < |actions| && actions[i].Commit? ==> actions[i].fee in fees
  }

  lemma {:induction false} RunIsBacked(cfg: Config, fees: Fees, actions: seq<Action>)
    requires FeesIn(actions, fees)
    ensures Inv(cfg, fees, Run(cfg, actions))
  {
    if actions != [] {
      var before, a := actions[..|actions| - 1], actions[|actions| - 1];
      RunIsBacked(cfg, fees, before);
      if a.Mine? {
        MineKeeps(cfg, fees, Run(cfg, before), a.outputs);
      } else if a.Register? {
        GrowthKeeps(cfg, fees, Run(cfg, before), Run(cfg, actions));
      } else if a.BeginScan? || a.List? || a.Commit? {
        ScanKeeps(cfg, fees, Run(cfg, before), a);
      } else if a.Update? {
        UpdateKeeps(cfg, fees, Run(cfg, before), a);
      } else if a.Confirm? || a.Record? {
        StatusKeeps(cfg, fees, Run(cfg, before), a);
      } else {
        SendKeeps(cfg, fees, Run(cfg, before), a);
      }
    }
  }

  // ---------------------------------------------------------------- totals

  /** Units of the rune submitted in all for these users. */
  ghost function TotalNet(calls: seq<Submission>, r: Rune, who: iset<EvmAddress>): int
  {
    if calls == [] then 0
    else
      var last := calls[|calls| - 1];
      TotalNet(calls[..|calls| - 1], r, who) + if last.key.rune == r && last.user in who then last.net else 0
  }

  function AmountOf(bs: seq<RuneBalance>, r: Rune): nat
  {
    if bs == [] then 0
    else AmountOf(bs[..|bs| - 1], r) + if bs[|bs| - 1].rune == r then bs[|bs| - 1].amount else 0
  }

  ghost function DepositIn(cfg: Config, users: Users, m: Mined, r: Rune, who: iset<EvmAddress>): nat
  {
    if DepositedBy(cfg, users, m, who) then AmountOf(m.output.runes, r) else 0
  }

  /** Units of the rune in all outputs to the deposit addresses of these users. */
  ghost function Deposited(cfg: Config, users: Users, mined: seq<Mined>, r: Rune, who: iset<EvmAddress>): nat
  {
    if mined == [] then 0
    else Deposited(cfg, users, mined[..|mined| - 1], r, who) + DepositIn(cfg, users, mined[|mined| - 1], r, who)
  }

  ghost function NetAt(calls: seq<Submission>, key: Key, who: iset<EvmAddress>): int
  {
    if calls == [] then 0
    else
      var last := calls[|calls| - 1];
      NetAt(calls[..|calls| - 1], key, who) + if last.key == key && last.user in who then last.net else 0
  }

  /** Units of the rune submitted for these outputs. */
  ghost function NetOver(mined: seq<Mined>, calls: seq<Submission>, r: Rune, who: iset<EvmAddress>): int
  {
    if mined == [] then 0
    else
      NetOver(mined[..|mined| - 1], calls, r, who) + NetAt(calls, Key(mined[|mined| - 1].output.outpoint, r), who)
  }

  lemma {:induction false} NetOverMore(mined: seq<Mined>, calls: seq<Submission>, call: Submission, r: Rune, who: iset<EvmAddress>)
    requires call.net >= 0
    ensures NetOver(mined, calls + [call], r, who) >= NetOver(mined, calls, r, who)
  {
    assert (calls + [call])[..|calls|] == calls;
    if mined != [] {
      NetOverMore(mined[..|mined| - 1], calls, call, r, who);
    }
  }

  lemma {:induction false} NetOverNext(mined: seq<Mined>, calls: seq<Submission>, call: Submission, k: nat, who: iset<EvmAddress>)
    requires call.net >= 0 && call.user in who && k < |mined| && mined[k].output.outpoint == call.key.outpoint
    ensures NetOver(mined, calls + [call], call.key.rune, who) >= NetOver(mined, calls, call.key.rune, who) + call.net
  {
    var front, r := mined[..|mined| - 1], call.key.rune;
    assert (calls + [call])[..|calls|] == calls;
    if k < |front| {
      NetOverNext(front, calls, call, k, who);
    } else {
      NetOverMore(front, calls, call, r, who);
    }
  }

  /** Fees are taken from the amount, never added to it. */
  ghost predicate FeesOnlyTake(cfg: Config, fees: Fees)
  {
    forall fee, amount, divisibility :: fee in fees && 0 <= amount < AMOUNT_LIMIT && 0 <= divisibility ==>
      0 <= cfg.netAmount(fee, amount, divisibility) <= amount
  }

  ghost predicate CallsBacked(cfg: Config, fees: Fees, users: Users, chain: Chain, calls: seq<Submission>)
  {
    forall k :: 0 <= k < |calls| ==> CallBacked(cfg, fees, users, chain, calls[k])
  }

  lemma BackedNet(cfg: Config, fees: Fees, users: Users, chain: Chain, call: Submission) returns (k: nat, j: nat, fee: Percentage)
    requires OutpointsUnique(chain) && FeesOnlyTake(cfg, fees) && CallBacked(cfg, fees, users, chain, call)
    ensures k < |chain.mined| && BackedBy(cfg, fees, users, chain.mined[k], call.key, call.user, call.net, j, fee)
    ensures 0 <= call.net <= chain.mined[k].output.runes[j].amount
  {
    k, j, fee :| 0 <= k < |chain.mined| && BackedBy(cfg, fees, users, chain.mined[k], call.key, call.user, call.net, j, fee);
  }

  /** Every call is counted at its output. */
  lemma {:induction false} EachCallCounts(cfg: Config, fees: Fees, users: Users, chain: Chain, calls: seq<Submission>,
                                          r: Rune, who: iset<EvmAddress>)
    requires OutpointsUnique(chain) && FeesOnlyTake(cfg, fees) && CallsBacked(cfg, fees, users, chain, calls)
    ensures TotalNet(calls, r, who) <= NetOver(chain.mined, calls, r, who)
  {
    if calls == [] {
      NothingOver(chain.mined, r, who);
    } else {
      var front, call := calls[..|calls| - 1], calls[|calls| - 1];
      assert calls == front + [call];
      EachCallCounts(cfg, fees, users, chain, front, r, who);
      var k, j, fee := BackedNet(cfg, fees, users, chain, call);
      if call.key.rune == r && call.user in who {
        NetOverNext(chain.mined, front, call, k, who);
      } else {
        NetOverMore(chain.mined, front, call, r, who);
      }
    }
  }

  lemma {:induction false} NothingOver(mined: seq<Mined>, r: Rune, who: iset<EvmAddress>)
    ensures NetOver(mined, [], r, who) == 0
  {
    if mined != [] {
      NothingOver(mined[..|mined| - 1], r, who);
    }
  }

  ghost predicate DistinctKeys(calls: seq<Submission>)
  {
    forall i, k :: 0 <= i < k < |calls| ==> calls[i].key != calls[k].key
  }

  lemma {:induction false} NetAtNone(calls: seq<Submission>, key: Key, who: iset<EvmAddress>)
    requires forall k :: 0 <= k < |calls| ==> calls[k].key != key || calls[k].user !in who
    ensures NetAt(calls, key, who) == 0
  {
    if calls != [] {
      NetAtNone(calls[..|calls| - 1], key, who);
    }
  }

  lemma {:induction false} AmountAt(bs: seq<RuneBalance>, j: nat)
    requires j < |bs|
    ensures AmountOf(bs, bs[j].rune) >= bs[j].amount
  {
    if j < |bs| - 1 {
      AmountAt(bs[..|bs| - 1], j);
    }
  }

  /** An output pays for at most one call of each rune, for nobody but the user of its deposit address, and holds enough
      for it. */
  lemma {:induction false} NetAtMost(cfg: Config, fees: Fees, users: Users, chain: Chain, calls: seq<Submission>, k: nat,
                                     r: Rune, who: iset<EvmAddress>)
    requires OutpointsUnique(chain) && FeesOnlyTake(cfg, fees) && CallsBacked(cfg, fees, users, chain, calls)
    requires DistinctKeys(calls) && k < |chain.mined|
    ensures NetAt(calls, Key(chain.mined[k].output.outpoint, r), who) <= DepositIn(cfg, users, chain.mined[k], r, who)
  {
    if calls != [] {
      var front, call := calls[..|calls| - 1], calls[|calls| - 1];
      var key := Key(chain.mined[k].output.outpoint, r);
      if call.key == key && call.user in who {
        NetAtNone(front, key, who);
        var i, j, fee := BackedNet(cfg, fees, users, chain, call);
        assert i == k;
        AmountAt(chain.mined[k].output.runes, j);
      } else {
        NetAtMost(cfg, fees, users, chain, front, k, r, who);
      }
    }
  }

  lemma {:induction false} OutputsHoldEnough(cfg: Config, fees: Fees, users: Users, chain: Chain, calls: seq<Submission>,
                                             n: nat, r: Rune, who: iset<EvmAddress>)
    requires OutpointsUnique(chain) && FeesOnlyTake(cfg, fees) && CallsBacked(cfg, fees, users, chain, calls)
    requires DistinctKeys(calls) && n <= |chain.mined|
    ensures NetOver(chain.mined[..n], calls, r, who) <= Deposited(cfg, users, chain.mined[..n], r, who)
  {
    if n > 0 {
      assert chain.mined[..n][..n - 1] == chain.mined[..n - 1];
      OutputsHoldEnough(cfg, fees, users, chain, calls, n - 1, r, who);
      NetAtMost(cfg, fees, users, chain, calls, n - 1, r, who);
    }
  }

  /** The configured net amount is the one that the nodes compute in decimal floating point. */
  ghost predicate ComputesFees(cfg: Config)
  {
    forall fee, amount, divisibility :: 0 <= amount && 0 <= divisibility ==>
      cfg.netAmount(fee, amount, divisibility) == CalculateAmounts(amount, divisibility, fee, PRECISION).netAmountRaw
  }

  ghost function ValidPercentages(digits: nat): Fees
  {
    iset fee: Percentage | ValidPercentage(fee, digits)
  }

  /** The fee arithmetic of the nodes only takes. */
  lemma NodesOnlyTake(cfg: Config, digits: nat)
    requires digits <= 30 && ComputesFees(cfg)
    ensures FeesOnlyTake(cfg, ValidPercentages(digits))
  {
    forall fee, amount, divisibility | fee in ValidPercentages(digits) && 0 <= amount < AMOUNT_LIMIT && 0 <= divisibility
      ensures 0 <= cfg.netAmount(fee, amount, divisibility) <= amount
    {
      Uint128AmountIsExact(amount, divisibility, fee, digits);
    }
  }

  /** Over every run, whatever the fees: the total net amount of a rune submitted to the EVM chain for any users never
      exceeds what was deposited of it at their deposit addresses, with the fee computed as the nodes do. */
  lemma SubmittedIsBacked(cfg: Config, digits: nat, actions: seq<Action>, r: Rune, who: iset<EvmAddress>)
    requires digits <= 30 && ComputesFees(cfg) && FeesIn(actions, ValidPercentages(digits))
    ensures var s := Run(cfg, actions); TotalNet(s.submissions, r, who) <= Deposited(cfg, s.db.users, s.chain.mined, r, who)
  {
    var s, fees := Run(cfg, actions), ValidPercentages(digits);
    NodesOnlyTake(cfg, digits);
    RunIsBacked(cfg, fees, actions);
    RunKeeps(cfg, actions);
    EachCallCounts(cfg, fees, s.db.users, s.chain, s.submissions, r, who);
    OutputsHoldEnough(cfg, fees, s.db.users, s.chain, s.submissions, |s.chain.mined|, r, who);
    assert s.chain.mined[..|s.chain.mined|] == s.chain.mined;
  }

  /** Over every run, each call credits the user of the deposit address, with the amount of the rune in that output
      less the fee of some scan. */
  lemma SubmittedToDepositor(cfg: Config, fees: Fees, actions: seq<Action>, i: nat)
    requires FeesIn(actions, fees) && i < |Run(cfg, actions).submissions|
    ensures var s := Run(cfg, actions); var call := s.submissions[i];
            exists k, j, fee :: 0 <= k < |s.chain.mined|
              && BackedBy(cfg, fees, s.db.users, s.chain.mined[k], call.key, call.user, call.net, j, fee)
  {
    RunIsBacked(cfg, fees, actions);
    var s := Run(cfg, actions);
    assert CallBacked(cfg, fees, s.db.users, s.chain, s.submissions[i]);
  }
}
