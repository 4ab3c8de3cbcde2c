/** What the signatures of a call are signatures of. A round asks for signatures of the message hash of the deposit's
    row, and a call is made with the row as it is then; a scan in between may have changed the net amount. */
module MessageHashes {
  import opened Wrappers
  import opened Transactions
  import opened RuneDeposits
  import opened SignatureCollection
  import opened SettledOutputs
  import Backing
  import CheckpointSafety

  /** getAcceptTransferFromBtcMessageHash of the contract. */
  type MessageHash = (Key, EvmAddress, int) -> Hash

  /** Round `i` asked for the row as it was after `j` actions, when it was ACCEPTED. */
  ghost predicate AskedAt(cfg: Config, h: MessageHash, actions: seq<Action>, i: int, j: int)
  {
    && 0 <= j <= i < |actions| && actions[i].Update?
    && var key, db := actions[i].key, Run(cfg, actions[..j]).db;
       HasStatus(db, key, Accepted) && actions[i].hash == h(key, db.deposits[key].user, db.deposits[key].net)
  }

  ghost predicate WasAsked(cfg: Config, h: MessageHash, actions: seq<Action>, i: int)
  {
    exists j :: AskedAt(cfg, h, actions, i, j)
  }

  /** Every round asks for the message hash of the row, read in an earlier transaction. */
  ghost predicate AsksForRows(cfg: Config, h: MessageHash, actions: seq<Action>)
  {
    forall i :: 0 <= i < |actions| && actions[i].Update? && HasStatus(Run(cfg, actions[..i]).db, actions[i].key, Accepted) ==>
      WasAsked(cfg, h, actions, i)
  }

  /** All scans were made with the same fee. */
  ghost predicate FeeIsFixed(actions: seq<Action>)
  {
    forall i, j :: 0 <= i < j < |actions| && actions[i].Commit? && actions[j].Commit? ==> actions[i].fee == actions[j].fee
  }

  /** Each signature of the call is its account's signature of what is submitted. */
  ghost predicate SignedForCall(cfg: Config, h: MessageHash, s: State, call: Submission)
  {
    && call.key in s.db.deposits && |call.signatures| <= |s.db.deposits[call.key].signers|
    && forall i :: 0 <= i < |call.signatures| ==>
         cfg.recover(h(call.key, call.user, call.net), call.signatures[i]) == s.db.deposits[call.key].signers[i]
  }

  // ---------------------------------------------------------------- rows over a run

  /** The chain and the deposit addresses only grow. */
  ghost predicate Extends(s: State, t: State)
  {
    && s.chain.mined <= t.chain.mined
    && forall a :: a in s.db.users ==> a in t.db.users && t.db.users[a] == s.db.users[a]
  }

  lemma StepExtends(cfg: Config, s: State, a: Action)
    ensures Extends(s, Apply(cfg, s, a))
  {
    if a.Commit? && a.scan < |s.scans| && s.scans[a.scan].Listed? {
      CheckpointSafety.StoreEntriesGrows(cfg, a.fee, s.db, s.scans[a.scan].entries);
    }
  }

  lemma {:induction false} RunExtends(cfg: Config, actions: seq<Action>, more: seq<Action>)
    ensures Extends(Run(cfg, actions), Run(cfg, actions + more))
  {
    if more == [] {
      assert actions + more == actions;
    } else {
      var front, last := more[..|more| - 1], more[|more| - 1];
      assert (actions + more)[..|actions + more| - 1] == actions + front;
      RunExtends(cfg, actions, front);
      StepExtends(cfg, Run(cfg, actions + front), last);
    }
  }

  /** One output backs both, so they are for the same user, and differ in the fee only. */
  lemma BackedTwice(cfg: Config, fees: Backing.Fees, users: Backing.Users, chain: Chain, key: Key,
                    user: EvmAddress, net: int, user': EvmAddress, net': int)
    requires Backing.OutpointsUnique(chain)
    requires Backing.Backed(cfg, fees, users, chain, key, user, net) && Backing.Backed(cfg, fees, users, chain, key, user', net')
    ensures user == user'
    ensures (forall p, q :: p in fees && q in fees ==> p == q) ==> net == net'
  {
    var k, j, p :| 0 <= k < |chain.mined| && Backing.BackedBy(cfg, fees, users, chain.mined[k], key, user, net, j, p);
    var k', j', q :| 0 <= k' < |chain.mined| && Backing.BackedBy(cfg, fees, users, chain.mined[k'], key, user', net', j', q);
    assert k == k';
    assert j == j';
  }

  lemma FixedFeeIsOne(actions: seq<Action>)
    requires FeeIsFixed(actions)
    ensures var fees := Backing.FeesOf(actions); forall p, q :: p in fees && q in fees ==> p == q
  {
    var fees := Backing.FeesOf(actions);
    forall p, q | p in fees && q in fees
      ensures p == q
    {
      assert Backing.UsedIn(actions, p) && Backing.UsedIn(actions, q);
    }
  }

  /** Both ends of a run are backed, with fees of the whole run. */
  lemma RunsAreBacked(cfg: Config, front: seq<Action>, rest: seq<Action>)
    ensures Backing.Inv(cfg, Backing.FeesOf(front + rest), Run(cfg, front))
    ensures Backing.Inv(cfg, Backing.FeesOf(front + rest), Run(cfg, front + rest))
    ensures Extends(Run(cfg, front), Run(cfg, front + rest))
  {
    var actions := front + rest;
    assert forall i :: 0 <= i < |actions| && actions[i].Commit? ==> Backing.UsedIn(actions, actions[i].fee);
    assert forall i :: 0 <= i < |front| ==> front[i] == actions[i];
    Backing.RunIsBacked(cfg, Backing.FeesOf(actions), front);
    Backing.RunIsBacked(cfg, Backing.FeesOf(actions), actions);
    RunExtends(cfg, front, rest);
  }

  /** Whenever the row existed, it named the user of the call; and the net amount of the call if the fee was fixed. */
  lemma RowIsForUser(cfg: Config, actions: seq<Action>, k: nat, j: nat)
    requires k < |Run(cfg, actions).submissions| && j <= |actions|
    requires Run(cfg, actions).submissions[k].key in Run(cfg, actions[..j]).db.deposits
    ensures var call := Run(cfg, actions).submissions[k]; var d := Run(cfg, actions[..j]).db.deposits[call.key];
            d.user == call.user && (FeeIsFixed(actions) ==> d.net == call.net)
  {
    assert actions[..j] + actions[j..] == actions;
    RunsAreBacked(cfg, actions[..j], actions[j..]);
    if FeeIsFixed(actions) {
      FixedFeeIsOne(actions);
    }
    RowBacksCall(cfg, Backing.FeesOf(actions), Run(cfg, actions[..j]), Run(cfg, actions), k);
  }

  lemma RowBacksCall(cfg: Config, fees: Backing.Fees, before: State, s: State, k: nat)
    requires Backing.Inv(cfg, fees, before) && Backing.Inv(cfg, fees, s) && Extends(before, s)
    requires k < |s.submissions| && s.submissions[k].key in before.db.deposits
    ensures var call, d := s.submissions[k], before.db.deposits[s.submissions[k].key];
            d.user == call.user && ((forall p, q :: p in fees && q in fees ==> p == q) ==> d.net == call.net)
  {
    var call := s.submissions[k];
    var d := before.db.deposits[call.key];
    assert Backing.CallBacked(cfg, fees, s.db.users, s.chain, call);
    Backing.StillBacked(cfg, fees, before.db.users, before.chain, s.db.users, s.chain, call.key, d.user, d.net);
    BackedTwice(cfg, fees, s.db.users, s.chain, call.key, d.user, d.net, call.user, call.net);
  }

  /** In a tight configuration an accepted row keeps its net amount, so that it is the one of the call. */
  lemma AcceptedRowIsCall(cfg: Config, actions: seq<Action>, k: nat, j: nat)
    requires k < |Run(cfg, actions).submissions| && j <= |actions| && Tight(cfg)
    requires HasStatus(Run(cfg, actions[..j]).db, Run(cfg, actions).submissions[k].key, Accepted)
    ensures var call := Run(cfg, actions).submissions[k]; Run(cfg, actions[..j]).db.deposits[call.key].net == call.net
  {
    var call := Run(cfg, actions).submissions[k];
    EveryCallIsPrepared(cfg, actions);
    assert WasPrepared(cfg, actions, call);
    var a :| PreparedBy(cfg, actions, call, a);
    AcceptedTermsStay(cfg, actions, a, call.key);
    AcceptedTermsStay(cfg, actions, j, call.key);
  }

  lemma AcceptedTermsStay(cfg: Config, actions: seq<Action>, j: nat, key: Key)
    requires j <= |actions| && Tight(cfg) && HasStatus(Run(cfg, actions[..j]).db, key, Accepted)
    ensures TermsOf(Run(cfg, actions).db, key) == TermsOf(Run(cfg, actions[..j]).db, key)
  {
    RunSettles(cfg, actions[..j]);
    assert DepositIsAccepted(Run(cfg, actions[..j]).db, key);
    assert actions[..j] + actions[j..] == actions;
    SettledIsFinal(cfg, actions[..j], actions[j..], key.outpoint);
  }

  // ---------------------------------------------------------------- what a signature is for

  /** Only a round that found the deposit ACCEPTED adds a signature. */
  lemma AddingRoundIsAccepted(cfg: Config, actions: seq<Action>, key: Key, i: int, a: int)
    requires AddedBy(cfg, actions, key, i, a)
    ensures HasStatus(Run(cfg, actions[..a]).db, key, Accepted)
  {
    assert actions[..a + 1][..a] == actions[..a];
  }

  /** Over every run whose rounds ask for the rows: each signature of a call is its account's signature for the user of
      the call and the net amount of the row when the round `a` that added it read it, after `j` actions. */
  lemma SignatureIsForRow(cfg: Config, h: MessageHash, actions: seq<Action>, k: nat, i: nat) returns (a: nat, j: nat)
    requires AsksForRows(cfg, h, actions) && k < |Run(cfg, actions).submissions|
    requires i < |Run(cfg, actions).submissions[k].signatures|
    ensures var s := Run(cfg, actions); var call := s.submissions[k];
            && AddedBy(cfg, actions, call.key, i, a) && AskedAt(cfg, h, actions, a, j)
            && var row := Run(cfg, actions[..j]).db.deposits[call.key];
               && row.user == call.user
               && i < |s.db.deposits[call.key].signers|
               && cfg.recover(h(call.key, call.user, row.net), call.signatures[i]) == s.db.deposits[call.key].signers[i]
  {
    var s := Run(cfg, actions);
    var call := s.submissions[k];
    SubmittedSignatures(cfg, actions, k);
    assert WasAdded(cfg, actions, call.key, i);
    a :| AddedBy(cfg, actions, call.key, i, a);
    AddingRoundIsAccepted(cfg, actions, call.key, i, a);
    assert WasAsked(cfg, h, actions, a);
    j :| AskedAt(cfg, h, actions, a, j);
    RowIsForUser(cfg, actions, k, j);
  }

  /** So it recovers for what is submitted exactly if the row had the net amount of the call when it was read. (No
      signature recovers to one account for the hashes of two amounts.) */
  lemma SignatureRecoversIff(cfg: Config, h: MessageHash, actions: seq<Action>, k: nat, i: nat) returns (a: nat, j: nat)
    requires AsksForRows(cfg, h, actions) && k < |Run(cfg, actions).submissions|
    requires i < |Run(cfg, actions).submissions[k].signatures|
    requires var call := Run(cfg, actions).submissions[k];
             forall net :: net != call.net ==> cfg.recover(h(call.key, call.user, net), call.signatures[i])
                                               != cfg.recover(h(call.key, call.user, call.net), call.signatures[i])
    ensures var s := Run(cfg, actions); var call := s.submissions[k];
            && AddedBy(cfg, actions, call.key, i, a) && AskedAt(cfg, h, actions, a, j)
            && (cfg.recover(h(call.key, call.user, call.net), call.signatures[i]) == s.db.deposits[call.key].signers[i]
                <==> Run(cfg, actions[..j]).db.deposits[call.key].net == call.net)
  {
    a, j := SignatureIsForRow(cfg, h, actions, k, i);
  }

  /** Over every run whose rounds ask for the rows, if the fee is fixed or the configuration is tight: each call carries
      signatures, of that many different accounts, for exactly the user and the net amount it is made with. */
  lemma SubmittedSignaturesRecover(cfg: Config, h: MessageHash, actions: seq<Action>, k: nat)
    requires AsksForRows(cfg, h, actions) && k < |Run(cfg, actions).submissions|
    requires Tight(cfg) || FeeIsFixed(actions)
    ensures var s := Run(cfg, actions); var call := s.submissions[k]; var n := |call.signatures|;
            && SignedForCall(cfg, h, s, call)
            && |Members(s.db.deposits[call.key].signers[..n])| == n
  {
    SubmittedSignatures(cfg, actions, k);
    var s := Run(cfg, actions);
    var call := s.submissions[k];
    forall i | 0 <= i < |call.signatures|
      ensures cfg.recover(h(call.key, call.user, call.net), call.signatures[i]) == s.db.deposits[call.key].signers[i]
    {
      var a, j := SignatureIsForRow(cfg, h, actions, k, i);
      RowIsForUser(cfg, actions, k, j);
      if Tight(cfg) {
        AcceptedRowIsCall(cfg, actions, k, j);
      }
    }
  }

  // ---------------------------------------------------------------- a fee that changes between two rounds

  /** One deposit, two fee percentages, and two accounts that sign: the first for both net amounts. */
  datatype Case = Case(
    outpoint: Outpoint,
    address: string,
    user: EvmAddress,
    balance: RuneBalance,
    fee: Percentage,
    newFee: Percentage,
    first: EvmAddress,
    second: EvmAddress,
    early: Signature,
    late: Signature,
    other: Signature)
  {
    function Claim(): Key
    {
      Key(outpoint, balance.rune)
    }

    function Net(cfg: Config, percentage: Percentage): int
    {
      cfg.netAmount(percentage, balance.amount, balance.divisibility)
    }

    function HashWith(cfg: Config, h: MessageHash, percentage: Percentage): Hash
    {
      h(Claim(), user, Net(cfg, percentage))
    }
  }

  /** The accounts sign what they are asked to, and the early signature is not one of the new net amount. */
  ghost predicate IsCase(cfg: Config, h: MessageHash, c: Case)
  {
    && c.address != cfg.changeAddress && c.balance.amount < AMOUNT_LIMIT && c.first != c.second
    && cfg.recover(c.HashWith(cfg, h, c.fee), c.early) == c.first
    && cfg.recover(c.HashWith(cfg, h, c.newFee), c.late) == c.first
    && cfg.recover(c.HashWith(cfg, h, c.newFee), c.other) == c.second
    && cfg.recover(c.HashWith(cfg, h, c.newFee), c.early) != c.first
  }

  function Blocks(n: nat): seq<Action>
  {
    if n == 0 then [] else Blocks(n - 1) + [Mine([])]
  }

  function Beginning(c: Case, blocks: nat): seq<Action>
  {
    [Register(c.address, c.user), Mine([Output(c.outpoint, Some(c.address), [c.balance])])] + Blocks(blocks)
  }

  function ScanOnce(i: nat, fee: Percentage): seq<Action>
  {
    [BeginScan, List(i, [], {}), Commit(i, fee)]
  }

  function FirstRound(cfg: Config, h: MessageHash, c: Case): Action
  {
    Update(c.Claim(), c.HashWith(cfg, h, c.fee), {c.first, c.second}, [Answer(c.early, c.first)])
  }

  function SecondRound(cfg: Config, h: MessageHash, c: Case): Action
  {
    Update(c.Claim(), c.HashWith(cfg, h, c.newFee), {c.first, c.second}, [Answer(c.late, c.first), Answer(c.other, c.second)])
  }

  function CaseChain(c: Case, blocks: nat): Chain
  {
    Chain(1 + blocks, [Mined(1, Output(c.outpoint, Some(c.address), [c.balance]))])
  }

  lemma MineOne(o: Output)
    ensures MineAll(1, [o]) == [Mined(1, o)]
  {
    assert [o][..0] == [];
    assert MineAll(1, [o]) == MineAll(1, [o][..0]) + [Mined(1, o)];
  }

  /** The address is registered, the output is mined, and nothing else has happened. */
  ghost function Deposited(c: Case, blocks: nat): State
  {
    State(Db(map[], map[], map[c.address := c.user], None), CaseChain(c, blocks), [], [], [], {})
  }

  lemma OutputIsMined(cfg: Config, c: Case)
    requires c.balance.amount < AMOUNT_LIMIT
    ensures Apply(cfg, Apply(cfg, EMPTY, Register(c.address, c.user)), Mine([Output(c.outpoint, Some(c.address), [c.balance])]))
         == Deposited(c, 0)
  {
    var o := Output(c.outpoint, Some(c.address), [c.balance]);
    MineOne(o);
    assert ValidBlock(EMPTY.chain, [o]);
  }

  lemma BlockIsMined(cfg: Config, c: Case, blocks: nat)
    ensures Apply(cfg, Deposited(c, blocks), Mine([])) == Deposited(c, blocks + 1)
  {
    assert CaseChain(c, blocks).mined + MineAll(2 + blocks, []) == CaseChain(c, blocks).mined;
  }

  lemma FirstBlockIs(cfg: Config, c: Case)
    requires c.balance.amount < AMOUNT_LIMIT
    ensures Run(cfg, Beginning(c, 0)) == Deposited(c, 0)
  {
    var register, mine := Register(c.address, c.user), Mine([Output(c.outpoint, Some(c.address), [c.balance])]);
    RunSnoc(cfg, [], register);
    RunSnoc(cfg, [register], mine);
    OutputIsMined(cfg, c);
    assert [] + [register] == [register] && Beginning(c, 0) == [register] + [mine];
  }

  lemma {:induction false} BeginningIs(cfg: Config, c: Case, blocks: nat)
    requires c.balance.amount < AMOUNT_LIMIT
    ensures Run(cfg, Beginning(c, blocks)) == Deposited(c, blocks)
  {
    if blocks == 0 {
      FirstBlockIs(cfg, c);
    } else {
      BeginningIs(cfg, c, blocks - 1);
      assert Beginning(c, blocks) == Beginning(c, blocks - 1) + [Mine([])];
      RunSnoc(cfg, Beginning(c, blocks - 1), Mine([]));
      BlockIsMined(cfg, c, blocks - 1);
    }
  }

  function CaseEntry(c: Case, blocks: nat): Entry
  {
    Entry(c.outpoint, c.address, 1 + blocks, Some([c.balance]))
  }

  lemma CaseIsListed(cfg: Config, c: Case, blocks: nat, last: Option<int>)
    requires c.address != cfg.changeAddress && last in {None, Some(0)}
    ensures ListMined(cfg, CaseChain(c, blocks), last, {}, 1) + ListUnconfirmed(cfg, []) == [CaseEntry(c, blocks)]
  {
    assert ListMined(cfg, CaseChain(c, blocks), last, {}, 0) == [];
  }

  /** What a scan makes of the tables, as long as the last block it names is before the output. */
  ghost function Scanned(cfg: Config, s: State, fee: Percentage, e: Entry): State
  {
    s.(db := StoreEntries(cfg, fee, s.db, [e]).(lastBlock := Some(0)), scans := s.scans + [Over])
  }

  lemma ScanStepsAre(cfg: Config, c: Case, blocks: nat, s: State, fee: Percentage)
    requires c.address != cfg.changeAddress && cfg.requiredConfirmations <= 1 + blocks < cfg.listsinceblockBuffer
    requires s.chain == CaseChain(c, blocks) && s.db.lastBlock in {None, Some(0)}
    ensures var i := |s.scans|;
            var listed := Apply(cfg, Apply(cfg, s, BeginScan), List(i, [], {}));
            Apply(cfg, listed, Commit(i, fee)) == Scanned(cfg, s, fee, CaseEntry(c, blocks))
  {
    var last, i := s.db.lastBlock, |s.scans|;
    CaseIsListed(cfg, c, blocks, last);
    var listed := Apply(cfg, Apply(cfg, s, BeginScan), List(i, [], {}));
    assert listed == s.(scans := s.scans + [Listed(last, 0, [CaseEntry(c, blocks)], {})]);
    assert listed.scans[i := Over] == s.scans + [Over];
  }

  lemma ScanOnceIs(cfg: Config, c: Case, blocks: nat, actions: seq<Action>, s: State, fee: Percentage)
    requires c.address != cfg.changeAddress && cfg.requiredConfirmations <= 1 + blocks < cfg.listsinceblockBuffer
    requires Run(cfg, actions) == s && s.chain == CaseChain(c, blocks) && s.db.lastBlock in {None, Some(0)}
    ensures Run(cfg, actions + ScanOnce(|s.scans|, fee)) == Scanned(cfg, s, fee, CaseEntry(c, blocks))
  {
    var i := |s.scans|;
    var begun := actions + [BeginScan];
    var listed := begun + [List(i, [], {})];
    assert actions + ScanOnce(i, fee) == listed + [Commit(i, fee)];
    RunSnoc(cfg, actions, BeginScan);
    RunSnoc(cfg, begun, List(i, [], {}));
    RunSnoc(cfg, listed, Commit(i, fee));
    ScanStepsAre(cfg, c, blocks, s, fee);
  }

  /** Storing the entry creates the deposit as ACCEPTED, or rewrites its net amount. */
  lemma EntryIsStored(cfg: Config, c: Case, blocks: nat, db: Db, fee: Percentage)
    requires cfg.requiredConfirmations <= 1 + blocks && c.address in db.users && db.users[c.address] == c.user
    ensures var key, r := c.Claim(), StoreEntries(cfg, fee, db, [CaseEntry(c, blocks)]);
            && r.users == db.users
            && r.deposits == db.deposits[key :=
                 (if key in db.deposits then db.deposits[key] else NEW_DEPOSIT).(
                   status := if key in db.deposits && db.deposits[key].status != Detected then db.deposits[key].status else Accepted,
                   user := c.user, amount := c.balance.amount, net := c.Net(cfg, fee))]
  {
    var e, bs := CaseEntry(c, blocks), [c.balance];
    assert [e][..0] == [] && bs[..0] == [];
    assert StoreEntries(cfg, fee, db, [e]) == StoreEntry(cfg, fee, StoreEntries(cfg, fee, db, [e][..0]), e);
    var stored := StoreTx(cfg, db, e);
    assert StoreRunes(cfg, fee, stored, e, c.user, bs)
        == StoreRune(cfg, fee, StoreRunes(cfg, fee, stored, e, c.user, bs[..0]), e, c.user, c.balance);
  }

  /** The round asks for the row as it is. */
  ghost predicate AsksRow(cfg: Config, h: MessageHash, s: State, a: Action)
  {
    a.Update? && HasStatus(s.db, a.key, Accepted) ==>
      var d := s.db.deposits[a.key]; a.hash == h(a.key, d.user, d.net)
  }

  lemma AsksSnoc(cfg: Config, h: MessageHash, actions: seq<Action>, a: Action)
    requires AsksForRows(cfg, h, actions) && AsksRow(cfg, h, Run(cfg, actions), a)
    ensures AsksForRows(cfg, h, actions + [a])
  {
    var longer := actions + [a];
    forall i | 0 <= i < |longer| && longer[i].Update? && HasStatus(Run(cfg, longer[..i]).db, longer[i].key, Accepted)
      ensures WasAsked(cfg, h, longer, i)
    {
      assert longer[..i] == actions[..i];
      if i < |actions| {
        assert WasAsked(cfg, h, actions, i);
        var j :| AskedAt(cfg, h, actions, i, j);
        assert longer[..j] == actions[..j];
        assert AskedAt(cfg, h, longer, i, j);
      } else {
        assert actions[..i] == actions;
        assert AskedAt(cfg, h, longer, i, i);
      }
    }
  }

  lemma {:induction false} AsksAppend(cfg: Config, h: MessageHash, actions: seq<Action>, more: seq<Action>)
    requires AsksForRows(cfg, h, actions) && forall i :: 0 <= i < |more| ==> !more[i].Update?
    ensures AsksForRows(cfg, h, actions + more)
  {
    if more == [] {
      assert actions + more == actions;
    } else {
      var front, last := more[..|more| - 1], more[|more| - 1];
      AsksAppend(cfg, h, actions, front);
      AsksSnoc(cfg, h, actions + front, last);
      assert actions + more == (actions + front) + [last];
    }
  }

  /** The row after the first scan. */
  ghost function FirstRow(cfg: Config, c: Case): Deposit
  {
    NEW_DEPOSIT.(status := Accepted, user := c.user, amount := c.balance.amount, net := c.Net(cfg, c.fee))
  }

  ghost predicate HasRow(cfg: Config, c: Case, blocks: nat, s: State, row: Deposit)
  {
    && s.chain == CaseChain(c, blocks) && s.sends == [] && s.submissions == []
    && s.db.lastBlock == Some(0) && c.address in s.db.users && s.db.users[c.address] == c.user
    && s.db.deposits == map[c.Claim() := row]
  }

  lemma AfterFirstScan(cfg: Config, c: Case, blocks: nat)
    requires c.address != cfg.changeAddress && c.balance.amount < AMOUNT_LIMIT
    requires cfg.requiredConfirmations <= 1 + blocks < cfg.listsinceblockBuffer
    ensures var s := Run(cfg, Beginning(c, blocks) + ScanOnce(0, c.fee));
            HasRow(cfg, c, blocks, s, FirstRow(cfg, c)) && |s.scans| == 1
  {
    BeginningIs(cfg, c, blocks);
    var s := Run(cfg, Beginning(c, blocks));
    ScanOnceIs(cfg, c, blocks, Beginning(c, blocks), s, c.fee);
    EntryIsStored(cfg, c, blocks, s.db, c.fee);
  }

  /** The row after the first round. */
  ghost function SignedRow(cfg: Config, h: MessageHash, c: Case): Deposit
  {
    FirstRow(cfg, c).(messageHash := Some(c.HashWith(cfg, h, c.fee)), signers := [c.first], signatures := [c.early])
  }

  lemma FirstRoundIs(cfg: Config, h: MessageHash, c: Case, blocks: nat, s: State)
    requires IsCase(cfg, h, c) && HasRow(cfg, c, blocks, s, FirstRow(cfg, c))
    ensures var t := Apply(cfg, s, FirstRound(cfg, h, c));
            t.scans == s.scans && HasRow(cfg, c, blocks, t, SignedRow(cfg, h, c))
  {
    var answers := [Answer(c.early, c.first)];
    var hash, named := c.HashWith(cfg, h, c.fee), FirstRow(cfg, c).(messageHash := Some(c.HashWith(cfg, h, c.fee)));
    assert answers[..0] == [];
    assert Prune(cfg, {c.first, c.second}, hash, answers) == answers;
    assert Collect(named, answers[..0]) == named;
    var row := SignedRow(cfg, h, c);
    assert UpdateSignatures(cfg, FirstRow(cfg, c), hash, {c.first, c.second}, answers) == row;
    assert map[c.Claim() := FirstRow(cfg, c)][c.Claim() := row] == map[c.Claim() := row];
  }

  /** The row after the second scan. */
  ghost function Rewritten(cfg: Config, h: MessageHash, c: Case): Deposit
  {
    SignedRow(cfg, h, c).(net := c.Net(cfg, c.newFee))
  }

  /** The row after the second round. */
  ghost function SignedAgain(cfg: Config, h: MessageHash, c: Case): Deposit
  {
    Rewritten(cfg, h, c).(messageHash := Some(c.HashWith(cfg, h, c.newFee)), signers := [c.first, c.second],
                          signatures := [c.early, c.other])
  }

  lemma SecondRoundIs(cfg: Config, h: MessageHash, c: Case, blocks: nat, s: State)
    requires IsCase(cfg, h, c) && HasRow(cfg, c, blocks, s, Rewritten(cfg, h, c))
    ensures HasRow(cfg, c, blocks, Apply(cfg, s, SecondRound(cfg, h, c)), SignedAgain(cfg, h, c))
  {
    var one, two := [Answer(c.late, c.first)], [Answer(c.late, c.first), Answer(c.other, c.second)];
    var hash, both := c.HashWith(cfg, h, c.newFee), {c.first, c.second};
    var named := Rewritten(cfg, h, c).(messageHash := Some(hash));
    assert one[..0] == [] && two[..1] == one;
    assert Prune(cfg, both, hash, one[..0]) == [];
    assert Prune(cfg, both, hash, one) == one;
    assert !Signed(one, c.second);
    assert Prune(cfg, both, hash, two) == one + [two[1]] == two;
    assert Collect(named, one[..0]) == named;
    assert Collect(named, one) == named;
    var row := SignedAgain(cfg, h, c);
    assert UpdateSignatures(cfg, Rewritten(cfg, h, c), hash, both, two) == row;
    assert map[c.Claim() := Rewritten(cfg, h, c)][c.Claim() := row] == map[c.Claim() := row];
  }

  /** Two scans with different fees, and a round after each. */
  function TwoRounds(cfg: Config, h: MessageHash, c: Case, blocks: nat): seq<Action>
  {
    Beginning(c, blocks) + ScanOnce(0, c.fee) + [FirstRound(cfg, h, c)] + ScanOnce(1, c.newFee) + [SecondRound(cfg, h, c)]
  }

  lemma {:induction false} BlocksOnlyMine(n: nat)
    ensures forall i :: 0 <= i < |Blocks(n)| ==> Blocks(n)[i].Mine?
  {
    if n > 0 {
      BlocksOnlyMine(n - 1);
    }
  }

  lemma AfterRounds(cfg: Config, h: MessageHash, c: Case, blocks: nat)
    requires IsCase(cfg, h, c) && cfg.requiredConfirmations <= 1 + blocks < cfg.listsinceblockBuffer
    ensures AsksForRows(cfg, h, TwoRounds(cfg, h, c, blocks))
    ensures HasRow(cfg, c, blocks, Run(cfg, TwoRounds(cfg, h, c, blocks)), SignedAgain(cfg, h, c))
  {
    var scanned := Beginning(c, blocks) + ScanOnce(0, c.fee);
    var asked := scanned + [FirstRound(cfg, h, c)];
    var rescanned := asked + ScanOnce(1, c.newFee);
    AfterFirstScan(cfg, c, blocks);
    FirstRoundIs(cfg, h, c, blocks, Run(cfg, scanned));
    RunSnoc(cfg, scanned, FirstRound(cfg, h, c));
    var s := Run(cfg, asked);
    ScanOnceIs(cfg, c, blocks, asked, s, c.newFee);
    EntryIsStored(cfg, c, blocks, s.db, c.newFee);
    SecondRoundIs(cfg, h, c, blocks, Run(cfg, rescanned));
    RunSnoc(cfg, rescanned, SecondRound(cfg, h, c));
    BlocksOnlyMine(blocks);
    AsksAppend(cfg, h, [], scanned);
    assert [] + scanned == scanned;
    RoundsAsk(cfg, h, c, scanned);
  }

  lemma RoundsAsk(cfg: Config, h: MessageHash, c: Case, scanned: seq<Action>)
    requires AsksForRows(cfg, h, scanned)
    requires AsksRow(cfg, h, Run(cfg, scanned), FirstRound(cfg, h, c))
    requires AsksRow(cfg, h, Run(cfg, scanned + [FirstRound(cfg, h, c)] + ScanOnce(1, c.newFee)), SecondRound(cfg, h, c))
    ensures AsksForRows(cfg, h, scanned + [FirstRound(cfg, h, c)] + ScanOnce(1, c.newFee) + [SecondRound(cfg, h, c)])
  {
    var asked := scanned + [FirstRound(cfg, h, c)];
    AsksSnoc(cfg, h, scanned, FirstRound(cfg, h, c));
    AsksAppend(cfg, h, asked, ScanOnce(1, c.newFee));
    AsksSnoc(cfg, h, asked + ScanOnce(1, c.newFee), SecondRound(cfg, h, c));
  }

  lemma CallIsMade(cfg: Config, h: MessageHash, c: Case, blocks: nat, s: State)
    requires IsCase(cfg, h, c) && HasRow(cfg, c, blocks, s, SignedAgain(cfg, h, c))
    ensures var call := Submission(c.Claim(), c.user, c.Net(cfg, c.newFee), [c.early, c.other]);
            var t := Apply(cfg, Apply(cfg, s, BeginSend(c.Claim(), false, 2)), Submit(0, 0, false));
            t.submissions == [call] && !SignedForCall(cfg, h, t, call)
  {
    assert [c.early, c.other][..2] == [c.early, c.other];
    var t := Apply(cfg, Apply(cfg, s, BeginSend(c.Claim(), false, 2)), Submit(0, 0, false));
    assert t.submissions == [Submission(c.Claim(), c.user, c.Net(cfg, c.newFee), [c.early, c.other])];
    assert t.submissions[0].signatures[0] == c.early;
  }

  /** Whenever the configuration is not tight there is a run whose rounds ask for the rows, and a call in it that carries
      a signature of another net amount than it is made with: the fee has changed, and a scan has rewritten the row. */
  lemma StaleSignatureIsSent(cfg: Config, h: MessageHash, c: Case) returns (actions: seq<Action>)
    requires IsCase(cfg, h, c) && !Tight(cfg)
    ensures AsksForRows(cfg, h, actions)
    ensures var s := Run(cfg, actions);
            && |s.submissions| == 1
            && s.submissions[0] == Submission(c.Claim(), c.user, c.Net(cfg, c.newFee), [c.early, c.other])
            && !SignedForCall(cfg, h, s, s.submissions[0])
  {
    var blocks := if cfg.requiredConfirmations <= 1 then 0 else cfg.requiredConfirmations - 1;
    var rounds := TwoRounds(cfg, h, c, blocks);
    AfterRounds(cfg, h, c, blocks);
    var prepared := rounds + [BeginSend(c.Claim(), false, 2)];
    actions := prepared + [Submit(0, 0, false)];
    RunSnoc(cfg, rounds, BeginSend(c.Claim(), false, 2));
    RunSnoc(cfg, prepared, Submit(0, 0, false));
    AsksSnoc(cfg, h, rounds, BeginSend(c.Claim(), false, 2));
    AsksSnoc(cfg, h, prepared, Submit(0, 0, false));
    CallIsMade(cfg, h, c, blocks, Run(cfg, rounds));
  }

  ghost predicate AllCallsSigned(cfg: Config, h: MessageHash, actions: seq<Action>)
  {
    var s := Run(cfg, actions);
    forall k :: 0 <= k < |s.submissions| ==> SignedForCall(cfg, h, s, s.submissions[k])
  }

  /** So if there are two fees and accounts that sign, a configuration is safe against a change of the fee exactly if it
      is tight: a scan accepts a deposit only when it moves the last block past it. */
  lemma SafeIffTight(cfg: Config, h: MessageHash, c: Case)
    requires IsCase(cfg, h, c)
    ensures (forall actions :: AsksForRows(cfg, h, actions) ==> AllCallsSigned(cfg, h, actions)) <==> Tight(cfg)
  {
    if Tight(cfg) {
      forall actions | AsksForRows(cfg, h, actions)
        ensures AllCallsSigned(cfg, h, actions)
      {
        forall k | 0 <= k < |Run(cfg, actions).submissions|
          ensures SignedForCall(cfg, h, Run(cfg, actions), Run(cfg, actions).submissions[k])
        {
          SubmittedSignaturesRecover(cfg, h, actions, k);
        }
      }
    } else {
      var actions := StaleSignatureIsSent(cfg, h, c);
      assert !AllCallsSigned(cfg, h, actions);
    }
  }
}
