/** The service that drives rune deposits, one undisturbed call at a time. What a call does to the tables and
    submits is what the steps of the deposit machine do. */
module RuneBridgeService {
  import opened Wrappers
  import opened Transactions
  import opened RuneDeposits

  /** What a call can raise. */
  datatype Failure = NotFound | ValidationError | ValueError | RuntimeError | EvmError

  /** What the EVM node and the messenger make of acceptTransferFromBtc. */
  datatype Reply = TransactRaises | Transacted(txHash: Hash, messengerRaises: bool)

  /** The machine with nothing in progress. */
  function Between(db: Db, chain: Chain, submissions: seq<Submission>): State
  {
    State(db, chain, [], [], submissions, {})
  }

  /** The steps of one call of scan_rune_deposits. */
  function ScanSteps(cfg: Config, fee: Percentage, s: State, pool: seq<Unconfirmed>, unindexed: set<Outpoint>): State
  {
    Apply(cfg, Apply(cfg, Apply(cfg, s, BeginScan), List(0, pool, unindexed)), Commit(0, fee))
  }

  /** The steps of one call of send_rune_deposit_to_evm. */
  function SendSteps(cfg: Config, s: State, key: Key, frozen: bool, numRequired: nat, canPay: bool, reply: Reply,
                     receipt: Option<bool>): State
  {
    var prepared := Apply(cfg, s, BeginSend(key, frozen, numRequired));
    if prepared.sends == [] then prepared
    else if !canPay then Apply(cfg, prepared, Abandon(0))
    else
      match reply
      case TransactRaises => Apply(cfg, Apply(cfg, prepared, Submit(0, 0, true)), Record(0))
      case Transacted(txHash, messengerRaises) =>
        var submitted := Apply(cfg, prepared, Submit(0, txHash, false));
        if messengerRaises then Apply(cfg, Apply(cfg, submitted, NotifyRaises(0)), Record(0))
        else
          var recorded := Apply(cfg, submitted, Record(0));
          if receipt == None then recorded else Apply(cfg, recorded, Confirm(key, receipt.value))
  }

  /** The call that a send prepares. */
  function PreparedCall(d: Deposit, key: Key, numRequired: nat): Submission
    requires numRequired <= |d.signatures|
  {
    Submission(key, d.user, d.net, d.signatures[..numRequired])
  }

  /** A deposit after its call was made. */
  function Finished(d: Deposit, reply: Reply, receipt: Option<bool>): Deposit
  {
    if reply == TransactRaises || reply.messengerRaises then d.(status := SendingToEvmFailed)
    else
      var status := if receipt == None then SentToEvm else if receipt.value then ConfirmedInEvm else EvmTransactionFailed;
      d.(status := status, evmTxHash := Some(reply.txHash))
  }

  lemma PreparedSteps(cfg: Config, s: State, key: Key, numRequired: nat)
    requires s.sends == [] && HasStatus(s.db, key, Accepted) && numRequired <= |s.db.deposits[key].signatures|
    ensures Apply(cfg, s, BeginSend(key, false, numRequired))
         == s.(db := SetStatus(s.db, key, SendingToEvm), sends := [Send(PreparedCall(s.db.deposits[key], key, numRequired), Prepared)])
  {
  }

  /** A prepared call that raises, at once or when the messenger is told, ends as failed. */
  lemma FailedCall(cfg: Config, s: State, call: Submission, txHash: Hash)
    requires s.sends == [Send(call, Prepared)] && call.key in s.db.deposits
    ensures var t := Apply(cfg, Apply(cfg, s, Submit(0, txHash, true)), Record(0));
            t.db == SetStatus(s.db, call.key, SendingToEvmFailed) && t.submissions == s.submissions + [call]
  {
  }

  lemma NotNotifiedCall(cfg: Config, s: State, call: Submission, txHash: Hash)
    requires s.sends == [Send(call, Prepared)] && call.key in s.db.deposits
    ensures var t := Apply(cfg, Apply(cfg, Apply(cfg, s, Submit(0, txHash, false)), NotifyRaises(0)), Record(0));
            t.db == SetStatus(s.db, call.key, SendingToEvmFailed) && t.submissions == s.submissions + [call]
  {
  }

  /** A prepared call that goes through is recorded with its hash. */
  lemma SentCall(cfg: Config, s: State, call: Submission, txHash: Hash)
    requires s.sends == [Send(call, Prepared)] && call.key in s.db.deposits
    ensures var t := Apply(cfg, Apply(cfg, s, Submit(0, txHash, false)), Record(0));
            var sent := s.db.deposits[call.key].(status := SentToEvm, evmTxHash := Some(txHash));
            t.db == s.db.(deposits := s.db.deposits[call.key := sent]) && t.submissions == s.submissions + [call]
  {
  }

  /** Without an accepted deposit that has enough signatures nothing happens. */
  lemma NothingToSend(cfg: Config, s: State, key: Key, frozen: bool, numRequired: nat, canPay: bool, reply: Reply,
                      receipt: Option<bool>)
    requires s.sends == []
    requires frozen || !HasStatus(s.db, key, Accepted) || |s.db.deposits[key].signatures| < numRequired
    ensures SendSteps(cfg, s, key, frozen, numRequired, canPay, reply, receipt) == s
  {
  }

  lemma AbandonedSteps(cfg: Config, s: State, key: Key, numRequired: nat, reply: Reply, receipt: Option<bool>)
    requires s.sends == [] && HasStatus(s.db, key, Accepted) && numRequired <= |s.db.deposits[key].signatures|
    ensures var t := SendSteps(cfg, s, key, false, numRequired, false, reply, receipt);
            t.db == SetStatus(s.db, key, SendingToEvm) && t.submissions == s.submissions
  {
    PreparedSteps(cfg, s, key, numRequired);
  }

  /** What a whole call comes to when the deposit is accepted and has enough signatures. */
  lemma SendStepsAre(cfg: Config, s: State, key: Key, numRequired: nat, canPay: bool, reply: Reply, receipt: Option<bool>)
    requires s.sends == [] && HasStatus(s.db, key, Accepted) && numRequired <= |s.db.deposits[key].signatures|
    ensures var t := SendSteps(cfg, s, key, false, numRequired, canPay, reply, receipt);
            var sending := s.db.deposits[key].(status := SendingToEvm);
            var deposit := if canPay then Finished(sending, reply, receipt) else sending;
            && t.db == s.db.(deposits := s.db.deposits[key := deposit])
            && t.submissions == s.submissions + if canPay then [PreparedCall(s.db.deposits[key], key, numRequired)] else []
  {
    if !canPay {
      AbandonedSteps(cfg, s, key, numRequired, reply, receipt);
      return;
    }
    PreparedSteps(cfg, s, key, numRequired);
    var prepared := Apply(cfg, s, BeginSend(key, false, numRequired));
    var call := PreparedCall(s.db.deposits[key], key, numRequired);
    match reply
    case TransactRaises => FailedCall(cfg, prepared, call, 0);
    case Transacted(txHash, true) => NotNotifiedCall(cfg, prepared, call, txHash);
    case Transacted(txHash, false) => SentCall(cfg, prepared, call, txHash);
  }

  /** The deposit is accepted and has the signatures. */
  ghost predicate CanSend(deposits: map<Key, Deposit>, key: Key, numRequired: nat)
  {
    key in deposits && deposits[key].status == Accepted && numRequired <= |deposits[key].signatures|
  }

  class RuneBridgeService {
    const cfg: Config
    var fee: Percentage
    var btcTxs: map<Outpoint, BtcTx>
    var deposits: map<Key, Deposit>
    var users: map<string, EvmAddress>
    var lastBlock: Option<int>
    var submissions: seq<Submission>

    constructor (cfg: Config, fee: Percentage)
      ensures this.cfg == cfg && this.fee == fee && Tables() == EMPTY.db && submissions == []
    {
      this.cfg, this.fee := cfg, fee;
      btcTxs, deposits, users, lastBlock, submissions := map[], map[], map[], None, [];
    }

    ghost function Tables(): Db
      reads this
    {
      Db(btcTxs, deposits, users, lastBlock)
    }

    /** The response of listsinceblock, without the transactions that are skipped. */
    method ListTransactions(chain: Chain, last: Option<int>, pool: seq<Unconfirmed>, unindexed: set<Outpoint>)
      returns (transactions: seq<Entry>)
      ensures transactions == ListMined(cfg, chain, last, unindexed, |chain.mined|) + ListUnconfirmed(cfg, pool)
    {
      transactions := [];
      for i := 0 to |chain.mined|
        invariant transactions == ListMined(cfg, chain, last, unindexed, i)
      {
        var m := chain.mined[i];
        if !After(last, m.height) || m.output.address == None {
          continue;
        }
        if m.output.address.value == cfg.changeAddress {
          continue;
        }
        var ordOutput := if m.output.outpoint in unindexed then None else Some(m.output.runes);
        transactions := transactions + [Entry(m.output.outpoint, m.output.address.value, chain.tip - m.height + 1, ordOutput)];
      }
      ghost var confirmed := transactions;
      for i := 0 to |pool|
        invariant transactions == confirmed + ListUnconfirmed(cfg, pool[..i])
      {
        assert pool[..i + 1][..i] == pool[..i];
        if pool[i].address != cfg.changeAddress {
          transactions := transactions + [Entry(pool[i].outpoint, pool[i].address, 0 - pool[i].depth, None)];
        }
      }
      assert pool[..|pool|] == pool;
    }

    /** One rune of a transaction: find or create its deposit. */
    method IndexRune(e: Entry, user: EvmAddress, b: RuneBalance)
      modifies `deposits
      ensures Tables() == StoreRune(cfg, fee, old(Tables()), e, user, b)
    {
      var key := Key(e.outpoint, b.rune);
      var deposit := if key in deposits then deposits[key] else NEW_DEPOSIT;
      deposit := deposit.(user := user, amount := b.amount, net := cfg.netAmount(fee, b.amount, b.divisibility));
      if e.confirmations >= cfg.requiredConfirmations && deposit.status == Detected {
        deposit := deposit.(status := Accepted);
      }
      deposits := deposits[key := deposit];
    }

    /** One transaction of the list: find or create its row, then the deposits of its runes. */
    method IndexTransaction(e: Entry)
      modifies `btcTxs, `deposits
      ensures Tables() == StoreEntry(cfg, fee, old(Tables()), e)
    {
      var btcTx := if e.outpoint in btcTxs then btcTxs[e.outpoint] else BtcTx(TxDetected, e.address, None);
      if e.confirmations >= cfg.requiredConfirmations && btcTx.status == TxDetected {
        btcTx := btcTx.(status := TxAccepted);
      }
      btcTx := btcTx.(address := e.address);
      if e.address in users {
        btcTx := btcTx.(user := Some(users[e.address]));
      }
      btcTxs := btcTxs[e.outpoint := btcTx];
      if e.address !in users || e.balances == None {
        return;
      }
      var runes := e.balances.value;
      ghost var stored := Tables();
      for i := 0 to |runes|
        invariant Tables() == StoreRunes(cfg, fee, stored, e, users[e.address], runes[..i])
        invariant users == old(users) && lastBlock == old(lastBlock)
      {
        assert runes[..i + 1][..i] == runes[..i];
        IndexRune(e, users[e.address], runes[i]);
      }
      assert runes[..|runes|] == runes;
    }

    method ScanRuneDeposits(chain: Chain, pool: seq<Unconfirmed>, unindexed: set<Outpoint>) returns (outcome: Result<(), Failure>)
      modifies `btcTxs, `deposits, `lastBlock
      ensures Tables() == ScanSteps(cfg, fee, Between(old(Tables()), chain, old(submissions)), pool, unindexed).db
      ensures outcome.Ok? <==> cfg.listsinceblockBuffer >= 1 && cfg.listsinceblockBuffer >= cfg.requiredConfirmations
      ensures outcome == Raise(ValueError) <==> cfg.listsinceblockBuffer < cfg.requiredConfirmations
      ensures outcome == Raise(RuntimeError) <==> cfg.requiredConfirmations <= cfg.listsinceblockBuffer < 1
    {
      var lastBitcoinBlock := lastBlock;
      if cfg.listsinceblockBuffer < cfg.requiredConfirmations {
        return Raise(ValueError);
      }
      if cfg.listsinceblockBuffer < 1 {
        return Raise(RuntimeError);
      }
      var newLastBlock := LastBlock(chain.tip, cfg.listsinceblockBuffer);
      var transactions := ListTransactions(chain, lastBitcoinBlock, pool, unindexed);
      ghost var before := Tables();
      for i := 0 to |transactions|
        invariant Tables() == StoreEntries(cfg, fee, before, transactions[..i])
        invariant lastBlock == lastBitcoinBlock && submissions == old(submissions)
      {
        assert transactions[..i + 1][..i] == transactions[..i];
        IndexTransaction(transactions[i]);
      }
      assert transactions[..|transactions|] == transactions;
      lastBlock := Some(newLastBlock);
      return Ok(());
    }

    /** The valid answers, the first of each signer. */
    method PruneInvalidAnswers(federators: set<EvmAddress>, messageHash: Hash, answers: seq<Answer>) returns (ret: seq<Answer>)
      ensures ret == Prune(cfg, federators, messageHash, answers)
    {
      var signers: set<EvmAddress> := {};
      ret := [];
      for i := 0 to |answers|
        invariant ret == Prune(cfg, federators, messageHash, answers[..i])
        invariant forall signer :: signer in signers <==> Signed(ret, signer)
      {
        assert answers[..i + 1][..i] == answers[..i];
        var answer := answers[i];
        if answer.signer in signers {
          continue;
        }
        if answer.signer !in federators {
          continue;
        }
        if cfg.recover(messageHash, answer.signature) != answer.signer {
          continue;
        }
        forall signer
          ensures Signed(ret + [answer], signer) <==> Signed(ret, signer) || signer == answer.signer
        {
          assert answer in ret + [answer];
          assert forall a :: a in ret ==> a in ret + [answer];
        }
        ret := ret + [answer];
        signers := signers + {answer.signer};
      }
      assert answers[..|answers|] == answers;
    }

    method UpdateRuneDepositSignatures(key: Key, messageHash: Hash, answers: seq<Answer>, federators: set<EvmAddress>, numRequired: nat)
      returns (outcome: Result<bool, Failure>)
      modifies `deposits
      ensures Tables() == Apply(cfg, Between(old(Tables()), Chain(0, []), submissions), Update(key, messageHash, federators, answers)).db
      ensures outcome == if key !in old(deposits) then Raise(NotFound)
                         else if old(deposits)[key].status != Accepted then Raise(ValidationError)
                         else Ok(|deposits[key].signatures| >= numRequired)
    {
      if key !in deposits {
        return Raise(NotFound);
      }
      if deposits[key].status != Accepted {
        return Raise(ValidationError);
      }
      var deposit := deposits[key].(messageHash := Some(messageHash));
      ghost var named := deposit;
      var valid := PruneInvalidAnswers(federators, messageHash, answers);
      for i := 0 to |valid|
        invariant deposit == Collect(named, valid[..i])
      {
        assert valid[..i + 1][..i] == valid[..i];
        if valid[i].signer !in deposit.signers {
          deposit := deposit.(signers := deposit.signers + [valid[i].signer],
                              signatures := deposit.signatures + [valid[i].signature]);
        }
      }
      assert valid[..|valid|] == valid;
      deposits := deposits[key := deposit];
      return Ok(|deposit.signatures| >= numRequired);
    }

    method ConfirmSentRuneDeposit(key: Key, receipt: Option<bool>)
      modifies `deposits
      ensures Tables() == if receipt == None then old(Tables())
                          else Apply(cfg, Between(old(Tables()), Chain(0, []), submissions), Confirm(key, receipt.value)).db
      ensures HasStatus(old(Tables()), key, SentToEvm) && receipt.Some? ==>
                deposits == old(deposits)[key := old(deposits)[key].(
                  status := if receipt.value then ConfirmedInEvm else EvmTransactionFailed)]
    {
      var updatedStatus: Option<Status> := None;
      if key in deposits && deposits[key].status == SentToEvm {
        if receipt.Some? {
          updatedStatus := Some(if receipt.value then ConfirmedInEvm else EvmTransactionFailed);
        }
      }
      if updatedStatus.Some? {
        deposits := deposits[key := deposits[key].(status := updatedStatus.value)];
      }
    }

    method SendRuneDepositToEvm(key: Key, frozen: bool, numRequired: nat, canPay: bool, reply: Reply, receipt: Option<bool>)
      returns (outcome: Result<(), Failure>)
      modifies `deposits, `submissions
      ensures var s := SendSteps(cfg, Between(old(Tables()), Chain(0, []), old(submissions)), key, frozen, numRequired,
                                 canPay, reply, receipt);
              Tables() == s.db && submissions == s.submissions
      ensures frozen ==> outcome == Ok(()) && Tables() == old(Tables())
      ensures outcome == Raise(NotFound) <==> !frozen && key !in old(deposits)
      ensures outcome == Raise(ValidationError) <==> !frozen && key in old(deposits) && old(deposits)[key].status != Accepted
      ensures outcome == Raise(RuntimeError) <==> !frozen && CanSend(old(deposits), key, numRequired) && !canPay
      ensures outcome == Raise(EvmError) <==>
                !frozen && CanSend(old(deposits), key, numRequired) && canPay && (reply.TransactRaises? || reply.messengerRaises)
      ensures !frozen && HasStatus(old(Tables()), key, Accepted) && |old(deposits)[key].signatures| < numRequired ==>
                outcome == Ok(()) && Tables() == old(Tables())
      ensures outcome.Ok? || outcome.error in {NotFound, ValidationError, RuntimeError, EvmError}
      ensures outcome.Ok? && submissions != old(submissions) ==>
                key in deposits && deposits[key].status in {SentToEvm, ConfirmedInEvm, EvmTransactionFailed}
    {
      ghost var s := Between(Tables(), Chain(0, []), submissions);
      if frozen || !HasStatus(s.db, key, Accepted) || |s.db.deposits[key].signatures| < numRequired {
        NothingToSend(cfg, s, key, frozen, numRequired, canPay, reply, receipt);
      } else {
        SendStepsAre(cfg, s, key, numRequired, canPay, reply, receipt);
      }
      if frozen {
        return Ok(());
      }
      if key !in deposits {
        return Raise(NotFound);
      }
      if deposits[key].status != Accepted {
        return Raise(ValidationError);
      }
      var signatures := deposits[key].signatures;
      if |signatures| < numRequired {
        return Ok(());
      }
      signatures := signatures[..numRequired];
      var call := Submission(key, deposits[key].user, deposits[key].net, signatures);
      deposits := deposits[key := deposits[key].(status := SendingToEvm)];
      if !canPay {
        return Raise(RuntimeError);
      }
      submissions := submissions + [call];
      if reply == TransactRaises || reply.messengerRaises {
        deposits := deposits[key := deposits[key].(status := SendingToEvmFailed)];
        return Raise(EvmError);
      }
      deposits := deposits[key := deposits[key].(status := SentToEvm, evmTxHash := Some(reply.txHash))];
      ConfirmSentRuneDeposit(key, receipt);
      return Ok(());
    }
  }
}
