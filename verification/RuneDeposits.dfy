/** Rune deposits on their way to the EVM chain: scanning Bitcoin, collecting signatures, submitting and confirming.
    The database is a value; each action is one committed transaction, one outside event, or a crash. */
module RuneDeposits {
  import opened Wrappers
  import opened Transactions
  import opened RuneAllocation
  import Decimals

  /** EVM addresses, hashes and signatures are numbers. */
  type EvmAddress = int
  type Hash = int
  type Signature = int

  // ---------------------------------------------------------------- the Bitcoin chain

  datatype RuneBalance = RuneBalance(rune: Rune, amount: nat, divisibility: nat)

  /** An output received by the wallet. */
  datatype Output = Output(outpoint: Outpoint, address: Option<string>, runes: seq<RuneBalance>)

  /** An output in the block at `height`. */
  datatype Mined = Mined(height: int, output: Output)

  datatype Chain = Chain(tip: int, mined: seq<Mined>)

  /** A transaction that is not in a block, or was displaced from one. */
  datatype Unconfirmed = Unconfirmed(outpoint: Outpoint, address: string, depth: nat)

  // ---------------------------------------------------------------- the database

  datatype TxStatus = TxDetected | TxAccepted

  datatype BtcTx = BtcTx(status: TxStatus, address: string, user: Option<EvmAddress>)

  datatype Status =
    | Detected
    | Accepted
    | SendingToEvm
    | SentToEvm
    | ConfirmedInEvm
    | SendingToEvmFailed
    | EvmTransactionFailed

  datatype Key = Key(outpoint: Outpoint, rune: Rune)

  datatype Deposit = Deposit(
    status: Status,
    user: EvmAddress,
    amount: nat,
    net: int,
    messageHash: Option<Hash>,
    signatures: seq<Signature>,
    signers: seq<EvmAddress>,
    evmTxHash: Option<Hash>)

  /** The unique keys of the tables are the keys of the maps. `users` gives the user of each deposit address. */
  datatype Db = Db(
    btcTxs: map<Outpoint, BtcTx>,
    deposits: map<Key, Deposit>,
    users: map<string, EvmAddress>,
    lastBlock: Option<int>)

  /** The percentage of the fee, which a node may change when it is restarted. */
  type Percentage = Decimals.Decimal

  datatype Config = Config(
    requiredConfirmations: int,
    listsinceblockBuffer: int,
    changeAddress: string,
    netAmount: (Percentage, nat, nat) -> int,
    recover: (Hash, Signature) -> EvmAddress)

  // ---------------------------------------------------------------- scanning

  /** A transaction to index; the balances are there once ord has indexed the output. */
  datatype Entry = Entry(outpoint: Outpoint, address: string, confirmations: int, balances: Option<seq<RuneBalance>>)

  /** `dropped` are the spent outputs that ord no longer showed. */
  datatype Scan =
    | Begun(lastRead: Option<int>)
    | Listed(lastRead: Option<int>, newLast: int, entries: seq<Entry>, dropped: set<Outpoint>)
    | Over

  /** The block listsinceblock names as the last: the one with `buffer` confirmations, or the first. */
  function LastBlock(tip: int, buffer: int): int
  {
    if tip + 1 <= buffer then 0 else tip + 1 - buffer
  }

  predicate After(last: Option<int>, height: int)
  {
    last == None || last.value < height
  }

  /** The entries of the blocks after `last`, without those that are skipped; a spent output that ord no longer
      shows has no balances. */
  function ListMined(cfg: Config, chain: Chain, last: Option<int>, unindexed: set<Outpoint>, n: nat): seq<Entry>
    requires n <= |chain.mined|
  {
    if n == 0 then []
    else
      var before, m := ListMined(cfg, chain, last, unindexed, n - 1), chain.mined[n - 1];
      if !After(last, m.height) || m.output.address == None || m.output.address == Some(cfg.changeAddress) then before
      else before + [Entry(m.output.outpoint, m.output.address.value, chain.tip - m.height + 1,
                           if m.output.outpoint in unindexed then None else Some(m.output.runes))]
  }

  function ListUnconfirmed(cfg: Config, pool: seq<Unconfirmed>): seq<Entry>
  {
    if pool == [] then []
    else
      var u := pool[|pool| - 1];
      ListUnconfirmed(cfg, pool[..|pool| - 1])
        + if u.address == cfg.changeAddress then [] else [Entry(u.outpoint, u.address, 0 - u.depth, None)]
  }

  function StoreTx(cfg: Config, db: Db, e: Entry): Db
  {
    var known := e.outpoint in db.btcTxs;
    var detected := !known || db.btcTxs[e.outpoint].status == TxDetected;
    var status := if detected && e.confirmations < cfg.requiredConfirmations then TxDetected else TxAccepted;
    var user := if e.address in db.users then Some(db.users[e.address])
                else if known then db.btcTxs[e.outpoint].user else None;
    db.(btcTxs := db.btcTxs[e.outpoint := BtcTx(status, e.address, user)])
  }

  const NEW_DEPOSIT := Deposit(Detected, 0, 0, 0, None, [], [], None)

  /** Find or create the deposit of one rune; it only ever moves from DETECTED to ACCEPTED here. */
  function StoreRune(cfg: Config, fee: Percentage, db: Db, e: Entry, user: EvmAddress, b: RuneBalance): Db
  {
    var key := Key(e.outpoint, b.rune);
    var found := if key in db.deposits then db.deposits[key] else NEW_DEPOSIT;
    var status := if found.status == Detected && e.confirmations >= cfg.requiredConfirmations then Accepted else found.status;
    var deposit := found.(status := status, user := user, amount := b.amount,
                          net := cfg.netAmount(fee, b.amount, b.divisibility));
    db.(deposits := db.deposits[key := deposit])
  }

  function StoreRunes(cfg: Config, fee: Percentage, db: Db, e: Entry, user: EvmAddress, bs: seq<RuneBalance>): Db
  {
    if bs == [] then db
    else StoreRune(cfg, fee, StoreRunes(cfg, fee, db, e, user, bs[..|bs| - 1]), e, user, bs[|bs| - 1])
  }

  function StoreEntry(cfg: Config, fee: Percentage, db: Db, e: Entry): Db
  {
    var stored := StoreTx(cfg, db, e);
    if e.address !in db.users || e.balances == None then stored
    else StoreRunes(cfg, fee, stored, e, db.users[e.address], e.balances.value)
  }

  function StoreEntries(cfg: Config, fee: Percentage, db: Db, es: seq<Entry>): Db
  {
    if es == [] then db else StoreEntry(cfg, fee, StoreEntries(cfg, fee, db, es[..|es| - 1]), es[|es| - 1])
  }

  // ---------------------------------------------------------------- signatures

  datatype Answer = Answer(signature: Signature, signer: EvmAddress)

  predicate ValidAnswer(cfg: Config, federators: set<EvmAddress>, hash: Hash, a: Answer)
  {
    a.signer in federators && cfg.recover(hash, a.signature) == a.signer
  }

  predicate Signed(answers: seq<Answer>, signer: EvmAddress)
  {
    exists a :: a in answers && a.signer == signer
  }

  /** The valid answers, the first of each signer. */
  function Prune(cfg: Config, federators: set<EvmAddress>, hash: Hash, answers: seq<Answer>): seq<Answer>
  {
    if answers == [] then []
    else
      var kept, last := Prune(cfg, federators, hash, answers[..|answers| - 1]), answers[|answers| - 1];
      if Signed(kept, last.signer) || !ValidAnswer(cfg, federators, hash, last) then kept
      else kept + [last]
  }

  /** Answers of signers that have not signed yet are appended. */
  function Collect(d: Deposit, answers: seq<Answer>): Deposit
  {
    if answers == [] then d
    else
      var before, last := Collect(d, answers[..|answers| - 1]), answers[|answers| - 1];
      if last.signer in before.signers then before
      else before.(signers := before.signers + [last.signer], signatures := before.signatures + [last.signature])
  }

  lemma {:induction false} CollectKeepsStatus(d: Deposit, answers: seq<Answer>)
    ensures Collect(d, answers).status == d.status
  {
    if answers != [] {
      CollectKeepsStatus(d, answers[..|answers| - 1]);
    }
  }

  function UpdateSignatures(cfg: Config, d: Deposit, hash: Hash, federators: set<EvmAddress>, answers: seq<Answer>): Deposit
  {
    Collect(d.(messageHash := Some(hash)), Prune(cfg, federators, hash, answers))
  }

  // ---------------------------------------------------------------- sending

  /** A call of acceptTransferFromBtc. */
  datatype Submission = Submission(key: Key, user: EvmAddress, net: int, signatures: seq<Signature>)

  datatype Stage = Prepared | Submitted(txHash: Hash) | Raised | Done

  /** A call of send_rune_deposit_to_evm after its first transaction. */
  datatype Send = Send(call: Submission, stage: Stage)

  // ---------------------------------------------------------------- the machine

  /** Besides the database: the chain, what is in progress, all calls ever made, and everybody who has ever been a
      federator. */
  datatype State = State(
    db: Db,
    chain: Chain,
    scans: seq<Scan>,
    sends: seq<Send>,
    submissions: seq<Submission>,
    federators: set<EvmAddress>)

  const EMPTY := State(Db(map[], map[], map[], None), Chain(0, []), [], [], [], {})

  datatype Action =
    | Mine(outputs: seq<Output>)
    | Register(address: string, user: EvmAddress)
    | BeginScan
    | List(scan: nat, pool: seq<Unconfirmed>, unindexed: set<Outpoint>)
    | Commit(scan: nat, fee: Percentage)
    | Update(key: Key, hash: Hash, currentFederators: set<EvmAddress>, answers: seq<Answer>)
    | BeginSend(key: Key, frozen: bool, numRequired: nat)
    | Abandon(send: nat)
    | Submit(send: nat, txHash: Hash, raises: bool)
    | NotifyRaises(send: nat)
    | Record(send: nat)
    | Confirm(key: Key, success: bool)
    | Crash

  /** Amounts of runes have 128 bits. */
  const AMOUNT_LIMIT := 0x1_0000_0000_0000_0000_0000_0000_0000_0000

  predicate ValidRunes(bs: seq<RuneBalance>)
  {
    && (forall i, j :: 0 <= i < j < |bs| ==> bs[i].rune != bs[j].rune)
    && (forall i :: 0 <= i < |bs| ==> bs[i].amount < AMOUNT_LIMIT)
  }

  /** A block creates no outpoint a second time, and each output holds a rune once. */
  predicate ValidBlock(chain: Chain, outputs: seq<Output>)
  {
    && (forall i, j :: 0 <= i < j < |outputs| ==> outputs[i].outpoint != outputs[j].outpoint)
    && (forall i, k :: 0 <= i < |outputs| && 0 <= k < |chain.mined| ==> outputs[i].outpoint != chain.mined[k].output.outpoint)
    && (forall i :: 0 <= i < |outputs| ==> ValidRunes(outputs[i].runes))
  }

  function MineAll(height: int, outputs: seq<Output>): (ms: seq<Mined>)
    ensures |ms| == |outputs|
  {
    if outputs == [] then []
    else
      var o := outputs[|outputs| - 1];
      MineAll(height, outputs[..|outputs| - 1]) + [Mined(height, o)]
  }

  predicate HasStatus(db: Db, key: Key, status: Status)
  {
    key in db.deposits && db.deposits[key].status == status
  }

  ghost predicate TxIsAccepted(db: Db, o: Outpoint)
  {
    o in db.btcTxs && db.btcTxs[o].status == TxAccepted
  }

  /** The deposit is there, at ACCEPTED or later. */
  ghost predicate DepositIsAccepted(db: Db, key: Key)
  {
    key in db.deposits && db.deposits[key].status != Detected
  }

  function SetStatus(db: Db, key: Key, status: Status): Db
    requires key in db.deposits
  {
    db.(deposits := db.deposits[key := db.deposits[key].(status := status)])
  }

  function SetStage(s: State, i: nat, stage: Stage): State
    requires i < |s.sends|
  {
    s.(sends := s.sends[i := s.sends[i].(stage := stage)])
  }

  predicate AtStage(s: State, i: nat, stage: Stage)
  {
    i < |s.sends| && s.sends[i].stage == stage
  }

  function ListScan(cfg: Config, s: State, i: nat, pool: seq<Unconfirmed>, unindexed: set<Outpoint>): State
    requires i < |s.scans| && s.scans[i].Begun?
  {
    var last := s.scans[i].lastRead;
    var entries := ListMined(cfg, s.chain, last, unindexed, |s.chain.mined|) + ListUnconfirmed(cfg, pool);
    s.(scans := s.scans[i := Listed(last, LastBlock(s.chain.tip, cfg.listsinceblockBuffer), entries, unindexed)])
  }

  /** The transaction of a scan: it rolls back if the stored last block is no longer the one that was read. */
  function CommitScan(cfg: Config, s: State, i: nat, fee: Percentage): State
    requires i < |s.scans| && s.scans[i].Listed?
  {
    var scan, over := s.scans[i], s.scans[i := Over];
    if s.db.lastBlock != scan.lastRead then s.(scans := over)
    else
      var db := StoreEntries(cfg, fee, s.db, scan.entries).(lastBlock := Some(scan.newLast));
      s.(scans := over, db := db)
  }

  /** The first transaction of send_rune_deposit_to_evm: the status moves on before anything is submitted. */
  function PrepareSend(s: State, key: Key, numRequired: nat): State
    requires HasStatus(s.db, key, Accepted) && numRequired <= |s.db.deposits[key].signatures|
  {
    var d := s.db.deposits[key];
    var call := Submission(key, d.user, d.net, d.signatures[..numRequired]);
    s.(db := SetStatus(s.db, key, SendingToEvm), sends := s.sends + [Send(call, Prepared)])
  }

  /** An action whose condition does not hold raises or does nothing: there is no effect. */
  function Apply(cfg: Config, s: State, a: Action): State
  {
    match a
    case Mine(outputs) =>
      if !ValidBlock(s.chain, outputs) then s
      else s.(chain := Chain(s.chain.tip + 1, s.chain.mined + MineAll(s.chain.tip + 1, outputs)))
    case Register(address, user) =>
      if address in s.db.users then s else s.(db := s.db.(users := s.db.users[address := user]))
    case BeginScan =>
      if cfg.listsinceblockBuffer < cfg.requiredConfirmations || cfg.listsinceblockBuffer < 1 then s
      else s.(scans := s.scans + [Begun(s.db.lastBlock)])
    case List(i, pool, unindexed) =>
      if i < |s.scans| && s.scans[i].Begun? then ListScan(cfg, s, i, pool, unindexed) else s
    case Commit(i, fee) =>
      if i < |s.scans| && s.scans[i].Listed? then CommitScan(cfg, s, i, fee) else s
    case Update(key, hash, current, answers) =>
      if !HasStatus(s.db, key, Accepted) then s
      else
        var d := UpdateSignatures(cfg, s.db.deposits[key], hash, current, answers);
        s.(db := s.db.(deposits := s.db.deposits[key := d]), federators := s.federators + current)
    case BeginSend(key, frozen, numRequired) =>
      if frozen || !HasStatus(s.db, key, Accepted) || |s.db.deposits[key].signatures| < numRequired then s
      else PrepareSend(s, key, numRequired)
    case Abandon(i) =>
      if AtStage(s, i, Prepared) then SetStage(s, i, Done) else s
    case Submit(i, txHash, raises) =>
      if !AtStage(s, i, Prepared) then s
      else SetStage(s, i, if raises then Raised else Submitted(txHash)).(submissions := s.submissions + [s.sends[i].call])
    case NotifyRaises(i) =>
      if i < |s.sends| && s.sends[i].stage.Submitted? then SetStage(s, i, Raised) else s
    case Record(i) =>
      if i < |s.sends| && s.sends[i].call.key in s.db.deposits then RecordSend(s, i) else s
    case Confirm(key, success) =>
      if !HasStatus(s.db, key, SentToEvm) then s
      else s.(db := SetStatus(s.db, key, if success then ConfirmedInEvm else EvmTransactionFailed))
    case Crash => s.(scans := [], sends := [])
  }

  /** The last transaction of a send writes the status whatever it was. */
  function RecordSend(s: State, i: nat): State
    requires i < |s.sends| && s.sends[i].call.key in s.db.deposits
  {
    var key := s.sends[i].call.key;
    match s.sends[i].stage
    case Submitted(txHash) =>
      var d := s.db.deposits[key].(status := SentToEvm, evmTxHash := Some(txHash));
      SetStage(s, i, Done).(db := s.db.(deposits := s.db.deposits[key := d]))
    case Raised => SetStage(s, i, Done).(db := SetStatus(s.db, key, SendingToEvmFailed))
    case _ => s
  }

  function Run(cfg: Config, actions: seq<Action>): State
  {
    if actions == [] then EMPTY
    else Apply(cfg, Run(cfg, actions[..|actions| - 1]), actions[|actions| - 1])
  }

  lemma RunSnoc(cfg: Config, actions: seq<Action>, a: Action)
    ensures Run(cfg, actions + [a]) == Apply(cfg, Run(cfg, actions), a)
  {
    assert (actions + [a])[..|actions|] == actions;
  }
}
