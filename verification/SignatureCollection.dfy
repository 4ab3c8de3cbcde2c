/** Collecting the federation's signatures for a deposit, over any number of rounds and over every run. */
module SignatureCollection {
  import opened Wrappers
  import opened RuneDeposits
  import opened SubmittedOnce

  ghost predicate Distinct(s: seq<EvmAddress>)
  {
    forall i, j :: 0 <= i < j < |s| ==> s[i] != s[j]
  }

  /** One signature of each signer, and every signer was a federator when it was added. */
  ghost predicate SignersValid(d: Deposit, federators: set<EvmAddress>)
  {
    && |d.signatures| == |d.signers| && Distinct(d.signers)
    && forall i :: 0 <= i < |d.signers| ==> d.signers[i] in federators
  }

  /** Each signature recovers to its signer. */
  ghost predicate AllRecover(cfg: Config, d: Deposit, hash: Hash)
  {
    |d.signatures| == |d.signers| &&
    forall i :: 0 <= i < |d.signers| ==> cfg.recover(hash, d.signatures[i]) == d.signers[i]
  }

  // ---------------------------------------------------------------- one round

  /** The signer has given a valid answer. */
  ghost predicate Answered(cfg: Config, federators: set<EvmAddress>, hash: Hash, answers: seq<Answer>, signer: EvmAddress)
  {
    exists a :: a in answers && a.signer == signer && ValidAnswer(cfg, federators, hash, a)
  }

  lemma SignedNext(answers: seq<Answer>, last: Answer, signer: EvmAddress)
    ensures Signed(answers + [last], signer) <==> Signed(answers, signer) || last.signer == signer
  {
    assert last in answers + [last];
    assert forall a :: a in answers ==> a in answers + [last];
  }

  lemma AnsweredNext(cfg: Config, federators: set<EvmAddress>, hash: Hash, answers: seq<Answer>, last: Answer, signer: EvmAddress)
    ensures Answered(cfg, federators, hash, answers + [last], signer) <==>
              || Answered(cfg, federators, hash, answers, signer)
              || (last.signer == signer && ValidAnswer(cfg, federators, hash, last))
  {
    assert last in answers + [last];
    assert forall a :: a in answers ==> a in answers + [last];
  }

  /** Pruning keeps valid answers only, one of each signer. */
  lemma {:induction false} PruneIsSound(cfg: Config, federators: set<EvmAddress>, hash: Hash, answers: seq<Answer>)
    ensures var kept := Prune(cfg, federators, hash, answers);
            && (forall a :: a in kept ==> a in answers && ValidAnswer(cfg, federators, hash, a))
            && (forall i, j :: 0 <= i < j < |kept| ==> kept[i].signer != kept[j].signer)
  {
    if answers != [] {
      var front, last := answers[..|answers| - 1], answers[|answers| - 1];
      assert answers == front + [last];
      PruneIsSound(cfg, federators, hash, front);
      var kept := Prune(cfg, federators, hash, front);
      assert !Signed(kept, last.signer) ==> forall i :: 0 <= i < |kept| ==> kept[i] in kept && kept[i].signer != last.signer;
    }
  }

  /** No signer of a valid answer is lost. */
  lemma {:induction false} PruneIsComplete(cfg: Config, federators: set<EvmAddress>, hash: Hash, answers: seq<Answer>, signer: EvmAddress)
    ensures Signed(Prune(cfg, federators, hash, answers), signer) <==> Answered(cfg, federators, hash, answers, signer)
  {
    if answers != [] {
      var front, last := answers[..|answers| - 1], answers[|answers| - 1];
      assert answers == front + [last];
      PruneIsComplete(cfg, federators, hash, front, signer);
      AnsweredNext(cfg, federators, hash, front, last, signer);
      SignedNext(Prune(cfg, federators, hash, front), last, signer);
    }
  }

  ghost function Members(s: seq<EvmAddress>): set<EvmAddress>
  {
    set a | a in s
  }

  /** Collecting adds exactly the signers that are new, and touches nothing that is there. */
  lemma {:induction false} CollectMeets(cfg: Config, d: Deposit, hash: Hash, answers: seq<Answer>, federators: set<EvmAddress>)
    requires SignersValid(d, federators) && forall a :: a in answers ==> ValidAnswer(cfg, federators, hash, a)
    ensures var r := Collect(d, answers);
            && SignersValid(r, federators)
            && d.signers <= r.signers && d.signatures <= r.signatures
            && (AllRecover(cfg, d, hash) ==> AllRecover(cfg, r, hash))
            && r == d.(signers := r.signers, signatures := r.signatures)
  {
    if answers != [] {
      var front, last := answers[..|answers| - 1], answers[|answers| - 1];
      assert answers == front + [last];
      CollectMeets(cfg, d, hash, front, federators);
      assert last in answers;
    }
  }

  lemma {:induction false} CollectedSigners(d: Deposit, answers: seq<Answer>, signer: EvmAddress)
    ensures signer in Collect(d, answers).signers <==> signer in d.signers || Signed(answers, signer)
  {
    if answers != [] {
      var front, last := answers[..|answers| - 1], answers[|answers| - 1];
      assert answers == front + [last];
      CollectedSigners(d, front, signer);
      SignedNext(front, last, signer);
    }
  }

  /** One round: the stored lists stay valid and only grow. */
  lemma UpdateMeets(cfg: Config, d: Deposit, hash: Hash, current: set<EvmAddress>, answers: seq<Answer>, ever: set<EvmAddress>)
    requires SignersValid(d, ever)
    ensures var r := UpdateSignatures(cfg, d, hash, current, answers);
            && SignersValid(r, ever + current)
            && d.signers <= r.signers && d.signatures <= r.signatures
            && (AllRecover(cfg, d, hash) ==> AllRecover(cfg, r, hash))
            && r == d.(messageHash := Some(hash), signers := r.signers, signatures := r.signatures)
  {
    var kept := Prune(cfg, current, hash, answers);
    PruneIsSound(cfg, current, hash, answers);
    forall a | a in kept
      ensures ValidAnswer(cfg, ever + current, hash, a)
    {
      assert ValidAnswer(cfg, current, hash, a);
    }
    CollectMeets(cfg, d.(messageHash := Some(hash)), hash, kept, ever + current);
  }

  /** After a round exactly the old signers and those with a valid answer have signed. */
  lemma UpdatedSigners(cfg: Config, d: Deposit, hash: Hash, current: set<EvmAddress>, answers: seq<Answer>, signer: EvmAddress)
    ensures signer in UpdateSignatures(cfg, d, hash, current, answers).signers
       <==> signer in d.signers || Answered(cfg, current, hash, answers, signer)
  {
    PruneIsComplete(cfg, current, hash, answers, signer);
    CollectedSigners(d.(messageHash := Some(hash)), Prune(cfg, current, hash, answers), signer);
  }

  /** What is appended are answers of the round, and valid in it. */
  lemma {:induction false} CollectedAnswers(d: Deposit, answers: seq<Answer>, i: nat)
    requires |d.signatures| == |d.signers|
    ensures var r := Collect(d, answers);
            && |r.signatures| == |r.signers| >= |d.signers|
            && (|d.signers| <= i < |r.signers| ==> Answer(r.signatures[i], r.signers[i]) in answers)
  {
    if answers != [] {
      var front, last := answers[..|answers| - 1], answers[|answers| - 1];
      assert answers == front + [last];
      CollectedAnswers(d, front, i);
    }
  }

  lemma UpdatedAnswers(cfg: Config, d: Deposit, hash: Hash, current: set<EvmAddress>, answers: seq<Answer>, i: nat)
    requires |d.signatures| == |d.signers|
    ensures var r := UpdateSignatures(cfg, d, hash, current, answers);
            && |r.signatures| == |r.signers| >= |d.signers|
            && (|d.signers| <= i < |r.signers| ==>
                  var a := Answer(r.signatures[i], r.signers[i]);
                  a in answers && ValidAnswer(cfg, current, hash, a))
  {
    CollectedAnswers(d.(messageHash := Some(hash)), Prune(cfg, current, hash, answers), i);
    PruneIsSound(cfg, current, hash, answers);
  }

  /** The signatures do recover for a new message hash exactly if there were none yet, or the hash is the old one:
      stale signatures are never dropped. (No stored signature recovers to its signer for both hashes.) */
  lemma UpdateRecoversIff(cfg: Config, d: Deposit, old': Hash, hash: Hash, current: set<EvmAddress>, answers: seq<Answer>,
                          ever: set<EvmAddress>)
    requires SignersValid(d, ever) && AllRecover(cfg, d, old')
    requires forall s :: s in d.signatures && cfg.recover(old', s) == cfg.recover(hash, s) ==> old' == hash
    ensures AllRecover(cfg, UpdateSignatures(cfg, d, hash, current, answers), hash) <==> d.signers == [] || hash == old'
  {
    UpdateMeets(cfg, d, hash, current, answers, ever);
    var r := UpdateSignatures(cfg, d, hash, current, answers);
    if d.signers != [] {
      assert r.signers[0] == d.signers[0] && r.signatures[0] == d.signatures[0];
      assert d.signatures[0] in d.signatures;
    }
  }

  // ---------------------------------------------------------------- any number of rounds

  datatype Round = Round(federators: set<EvmAddress>, answers: seq<Answer>)

  function Rounds(cfg: Config, d: Deposit, hash: Hash, rounds: seq<Round>): Deposit
  {
    if rounds == [] then d
    else
      var last := rounds[|rounds| - 1];
      UpdateSignatures(cfg, Rounds(cfg, d, hash, rounds[..|rounds| - 1]), hash, last.federators, last.answers)
  }

  function EverFederators(rounds: seq<Round>): set<EvmAddress>
  {
    if rounds == [] then {} else EverFederators(rounds[..|rounds| - 1]) + rounds[|rounds| - 1].federators
  }

  /** With a fixed message hash and arbitrary answers, the lists of a new deposit stay valid over all rounds: as many
      signatures as signers, no signer twice, only federators of some round, each signature recovering to its signer. */
  lemma {:induction false} RoundsKeepValid(cfg: Config, d: Deposit, hash: Hash, rounds: seq<Round>)
    requires d.signers == [] && d.signatures == []
    ensures SignersValid(Rounds(cfg, d, hash, rounds), EverFederators(rounds))
    ensures AllRecover(cfg, Rounds(cfg, d, hash, rounds), hash)
  {
    if rounds != [] {
      var last := rounds[|rounds| - 1];
      RoundsKeepValid(cfg, d, hash, rounds[..|rounds| - 1]);
      UpdateMeets(cfg, Rounds(cfg, d, hash, rounds[..|rounds| - 1]), hash, last.federators, last.answers,
                  EverFederators(rounds[..|rounds| - 1]));
    }
  }

  /** Signer `i` was added in round `k`, by a valid answer of somebody who was a federator in that round. */
  ghost predicate AddedIn(cfg: Config, d: Deposit, hash: Hash, rounds: seq<Round>, i: int, k: int)
  {
    && 0 <= k < |rounds|
    && |Rounds(cfg, d, hash, rounds[..k]).signers| <= i < |Rounds(cfg, d, hash, rounds[..k + 1]).signers|
    && var r := Rounds(cfg, d, hash, rounds);
       && i < |r.signers| == |r.signatures|
       && Answer(r.signatures[i], r.signers[i]) in rounds[k].answers
       && ValidAnswer(cfg, rounds[k].federators, hash, Answer(r.signatures[i], r.signers[i]))
  }

  ghost predicate WasAddedByFederator(cfg: Config, d: Deposit, hash: Hash, rounds: seq<Round>, i: int)
  {
    exists k :: AddedIn(cfg, d, hash, rounds, i, k)
  }

  lemma {:induction false} AddedByFederator(cfg: Config, d: Deposit, hash: Hash, rounds: seq<Round>, i: nat) returns (k: nat)
    requires d.signers == [] && d.signatures == [] && i < |Rounds(cfg, d, hash, rounds).signers|
    ensures AddedIn(cfg, d, hash, rounds, i, k)
  {
    var front, last := rounds[..|rounds| - 1], rounds[|rounds| - 1];
    var before := Rounds(cfg, d, hash, front);
    RoundsKeepValid(cfg, d, hash, front);
    UpdateMeets(cfg, before, hash, last.federators, last.answers, EverFederators(front));
    UpdatedAnswers(cfg, before, hash, last.federators, last.answers, i);
    if i < |before.signers| {
      k := AddedByFederator(cfg, d, hash, front, i);
      assert front[..k] == rounds[..k] && front[..k + 1] == rounds[..k + 1];
    } else {
      k := |rounds| - 1;
      assert rounds[..k + 1] == rounds;
    }
  }

  lemma {:induction false} DistinctMembers(s: seq<EvmAddress>)
    requires Distinct(s)
    ensures |Members(s)| == |s|
  {
    if s != [] {
      var front, last := s[..|s| - 1], s[|s| - 1];
      assert s == front + [last];
      DistinctMembers(front);
      assert last !in Members(front);
      assert Members(s) == Members(front) + {last};
    }
  }

  /** Once there are enough signatures, the slice that is sent comes from that many different accounts, each of which
      was a federator in the round that added its signature. */
  lemma EnoughSigners(cfg: Config, d: Deposit, hash: Hash, rounds: seq<Round>, numRequired: nat)
    requires d.signers == [] && d.signatures == []
    requires |Rounds(cfg, d, hash, rounds).signatures| >= numRequired
    ensures var r := Rounds(cfg, d, hash, rounds);
            && |r.signers| >= numRequired
            && |Members(r.signers[..numRequired])| == numRequired
            && forall i :: 0 <= i < numRequired ==>
                 && cfg.recover(hash, r.signatures[i]) == r.signers[i]
                 && WasAddedByFederator(cfg, d, hash, rounds, i)
  {
    RoundsKeepValid(cfg, d, hash, rounds);
    DistinctMembers(Rounds(cfg, d, hash, rounds).signers[..numRequired]);
    forall i | 0 <= i < numRequired
      ensures WasAddedByFederator(cfg, d, hash, rounds, i)
    {
      var k := AddedByFederator(cfg, d, hash, rounds, i);
    }
  }

  // ---------------------------------------------------------------- over every run

  /** Every deposit's lists are valid. */
  ghost predicate DepositsValid(s: State)
  {
    forall key :: key in s.db.deposits ==> SignersValid(s.db.deposits[key], s.federators)
  }

  /** The call carries the first signatures of its deposit, which is not collecting any more. */
  ghost predicate CallMatches(s: State, call: Submission)
  {
    && call.key in s.db.deposits
    && !BeforeSending(StatusOf(s.db, call.key))
    && call.signatures <= s.db.deposits[call.key].signatures
  }

  ghost predicate CallsMatch(s: State)
  {
    && (forall i :: Active(s, i) ==> CallMatches(s, s.sends[i].call))
    && (forall k :: 0 <= k < |s.submissions| ==> CallMatches(s, s.submissions[k]))
  }

  /** Deposits only gain signatures while they are collecting. */
  ghost predicate SignaturesKept(db: Db, db': Db)
  {
    && (forall key :: key in db.deposits ==>
          && key in db'.deposits
          && db'.deposits[key].signatures == db.deposits[key].signatures
          && db'.deposits[key].signers == db.deposits[key].signers)
    && (forall key :: key in db'.deposits && key !in db.deposits ==>
          db'.deposits[key].signatures == [] && db'.deposits[key].signers == [])
  }

  lemma {:induction false} StoreRunesKeepsSignatures(cfg: Config, fee: Percentage, db: Db, e: Entry, user: EvmAddress, bs: seq<RuneBalance>)
    ensures SignaturesKept(db, StoreRunes(cfg, fee, db, e, user, bs))
  {
    if bs != [] {
      StoreRunesKeepsSignatures(cfg, fee, db, e, user, bs[..|bs| - 1]);
    }
  }

  lemma {:induction false} StoreEntriesKeepsSignatures(cfg: Config, fee: Percentage, db: Db, es: seq<Entry>)
    ensures SignaturesKept(db, StoreEntries(cfg, fee, db, es))
  {
    if es != [] {
      var before, e := StoreEntries(cfg, fee, db, es[..|es| - 1]), es[|es| - 1];
      StoreEntriesKeepsSignatures(cfg, fee, db, es[..|es| - 1]);
      if e.address in before.users && e.balances.Some? {
        StoreRunesKeepsSignatures(cfg, fee, StoreTx(cfg, before, e), e, before.users[e.address], e.balances.value);
      }
    }
  }

  lemma KeptIsEnough(s: State, t: State)
    requires DepositsValid(s) && CallsMatch(s)
    requires SignaturesKept(s.db, t.db) && s.federators <= t.federators && t.submissions == s.submissions
    requires forall key :: Edge(StatusOf(s.db, key), StatusOf(t.db, key))
    requires forall i :: Active(t, i) ==> Active(s, i) && t.sends[i].call == s.sends[i].call
    ensures DepositsValid(t) && CallsMatch(t)
  {
    forall call | CallMatches(s, call)
      ensures CallMatches(t, call)
    {
      assert Edge(StatusOf(s.db, call.key), StatusOf(t.db, call.key));
    }
  }

  lemma CommitKeepsSignatures(cfg: Config, s: State, i: nat, fee: Percentage)
    ensures SignaturesKept(s.db, Apply(cfg, s, Commit(i, fee)).db)
  {
    if i < |s.scans| && s.scans[i].Listed? {
      StoreEntriesKeepsSignatures(cfg, fee, s.db, s.scans[i].entries);
    }
  }

  /** The steps that change a status change nothing else that matters here. */
  lemma StatusStepKeepsSignatures(cfg: Config, s: State, a: Action)
    requires a.Record? || a.Confirm?
    ensures SignaturesKept(s.db, Apply(cfg, s, a).db)
  {
    if a.Record? {
      RecordKeepsSignatures(cfg, s, a.send);
    }
  }

  lemma RecordKeepsSignatures(cfg: Config, s: State, i: nat)
    ensures SignaturesKept(s.db, Apply(cfg, s, Record(i)).db)
  {
  }

  lemma CallsStay(cfg: Config, s: State, a: Action)
    requires !a.BeginSend? && !a.Submit?
    ensures var t := Apply(cfg, s, a);
            && t.submissions == s.submissions && s.federators <= t.federators
            && forall i :: Active(t, i) ==> Active(s, i) && t.sends[i].call == s.sends[i].call
  {
  }

  /** Steps that neither collect signatures nor add a call. */
  lemma QuietStepKeeps(cfg: Config, s: State, a: Action)
    requires DepositsValid(s) && CallsMatch(s) && Inv(s)
    requires !a.Update? && !a.BeginSend? && !a.Submit?
    ensures DepositsValid(Apply(cfg, s, a)) && CallsMatch(Apply(cfg, s, a))
  {
    StepKeeps(cfg, s, a);
    CallsStay(cfg, s, a);
    if a.Commit? {
      CommitKeepsSignatures(cfg, s, a.scan, a.fee);
    } else if a.Record? || a.Confirm? {
      StatusStepKeepsSignatures(cfg, s, a);
    }
    KeptIsEnough(s, Apply(cfg, s, a));
  }

  lemma UpdateStepKeeps(cfg: Config, s: State, a: Action)
    requires DepositsValid(s) && CallsMatch(s) && a.Update?
    ensures DepositsValid(Apply(cfg, s, a)) && CallsMatch(Apply(cfg, s, a))
  {
    var t := Apply(cfg, s, a);
    if HasStatus(s.db, a.key, Accepted) {
      UpdateMeets(cfg, s.db.deposits[a.key], a.hash, a.currentFederators, a.answers, s.federators);
      assert forall call :: CallMatches(s, call) ==> call.key != a.key && CallMatches(t, call);
      assert forall i :: Active(t, i) ==> Active(s, i);
    }
  }

  lemma BeginSendStepKeeps(cfg: Config, s: State, key: Key, numRequired: nat)
    requires DepositsValid(s) && CallsMatch(s)
    requires HasStatus(s.db, key, Accepted) && numRequired <= |s.db.deposits[key].signatures|
    ensures DepositsValid(PrepareSend(s, key, numRequired)) && CallsMatch(PrepareSend(s, key, numRequired))
  {
    var t := PrepareSend(s, key, numRequired);
    assert forall call :: CallMatches(s, call) ==> CallMatches(t, call);
    forall i | Active(t, i)
      ensures CallMatches(t, t.sends[i].call)
    {
      assert i < |s.sends| ==> Active(s, i);
    }
  }

  lemma SubmitStepKeeps(cfg: Config, s: State, a: Action)
    requires DepositsValid(s) && CallsMatch(s) && a.Submit?
    ensures DepositsValid(Apply(cfg, s, a)) && CallsMatch(Apply(cfg, s, a))
  {
    var t := Apply(cfg, s, a);
    assert t.db == s.db && t.federators == s.federators;
    assert forall call :: CallMatches(s, call) ==> CallMatches(t, call);
    if AtStage(s, a.send, Prepared) {
      assert Active(s, a.send);
      assert forall i :: Active(t, i) ==> Active(s, i) && t.sends[i].call == s.sends[i].call;
    }
  }

  lemma {:induction false} RunCollects(cfg: Config, actions: seq<Action>)
    ensures DepositsValid(Run(cfg, actions)) && CallsMatch(Run(cfg, actions))
  {
    if actions != [] {
      var before, a := actions[..|actions| - 1], actions[|actions| - 1];
      RunCollects(cfg, before);
      RunKeeps(cfg, before);
      if a.Update? {
        UpdateStepKeeps(cfg, Run(cfg, before), a);
      } else if a.BeginSend? {
        var s := Run(cfg, before);
        if !a.frozen && HasStatus(s.db, a.key, Accepted) && a.numRequired <= |s.db.deposits[a.key].signatures| {
          BeginSendStepKeeps(cfg, s, a.key, a.numRequired);
        }
      } else if a.Submit? {
        SubmitStepKeeps(cfg, Run(cfg, before), a);
      } else {
        QuietStepKeeps(cfg, Run(cfg, before), a);
      }
    }
  }

  /** Signature `i` of the deposit was added by action `a`: a valid answer to its message hash, of somebody who was a
      federator then. */
  ghost predicate AddedBy(cfg: Config, actions: seq<Action>, key: Key, i: int, a: int)
  {
    && 0 <= a < |actions| && actions[a].Update? && actions[a].key == key
    && var before, now, end := Run(cfg, actions[..a]).db.deposits, Run(cfg, actions[..a + 1]).db.deposits, Run(cfg, actions).db.deposits;
       && key in before && key in now && key in end
       && |before[key].signers| <= i < |now[key].signers|
       && i < |end[key].signers| && i < |end[key].signatures|
       && var answer := Answer(end[key].signatures[i], end[key].signers[i]);
          answer in actions[a].answers && ValidAnswer(cfg, actions[a].currentFederators, actions[a].hash, answer)
  }

  ghost predicate WasAdded(cfg: Config, actions: seq<Action>, key: Key, i: int)
  {
    exists a :: AddedBy(cfg, actions, key, i, a)
  }

  lemma {:induction false} EverySignatureIsAdded(cfg: Config, actions: seq<Action>, key: Key, i: nat) returns (a: nat)
    requires key in Run(cfg, actions).db.deposits && i < |Run(cfg, actions).db.deposits[key].signers|
    ensures AddedBy(cfg, actions, key, i, a)
  {
    var front, last := actions[..|actions| - 1], actions[|actions| - 1];
    RunCollects(cfg, front);
    LastStepKeepsSignatures(cfg, front, last, key, i);
    assert actions == front + [last];
    var before := Run(cfg, front).db.deposits;
    if key in before && i < |before[key].signers| {
      a := EverySignatureIsAdded(cfg, front, key, i);
      StillAddedBy(cfg, front, last, key, i, a);
    } else {
      a := |actions| - 1;
      assert actions[..a] == front && actions[..a + 1] == actions;
    }
  }

  lemma StillAddedBy(cfg: Config, actions: seq<Action>, last: Action, key: Key, i: nat, a: nat)
    requires AddedBy(cfg, actions, key, i, a)
    requires var before, now := Run(cfg, actions).db.deposits, Run(cfg, actions + [last]).db.deposits;
             && key in now && i < |now[key].signers| && i < |now[key].signatures|
             && now[key].signers[i] == before[key].signers[i] && now[key].signatures[i] == before[key].signatures[i]
    ensures AddedBy(cfg, actions + [last], key, i, a)
  {
    assert (actions + [last])[..a] == actions[..a] && (actions + [last])[..a + 1] == actions[..a + 1];
  }

  /** A step keeps the signatures that are there; a new one is a valid answer of the step. */
  lemma LastStepKeepsSignatures(cfg: Config, actions: seq<Action>, last: Action, key: Key, i: nat)
    requires DepositsValid(Run(cfg, actions))
    requires key in Run(cfg, actions + [last]).db.deposits && i < |Run(cfg, actions + [last]).db.deposits[key].signers|
    ensures var before, now := Run(cfg, actions).db.deposits, Run(cfg, actions + [last]).db.deposits[key];
            && i < |now.signatures|
            && if key in before && i < |before[key].signers|
               then i < |before[key].signatures| && now.signers[i] == before[key].signers[i] && now.signatures[i] == before[key].signatures[i]
               else
                 && last.Update? && last.key == key && key in before
                 && Answer(now.signatures[i], now.signers[i]) in last.answers
                 && ValidAnswer(cfg, last.currentFederators, last.hash, Answer(now.signatures[i], now.signers[i]))
  {
    assert (actions + [last])[..|actions|] == actions;
    var s := Run(cfg, actions);
    if last.Update? {
      if HasStatus(s.db, last.key, Accepted) {
        var d := s.db.deposits[last.key];
        UpdateMeets(cfg, d, last.hash, last.currentFederators, last.answers, s.federators);
        UpdatedAnswers(cfg, d, last.hash, last.currentFederators, last.answers, i);
      }
    } else {
      OtherStepKeepsSignatures(cfg, s, last);
    }
  }

  lemma OtherStepKeepsSignatures(cfg: Config, s: State, a: Action)
    requires !a.Update?
    ensures SignaturesKept(s.db, Apply(cfg, s, a).db)
  {
    if a.Commit? {
      CommitKeepsSignatures(cfg, s, a.scan, a.fee);
    } else if a.Record? || a.Confirm? {
      StatusStepKeepsSignatures(cfg, s, a);
    }
  }

  /** The call was prepared by action `a`, which found the deposit ACCEPTED and took its user and net amount, and as many
      signatures as it required. */
  ghost predicate PreparedBy(cfg: Config, actions: seq<Action>, call: Submission, a: int)
  {
    && 0 <= a < |actions| && actions[a].BeginSend? && actions[a].key == call.key && !actions[a].frozen
    && |call.signatures| == actions[a].numRequired
    && HasStatus(Run(cfg, actions[..a]).db, call.key, Accepted)
    && call.user == Run(cfg, actions[..a]).db.deposits[call.key].user
    && call.net == Run(cfg, actions[..a]).db.deposits[call.key].net
    && HasStatus(Run(cfg, actions[..a + 1]).db, call.key, SendingToEvm)
  }

  ghost predicate WasPrepared(cfg: Config, actions: seq<Action>, call: Submission)
  {
    exists a :: PreparedBy(cfg, actions, call, a)
  }

  lemma StillPrepared(cfg: Config, actions: seq<Action>, last: Action, call: Submission)
    requires WasPrepared(cfg, actions, call)
    ensures WasPrepared(cfg, actions + [last], call)
  {
    var a :| PreparedBy(cfg, actions, call, a);
    assert (actions + [last])[..a] == actions[..a] && (actions + [last])[..a + 1] == actions[..a + 1];
    assert PreparedBy(cfg, actions + [last], call, a);
  }

  ghost predicate AllPrepared(cfg: Config, actions: seq<Action>, s: State)
  {
    && (forall i :: 0 <= i < |s.sends| ==> WasPrepared(cfg, actions, s.sends[i].call))
    && (forall k :: 0 <= k < |s.submissions| ==> WasPrepared(cfg, actions, s.submissions[k]))
  }

  lemma {:induction false} EveryCallIsPrepared(cfg: Config, actions: seq<Action>)
    ensures AllPrepared(cfg, actions, Run(cfg, actions))
  {
    if actions != [] {
      var front, last := actions[..|actions| - 1], actions[|actions| - 1];
      assert actions == front + [last];
      EveryCallIsPrepared(cfg, front);
      var s, t := Run(cfg, front), Run(cfg, actions);
      forall i | 0 <= i < |t.sends|
        ensures WasPrepared(cfg, actions, t.sends[i].call)
      {
        SendIsPrepared(cfg, s, last, i);
        if i < |s.sends| {
          StillPrepared(cfg, front, last, s.sends[i].call);
        } else {
          assert actions[..|front|] == front && actions[..|front| + 1] == actions;
          assert PreparedBy(cfg, actions, t.sends[i].call, |front|);
        }
      }
      forall k | 0 <= k < |t.submissions|
        ensures WasPrepared(cfg, actions, t.submissions[k])
      {
        SubmissionWasSend(cfg, s, last, k);
        StillPrepared(cfg, front, last, t.submissions[k]);
      }
    }
  }

  /** A call was there before, or is the one that this BeginSend prepares. */
  lemma SendIsPrepared(cfg: Config, s: State, a: Action, i: nat)
    requires i < |Apply(cfg, s, a).sends|
    ensures var t := Apply(cfg, s, a); var call := t.sends[i].call;
            if i < |s.sends| then call == s.sends[i].call
            else
              && a.BeginSend? && a.key == call.key && !a.frozen && |call.signatures| == a.numRequired
              && HasStatus(s.db, call.key, Accepted) && HasStatus(t.db, call.key, SendingToEvm)
              && call.user == s.db.deposits[call.key].user && call.net == s.db.deposits[call.key].net
  {
  }

  lemma SubmissionWasSend(cfg: Config, s: State, a: Action, k: nat)
    requires k < |Apply(cfg, s, a).submissions|
    ensures var call := Apply(cfg, s, a).submissions[k];
            || (k < |s.submissions| && call == s.submissions[k])
            || (a.Submit? && a.send < |s.sends| && call == s.sends[a.send].call)
  {
  }

  /** Over every run, each call carries as many signatures as the step that prepared it required, from that many
      different accounts, each a federator when its signature was added. */
  lemma SubmittedSignatures(cfg: Config, actions: seq<Action>, k: nat)
    requires k < |Run(cfg, actions).submissions|
    ensures var s := Run(cfg, actions); var call := s.submissions[k]; var n := |call.signatures|;
            && WasPrepared(cfg, actions, call)
            && call.key in s.db.deposits && call.signatures <= s.db.deposits[call.key].signatures
            && n <= |s.db.deposits[call.key].signers|
            && |Members(s.db.deposits[call.key].signers[..n])| == n
            && forall i :: 0 <= i < n ==> WasAdded(cfg, actions, call.key, i)
  {
    RunCollects(cfg, actions);
    EveryCallIsPrepared(cfg, actions);
    var s := Run(cfg, actions);
    var call := s.submissions[k];
    assert CallMatches(s, call);
    assert SignersValid(s.db.deposits[call.key], s.federators);
    DistinctMembers(s.db.deposits[call.key].signers[..|call.signatures|]);
    forall i | 0 <= i < |call.signatures|
      ensures WasAdded(cfg, actions, call.key, i)
    {
      var a := EverySignatureIsAdded(cfg, actions, call.key, i);
    }
  }

  /** If every send of a run requires at least `n` signatures, every call carries at least `n`. */
  lemma CallsCarryEnough(cfg: Config, actions: seq<Action>, k: nat, n: nat)
    requires k < |Run(cfg, actions).submissions|
    requires forall i :: 0 <= i < |actions| && actions[i].BeginSend? ==> actions[i].numRequired >= n
    ensures |Run(cfg, actions).submissions[k].signatures| >= n
  {
    EveryCallIsPrepared(cfg, actions);
    var a :| PreparedBy(cfg, actions, Run(cfg, actions).submissions[k], a);
  }
}
