/** RSK-to-TAP transfers, sent in batches: one unfinished batch at a time, each committed step its own transaction, with
    any number of calls in progress. */
module TransferBatches {
  import opened Wrappers

  datatype Status = Created | SendingToTap | SentToTap | Finalized

  datatype Transfer = Transfer(counter: int, recipient: string, batch: Option<nat>)

  /** A call of `send_assets`. */
  datatype Sending = Sending(batch: nat, recipients: seq<string>)

  /** The tables: transfers in the order of their unique counter, and the status of each batch by its id. */
  datatype Db = Db(transfers: seq<Transfer>, batches: seq<Status>)

  // ---------------------------------------------------------------- queries and updates

  /** Insertion under the unique constraint on the counter, which refuses a second row with the same counter. */
  function Insert(rows: seq<Transfer>, t: Transfer): seq<Transfer>
  {
    if rows == [] || t.counter < rows[0].counter then [t] + rows
    else if t.counter == rows[0].counter then rows
    else [rows[0]] + Insert(rows[1..], t)
  }

  /** The rows whose batch is `b`, in counter order. */
  function Select(rows: seq<Transfer>, b: Option<nat>): seq<Transfer>
  {
    if rows == [] then []
    else if rows[0].batch == b then [rows[0]] + Select(rows[1..], b)
    else Select(rows[1..], b)
  }

  function Take<T>(s: seq<T>, limit: nat): seq<T>
  {
    if |s| <= limit then s else s[..limit]
  }

  /** The first `limit` rows without a batch join batch `id`. */
  function Assign(rows: seq<Transfer>, id: nat, limit: nat): seq<Transfer>
  {
    if rows == [] || limit == 0 then rows
    else if rows[0].batch == None then [rows[0].(batch := Some(id))] + Assign(rows[1..], id, limit - 1)
    else [rows[0]] + Assign(rows[1..], id, limit)
  }

  function Joined(rows: seq<Transfer>, id: nat): seq<Transfer>
  {
    if rows == [] then [] else [rows[0].(batch := Some(id))] + Joined(rows[1..], id)
  }

  function Recipients(rows: seq<Transfer>): seq<string>
  {
    if rows == [] then [] else [rows[0].recipient] + Recipients(rows[1..])
  }

  /** The first batch in id order that is not finalized. */
  function FirstUnfinished(batches: seq<Status>, from: nat): (id: nat)
    requires from <= |batches|
    ensures from <= id <= |batches|
    ensures id < |batches| ==> batches[id] != Finalized
    ensures forall i :: from <= i < id ==> batches[i] == Finalized
    decreases |batches| - from
  {
    if from == |batches| || batches[from] != Finalized then from else FirstUnfinished(batches, from + 1)
  }

  // ---------------------------------------------------------------- the machine

  /** How far a call of process_current_transfer_batch has got. */
  datatype Pc =
    | Idle
    | Fetched(id: nat, status: Status)
    | Marked(id: nat, recipients: seq<string>)
    | Checked(id: nat, recipients: seq<string>)
    | Called(id: nat)
    | Recorded(id: nat)

  datatype State = State(db: Db, calls: seq<Pc>, sendings: seq<Sending>)

  const EMPTY := State(Db([], []), [], [])

  datatype Action =
    | Arrive(counter: int, recipient: string)
    | Fetch
    | Mark(call: nat)
    | Check(call: nat)
    | Send(call: nat)
    | Record(call: nat)
    | Finalize(call: nat)
    | Crash

  function WithCall(s: State, i: nat, pc: Pc): State
    requires i < |s.calls|
  {
    s.(calls := s.calls[i := pc])
  }

  function WithStatus(s: State, id: nat, status: Status): State
    requires id < |s.db.batches|
  {
    s.(db := s.db.(batches := s.db.batches[id := status]))
  }

  predicate HasStatus(s: State, id: nat, status: Status)
  {
    id < |s.db.batches| && s.db.batches[id] == status
  }

  /** What follows once the current batch is known: a batch left in SENDING_TO_TAP raises. */
  function Resume(id: nat, status: Status): Pc
  {
    match status
    case Created => Fetched(id, Created)
    case SendingToTap => Idle
    case SentToTap => Recorded(id)
    case Finalized => Idle
  }

  /** The first transaction: the oldest unfinished batch, or a new one with the first `limit` free transfers. */
  function FetchBatch(s: State, limit: nat): State
  {
    var id := FirstUnfinished(s.db.batches, 0);
    if id < |s.db.batches| then s.(calls := s.calls + [Resume(id, s.db.batches[id])])
    else if Take(Select(s.db.transfers, None), limit) == [] then s
    else s.(db := Db(Assign(s.db.transfers, id, limit), s.db.batches + [Created]), calls := s.calls + [Resume(id, Created)])
  }

  /** The next transaction of a call, or the call of send_assets; a status that is not the expected one raises. */
  function Proceed(s: State, a: Action): State
    requires !a.Arrive? && !a.Fetch? && !a.Crash? && a.call < |s.calls|
  {
    match (a, s.calls[a.call])
    case (Mark(i), Fetched(id, status)) =>
      if !HasStatus(s, id, status) then WithCall(s, i, Idle)
      else WithCall(WithStatus(s, id, SendingToTap), i, Marked(id, Recipients(Select(s.db.transfers, Some(id)))))
    case (Check(i), Marked(id, recipients)) =>
      WithCall(s, i, if HasStatus(s, id, SendingToTap) then Checked(id, recipients) else Idle)
    case (Send(i), Checked(id, recipients)) =>
      WithCall(s, i, Called(id)).(sendings := s.sendings + [Sending(id, recipients)])
    case (Record(i), Called(id)) =>
      if !HasStatus(s, id, SendingToTap) then WithCall(s, i, Idle)
      else WithCall(WithStatus(s, id, SentToTap), i, Recorded(id))
    case (Finalize(i), Recorded(id)) =>
      if !HasStatus(s, id, SentToTap) then WithCall(s, i, Idle)
      else WithCall(WithStatus(s, id, Finalized), i, Idle)
    case _ => s
  }

  /** One committed transaction or one outside event; a step that is not the next one of its call does nothing. */
  function Apply(s: State, a: Action, limit: nat): State
  {
    match a
    case Arrive(counter, recipient) =>
      s.(db := s.db.(transfers := Insert(s.db.transfers, Transfer(counter, recipient, None))))
    case Fetch => FetchBatch(s, limit)
    case Crash => s.(calls := [])
    case _ => if a.call < |s.calls| then Proceed(s, a) else s
  }

  function Run(s: State, actions: seq<Action>, limit: nat): State
  {
    if actions == [] then s
    else Apply(Run(s, actions[..|actions| - 1], limit), actions[|actions| - 1], limit)
  }

  // ---------------------------------------------------------------- selecting and assigning

  lemma {:induction false} InsertFree(rows: seq<Transfer>, t: Transfer, id: nat)
    requires t.batch == None
    ensures Select(Insert(rows, t), Some(id)) == Select(rows, Some(id))
  {
    if !(rows == [] || t.counter <= rows[0].counter) {
      InsertFree(rows[1..], t, id);
    }
  }

  lemma TakeNext<T>(x: T, s: seq<T>, limit: nat)
    requires limit > 0
    ensures Take([x] + s, limit) == [x] + Take(s, limit - 1)
  {
  }

  lemma SelectNext(x: Transfer, rows: seq<Transfer>, b: Option<nat>, id: nat)
    ensures Select([x] + rows, b) == if x.batch == b then [x] + Select(rows, b) else Select(rows, b)
    ensures Joined([x] + rows, id) == [x.(batch := Some(id))] + Joined(rows, id)
  {
    assert ([x] + rows)[1..] == rows;
  }

  /** The new batch holds exactly the first `limit` free transfers. */
  lemma {:induction false} AssignTakesFirst(rows: seq<Transfer>, id: nat, limit: nat)
    requires Select(rows, Some(id)) == []
    ensures Select(Assign(rows, id, limit), Some(id)) == Joined(Take(Select(rows, None), limit), id)
  {
    assert limit == 0 ==> Take(Select(rows, None), limit) == [];
    if rows != [] && limit > 0 {
      var x, rest := rows[0], rows[1..];
      if x.batch == None {
        AssignTakesFirst(rest, id, limit - 1);
        TakeNext(x, Select(rest, None), limit);
        SelectNext(x.(batch := Some(id)), Assign(rest, id, limit - 1), Some(id), id);
        SelectNext(x, Take(Select(rest, None), limit - 1), None, id);
      } else {
        AssignTakesFirst(rest, id, limit);
        SelectNext(x, Assign(rest, id, limit), Some(id), id);
      }
    }
  }

  /** No other batch gains or loses a transfer. */
  lemma {:induction false} AssignKeepsOthers(rows: seq<Transfer>, id: nat, limit: nat, b: nat)
    requires b != id
    ensures Select(Assign(rows, id, limit), Some(b)) == Select(rows, Some(b))
  {
    if rows != [] && limit > 0 {
      AssignKeepsOthers(rows[1..], id, if rows[0].batch == None then limit - 1 else limit, b);
    }
  }

  // ---------------------------------------------------------------- what every step keeps

  ghost function Members(s: State, b: nat): seq<Transfer>
  {
    Select(s.db.transfers, Some(b))
  }

  ghost predicate Sent(s: State, b: nat)
  {
    exists i :: 0 <= i < |s.sendings| && s.sendings[i].batch == b
  }

  /** Only the newest batch may be unfinished, and every batch holds between one and `limit` transfers. */
  ghost predicate BatchesValid(s: State, limit: nat)
  {
    && (forall b :: 0 <= b < |s.db.batches| - 1 ==> s.db.batches[b] == Finalized)
    && (forall b: nat :: b < |s.db.batches| ==> 0 < |Members(s, b)| <= limit)
    && (forall b: nat :: b >= |s.db.batches| ==> Members(s, b) == [])
  }

  /** Each batch was sent at most once, to the recipients of its members, and only after it was marked. */
  ghost predicate SendingsValid(s: State)
  {
    && (forall i :: 0 <= i < |s.sendings| ==>
          && s.sendings[i].batch < |s.db.batches|
          && s.db.batches[s.sendings[i].batch] != Created
          && s.sendings[i].recipients == Recipients(Members(s, s.sendings[i].batch)))
    && (forall i, j :: 0 <= i < j < |s.sendings| ==> s.sendings[i].batch != s.sendings[j].batch)
    && (forall b: nat :: b < |s.db.batches| && s.db.batches[b] in {SentToTap, Finalized} ==> Sent(s, b))
  }

  ghost predicate PcValid(s: State, pc: Pc)
  {
    match pc
    case Idle => true
    case Fetched(id, status) => status == Created && id < |s.db.batches|
    case Marked(id, recipients) => HasStatus(s, id, SendingToTap) && recipients == Recipients(Members(s, id)) && !Sent(s, id)
    case Checked(id, recipients) => HasStatus(s, id, SendingToTap) && recipients == Recipients(Members(s, id)) && !Sent(s, id)
    case Called(id) => HasStatus(s, id, SendingToTap) && Sent(s, id)
    case Recorded(id) => HasStatus(s, id, SentToTap) || HasStatus(s, id, Finalized)
  }

  /** The call has marked the batch and not recorded its result yet. */
  ghost predicate Holds(pc: Pc, id: nat)
  {
    (pc.Marked? || pc.Checked? || pc.Called?) && pc.id == id
  }

  /** No two calls hold the same batch. */
  ghost predicate CallsValid(s: State)
  {
    && (forall i :: 0 <= i < |s.calls| ==> PcValid(s, s.calls[i]))
    && (forall i, j, id :: 0 <= i < j < |s.calls| && Holds(s.calls[i], id) ==> !Holds(s.calls[j], id))
  }

  ghost predicate Inv(s: State, limit: nat)
  {
    BatchesValid(s, limit) && SendingsValid(s) && CallsValid(s)
  }

  lemma ArriveKeeps(s: State, a: Action, limit: nat)
    requires Inv(s, limit) && a.Arrive?
    ensures Inv(Apply(s, a, limit), limit)
  {
    var t := Apply(s, a, limit);
    forall b: nat
      ensures Members(t, b) == Members(s, b)
    {
      InsertFree(s.db.transfers, Transfer(a.counter, a.recipient, None), b);
    }
    assert forall b: nat :: Sent(t, b) == Sent(s, b);
  }

  lemma {:induction false} JoinedRows(rows: seq<Transfer>, id: nat)
    ensures |Joined(rows, id)| == |rows|
    ensures forall i :: 0 <= i < |rows| ==> Joined(rows, id)[i] == rows[i].(batch := Some(id))
  {
    if rows != [] {
      JoinedRows(rows[1..], id);
    }
  }

  lemma NewBatchMembers(s: State, id: nat, limit: nat, b: nat)
    requires Members(s, id) == []
    ensures var rows := Assign(s.db.transfers, id, limit);
            && (b != id ==> Select(rows, Some(b)) == Members(s, b))
            && |Select(rows, Some(id))| == |Take(Select(s.db.transfers, None), limit)|
  {
    AssignTakesFirst(s.db.transfers, id, limit);
    JoinedRows(Take(Select(s.db.transfers, None), limit), id);
    if b != id {
      AssignKeepsOthers(s.db.transfers, id, limit, b);
    }
  }

  lemma CreateKeeps(s: State, t: State, id: nat, limit: nat)
    requires Inv(s, limit) && id == |s.db.batches|
    requires forall i :: 0 <= i < id ==> s.db.batches[i] == Finalized
    requires Take(Select(s.db.transfers, None), limit) != []
    requires t == State(Db(Assign(s.db.transfers, id, limit), s.db.batches + [Created]),
                        s.calls + [Fetched(id, Created)], s.sendings)
    ensures Inv(t, limit)
  {
    forall b: nat
      ensures b != id ==> Members(t, b) == Members(s, b)
      ensures 0 < |Members(t, id)| <= limit
      ensures Sent(t, b) == Sent(s, b)
    {
      NewBatchMembers(s, id, limit, b);
    }
    NewPcsStay(s, t, id);
  }

  lemma NewPcsStay(s: State, t: State, id: nat)
    requires CallsValid(s) && id == |s.db.batches| && t.db.batches == s.db.batches + [Created]
    requires t.calls == s.calls + [Fetched(id, Created)] && t.sendings == s.sendings
    requires forall b: nat :: b != id ==> Members(t, b) == Members(s, b)
    ensures CallsValid(t)
  {
    assert forall b: nat :: Sent(t, b) == Sent(s, b);
    assert forall pc :: PcValid(s, pc) ==> PcValid(t, pc);
  }

  lemma NewCallKeeps(s: State, pc: Pc, limit: nat)
    requires Inv(s, limit) && PcValid(s, pc) && forall b :: !Holds(pc, b)
    ensures Inv(s.(calls := s.calls + [pc]), limit)
  {
    var t := s.(calls := s.calls + [pc]);
    assert forall b: nat :: Members(t, b) == Members(s, b) && Sent(t, b) == Sent(s, b);
    assert forall q :: PcValid(s, q) ==> PcValid(t, q);
  }

  lemma FetchKeeps(s: State, limit: nat)
    requires Inv(s, limit)
    ensures Inv(Apply(s, Fetch, limit), limit)
  {
    var id := FirstUnfinished(s.db.batches, 0);
    if id < |s.db.batches| {
      NewCallKeeps(s, Resume(id, s.db.batches[id]), limit);
    } else if Take(Select(s.db.transfers, None), limit) != [] {
      CreateKeeps(s, Apply(s, Fetch, limit), id, limit);
    }
  }

  /** The transfers stay as they are. */
  lemma ProceedKeepsTransfers(s: State, a: Action)
    requires !a.Arrive? && !a.Fetch? && !a.Crash? && a.call < |s.calls|
    ensures Proceed(s, a).db.transfers == s.db.transfers && |Proceed(s, a).db.batches| == |s.db.batches|
  {
  }

  /** The newest batch, which is the only one unfinished, gets another status. */
  ghost predicate StatusMoves(s: State, t: State, id: nat, status: Status)
  {
    && id < |s.db.batches| && s.db.batches[id] != Finalized
    && t.db == s.db.(batches := s.db.batches[id := status]) && t.sendings == s.sendings
  }

  lemma TablesStay(s: State, t: State, id: nat, status: Status, limit: nat)
    requires BatchesValid(s, limit) && SendingsValid(s) && StatusMoves(s, t, id, status) && status != Created
    requires status in {SentToTap, Finalized} ==> Sent(s, id)
    ensures BatchesValid(t, limit) && SendingsValid(t)
  {
    assert forall b: nat :: Members(t, b) == Members(s, b) && Sent(t, b) == Sent(s, b);
  }

  /** A call that does not hold the batch is not affected. */
  lemma OtherCallStays(s: State, t: State, id: nat, status: Status, pc: Pc)
    requires StatusMoves(s, t, id, status) && PcValid(s, pc) && !Holds(pc, id)
    requires status == SentToTap || status == Finalized || s.db.batches[id] == Created
    ensures PcValid(t, pc)
  {
    assert forall b: nat :: Members(t, b) == Members(s, b) && Sent(t, b) == Sent(s, b);
  }

  lemma CallsStay(s: State, t: State, i: nat, id: nat, status: Status, pc: Pc)
    requires CallsValid(s) && StatusMoves(s, t, id, status) && i < |s.calls| && t.calls == s.calls[i := pc]
    requires forall j :: 0 <= j < |s.calls| && j != i ==> !Holds(s.calls[j], id)
    requires status == SentToTap || status == Finalized || s.db.batches[id] == Created
    requires PcValid(t, pc) && forall b :: Holds(pc, b) ==> b == id
    ensures CallsValid(t)
  {
    forall j | 0 <= j < |t.calls|
      ensures PcValid(t, t.calls[j])
    {
      if j != i {
        OtherCallStays(s, t, id, status, s.calls[j]);
      }
    }
  }

  lemma MarkKeeps(s: State, i: nat, limit: nat)
    requires Inv(s, limit) && i < |s.calls| && s.calls[i].Fetched? && HasStatus(s, s.calls[i].id, s.calls[i].status)
    ensures Inv(Proceed(s, Mark(i)), limit)
  {
    var t, id := Proceed(s, Mark(i)), s.calls[i].id;
    assert forall j :: 0 <= j < |s.calls| ==> PcValid(s, s.calls[j]);
    assert !Sent(s, id);
    TablesStay(s, t, id, SendingToTap, limit);
    CallsStay(s, t, i, id, SendingToTap, t.calls[i]);
  }

  lemma RecordKeeps(s: State, i: nat, limit: nat)
    requires Inv(s, limit) && i < |s.calls| && s.calls[i].Called?
    ensures Inv(Proceed(s, Record(i)), limit)
  {
    var t, id := Proceed(s, Record(i)), s.calls[i].id;
    assert PcValid(s, s.calls[i]) && Holds(s.calls[i], id);
    TablesStay(s, t, id, SentToTap, limit);
    CallsStay(s, t, i, id, SentToTap, t.calls[i]);
  }

  lemma FinalizeKeeps(s: State, i: nat, limit: nat)
    requires Inv(s, limit) && i < |s.calls| && s.calls[i].Recorded? && HasStatus(s, s.calls[i].id, SentToTap)
    ensures Inv(Proceed(s, Finalize(i)), limit)
  {
    var t, id := Proceed(s, Finalize(i)), s.calls[i].id;
    assert forall j :: 0 <= j < |s.calls| ==> PcValid(s, s.calls[j]);
    TablesStay(s, t, id, Finalized, limit);
    CallsStay(s, t, i, id, Finalized, Idle);
  }

  /** A call that only moves on by itself, or stops. */
  lemma CallKeeps(s: State, i: nat, pc: Pc, limit: nat)
    requires Inv(s, limit) && i < |s.calls| && PcValid(s, pc) && forall b :: Holds(pc, b) ==> Holds(s.calls[i], b)
    ensures Inv(WithCall(s, i, pc), limit)
  {
    var t := WithCall(s, i, pc);
    assert forall b: nat :: Members(t, b) == Members(s, b) && Sent(t, b) == Sent(s, b);
    assert forall q :: PcValid(s, q) ==> PcValid(t, q);
  }

  lemma ProceedKeeps(s: State, a: Action, limit: nat)
    requires Inv(s, limit) && (a.Mark? || a.Check? || a.Record? || a.Finalize?) && a.call < |s.calls|
    ensures Inv(Proceed(s, a), limit)
  {
    var t, pc := Proceed(s, a), s.calls[a.call];
    assert PcValid(s, pc);
    match (a, pc)
    case (Mark(i), Fetched(id, status)) =>
      if HasStatus(s, id, status) { MarkKeeps(s, i, limit); } else { CallKeeps(s, i, Idle, limit); }
    case (Check(i), Marked(_, _)) => CallKeeps(s, i, t.calls[i], limit);
    case (Record(i), Called(_)) => RecordKeeps(s, i, limit);
    case (Finalize(i), Recorded(id)) =>
      if HasStatus(s, id, SentToTap) { FinalizeKeeps(s, i, limit); } else { CallKeeps(s, i, Idle, limit); }
    case _ =>
  }

  lemma SendKeeps(s: State, i: nat, limit: nat)
    requires Inv(s, limit) && i < |s.calls| && s.calls[i].Checked?
    ensures Inv(Proceed(s, Send(i)), limit)
  {
    var t, id := Proceed(s, Send(i)), s.calls[i].id;
    assert PcValid(s, s.calls[i]) && Holds(s.calls[i], id);
    assert forall b: nat :: Members(t, b) == Members(s, b);
    SentNext(s, t, id);
    forall j | 0 <= j < |t.calls|
      ensures PcValid(t, t.calls[j])
    {
      assert PcValid(s, s.calls[j]) && (j != i ==> !Holds(s.calls[j], id));
    }
  }

  lemma SentNext(s: State, t: State, id: nat)
    requires |t.sendings| == |s.sendings| + 1 && s.sendings <= t.sendings && t.sendings[|s.sendings|].batch == id
    ensures forall b: nat :: Sent(t, b) == (Sent(s, b) || b == id)
  {
    assert t.sendings[|s.sendings|].batch == id;
    forall b: nat
      ensures Sent(t, b) == (Sent(s, b) || b == id)
    {
      if Sent(s, b) {
        var i :| 0 <= i < |s.sendings| && s.sendings[i].batch == b;
        assert t.sendings[i].batch == b;
      }
    }
  }

  lemma StepKeeps(s: State, a: Action, limit: nat)
    requires Inv(s, limit)
    ensures Inv(Apply(s, a, limit), limit)
  {
    var t := Apply(s, a, limit);
    match a
    case Arrive(_, _) => ArriveKeeps(s, a, limit);
    case Fetch => FetchKeeps(s, limit);
    case Crash => assert forall b: nat :: Members(t, b) == Members(s, b) && Sent(t, b) == Sent(s, b);
    case Send(i) => if i < |s.calls| && s.calls[i].Checked? { SendKeeps(s, i, limit); }
    case _ => if a.call < |s.calls| { ProceedKeeps(s, a, limit); }
  }

  /** Over every run, with crashes and calls that overlap: one unfinished batch at most, batches within the limit, each
      sent at most once. */
  lemma {:induction false} RunKeeps(actions: seq<Action>, limit: nat)
    ensures Inv(Run(EMPTY, actions, limit), limit)
  {
    if actions != [] {
      RunKeeps(actions[..|actions| - 1], limit);
      StepKeeps(Run(EMPTY, actions[..|actions| - 1], limit), actions[|actions| - 1], limit);
    }
  }

  lemma {:induction false} RecipientsAre(rows: seq<Transfer>)
    ensures |Recipients(rows)| == |rows|
    ensures forall i :: 0 <= i < |rows| ==> Recipients(rows)[i] == rows[i].recipient
  {
    if rows != [] {
      RecipientsAre(rows[1..]);
    }
  }

  /** Over every run: a call of send_assets names the recipient of each member of its batch, in order and nobody else. */
  lemma SendingsPayMembers(actions: seq<Action>, limit: nat, k: nat)
    requires k < |Run(EMPTY, actions, limit).sendings|
    ensures var s := Run(EMPTY, actions, limit);
            var x := s.sendings[k];
            && 0 < |x.recipients| <= limit && |x.recipients| == |Members(s, x.batch)|
            && forall i :: 0 <= i < |x.recipients| ==> x.recipients[i] == Members(s, x.batch)[i].recipient
  {
    RunKeeps(actions, limit);
    var s := Run(EMPTY, actions, limit);
    RecipientsAre(Members(s, s.sendings[k].batch));
  }

  // ---------------------------------------------------------------- no resumption

  /** The batch is in SENDING_TO_TAP, and no call is about to send it or to record that it did. */
  ghost predicate Stuck(s: State, id: nat)
  {
    HasStatus(s, id, SendingToTap) && forall i :: 0 <= i < |s.calls| ==> !Holds(s.calls[i], id)
  }

  /** Then it stays so, no other batch is created, and nothing at all is sent any more. */
  lemma StuckStep(s: State, a: Action, id: nat, limit: nat)
    requires Inv(s, limit) && Stuck(s, id)
    ensures var t := Apply(s, a, limit);
            Stuck(t, id) && t.sendings == s.sendings && |t.db.batches| == |s.db.batches|
  {
    if a.Fetch? {
      assert FirstUnfinished(s.db.batches, 0) == id;
    } else if !a.Arrive? && !a.Crash? && a.call < |s.calls| {
      assert PcValid(s, s.calls[a.call]) && !Holds(s.calls[a.call], id);
    }
  }

  lemma {:induction false} NeverResumed(actions: seq<Action>, more: seq<Action>, id: nat, limit: nat)
    requires Stuck(Run(EMPTY, actions, limit), id)
    ensures var s, t := Run(EMPTY, actions, limit), Run(EMPTY, actions + more, limit);
            Stuck(t, id) && t.sendings == s.sendings && |t.db.batches| == |s.db.batches|
  {
    if more == [] {
      assert actions + more == actions;
    } else {
      var front, last := more[..|more| - 1], more[|more| - 1];
      assert (actions + more)[..|actions + more| - 1] == actions + front;
      NeverResumed(actions, front, id, limit);
      RunKeeps(actions + front, limit);
      StuckStep(Run(EMPTY, actions + front, limit), last, id, limit);
    }
  }

  /** A crash keeps what was committed and sent, and leaves exactly a batch that was being sent in that state. */
  lemma CrashedIsStuck(actions: seq<Action>, id: nat, limit: nat)
    ensures var s, t := Run(EMPTY, actions, limit), Run(EMPTY, actions + [Crash], limit);
            t.db == s.db && t.sendings == s.sendings && (Stuck(t, id) <==> HasStatus(s, id, SendingToTap))
  {
    assert (actions + [Crash])[..|actions|] == actions;
  }

  // ---------------------------------------------------------------- each transfer once

  ghost predicate CounterOrder(rows: seq<Transfer>)
  {
    forall i, j :: 0 <= i < j < |rows| ==> rows[i].counter < rows[j].counter
  }

  lemma OrderNext(x: Transfer, rows: seq<Transfer>)
    requires CounterOrder(rows) && forall r :: r in rows ==> x.counter < r.counter
    ensures CounterOrder([x] + rows)
  {
    assert forall i :: 0 <= i < |rows| ==> rows[i] in rows;
  }

  lemma RowsBehind(rows: seq<Transfer>)
    requires CounterOrder(rows) && rows != []
    ensures forall r :: r in rows[1..] ==> rows[0].counter < r.counter
    ensures rows == [rows[0]] + rows[1..]
  {
  }

  lemma {:induction false} InsertInOrder(rows: seq<Transfer>, t: Transfer)
    requires CounterOrder(rows)
    ensures CounterOrder(Insert(rows, t))
    ensures forall r :: r in Insert(rows, t) ==> r == t || r in rows
  {
    if rows != [] {
      RowsBehind(rows);
      if rows[0].counter < t.counter {
        InsertInOrder(rows[1..], t);
        OrderNext(rows[0], Insert(rows[1..], t));
      } else if t.counter < rows[0].counter {
        OrderNext(t, rows);
      }
    }
  }

  lemma {:induction false} AssignInPlace(rows: seq<Transfer>, id: nat, limit: nat)
    ensures |Assign(rows, id, limit)| == |rows|
    ensures forall i :: 0 <= i < |rows| ==>
              var r := Assign(rows, id, limit)[i];
              && r.counter == rows[i].counter && r.recipient == rows[i].recipient
              && (r.batch == rows[i].batch || (rows[i].batch == None && r.batch == Some(id)))
  {
    if rows != [] && limit > 0 {
      AssignInPlace(rows[1..], id, if rows[0].batch == None then limit - 1 else limit);
    }
  }

  lemma StepInOrder(s: State, a: Action, limit: nat)
    requires CounterOrder(s.db.transfers)
    ensures CounterOrder(Apply(s, a, limit).db.transfers)
  {
    match a
    case Arrive(counter, recipient) => InsertInOrder(s.db.transfers, Transfer(counter, recipient, None));
    case Fetch => AssignInPlace(s.db.transfers, FirstUnfinished(s.db.batches, 0), limit);
    case Crash =>
    case _ => if a.call < |s.calls| { ProceedKeepsTransfers(s, a); }
  }

  lemma {:induction false} RunInOrder(actions: seq<Action>, limit: nat)
    ensures CounterOrder(Run(EMPTY, actions, limit).db.transfers)
  {
    if actions != [] {
      RunInOrder(actions[..|actions| - 1], limit);
      StepInOrder(Run(EMPTY, actions[..|actions| - 1], limit), actions[|actions| - 1], limit);
    }
  }

  lemma {:induction false} SelectedRow(rows: seq<Transfer>, b: Option<nat>, r: Transfer)
    ensures r in Select(rows, b) <==> r in rows && r.batch == b
  {
    if rows != [] {
      SelectedRow(rows[1..], b, r);
    }
  }

  /** Event `i` is the first arrival with its counter. */
  ghost predicate FirstArrival(actions: seq<Action>, i: nat, counter: int, recipient: string)
  {
    && i < |actions| && actions[i] == Arrive(counter, recipient)
    && forall j :: 0 <= j < i && actions[j].Arrive? ==> actions[j].counter != counter
  }

  lemma {:induction false} InsertHas(rows: seq<Transfer>, t: Transfer)
    ensures exists r :: r in Insert(rows, t) && r.counter == t.counter
    ensures t !in Insert(rows, t) ==> exists r :: r in rows && r.counter == t.counter
    ensures forall r :: r in rows ==> r in Insert(rows, t)
  {
    if rows == [] || t.counter < rows[0].counter {
      assert t in Insert(rows, t);
    } else if t.counter == rows[0].counter {
      assert rows[0] in rows;
    } else {
      InsertHas(rows[1..], t);
      var r :| r in Insert(rows[1..], t) && r.counter == t.counter;
      assert r in Insert(rows, t);
      assert t in Insert(rows[1..], t) ==> t in Insert(rows, t);
    }
  }

  /** Only arrivals change what rows there are. */
  lemma OtherStepsKeepRows(s: State, a: Action, limit: nat)
    requires !a.Arrive?
    ensures var rows, later := s.db.transfers, Apply(s, a, limit).db.transfers;
            && |later| == |rows|
            && forall k :: 0 <= k < |rows| ==> later[k].counter == rows[k].counter && later[k].recipient == rows[k].recipient
  {
    if a.Fetch? {
      AssignInPlace(s.db.transfers, FirstUnfinished(s.db.batches, 0), limit);
    } else if !a.Crash? && a.call < |s.calls| {
      ProceedKeepsTransfers(s, a);
    }
  }

  ghost predicate HasRow(s: State, counter: int)
  {
    exists k :: 0 <= k < |s.db.transfers| && s.db.transfers[k].counter == counter
  }

  lemma StepKeepsHaving(s: State, a: Action, limit: nat, counter: int)
    requires HasRow(s, counter) || (a.Arrive? && a.counter == counter)
    ensures HasRow(Apply(s, a, limit), counter)
  {
    if a.Arrive? {
      var t := Transfer(a.counter, a.recipient, None);
      InsertHas(s.db.transfers, t);
      if a.counter != counter {
        var k :| 0 <= k < |s.db.transfers| && s.db.transfers[k].counter == counter;
        assert s.db.transfers[k] in Insert(s.db.transfers, t);
      }
    } else {
      OtherStepsKeepRows(s, a, limit);
      var k :| 0 <= k < |s.db.transfers| && s.db.transfers[k].counter == counter;
      assert Apply(s, a, limit).db.transfers[k].counter == counter;
    }
  }

  /** Over every run: each counter that arrived has a row. */
  lemma {:induction false} ArrivalsHaveRows(actions: seq<Action>, limit: nat, i: nat)
    requires i < |actions| && actions[i].Arrive?
    ensures HasRow(Run(EMPTY, actions, limit), actions[i].counter)
  {
    var before := actions[..|actions| - 1];
    if i < |before| {
      ArrivalsHaveRows(before, limit, i);
    }
    StepKeepsHaving(Run(EMPTY, before, limit), actions[|before|], limit, actions[i].counter);
  }

  /** Over every run: each row is for the recipient of the first arrival with its counter. */
  lemma {:induction false} RowsAreFirstArrivals(actions: seq<Action>, limit: nat, r: Transfer)
    requires r in Run(EMPTY, actions, limit).db.transfers
    ensures exists i :: FirstArrival(actions, i, r.counter, r.recipient)
    decreases |actions|, 0
  {
    if actions != [] {
      var before, last := actions[..|actions| - 1], actions[|actions| - 1];
      assert before + [last] == actions;
      if last.Arrive? {
        RowAfterArrival(before, last, limit, r);
      } else {
        RowAfterOther(before, last, limit, r);
      }
    }
  }

  lemma {:induction false} RowAfterOther(before: seq<Action>, last: Action, limit: nat, r: Transfer)
    requires !last.Arrive? && r in Apply(Run(EMPTY, before, limit), last, limit).db.transfers
    ensures exists i :: FirstArrival(before + [last], i, r.counter, r.recipient)
    decreases |before|, 1
  {
    var s := Run(EMPTY, before, limit);
    OtherStepsKeepRows(s, last, limit);
    var k :| 0 <= k < |s.db.transfers| && Apply(s, last, limit).db.transfers[k] == r;
    RowsAreFirstArrivals(before, limit, s.db.transfers[k]);
    var i :| FirstArrival(before, i, r.counter, r.recipient);
    assert FirstArrival(before + [last], i, r.counter, r.recipient);
  }

  lemma {:induction false} RowAfterArrival(before: seq<Action>, last: Action, limit: nat, r: Transfer)
    requires last.Arrive? && r in Insert(Run(EMPTY, before, limit).db.transfers, Transfer(last.counter, last.recipient, None))
    ensures exists i :: FirstArrival(before + [last], i, r.counter, r.recipient)
    decreases |before|, 1
  {
    var s, t := Run(EMPTY, before, limit), Transfer(last.counter, last.recipient, None);
    RunInOrder(before, limit);
    InsertInOrder(s.db.transfers, t);
    if r in s.db.transfers {
      RowsAreFirstArrivals(before, limit, r);
      var i :| FirstArrival(before, i, r.counter, r.recipient);
      assert FirstArrival(before + [last], i, r.counter, r.recipient);
    } else {
      if j: nat :| j < |before| && before[j].Arrive? && before[j].counter == t.counter {
        ArrivalsHaveRows(before, limit, j);
        InsertOld(s.db.transfers, t);
        assert false;
      }
      assert FirstArrival(before + [last], |before|, t.counter, t.recipient);
    }
  }

  /** No transfer is covered by two calls of send_assets. */
  lemma TransferSentAtMostOnce(actions: seq<Action>, limit: nat, i: nat, j: nat, q: Transfer, r: Transfer)
    requires var s := Run(EMPTY, actions, limit);
             i < j < |s.sendings| && q in Members(s, s.sendings[i].batch) && r in Members(s, s.sendings[j].batch)
    ensures q.counter != r.counter
  {
    var s := Run(EMPTY, actions, limit);
    RunKeeps(actions, limit);
    RunInOrder(actions, limit);
    SelectedRow(s.db.transfers, Some(s.sendings[i].batch), q);
    SelectedRow(s.db.transfers, Some(s.sendings[j].batch), r);
  }

  lemma StepKeepsMembers(s: State, a: Action, limit: nat, b: nat)
    requires b < |s.db.batches|
    ensures b < |Apply(s, a, limit).db.batches| && Members(Apply(s, a, limit), b) == Members(s, b)
  {
    match a
    case Arrive(counter, recipient) => InsertFree(s.db.transfers, Transfer(counter, recipient, None), b);
    case Fetch => AssignKeepsOthers(s.db.transfers, |s.db.batches|, limit, b);
    case Crash =>
    case _ => if a.call < |s.calls| { ProceedKeepsTransfers(s, a); }
  }

  /** Once a batch exists, its members never change. */
  lemma {:induction false} MembersAreFixed(actions: seq<Action>, more: seq<Action>, limit: nat, b: nat)
    requires b < |Run(EMPTY, actions, limit).db.batches|
    ensures b < |Run(EMPTY, actions + more, limit).db.batches|
    ensures Members(Run(EMPTY, actions + more, limit), b) == Members(Run(EMPTY, actions, limit), b)
  {
    if more == [] {
      assert actions + more == actions;
    } else {
      var before, last := more[..|more| - 1], more[|more| - 1];
      assert (actions + more)[..|actions + more| - 1] == actions + before;
      MembersAreFixed(actions, before, limit, b);
      StepKeepsMembers(Run(EMPTY, actions + before, limit), last, limit, b);
    }
  }

  // ---------------------------------------------------------------- arrivals in ascending order

  /** The batches one after the other, in id order. */
  function InBatches(rows: seq<Transfer>, n: nat): seq<Transfer>
  {
    if n == 0 then [] else InBatches(rows, n - 1) + Select(rows, Some(n - 1))
  }

  /** Later rows are in later batches, and the rows without a batch come last. */
  ghost predicate BatchesAscend(rows: seq<Transfer>)
  {
    forall i, j :: 0 <= i < j < |rows| && rows[j].batch.Some? ==>
      rows[i].batch.Some? && rows[i].batch.value <= rows[j].batch.value
  }

  /** Each transfer arrives with a counter above those of all transfers before it. */
  ghost predicate ArriveAscending(actions: seq<Action>)
  {
    forall i, j :: 0 <= i < j < |actions| && actions[i].Arrive? && actions[j].Arrive? ==>
      actions[i].counter < actions[j].counter
  }

  /** A free row is inserted behind all assigned ones, or not at all. */
  lemma {:induction false} InsertAscends(rows: seq<Transfer>, t: Transfer)
    requires BatchesAscend(rows) && CounterOrder(rows) && t.batch == None
    requires forall r :: r in rows && r.batch.Some? && r.counter != t.counter ==> r.counter < t.counter
    ensures BatchesAscend(Insert(rows, t))
  {
    if rows != [] && rows[0].counter < t.counter {
      InsertAscends(rows[1..], t);
      InsertInOrder(rows[1..], t);
      var rest := Insert(rows[1..], t);
      forall j | 0 <= j < |rest| && rest[j].batch.Some?
        ensures rows[0].batch.Some? && rows[0].batch.value <= rest[j].batch.value
      {
        assert rest[j] in rest;
        assert rest[j] in rows[1..];
      }
    } else {
      assert rows == [] || rows[0] in rows;
      assert forall i :: 0 <= i < |rows| ==> rows[i] in rows;
    }
  }

  /** Of free rows the first ones join the batch. */
  lemma {:induction false} AssignFreeAscends(rows: seq<Transfer>, id: nat, limit: nat)
    requires forall i :: 0 <= i < |rows| ==> rows[i].batch == None
    ensures BatchesAscend(Assign(rows, id, limit))
  {
    if rows != [] && limit > 0 {
      AssignFreeAscends(rows[1..], id, limit - 1);
      AssignInPlace(rows[1..], id, limit - 1);
    }
  }

  lemma {:induction false} AssignAscends(rows: seq<Transfer>, id: nat, limit: nat)
    requires BatchesAscend(rows) && forall i :: 0 <= i < |rows| && rows[i].batch.Some? ==> rows[i].batch.value < id
    ensures BatchesAscend(Assign(rows, id, limit))
  {
    if rows != [] && limit > 0 {
      if rows[0].batch == None {
        AssignFreeAscends(rows, id, limit);
      } else {
        AssignAscends(rows[1..], id, limit);
        AssignInPlace(rows[1..], id, limit);
        AscendsBehind(rows, Assign(rows[1..], id, limit), id);
      }
    }
  }

  lemma AscendsBehind(rows: seq<Transfer>, rest: seq<Transfer>, id: nat)
    requires rows != [] && rows[0].batch.Some? && rows[0].batch.value < id && |rest| == |rows| - 1
    requires BatchesAscend(rows) && BatchesAscend(rest)
    requires forall i :: 0 <= i < |rest| ==> rest[i].batch == rows[i + 1].batch || rest[i].batch == Some(id)
    ensures BatchesAscend([rows[0]] + rest)
  {
  }

  /** The counters in the table are those that have arrived. */
  lemma {:induction false} RowsArrived(actions: seq<Action>, limit: nat, r: Transfer)
    requires r in Run(EMPTY, actions, limit).db.transfers
    ensures exists i :: 0 <= i < |actions| && actions[i].Arrive? && actions[i].counter == r.counter
  {
    if actions != [] {
      var before, last := actions[..|actions| - 1], actions[|actions| - 1];
      var s := Run(EMPTY, before, limit);
      RunInOrder(before, limit);
      if last.Arrive? {
        InsertInOrder(s.db.transfers, Transfer(last.counter, last.recipient, None));
        if r in s.db.transfers {
          RowsArrived(before, limit, r);
        } else {
          assert actions[|actions| - 1].counter == r.counter;
        }
      } else {
        AssignInPlace(s.db.transfers, FirstUnfinished(s.db.batches, 0), limit);
        var k :| 0 <= k < |Run(EMPTY, actions, limit).db.transfers| && Run(EMPTY, actions, limit).db.transfers[k] == r;
        assert s.db.transfers[k].counter == r.counter;
        RowsArrived(before, limit, s.db.transfers[k]);
      }
    }
  }

  ghost predicate Ascends(s: State)
  {
    && BatchesAscend(s.db.transfers)
    && forall i :: 0 <= i < |s.db.transfers| && s.db.transfers[i].batch.Some? ==>
         s.db.transfers[i].batch.value < |s.db.batches|
  }

  /** The transfer is there already, or its counter is above those of all transfers in batches. */
  ghost predicate InTime(s: State, counter: int)
  {
    || (exists r :: r in s.db.transfers && r.counter == counter)
    || (forall r :: r in s.db.transfers && r.batch.Some? ==> r.counter < counter)
  }

  /** Every arrival of the run was in time. */
  ghost predicate NeverOvertaken(actions: seq<Action>, limit: nat)
  {
    actions == [] ||
    var front, last := actions[..|actions| - 1], actions[|actions| - 1];
    NeverOvertaken(front, limit) && (last.Arrive? ==> InTime(Run(EMPTY, front, limit), last.counter))
  }

  lemma {:induction false} InsertOld(rows: seq<Transfer>, t: Transfer)
    requires CounterOrder(rows) && exists r :: r in rows && r.counter == t.counter
    ensures Insert(rows, t) == rows
  {
    var r :| r in rows && r.counter == t.counter;
    if rows != [] && rows[0].counter < t.counter {
      assert rows == [rows[0]] + rows[1..];
      assert r in rows[1..];
      InsertOld(rows[1..], t);
    }
  }

  lemma ArriveAscends(s: State, t: Transfer)
    requires Ascends(s) && CounterOrder(s.db.transfers) && InTime(s, t.counter) && t.batch == None
    ensures Ascends(s.(db := s.db.(transfers := Insert(s.db.transfers, t))))
  {
    if exists r :: r in s.db.transfers && r.counter == t.counter {
      InsertOld(s.db.transfers, t);
    } else {
      InsertAscends(s.db.transfers, t);
      InsertInOrder(s.db.transfers, t);
      var rows := Insert(s.db.transfers, t);
      assert forall i :: 0 <= i < |rows| ==> rows[i] in rows;
    }
  }

  lemma FetchAscends(s: State, limit: nat)
    requires Ascends(s)
    ensures Ascends(FetchBatch(s, limit))
  {
    AssignAscends(s.db.transfers, |s.db.batches|, limit);
    AssignInPlace(s.db.transfers, |s.db.batches|, limit);
  }

  lemma StepAscends(s: State, a: Action, limit: nat)
    requires Ascends(s) && CounterOrder(s.db.transfers) && (a.Arrive? ==> InTime(s, a.counter))
    ensures Ascends(Apply(s, a, limit))
  {
    match a
    case Arrive(counter, recipient) => ArriveAscends(s, Transfer(counter, recipient, None));
    case Fetch => FetchAscends(s, limit);
    case Crash =>
    case _ => if a.call < |s.calls| { ProceedKeepsTransfers(s, a); }
  }

  lemma {:induction false} RunAscends(actions: seq<Action>, limit: nat)
    requires NeverOvertaken(actions, limit)
    ensures Ascends(Run(EMPTY, actions, limit))
  {
    if actions != [] {
      var before, last := actions[..|actions| - 1], actions[|actions| - 1];
      RunAscends(before, limit);
      RunInOrder(before, limit);
      StepAscends(Run(EMPTY, before, limit), last, limit);
    }
  }

  // ---------------------------------------------------------------- arrivals out of order

  ghost predicate Passes(r: Transfer, q: Transfer)
  {
    q.counter < r.counter && r.batch.Some? && (q.batch.Some? ==> r.batch.value < q.batch.value)
  }

  /** Some transfer is in a batch before one with a smaller counter is. */
  ghost predicate Overtaken(rows: seq<Transfer>)
  {
    exists q, r :: q in rows && r in rows && Passes(r, q)
  }

  lemma AscendIffNotOvertaken(rows: seq<Transfer>)
    requires CounterOrder(rows)
    ensures BatchesAscend(rows) <==> !Overtaken(rows)
  {
    if q, r :| q in rows && r in rows && Passes(r, q) {
      var i :| 0 <= i < |rows| && rows[i] == q;
      var j :| 0 <= j < |rows| && rows[j] == r;
      assert i < j;
    }
    if i, j :| 0 <= i < j < |rows| && rows[j].batch.Some?
               && !(rows[i].batch.Some? && rows[i].batch.value <= rows[j].batch.value) {
      assert rows[i] in rows && rows[j] in rows && Passes(rows[j], rows[i]);
    }
  }

  lemma {:induction false} InsertKeepsRows(rows: seq<Transfer>, t: Transfer)
    ensures forall r :: r in rows ==> r in Insert(rows, t)
    ensures CounterOrder(rows) && (forall r :: r in rows ==> r.counter != t.counter) ==> t in Insert(rows, t)
  {
    if rows != [] {
      assert rows == [rows[0]] + rows[1..];
      if rows[0].counter < t.counter {
        InsertKeepsRows(rows[1..], t);
      } else {
        assert rows[0] in rows;
      }
    }
  }

  lemma AssignKeepsPasses(rows: seq<Transfer>, id: nat, limit: nat)
    requires Overtaken(rows) && forall r :: r in rows && r.batch.Some? ==> r.batch.value < id
    ensures Overtaken(Assign(rows, id, limit))
  {
    var q, r :| q in rows && r in rows && Passes(r, q);
    var i :| 0 <= i < |rows| && rows[i] == q;
    var j :| 0 <= j < |rows| && rows[j] == r;
    AssignInPlace(rows, id, limit);
    var now := Assign(rows, id, limit);
    assert now[i] in now && now[j] in now && Passes(now[j], now[i]);
  }

  /** What was overtaken stays overtaken. */
  lemma StepStaysOvertaken(s: State, a: Action, limit: nat)
    requires Overtaken(s.db.transfers)
    requires forall r :: r in s.db.transfers && r.batch.Some? ==> r.batch.value < |s.db.batches|
    ensures Overtaken(Apply(s, a, limit).db.transfers)
  {
    match a
    case Arrive(counter, recipient) =>
      var q, r :| q in s.db.transfers && r in s.db.transfers && Passes(r, q);
      InsertKeepsRows(s.db.transfers, Transfer(counter, recipient, None));
    case Fetch => AssignKeepsPasses(s.db.transfers, |s.db.batches|, limit);
    case Crash =>
    case _ => if a.call < |s.calls| { ProceedKeepsTransfers(s, a); }
  }

  lemma LateIsOvertaken(s: State, counter: int, recipient: string, limit: nat)
    requires CounterOrder(s.db.transfers) && !InTime(s, counter)
    ensures Overtaken(Apply(s, Arrive(counter, recipient), limit).db.transfers)
  {
    var t := Transfer(counter, recipient, None);
    InsertKeepsRows(s.db.transfers, t);
    var r :| r in s.db.transfers && r.batch.Some? && r.counter >= counter;
    assert Passes(r, t);
  }

  /** Rows are in batches that exist. */
  lemma RowsBounded(actions: seq<Action>, limit: nat)
    ensures var s := Run(EMPTY, actions, limit);
            forall r :: r in s.db.transfers && r.batch.Some? ==> r.batch.value < |s.db.batches|
  {
    RunKeeps(actions, limit);
    var s := Run(EMPTY, actions, limit);
    forall r | r in s.db.transfers && r.batch.Some?
      ensures r.batch.value < |s.db.batches|
    {
      SelectedRow(s.db.transfers, r.batch, r);
      assert Members(s, r.batch.value) != [];
    }
  }

  /** Over every run: later batches hold later transfers exactly if every arrival was in time. */
  lemma {:induction false} AscendsIffNeverOvertaken(actions: seq<Action>, limit: nat)
    ensures BatchesAscend(Run(EMPTY, actions, limit).db.transfers) <==> NeverOvertaken(actions, limit)
  {
    if NeverOvertaken(actions, limit) {
      RunAscends(actions, limit);
    } else {
      var before, last := actions[..|actions| - 1], actions[|actions| - 1];
      var s := Run(EMPTY, before, limit);
      AscendsIffNeverOvertaken(before, limit);
      RunInOrder(before, limit);
      RunInOrder(actions, limit);
      AscendIffNotOvertaken(s.db.transfers);
      AscendIffNotOvertaken(Run(EMPTY, actions, limit).db.transfers);
      if Overtaken(s.db.transfers) {
        RowsBounded(before, limit);
        StepStaysOvertaken(s, last, limit);
      } else {
        LateIsOvertaken(s, last.counter, last.recipient, limit);
      }
    }
  }

  // ---------------------------------------------------------------- batches one after the other

  lemma {:induction false} SelectAppend(rows: seq<Transfer>, r: Transfer, b: Option<nat>)
    ensures Select(rows + [r], b) == if r.batch == b then Select(rows, b) + [r] else Select(rows, b)
  {
    if rows != [] {
      assert (rows + [r])[1..] == rows[1..] + [r];
      SelectAppend(rows[1..], r, b);
    }
  }

  /** A row behind batch `b` belongs to none of the batches up to `b`. */
  lemma {:induction false} InBatchesSkips(rows: seq<Transfer>, r: Transfer, n: nat)
    requires r.batch.Some? ==> n <= r.batch.value
    ensures InBatches(rows + [r], n) == InBatches(rows, n)
  {
    if n > 0 {
      InBatchesSkips(rows, r, n - 1);
      SelectAppend(rows, r, Some(n - 1));
    }
  }

  lemma {:induction false} NothingBehind(rows: seq<Transfer>, m: nat, n: nat)
    requires m <= n && forall i :: 0 <= i < |rows| && rows[i].batch.Some? ==> rows[i].batch.value < m
    ensures InBatches(rows, n) == InBatches(rows, m)
  {
    if m < n {
      NothingBehind(rows, m, n - 1);
      NoMembers(rows, n - 1);
    }
  }

  lemma {:induction false} NoMembers(rows: seq<Transfer>, b: nat)
    requires forall i :: 0 <= i < |rows| ==> rows[i].batch != Some(b)
    ensures Select(rows, Some(b)) == []
  {
    if rows != [] {
      NoMembers(rows[1..], b);
    }
  }

  lemma {:induction false} AllInBatches(rows: seq<Transfer>, n: nat)
    requires BatchesAscend(rows) && forall i :: 0 <= i < |rows| ==> rows[i].batch.Some? && rows[i].batch.value < n
    ensures InBatches(rows, n) == rows
    decreases |rows|
  {
    if rows == [] {
      NothingBehind(rows, 0, n);
    } else {
      var front, last := rows[..|rows| - 1], rows[|rows| - 1];
      AllInBatches(front, n);
      LastInBatches(front, last, n);
      assert rows == front + [last];
    }
  }

  lemma LastInBatches(front: seq<Transfer>, last: Transfer, n: nat)
    requires last.batch.Some? && last.batch.value < n
    requires forall i :: 0 <= i < |front| && front[i].batch.Some? ==> front[i].batch.value <= last.batch.value
    ensures InBatches(front + [last], n) == InBatches(front, n) + [last]
  {
    var b := last.batch.value;
    NothingBehind(front + [last], b + 1, n);
    NothingBehind(front, b + 1, n);
    InBatchesSkips(front, last, b);
    SelectAppend(front, last, Some(b));
  }

  lemma {:induction false} AscendingBatchesArePrefix(rows: seq<Transfer>, n: nat)
    requires BatchesAscend(rows)
    requires forall i :: 0 <= i < |rows| && rows[i].batch.Some? ==> rows[i].batch.value < n
    ensures InBatches(rows, n) <= rows
    decreases |rows|
  {
    if rows == [] || rows[|rows| - 1].batch.Some? {
      AllInBatches(rows, n);
    } else {
      var front, last := rows[..|rows| - 1], rows[|rows| - 1];
      assert rows == front + [last];
      AscendingBatchesArePrefix(front, n);
      InBatchesSkips(front, last, n);
    }
  }

  lemma {:induction false} InBatchesRows(rows: seq<Transfer>, n: nat, r: Transfer)
    ensures r in InBatches(rows, n) <==> r in rows && r.batch.Some? && r.batch.value < n
  {
    if n > 0 {
      InBatchesRows(rows, n - 1, r);
      SelectedRow(rows, Some(n - 1), r);
    }
  }

  lemma {:induction false} InBatchesAscend(rows: seq<Transfer>, n: nat)
    ensures BatchesAscend(InBatches(rows, n))
  {
    if n > 0 {
      InBatchesAscend(rows, n - 1);
      var before, now := InBatches(rows, n - 1), Select(rows, Some(n - 1));
      forall i | 0 <= i < |before|
        ensures before[i].batch.Some? && before[i].batch.value < n - 1
      {
        assert before[i] in before;
        InBatchesRows(rows, n - 1, before[i]);
      }
      forall i | 0 <= i < |now|
        ensures now[i].batch == Some(n - 1)
      {
        assert now[i] in now;
        SelectedRow(rows, Some(n - 1), now[i]);
      }
    }
  }

  /** The batches one after the other are a prefix of the table only if later batches hold later transfers. */
  lemma PrefixAscends(rows: seq<Transfer>, n: nat)
    requires CounterOrder(rows) && InBatches(rows, n) <= rows
    requires forall i :: 0 <= i < |rows| && rows[i].batch.Some? ==> rows[i].batch.value < n
    ensures BatchesAscend(rows)
  {
    var all := InBatches(rows, n);
    InBatchesAscend(rows, n);
    forall i, j | 0 <= i < j < |rows| && rows[j].batch.Some?
      ensures rows[i].batch.Some? && rows[i].batch.value <= rows[j].batch.value
    {
      InBatchesRows(rows, n, rows[j]);
      assert rows[j] in rows;
      var k :| 0 <= k < |all| && all[k] == rows[j];
      assert rows[k] == rows[j];
      assert k == j;
      assert all[i] == rows[i];
    }
  }

  /** Over every run: the batches in id order are a prefix of all transfers by counter exactly if each transfer arrived
      with a counter above those already in batches. */
  lemma BatchesArePrefixIff(actions: seq<Action>, limit: nat)
    ensures var s := Run(EMPTY, actions, limit);
            && CounterOrder(s.db.transfers)
            && (InBatches(s.db.transfers, |s.db.batches|) <= s.db.transfers <==> NeverOvertaken(actions, limit))
  {
    var s := Run(EMPTY, actions, limit);
    AscendsIffNeverOvertaken(actions, limit);
    RunInOrder(actions, limit);
    RowsBounded(actions, limit);
    assert forall i :: 0 <= i < |s.db.transfers| ==> s.db.transfers[i] in s.db.transfers;
    if BatchesAscend(s.db.transfers) {
      AscendingBatchesArePrefix(s.db.transfers, |s.db.batches|);
    }
    if InBatches(s.db.transfers, |s.db.batches|) <= s.db.transfers {
      PrefixAscends(s.db.transfers, |s.db.batches|);
    }
  }

  lemma {:induction false} AscendingIsInTime(actions: seq<Action>, limit: nat)
    requires ArriveAscending(actions)
    ensures NeverOvertaken(actions, limit)
  {
    if actions != [] {
      var before, last := actions[..|actions| - 1], actions[|actions| - 1];
      AscendingIsInTime(before, limit);
      if last.Arrive? {
        forall r | r in Run(EMPTY, before, limit).db.transfers
          ensures r.counter < last.counter
        {
          RowsArrived(before, limit, r);
        }
      }
    }
  }

  /** In particular if transfers arrive in ascending counter order. */
  lemma BatchesArePrefix(actions: seq<Action>, limit: nat)
    requires ArriveAscending(actions)
    ensures var s := Run(EMPTY, actions, limit);
            && CounterOrder(s.db.transfers)
            && InBatches(s.db.transfers, |s.db.batches|) <= s.db.transfers
  {
    AscendingIsInTime(actions, limit);
    BatchesArePrefixIff(actions, limit);
  }

  /** A run in which a transfer with a smaller counter arrives late. */
  lemma LateTransferIsOvertaken(first: string, late: string)
    ensures var s := Run(EMPTY, [Arrive(5, first), Fetch, Arrive(3, late)], 1);
            && InBatches(s.db.transfers, |s.db.batches|) == [Transfer(5, first, Some(0))]
            && s.db.transfers == [Transfer(3, late, None), Transfer(5, first, Some(0))]
  {
    var r := Transfer(5, first, None);
    var a, b := [Arrive(5, first)], [Arrive(5, first), Fetch];
    assert [Arrive(5, first), Fetch, Arrive(3, late)] == b + [Arrive(3, late)] && b == a + [Fetch] && a == [] + a;
    RunSnoc(EMPTY, [], Arrive(5, first), 1);
    RunSnoc(EMPTY, a, Fetch, 1);
    RunSnoc(EMPTY, b, Arrive(3, late), 1);
    assert Select([r], None) == [r] && Assign([r], 0, 1) == [r.(batch := Some(0))];
    var rows := [Transfer(3, late, None), r.(batch := Some(0))];
    assert rows[1..] == [r.(batch := Some(0))];
    assert Select(rows[1..][1..], Some(0)) == [];
    assert Select(rows, Some(0)) == Select(rows[1..], Some(0)) == rows[1..];
    assert InBatches(rows, 1) == InBatches(rows, 0) + Select(rows, Some(0));
  }

  lemma RunSnoc(s: State, before: seq<Action>, a: Action, limit: nat)
    ensures Run(s, before + [a], limit) == Apply(Run(s, before, limit), a, limit)
  {
    assert (before + [a])[..|before|] == before;
  }

  // ---------------------------------------------------------------- the service

  datatype Exception = RuntimeError

  /** The steps of one undisturbed call. */
  const CALL := [Fetch, Mark(0), Check(0), Send(0), Record(0), Finalize(0)]

  function RestOfCall(s: State, limit: nat): State
  {
    Apply(Apply(Apply(Apply(Apply(s, Mark(0), limit), Check(0), limit), Send(0), limit), Record(0), limit), Finalize(0), limit)
  }

  lemma CallSteps(s: State, limit: nat)
    ensures Run(s, CALL, limit) == RestOfCall(Apply(s, Fetch, limit), limit)
  {
    var a, b, c, d, e := CALL[..1], CALL[..2], CALL[..3], CALL[..4], CALL[..5];
    assert CALL == e + [Finalize(0)] && e == d + [Record(0)] && d == c + [Send(0)] && c == b + [Check(0)] && b == a + [Mark(0)];
    assert a == [] + [Fetch];
    RunSnoc(s, [], Fetch, limit);
    RunSnoc(s, a, Mark(0), limit);
    RunSnoc(s, b, Check(0), limit);
    RunSnoc(s, c, Send(0), limit);
    RunSnoc(s, d, Record(0), limit);
    RunSnoc(s, e, Finalize(0), limit);
  }

  /** A new batch goes all the way. */
  lemma CreatedCall(s: State, id: nat, limit: nat)
    requires s.calls == [Fetched(id, Created)] && HasStatus(s, id, Created)
    ensures RestOfCall(s, limit) == State(s.db.(batches := s.db.batches[id := Finalized]), [Idle],
                                          s.sendings + [Sending(id, Recipients(Select(s.db.transfers, Some(id))))])
  {
    var marked := Apply(s, Mark(0), limit);
    assert marked.calls[0].Marked?;
    var sent := Apply(Apply(marked, Check(0), limit), Send(0), limit);
    var recipients := Recipients(Select(s.db.transfers, Some(id)));
    assert sent == State(marked.db, [Called(id)], s.sendings + [Sending(id, recipients)]);
    var recorded := Apply(sent, Record(0), limit);
    assert s.db.batches[id := SendingToTap][id := SentToTap][id := Finalized] == s.db.batches[id := Finalized];
    assert Apply(recorded, Finalize(0), limit).db.batches == s.db.batches[id := Finalized];
  }

  /** A batch that was sent is finalized. */
  lemma SentCall(s: State, id: nat, limit: nat)
    requires s.calls == [Recorded(id)] && HasStatus(s, id, SentToTap)
    ensures RestOfCall(s, limit) == State(s.db.(batches := s.db.batches[id := Finalized]), [Idle], s.sendings)
  {
  }

  lemma NoCall(s: State, limit: nat)
    requires s.calls == [] || s.calls == [Idle]
    ensures RestOfCall(s, limit) == s
  {
  }

  /** One undisturbed call while every batch is finalized: the first `limit` free transfers join a new batch, their recipients
      are paid by one call of send_assets, and the batch is finalized. */
  lemma CallPaysFirst(s: State, limit: nat)
    requires s.calls == [] && (forall b :: 0 <= b < |s.db.batches| ==> s.db.batches[b] == Finalized)
    requires Select(s.db.transfers, Some(|s.db.batches|)) == []
    ensures var free, id, t := Select(s.db.transfers, None), |s.db.batches|, Run(s, CALL, limit);
            var n := if |free| < limit then |free| else limit;
            if n == 0 then t == s
            else
              && t.db.batches == s.db.batches + [Finalized] && |t.sendings| == |s.sendings| + 1
              && t.sendings[..|s.sendings|] == s.sendings && t.sendings[|s.sendings|].batch == id
              && |t.sendings[|s.sendings|].recipients| == |Select(t.db.transfers, Some(id))| == n
              && forall i :: 0 <= i < n ==>
                   && t.sendings[|s.sendings|].recipients[i] == free[i].recipient
                   && Select(t.db.transfers, Some(id))[i] == free[i].(batch := Some(id))
  {
    var free, id := Select(s.db.transfers, None), |s.db.batches|;
    CallSteps(s, limit);
    if Take(free, limit) == [] {
      NoCall(s, limit);
    } else {
      var fetched := Apply(s, Fetch, limit);
      AssignTakesFirst(s.db.transfers, id, limit);
      JoinedRows(Take(free, limit), id);
      RecipientsAre(Joined(Take(free, limit), id));
      CreatedCall(fetched, id, limit);
      assert fetched.db.batches[id := Finalized] == s.db.batches + [Finalized];
    }
  }

  /** One undisturbed call while a batch is unfinished: a created one is sent to its members and finalized, one that was sent is
      finalized, and one that may or may not have been sent is left as it is. */
  lemma CallResumes(s: State, id: nat, limit: nat)
    requires s.calls == [] && id < |s.db.batches| && s.db.batches[id] != Finalized
    requires forall b :: 0 <= b < id ==> s.db.batches[b] == Finalized
    ensures var t, rows := Run(s, CALL, limit), Select(s.db.transfers, Some(id));
            && t.db.transfers == s.db.transfers
            && match s.db.batches[id]
               case Created =>
                 && t.db.batches == s.db.batches[id := Finalized] && |t.sendings| == |s.sendings| + 1
                 && t.sendings[..|s.sendings|] == s.sendings && t.sendings[|s.sendings|].batch == id
                 && |t.sendings[|s.sendings|].recipients| == |rows|
                 && forall i :: 0 <= i < |rows| ==> t.sendings[|s.sendings|].recipients[i] == rows[i].recipient
               case SentToTap => t.db.batches == s.db.batches[id := Finalized] && t.sendings == s.sendings
               case _ => t.db == s.db && t.sendings == s.sendings
  {
    CallSteps(s, limit);
    var fetched := Apply(s, Fetch, limit);
    assert FirstUnfinished(s.db.batches, 0) == id;
    match s.db.batches[id]
    case Created =>
      CreatedCall(fetched, id, limit);
      RecipientsAre(Select(s.db.transfers, Some(id)));
    case SentToTap => SentCall(fetched, id, limit);
    case _ => NoCall(fetched, limit);
  }

  class RskToTapService {
    const batchLimit: nat
    var transfers: seq<Transfer>
    var batches: seq<Status>
    var sendings: seq<Sending>

    constructor (batchLimit: nat)
      ensures this.batchLimit == batchLimit && Value() == EMPTY
    {
      this.batchLimit := batchLimit;
      transfers, batches, sendings := [], [], [];
    }

    /** Between two calls. */
    ghost function Value(): State
      reads this
    {
      State(Db(transfers, batches), [], sendings)
    }

    method GetOrCreateCurrentBatch() returns (current: Option<nat>)
      modifies this
      ensures current != None ==> current.value < |batches| && batches[current.value] != Finalized
      ensures FetchBatch(old(Value()), batchLimit)
           == Value().(calls := if current == None then [] else [Resume(current.value, batches[current.value])])
      ensures FirstUnfinished(old(batches), 0) < |old(batches)| ==>
                current == Some(FirstUnfinished(old(batches), 0)) && batches == old(batches)
      ensures FirstUnfinished(old(batches), 0) == |old(batches)| && current != None ==>
                batches[current.value] == Created
    {
      var id := FirstUnfinished(batches, 0);
      if id < |batches| {
        return Some(id);
      }
      var free := Take(Select(transfers, None), batchLimit);
      if free == [] {
        return None;
      }
      transfers := Assign(transfers, id, batchLimit);
      batches := batches + [Created];
      return Some(id);
    }

    /** One call without a crash is the run of all its steps. */
    method ProcessCurrentTransferBatch() returns (outcome: Result<(), Exception>)
      modifies this
      ensures var s := Run(old(Value()), CALL, batchLimit); Value().db == s.db && sendings == s.sendings
      ensures outcome == Raise(RuntimeError) <==>
                var id := FirstUnfinished(old(batches), 0);
                id < |old(batches)| && old(batches)[id] == SendingToTap
    {
      CallSteps(Value(), batchLimit);
      ghost var fetched := FetchBatch(Value(), batchLimit);
      var current := GetOrCreateCurrentBatch();
      if current == None {
        NoCall(fetched, batchLimit);
        return Ok(());
      }
      var id := current.value;
      var status := batches[id];
      if status == Created {
        CreatedCall(fetched, id, batchLimit);
        status := SendingToTap;
        batches := batches[id := status];
        var recipients := Recipients(Select(transfers, Some(id)));
        sendings := sendings + [Sending(id, recipients)];
        status := SentToTap;
        batches := batches[id := status];
      }
      if status == SendingToTap {
        NoCall(fetched, batchLimit);
        return Raise(RuntimeError);
      }
      if status == SentToTap {
        if fetched.calls == [Recorded(id)] {
          SentCall(fetched, id, batchLimit);
        }
        batches := batches[id := Finalized];
      }
      return Ok(());
    }
  }
}
