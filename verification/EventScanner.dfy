/** The EVM event scanner: a checkpoint, a safety margin, and sorted delivery to a callback. */
module EventScanner {
  import opened EvmEvents
  import opened Wrappers

  // ---------------------------------------------------------------- order of delivery

  ghost predicate Before(e: Event, f: Event)
  {
    || e.block < f.block
    || (e.block == f.block && e.txIndex < f.txIndex)
    || (e.block == f.block && e.txIndex == f.txIndex && e.logIndex < f.logIndex)
  }

  ghost predicate SamePlace(e: Event, f: Event)
  {
    e.block == f.block && e.txIndex == f.txIndex && e.logIndex == f.logIndex
  }

  ghost predicate DistinctPlaces(events: seq<Event>)
  {
    forall i, j :: 0 <= i < j < |events| ==> !SamePlace(events[i], events[j])
  }

  ghost predicate Ascending(events: seq<Event>)
  {
    forall i, j :: 0 <= i < j < |events| ==> Before(events[i], events[j])
  }

  predicate NotAfter(e: Event, f: Event)
  {
    || e.block < f.block
    || (e.block == f.block && e.txIndex < f.txIndex)
    || (e.block == f.block && e.txIndex == f.txIndex && e.logIndex <= f.logIndex)
  }

  /** Stable insertion: `e` goes behind everything that is not after it. */
  function Insert(events: seq<Event>, e: Event): seq<Event>
  {
    if events == [] then [e]
    else if NotAfter(events[|events| - 1], e) then events + [e]
    else Insert(events[..|events| - 1], e) + [events[|events| - 1]]
  }

  /** list.sort by block, transaction index and log index. */
  function Sort(events: seq<Event>): seq<Event>
  {
    if events == [] then [] else Insert(Sort(events[..|events| - 1]), events[|events| - 1])
  }

  lemma SameMembers(s: seq<Event>, t: seq<Event>)
    requires multiset(s) == multiset(t)
    ensures forall e :: e in s <==> e in t
  {
    forall e
      ensures e in s <==> e in t
    {
      assert e in s <==> e in multiset(s);
      assert e in t <==> e in multiset(t);
    }
  }

  lemma {:induction false} InsertKeeps(events: seq<Event>, e: Event)
    ensures multiset(Insert(events, e)) == multiset(events) + multiset{e}
  {
    if events != [] {
      assert events == events[..|events| - 1] + [events[|events| - 1]];
      InsertKeeps(events[..|events| - 1], e);
    }
  }

  lemma {:induction false} InsertSorts(events: seq<Event>, e: Event)
    requires Ascending(events) && forall f :: f in events ==> !SamePlace(f, e)
    ensures Ascending(Insert(events, e))
  {
    if events != [] {
      var front, last := events[..|events| - 1], events[|events| - 1];
      if !NotAfter(last, e) {
        InsertSorts(front, e);
        InsertKeeps(front, e);
        var r := Insert(front, e);
        forall i | 0 <= i < |r|
          ensures Before(r[i], last)
        {
          assert r[i] in multiset(r);
          assert r[i] in front || r[i] == e;
        }
      } else {
        assert last in events;
        assert forall i :: 0 <= i < |front| ==> Before(events[i], last);
      }
    }
  }

  lemma {:induction false} SortSorts(events: seq<Event>)
    requires DistinctPlaces(events)
    ensures Ascending(Sort(events)) && multiset(Sort(events)) == multiset(events)
  {
    if events != [] {
      var front, last := events[..|events| - 1], events[|events| - 1];
      assert events == front + [last];
      SortSorts(front);
      SameMembers(Sort(front), front);
      InsertSorts(Sort(front), last);
      InsertKeeps(Sort(front), last);
    }
  }

  /** The first element comes before every other one, so two arrangements agree on it. */
  lemma SameFirst(s: seq<Event>, t: seq<Event>)
    requires Ascending(s) && Ascending(t) && s != [] && t != []
    requires s[0] in t && t[0] in s
    ensures s[0] == t[0]
  {
    var i :| 0 <= i < |t| && t[i] == s[0];
    var j :| 0 <= j < |s| && s[j] == t[0];
    assert i == 0 || Before(t[0], t[i]);
    assert j == 0 || Before(s[0], s[j]);
  }

  /** There is only one ascending arrangement. */
  lemma {:induction false} AscendingIsUnique(s: seq<Event>, t: seq<Event>)
    requires Ascending(s) && Ascending(t) && forall e :: e in s <==> e in t
    ensures s == t
  {
    assert s == [] || s[0] in s;
    assert t == [] || t[0] in t;
    if s != [] {
      SameFirst(s, t);
      RestOf(s);
      RestOf(t);
      AscendingIsUnique(s[1..], t[1..]);
    }
  }

  lemma RestOf(s: seq<Event>)
    requires s != [] && Ascending(s)
    ensures Ascending(s[1..]) && s == [s[0]] + s[1..]
    ensures forall e :: e in s[1..] <==> e in s && e != s[0]
  {
    assert s == [s[0]] + s[1..];
    assert forall j :: 0 < j < |s| ==> Before(s[0], s[j]);
  }

  // ---------------------------------------------------------------- what one scan fetches

  /** All kinds of event, each over the whole range of blocks, one kind after the other. */
  function FetchAll(logs: Logs, kinds: seq<Kind>, from: int, to: int): seq<Event>
  {
    if kinds == [] then []
    else FetchAll(logs, kinds[..|kinds| - 1], from, to) + Fetch(logs, kinds[|kinds| - 1], from, to)
  }

  /** What a node guarantees: a log belongs to its block, and a place in a block holds one log of one kind. */
  ghost predicate WellFormed(logs: Logs, kinds: seq<Kind>)
  {
    && (forall i, j :: 0 <= i < j < |kinds| ==> kinds[i] != kinds[j])
    && (forall kind, block, e :: kind in kinds && e in logs(kind, block) ==> e.kind == kind && e.block == block)
    && (forall kind, block :: kind in kinds ==> DistinctPlaces(logs(kind, block)))
    && (forall k, l, block, e, f :: k in kinds && l in kinds && e in logs(k, block) && f in logs(l, block) ==>
          !SamePlace(e, f) || k == l)
  }

  ghost predicate Emitted(logs: Logs, kinds: seq<Kind>, e: Event)
  {
    e.kind in kinds && e in logs(e.kind, e.block)
  }

  lemma {:induction false} FetchMembers(logs: Logs, kinds: seq<Kind>, kind: Kind, from: int, to: int)
    requires WellFormed(logs, kinds) && kind in kinds
    ensures forall e :: e in Fetch(logs, kind, from, to) <==> e in logs(kind, e.block) && from <= e.block <= to
    ensures DistinctPlaces(Fetch(logs, kind, from, to))
    decreases 1 + to - from
  {
    if from <= to {
      FetchMembers(logs, kinds, kind, from, to - 1);
      var before, now := Fetch(logs, kind, from, to - 1), logs(kind, to);
      assert forall e :: e in now ==> e.block == to;
      forall i, j | 0 <= i < j < |before + now|
        ensures !SamePlace((before + now)[i], (before + now)[j])
      {
        if i < |before| <= j {
          assert before[i] in before && now[j - |before|] in now;
        }
      }
    }
  }

  lemma {:induction false} FetchAllMembers(logs: Logs, kinds: seq<Kind>, from: int, to: int)
    requires WellFormed(logs, kinds)
    ensures forall e :: e in FetchAll(logs, kinds, from, to) <==>
              Emitted(logs, kinds, e) && from <= e.block <= to
    ensures DistinctPlaces(FetchAll(logs, kinds, from, to))
  {
    if kinds != [] {
      var front, kind := kinds[..|kinds| - 1], kinds[|kinds| - 1];
      assert kinds == front + [kind];
      FetchAllMembers(logs, front, from, to);
      FetchMembers(logs, kinds, kind, from, to);
      var before, now := FetchAll(logs, front, from, to), Fetch(logs, kind, from, to);
      assert forall e :: e in now ==> e.kind == kind;
      forall i, j | 0 <= i < j < |before + now|
        ensures !SamePlace((before + now)[i], (before + now)[j])
      {
        if i < |before| <= j {
          var e, f := before[i], now[j - |before|];
          assert e in before && f in now;
        }
      }
    }
  }

  /** The events of a range of blocks, each exactly once, in ascending order. */
  ghost predicate Delivers(events: seq<Event>, logs: Logs, kinds: seq<Kind>, from: int, to: int)
  {
    Ascending(events) && forall e :: e in events <==> Emitted(logs, kinds, e) && from <= e.block <= to
  }

  lemma AscendingJoin(s: seq<Event>, t: seq<Event>, mid: int)
    requires Ascending(s) && Ascending(t)
    requires (forall e :: e in s ==> e.block <= mid) && forall e :: e in t ==> mid < e.block
    ensures Ascending(s + t)
  {
    forall i, j | 0 <= i < j < |s + t|
      ensures Before((s + t)[i], (s + t)[j])
    {
      if i < |s| <= j {
        assert s[i] in s && t[j - |s|] in t;
      }
    }
  }

  // ---------------------------------------------------------------- the scanner

  datatype Config = Config(kinds: seq<Kind>, blockSafetyMargin: int, defaultStartBlock: int)

  /** The stored checkpoint, and everything the callback has been given in committed transactions. */
  datatype State = State(lastScannedBlock: Option<int>, delivered: seq<Event>)

  function LastScanned(cfg: Config, s: State): int
  {
    match s.lastScannedBlock
    case Some(block) => block
    case None => cfg.defaultStartBlock
  }

  /** What a scan over an inclusive range of blocks hands to the callback. */
  type Feed = (int, int) -> seq<Event>

  /** The scanner's own feed: every kind fetched over the whole range, then sorted. */
  function EventFeed(logs: Logs, kinds: seq<Kind>): Feed
  {
    (from, to) => Sort(FetchAll(logs, kinds, from, to))
  }

  ghost predicate Faithful(feed: Feed, logs: Logs, kinds: seq<Kind>)
  {
    forall from, to :: Delivers(feed(from, to), logs, kinds, from, to)
  }

  lemma EventFeedIsFaithful(logs: Logs, kinds: seq<Kind>)
    requires WellFormed(logs, kinds)
    ensures Faithful(EventFeed(logs, kinds), logs, kinds)
  {
    forall from, to
      ensures Delivers(Sort(FetchAll(logs, kinds, from, to)), logs, kinds, from, to)
    {
      var all := FetchAll(logs, kinds, from, to);
      FetchAllMembers(logs, kinds, from, to);
      SortSorts(all);
      SameMembers(Sort(all), all);
    }
  }

  /** The effect of one scan whose transaction commits. */
  function Scan(cfg: Config, feed: Feed, s: State, currentBlock: int): State
  {
    var from, to := LastScanned(cfg, s) + 1, currentBlock - cfg.blockSafetyMargin;
    if to < from then s else State(Some(to), s.delivered + feed(from, to))
  }

  /** One scan: the height the node reported, and whether the enclosing transaction committed. */
  datatype Attempt = Attempt(currentBlock: int, commits: bool)

  function Run(cfg: Config, feed: Feed, attempts: seq<Attempt>): State
  {
    if attempts == [] then State(None, [])
    else
      var s := Run(cfg, feed, attempts[..|attempts| - 1]);
      var last := attempts[|attempts| - 1];
      if last.commits then Scan(cfg, feed, s, last.currentBlock) else s
  }

  /** The furthest block any committed scan was allowed to reach, or the starting block. */
  function Furthest(cfg: Config, attempts: seq<Attempt>): int
  {
    if attempts == [] then cfg.defaultStartBlock
    else
      var before := Furthest(cfg, attempts[..|attempts| - 1]);
      var last := attempts[|attempts| - 1];
      if last.commits && before < last.currentBlock - cfg.blockSafetyMargin
      then last.currentBlock - cfg.blockSafetyMargin
      else before
  }

  /** Delivering the range right behind the checkpoint keeps the whole delivery complete and in order. */
  lemma ScanDelivers(cfg: Config, feed: Feed, logs: Logs, s: State, currentBlock: int)
    requires Faithful(feed, logs, cfg.kinds) && cfg.defaultStartBlock <= LastScanned(cfg, s)
    requires Delivers(s.delivered, logs, cfg.kinds, cfg.defaultStartBlock + 1, LastScanned(cfg, s))
    ensures var t := Scan(cfg, feed, s, currentBlock);
            Delivers(t.delivered, logs, cfg.kinds, cfg.defaultStartBlock + 1, LastScanned(cfg, t))
  {
    var from, to := LastScanned(cfg, s) + 1, currentBlock - cfg.blockSafetyMargin;
    if from <= to {
      var events := feed(from, to);
      assert Delivers(events, logs, cfg.kinds, from, to);
      AscendingJoin(s.delivered, events, from - 1);
    }
  }

  /** Any run of scans, whatever heights it saw and whatever was rolled back, delivers start+1 up to the checkpoint. */
  lemma {:induction false} RunDelivers(cfg: Config, feed: Feed, logs: Logs, attempts: seq<Attempt>)
    requires Faithful(feed, logs, cfg.kinds)
    ensures LastScanned(cfg, Run(cfg, feed, attempts)) == Furthest(cfg, attempts) >= cfg.defaultStartBlock
    ensures Delivers(Run(cfg, feed, attempts).delivered, logs, cfg.kinds,
                     cfg.defaultStartBlock + 1, Furthest(cfg, attempts))
  {
    if attempts != [] {
      var before, last := attempts[..|attempts| - 1], attempts[|attempts| - 1];
      RunDelivers(cfg, feed, logs, before);
      ScanDelivers(cfg, feed, logs, Run(cfg, feed, before), last.currentBlock);
    }
  }

  /** So two runs that reached the same block have delivered the same list, however they were cut into scans. */
  lemma RunsAgree(cfg: Config, logs: Logs, some: seq<Attempt>, others: seq<Attempt>)
    requires WellFormed(logs, cfg.kinds)
    requires Furthest(cfg, some) == Furthest(cfg, others)
    ensures Run(cfg, EventFeed(logs, cfg.kinds), some).delivered == Run(cfg, EventFeed(logs, cfg.kinds), others).delivered
  {
    var feed := EventFeed(logs, cfg.kinds);
    EventFeedIsFaithful(logs, cfg.kinds);
    RunDelivers(cfg, feed, logs, some);
    RunDelivers(cfg, feed, logs, others);
    AscendingIsUnique(Run(cfg, feed, some).delivered, Run(cfg, feed, others).delivered);
  }

  /** Each event between the start and the checkpoint is delivered exactly once, in order, and no other event is. */
  lemma DeliveredExactlyOnce(cfg: Config, logs: Logs, attempts: seq<Attempt>, e: Event)
    requires WellFormed(logs, cfg.kinds)
    ensures var s := Run(cfg, EventFeed(logs, cfg.kinds), attempts);
            && LastScanned(cfg, s) == Furthest(cfg, attempts)
            && Ascending(s.delivered)
            && multiset(s.delivered)[e] ==
                 (if Emitted(logs, cfg.kinds, e) && cfg.defaultStartBlock < e.block <= LastScanned(cfg, s) then 1 else 0)
  {
    var feed := EventFeed(logs, cfg.kinds);
    EventFeedIsFaithful(logs, cfg.kinds);
    RunDelivers(cfg, feed, logs, attempts);
    AscendingIsOnce(Run(cfg, feed, attempts).delivered, e);
  }

  lemma {:induction false} AscendingIsOnce(events: seq<Event>, e: Event)
    requires Ascending(events)
    ensures multiset(events)[e] == if e in events then 1 else 0
  {
    if events != [] {
      var front, last := events[..|events| - 1], events[|events| - 1];
      assert events == front + [last];
      assert forall i :: 0 <= i < |front| ==> Before(front[i], last);
      AscendingIsOnce(front, e);
    }
  }

  /** Later attempts never move the checkpoint back and never change what was delivered. */
  lemma {:induction false} CheckpointNeverDecreases(cfg: Config, feed: Feed, attempts: seq<Attempt>, more: seq<Attempt>)
    ensures LastScanned(cfg, Run(cfg, feed, attempts)) <= LastScanned(cfg, Run(cfg, feed, attempts + more))
    ensures Run(cfg, feed, attempts).delivered <= Run(cfg, feed, attempts + more).delivered
  {
    if more == [] {
      assert attempts + more == attempts;
    } else {
      assert (attempts + more)[..|attempts + more| - 1] == attempts + more[..|more| - 1];
      CheckpointNeverDecreases(cfg, feed, attempts, more[..|more| - 1]);
    }
  }

  class EvmEventScanner {
    const cfg: Config
    var lastScannedBlock: Option<int>
    var delivered: seq<Event>

    constructor (cfg: Config)
      ensures this.cfg == cfg && Value() == State(None, [])
    {
      this.cfg := cfg;
      lastScannedBlock := None;
      delivered := [];
    }

    ghost function Value(): State
      reads this
    {
      State(lastScannedBlock, delivered)
    }

    method FetchEvents(logs: Logs, fromBlock: int, toBlock: int, batchSize: nat) returns (allEventLogs: seq<Event>)
      requires fromBlock <= toBlock
      ensures allEventLogs == FetchAll(logs, cfg.kinds, fromBlock, toBlock)
    {
      allEventLogs := [];
      for i := 0 to |cfg.kinds|
        invariant allEventLogs == FetchAll(logs, cfg.kinds[..i], fromBlock, toBlock)
      {
        var batch, _ := GetEvents(logs, cfg.kinds[i], fromBlock, toBlock, batchSize);
        allEventLogs := allEventLogs + batch.value;
        assert cfg.kinds[..i + 1][..i] == cfg.kinds[..i];
      }
      assert cfg.kinds[..|cfg.kinds|] == cfg.kinds;
    }

    /** Appending to `delivered` stands for the callback. */
    method ScanNewEvents(logs: Logs, currentBlock: int, batchSize: nat)
      modifies this
      ensures Value() == Scan(cfg, EventFeed(logs, cfg.kinds), old(Value()), currentBlock)
    {
      var last := match lastScannedBlock case Some(block) => block case None => cfg.defaultStartBlock;
      var fromBlock := last + 1;
      var toBlock := currentBlock - cfg.blockSafetyMargin;
      if toBlock < fromBlock {
        return;
      }
      var allEventLogs := FetchEvents(logs, fromBlock, toBlock, batchSize);
      allEventLogs := Sort(allEventLogs);
      delivered := delivered + allEventLogs;
      lastScannedBlock := Some(toBlock);
    }
  }
}
