/** EVM event logs, fetched in batches of blocks. */
module EvmEvents {
  import opened Wrappers

  /** The topic that identifies a kind of event. */
  type Kind = int

  datatype Event = Event(kind: Kind, block: int, txIndex: int, logIndex: int, txHash: int)

  /** The logs of one kind of event in one block, in the order the node returns them. */
  type Logs = (Kind, int) -> seq<Event>

  datatype Exception = ValueError

  /** One fetch over the inclusive range of blocks. */
  function Fetch(logs: Logs, kind: Kind, from: int, to: int): seq<Event>
    decreases 1 + to - from
  {
    if to < from then [] else Fetch(logs, kind, from, to - 1) + logs(kind, to)
  }

  lemma {:induction false} FetchSplit(logs: Logs, kind: Kind, from: int, mid: int, to: int)
    requires from - 1 <= mid <= to
    ensures Fetch(logs, kind, from, to) == Fetch(logs, kind, from, mid) + Fetch(logs, kind, mid + 1, to)
    decreases 1 + to - mid
  {
    if mid < to {
      FetchSplit(logs, kind, from, mid, to - 1);
    }
  }

  /** Consecutive inclusive ranges that make up `[from, to]`. */
  ghost predicate Partition(ranges: seq<(int, int)>, from: int, to: int)
    decreases |ranges|
  {
    if ranges == [] then to == from - 1
    else
      var last := |ranges| - 1;
      from <= ranges[last].0 <= ranges[last].1 == to && Partition(ranges[..last], from, ranges[last].0 - 1)
  }

  lemma PartitionNext(ranges: seq<(int, int)>, from: int, first: int, last: int)
    requires Partition(ranges, from, first - 1) && from <= first <= last
    ensures Partition(ranges + [(first, last)], from, last)
  {
    assert (ranges + [(first, last)])[..|ranges|] == ranges;
  }

  /** Every block of the whole range lies in exactly one of the ranges, and no other block in any. */
  lemma {:induction false} PartitionCoversOnce(ranges: seq<(int, int)>, from: int, to: int, block: int)
    requires Partition(ranges, from, to)
    ensures from <= block <= to <==> exists i :: 0 <= i < |ranges| && ranges[i].0 <= block <= ranges[i].1
    ensures forall i, j :: 0 <= i < j < |ranges| ==>
              !(ranges[i].0 <= block <= ranges[i].1 && ranges[j].0 <= block <= ranges[j].1)
    decreases |ranges|
  {
    if ranges != [] {
      var last := |ranges| - 1;
      var front := ranges[..last];
      PartitionCoversOnce(front, from, ranges[last].0 - 1, block);
      assert forall i :: 0 <= i < last ==> front[i] == ranges[i];
    }
  }

  /** get_events: batches of `batchSize + 1` blocks give what one fetch over the whole range gives. */
  method GetEvents(logs: Logs, kind: Kind, from: int, to: int, batchSize: nat)
    returns (r: Result<seq<Event>, Exception>, ghost ranges: seq<(int, int)>)
    ensures to < from ==> r == Raise(ValueError)
    ensures from <= to ==> r == Ok(Fetch(logs, kind, from, to))
    ensures from <= to ==> Partition(ranges, from, to)
    ensures forall i :: 0 <= i < |ranges| ==> ranges[i].1 - ranges[i].0 <= batchSize
  {
    ranges := [];
    if to < from {
      return Raise(ValueError), ranges;
    }
    var ret: seq<Event> := [];
    var batchFrom := from;
    while batchFrom <= to
      invariant from <= batchFrom <= to + 1
      invariant ret == Fetch(logs, kind, from, batchFrom - 1)
      invariant Partition(ranges, from, batchFrom - 1)
      invariant forall i :: 0 <= i < |ranges| ==> ranges[i].1 - ranges[i].0 <= batchSize
      decreases 1 + to - batchFrom
    {
      var batchTo := if batchFrom + batchSize < to then batchFrom + batchSize else to;
      FetchSplit(logs, kind, from, batchFrom - 1, batchTo);
      var events := Fetch(logs, kind, batchFrom, batchTo);
      ret := ret + events;
      PartitionNext(ranges, from, batchFrom, batchTo);
      ranges := ranges + [(batchFrom, batchTo)];
      batchFrom := batchTo + 1;
    }
    r := Ok(ret);
  }
}
