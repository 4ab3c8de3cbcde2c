/** Where the runes of a transaction's inputs go (Runes documentation, "Transferring": "Edicts", "Pointer" and
    "Burning"). Runes do not affect each other, so one rune is followed at a time. */
module RuneAllocation {
  import opened Wrappers
  import opened Transactions

  /** A rune is named by a number, and has an id on the chain. */
  type Rune = nat

  datatype RuneId = RuneId(block: nat, tx: nat)

  datatype Edict = Edict(id: RuneId, amount: nat, output: nat)

  datatype Runestone = Runestone(edicts: seq<Edict>, pointer: Option<nat>)

  /** Units of one rune that are not allocated yet, and those allocated to each output. */
  datatype Allocation = Allocation(unallocated: nat, outputs: seq<nat>)

  /** Up to `amount` units go to output `o`. */
  function Give(a: Allocation, amount: nat, o: nat): Allocation
    requires o < |a.outputs|
  {
    var given := Min(amount, a.unallocated);
    Allocation(a.unallocated - given, a.outputs[o := a.outputs[o] + given])
  }

  /** `amount` units to each output from `o` on that is not an OP_RETURN, and one more to the first `extra` of them. */
  function GiveEach(outs: seq<TxOut>, a: Allocation, amount: nat, extra: nat, o: nat): (r: Allocation)
    requires |a.outputs| == |outs| && o <= |outs|
    ensures |r.outputs| == |outs|
    decreases |outs| - o
  {
    if o == |outs| then a
    else if IsOpReturn(outs[o].script) then GiveEach(outs, a, amount, extra, o + 1)
    else if extra > 0 then GiveEach(outs, Give(a, amount + 1, o), amount, extra - 1, o + 1)
    else GiveEach(outs, Give(a, amount, o), amount, 0, o + 1)
  }

  function Destinations(outs: seq<TxOut>): nat
  {
    if outs == [] then 0
    else Destinations(outs[..|outs| - 1]) + if IsOpReturn(outs[|outs| - 1].script) then 0 else 1
  }

  /** An edict for output number `|outs|` means every output that is not an OP_RETURN; amount 0 means all there is. */
  function ApplyEdict(outs: seq<TxOut>, a: Allocation, e: Edict): (r: Allocation)
    requires |a.outputs| == |outs| && e.output <= |outs|
    ensures |r.outputs| == |outs|
  {
    if e.output < |outs| then Give(a, if e.amount == 0 then a.unallocated else e.amount, e.output)
    else if e.amount > 0 then GiveEach(outs, a, e.amount, 0, 0)
    else if Destinations(outs) == 0 then a
    else GiveEach(outs, a, a.unallocated / Destinations(outs), a.unallocated % Destinations(outs), 0)
  }

  function ApplyEdicts(outs: seq<TxOut>, a: Allocation, edicts: seq<Edict>, id: RuneId): (r: Allocation)
    requires |a.outputs| == |outs| && forall e :: e in edicts ==> e.output <= |outs|
    ensures |r.outputs| == |outs|
  {
    if edicts == [] then a
    else
      var before := ApplyEdicts(outs, a, edicts[..|edicts| - 1], id);
      var e := edicts[|edicts| - 1];
      if e.id == id then ApplyEdict(outs, before, e) else before
  }

  function FirstDestination(outs: seq<TxOut>, o: nat): (r: nat)
    requires o <= |outs|
    ensures o <= r <= |outs|
    ensures r < |outs| ==> !IsOpReturn(outs[r].script)
    ensures forall i :: o <= i < r ==> IsOpReturn(outs[i].script)
    decreases |outs| - o
  {
    if o == |outs| || !IsOpReturn(outs[o].script) then o else FirstDestination(outs, o + 1)
  }

  /** A runestone that names an output that does not exist is a cenotaph. */
  predicate IsCenotaph(outs: seq<TxOut>, stone: Runestone)
  {
    || (exists e :: e in stone.edicts && e.output > |outs|)
    || (stone.pointer.Some? && stone.pointer.value >= |outs|)
  }

  /** What each output ends up with, and what is burned, of `total` units of the rune `id` in the inputs. */
  datatype Settlement = Settlement(outputs: seq<nat>, burned: nat)

  /** Where unallocated runes go: the pointer, or the first output that is not an OP_RETURN, if there is one. */
  function DefaultOutput(outs: seq<TxOut>, stone: Runestone): nat
  {
    if stone.pointer.Some? then stone.pointer.value else FirstDestination(outs, 0)
  }

  function Allocate(outs: seq<TxOut>, stone: Runestone, id: RuneId, total: nat): Settlement
  {
    var none := seq(|outs|, o => 0);
    if IsCenotaph(outs, stone) then Settlement(none, total)
    else
      var a := ApplyEdicts(outs, Allocation(total, none), stone.edicts, id);
      var default := DefaultOutput(outs, stone);
      if default == |outs| then Burn(outs, a.outputs, a.unallocated, |outs|)
      else Burn(outs, Give(a, a.unallocated, default).outputs, 0, |outs|)
  }

  /** What was allocated to OP_RETURN outputs is burned. */
  function Burn(outs: seq<TxOut>, held: seq<nat>, burned: nat, n: nat): Settlement
    requires |held| == |outs| && n <= |outs|
    decreases n
  {
    if n == 0 then Settlement(held, burned)
    else if IsOpReturn(outs[n - 1].script) then Burn(outs, held[n - 1 := 0], burned + held[n - 1], n - 1)
    else Burn(outs, held, burned, n - 1)
  }

  // ---------------------------------------------------------------- edicts that can all be met

  /** Units of the rune `id` that the edicts ask for, in all and for output `o`. */
  function Asked(edicts: seq<Edict>, id: RuneId): nat
  {
    if edicts == [] then 0
    else Asked(edicts[..|edicts| - 1], id) + if edicts[|edicts| - 1].id == id then edicts[|edicts| - 1].amount else 0
  }

  function AskedFor(edicts: seq<Edict>, id: RuneId, o: nat): nat
  {
    if edicts == [] then 0
    else
      var e := edicts[|edicts| - 1];
      AskedFor(edicts[..|edicts| - 1], id, o) + if e.id == id && e.output == o then e.amount else 0
  }

  /** Each edict names one existing output and a definite amount. */
  ghost predicate Definite(edicts: seq<Edict>, outputs: nat)
  {
    forall e :: e in edicts ==> e.amount > 0 && e.output < outputs
  }

  lemma {:induction false} EdictsMet(outs: seq<TxOut>, a: Allocation, edicts: seq<Edict>, id: RuneId)
    requires |a.outputs| == |outs| && Definite(edicts, |outs|) && Asked(edicts, id) <= a.unallocated
    ensures var r := ApplyEdicts(outs, a, edicts, id);
            && r.unallocated == a.unallocated - Asked(edicts, id)
            && forall o :: 0 <= o < |outs| ==> r.outputs[o] == a.outputs[o] + AskedFor(edicts, id, o)
  {
    if edicts != [] {
      var before, e := edicts[..|edicts| - 1], edicts[|edicts| - 1];
      assert forall d :: d in before ==> d in edicts;
      EdictsMet(outs, a, before, id);
      assert e in edicts;
    }
  }

  /** Sums over edicts do not depend on their order. */
  lemma {:induction false} AskedWithout(edicts: seq<Edict>, k: nat, id: RuneId, o: nat)
    requires k < |edicts|
    ensures var e, rest := edicts[k], edicts[..k] + edicts[k + 1..];
            && Asked(edicts, id) == Asked(rest, id) + (if e.id == id then e.amount else 0)
            && AskedFor(edicts, id, o) == AskedFor(rest, id, o) + (if e.id == id && e.output == o then e.amount else 0)
  {
    var rest, last := edicts[..k] + edicts[k + 1..], |edicts| - 1;
    if k < last {
      AskedWithout(edicts[..last], k, id, o);
      assert rest[..|rest| - 1] == edicts[..last][..k] + edicts[..last][k + 1..];
    } else {
      assert rest == edicts[..last];
    }
  }

  lemma WithoutOne(s: seq<Edict>, t: seq<Edict>) returns (k: nat)
    requires s != [] && multiset(s) == multiset(t)
    ensures k < |t| && t[k] == s[|s| - 1]
    ensures multiset(s[..|s| - 1]) == multiset(t[..k] + t[k + 1..])
  {
    var last := s[|s| - 1];
    assert s == s[..|s| - 1] + [last];
    assert last in multiset(t);
    k :| 0 <= k < |t| && t[k] == last;
    assert t == t[..k] + [last] + t[k + 1..];
    assert multiset(s[..|s| - 1]) == multiset(s) - multiset{last};
    assert multiset(t[..k] + t[k + 1..]) == multiset(t) - multiset{last};
  }

  lemma {:induction false} OrderIsIrrelevant(edicts: seq<Edict>, others: seq<Edict>, id: RuneId, o: nat)
    requires multiset(edicts) == multiset(others)
    ensures Asked(edicts, id) == Asked(others, id) && AskedFor(edicts, id, o) == AskedFor(others, id, o)
    decreases |edicts|
  {
    if edicts == [] {
      assert |multiset(others)| == 0;
    } else {
      var k := WithoutOne(edicts, others);
      AskedWithout(others, k, id, o);
      OrderIsIrrelevant(edicts[..|edicts| - 1], others[..k] + others[k + 1..], id, o);
    }
  }

  // ---------------------------------------------------------------- nothing is created or lost

  function Sum(s: seq<nat>): nat
  {
    if s == [] then 0 else Sum(s[..|s| - 1]) + s[|s| - 1]
  }

  lemma {:induction false} SumUpdated(s: seq<nat>, i: nat, v: nat)
    requires i < |s|
    ensures Sum(s[i := v]) == Sum(s) - s[i] + v
  {
    var last := |s| - 1;
    if i < last {
      SumUpdated(s[..last], i, v);
      assert s[i := v][..last] == s[..last][i := v];
    } else {
      assert s[i := v][..last] == s[..last];
    }
  }

  ghost function Units(a: Allocation): nat
  {
    a.unallocated + Sum(a.outputs)
  }

  lemma GiveConserves(a: Allocation, amount: nat, o: nat)
    requires o < |a.outputs|
    ensures Units(Give(a, amount, o)) == Units(a)
  {
    SumUpdated(a.outputs, o, a.outputs[o] + Min(amount, a.unallocated));
  }

  lemma {:induction false} GiveEachConserves(outs: seq<TxOut>, a: Allocation, amount: nat, extra: nat, o: nat)
    requires |a.outputs| == |outs| && o <= |outs|
    ensures Units(GiveEach(outs, a, amount, extra, o)) == Units(a)
    decreases |outs| - o
  {
    if o < |outs| {
      if IsOpReturn(outs[o].script) {
        GiveEachConserves(outs, a, amount, extra, o + 1);
      } else if extra > 0 {
        GiveConserves(a, amount + 1, o);
        GiveEachConserves(outs, Give(a, amount + 1, o), amount, extra - 1, o + 1);
      } else {
        GiveConserves(a, amount, o);
        GiveEachConserves(outs, Give(a, amount, o), amount, 0, o + 1);
      }
    }
  }

  lemma EdictConserves(outs: seq<TxOut>, a: Allocation, e: Edict)
    requires |a.outputs| == |outs| && e.output <= |outs|
    ensures Units(ApplyEdict(outs, a, e)) == Units(a)
  {
    if e.output < |outs| {
      GiveConserves(a, if e.amount == 0 then a.unallocated else e.amount, e.output);
    } else if e.amount > 0 {
      GiveEachConserves(outs, a, e.amount, 0, 0);
    } else if Destinations(outs) > 0 {
      GiveEachConserves(outs, a, a.unallocated / Destinations(outs), a.unallocated % Destinations(outs), 0);
    }
  }

  lemma {:induction false} EdictsConserve(outs: seq<TxOut>, a: Allocation, edicts: seq<Edict>, id: RuneId)
    requires |a.outputs| == |outs| && forall e :: e in edicts ==> e.output <= |outs|
    ensures Units(ApplyEdicts(outs, a, edicts, id)) == Units(a)
  {
    if edicts != [] {
      var before, e := edicts[..|edicts| - 1], edicts[|edicts| - 1];
      assert forall d :: d in before ==> d in edicts;
      assert e in edicts;
      EdictsConserve(outs, a, before, id);
      if e.id == id {
        EdictConserves(outs, ApplyEdicts(outs, a, before, id), e);
      }
    }
  }

  lemma {:induction false} BurnConserves(outs: seq<TxOut>, held: seq<nat>, burned: nat, n: nat)
    requires |held| == |outs| && n <= |outs|
    ensures var r := Burn(outs, held, burned, n); Sum(r.outputs) + r.burned == Sum(held) + burned
    decreases n
  {
    if n > 0 {
      if IsOpReturn(outs[n - 1].script) {
        SumUpdated(held, n - 1, 0);
        BurnConserves(outs, held[n - 1 := 0], burned + held[n - 1], n - 1);
      } else {
        BurnConserves(outs, held, burned, n - 1);
      }
    }
  }

  lemma {:induction false} SumOfZeros(n: nat, zeros: seq<nat>)
    requires |zeros| == n && forall i :: 0 <= i < n ==> zeros[i] == 0
    ensures Sum(zeros) == 0
  {
    if n > 0 {
      SumOfZeros(n - 1, zeros[..n - 1]);
    }
  }

  /** Whatever the runestone says, the units in the inputs are those in the outputs and those burned. */
  lemma AllocationConserves(outs: seq<TxOut>, stone: Runestone, id: RuneId, total: nat)
    ensures var r := Allocate(outs, stone, id, total); Sum(r.outputs) + r.burned == total
  {
    var none := seq(|outs|, o => 0);
    SumOfZeros(|outs|, none);
    if !IsCenotaph(outs, stone) {
      EdictsConserve(outs, Allocation(total, none), stone.edicts, id);
      var a := ApplyEdicts(outs, Allocation(total, none), stone.edicts, id);
      var default := DefaultOutput(outs, stone);
      if default == |outs| {
        BurnConserves(outs, a.outputs, a.unallocated, |outs|);
      } else {
        GiveConserves(a, a.unallocated, default);
        BurnConserves(outs, Give(a, a.unallocated, default).outputs, 0, |outs|);
      }
    }
  }

  // ---------------------------------------------------------------- the shape the bridge builds

  lemma {:induction false} NothingToBurn(outs: seq<TxOut>, held: seq<nat>, n: nat)
    requires |held| == |outs| && n <= |outs|
    requires forall o :: 0 <= o < n && IsOpReturn(outs[o].script) ==> held[o] == 0
    ensures Burn(outs, held, 0, n) == Settlement(held, 0)
    decreases n
  {
    if n > 0 {
      assert IsOpReturn(outs[n - 1].script) ==> held[n - 1 := 0] == held;
      NothingToBurn(outs, held, n - 1);
    }
  }

  /** When the definite edicts ask for no more than there is and none names an OP_RETURN, each output gets what
      the edicts ask for it, the pointer gets the rest, and nothing is burned, in any order of the edicts. */
  lemma DefiniteEdictsAllocate(outs: seq<TxOut>, stone: Runestone, edicts: seq<Edict>, id: RuneId, total: nat)
    requires Definite(edicts, |outs|) && multiset(stone.edicts) == multiset(edicts)
    requires forall e :: e in edicts ==> !IsOpReturn(outs[e.output].script)
    requires Asked(edicts, id) <= total
    requires stone.pointer.Some? && stone.pointer.value < |outs| && !IsOpReturn(outs[stone.pointer.value].script)
    ensures var r := Allocate(outs, stone, id, total);
            && r.burned == 0 && |r.outputs| == |outs|
            && forall o :: 0 <= o < |outs| ==>
                 r.outputs[o] == AskedFor(edicts, id, o)
                                   + if o == stone.pointer.value then total - Asked(edicts, id) else 0
  {
    var none := seq(|outs|, o => 0);
    forall e | e in stone.edicts
      ensures e in edicts
    {
      assert e in multiset(stone.edicts);
    }
    OrderIsIrrelevant(stone.edicts, edicts, id, 0);
    forall o: nat
      ensures AskedFor(stone.edicts, id, o) == AskedFor(edicts, id, o)
    {
      OrderIsIrrelevant(stone.edicts, edicts, id, o);
    }
    EdictsMet(outs, Allocation(total, none), stone.edicts, id);
    var a := ApplyEdicts(outs, Allocation(total, none), stone.edicts, id);
    forall o | 0 <= o < |outs| && IsOpReturn(outs[o].script)
      ensures AskedFor(edicts, id, o) == 0
    {
      NotAskedFor(edicts, id, o);
    }
    NothingToBurn(outs, Give(a, a.unallocated, stone.pointer.value).outputs, |outs|);
  }

  lemma {:induction false} NotAskedFor(edicts: seq<Edict>, id: RuneId, o: nat)
    requires forall e :: e in edicts ==> e.output != o
    ensures AskedFor(edicts, id, o) == 0
  {
    if edicts != [] {
      assert edicts[|edicts| - 1] in edicts;
      NotAskedFor(edicts[..|edicts| - 1], id, o);
    }
  }

  // ---------------------------------------------------------------- one edict

  lemma {:induction false} BurnMeets(outs: seq<TxOut>, held: seq<nat>, burned: nat, n: nat)
    requires |held| == |outs| && n <= |outs|
    ensures var r := Burn(outs, held, burned, n).outputs;
            |r| == |outs| && forall o :: 0 <= o < |outs| ==> r[o] == if o < n && IsOpReturn(outs[o].script) then 0 else held[o]
    decreases n
  {
    if n > 0 {
      if IsOpReturn(outs[n - 1].script) {
        BurnMeets(outs, held[n - 1 := 0], burned + held[n - 1], n - 1);
      } else {
        BurnMeets(outs, held, burned, n - 1);
      }
    }
  }

  /** What a single edict gives its output: amount 0 is all there is, and no edict gives more than there is. */
  function Gets(e: Edict, id: RuneId, total: nat): (units: nat)
    ensures units <= total
  {
    if e.id != id then 0 else if e.amount == 0 then total else Min(e.amount, total)
  }

  /** With a single edict, its output gets what the edict gives, and the default output all the rest. */
  lemma OneEdictAllocates(outs: seq<TxOut>, stone: Runestone, e: Edict, id: RuneId, total: nat)
    requires stone.edicts == [e] && e.output < |outs| && !IsCenotaph(outs, stone)
    ensures var r := Allocate(outs, stone, id, total).outputs;
            |r| == |outs| && forall o :: 0 <= o < |outs| ==>
              r[o] == if IsOpReturn(outs[o].script) then 0
                      else (if o == e.output then Gets(e, id, total) else 0)
                             + (if o == DefaultOutput(outs, stone) then total - Gets(e, id, total) else 0)
  {
    var start := Allocation(total, seq(|outs|, i => 0));
    assert [e][..0] == [];
    assert ApplyEdicts(outs, start, [e][..0], id) == start;
    var a := ApplyEdicts(outs, start, stone.edicts, id);
    assert a.unallocated == total - Gets(e, id, total);
    var default := DefaultOutput(outs, stone);
    if default == |outs| {
      BurnMeets(outs, a.outputs, a.unallocated, |outs|);
    } else {
      BurnMeets(outs, Give(a, a.unallocated, default).outputs, 0, |outs|);
    }
  }

  // ---------------------------------------------------------------- an edict for all outputs

  /** How many of the outputs in front of `o` can receive runes. */
  function Rank(outs: seq<TxOut>, o: nat): nat
    requires o <= |outs|
  {
    if o == 0 then 0 else Rank(outs, o - 1) + if IsOpReturn(outs[o - 1].script) then 0 else 1
  }

  lemma {:induction false} RankIsDestinations(outs: seq<TxOut>, o: nat)
    requires o <= |outs|
    ensures Rank(outs, o) == Destinations(outs[..o])
  {
    if o > 0 {
      RankIsDestinations(outs, o - 1);
      assert outs[..o][..o - 1] == outs[..o - 1];
    }
  }

  lemma {:induction false} RankGrows(outs: seq<TxOut>, o: nat, n: nat)
    requires o <= n <= |outs|
    ensures Rank(outs, o) <= Rank(outs, n)
  {
    if o < n {
      RankGrows(outs, o, n - 1);
    }
  }

  /** The share of output `o`: `amount`, and one more for the first `extra` that can receive runes. */
  function ShareOf(outs: seq<TxOut>, amount: nat, extra: nat, o: nat): nat
    requires o < |outs|
  {
    if IsOpReturn(outs[o].script) then 0 else amount + if Rank(outs, o) < extra then 1 else 0
  }

  /** What remains to be given from output `o` on. */
  function Remaining(outs: seq<TxOut>, amount: nat, extra: nat, o: nat): nat
    requires o <= |outs|
    decreases |outs| - o
  {
    if o == |outs| then 0 else ShareOf(outs, amount, extra, o) + Remaining(outs, amount, extra, o + 1)
  }

  /** `extra - Rank(outs, o)` of the extra units are left at output `o`. */
  lemma {:induction false} GiveEachMeets(outs: seq<TxOut>, a: Allocation, amount: nat, extra: nat, left: nat, o: nat)
    requires |a.outputs| == |outs| && o <= |outs| && Remaining(outs, amount, extra, o) <= a.unallocated
    requires left == if Rank(outs, o) < extra then extra - Rank(outs, o) else 0
    ensures var r := GiveEach(outs, a, amount, left, o);
            && r.unallocated == a.unallocated - Remaining(outs, amount, extra, o)
            && forall i :: 0 <= i < |outs| ==>
                 r.outputs[i] == a.outputs[i] + if i < o then 0 else ShareOf(outs, amount, extra, i)
    decreases |outs| - o
  {
    if o < |outs| {
      var share := ShareOf(outs, amount, extra, o);
      if IsOpReturn(outs[o].script) {
        GiveEachMeets(outs, a, amount, extra, left, o + 1);
      } else {
        GiveEachMeets(outs, Give(a, share, o), amount, extra, if left > 0 then left - 1 else 0, o + 1);
      }
    }
  }

  lemma {:induction false} RemainingIs(outs: seq<TxOut>, amount: nat, extra: nat, o: nat)
    requires o <= |outs|
    ensures Remaining(outs, amount, extra, o)
         == amount * (Rank(outs, |outs|) - Rank(outs, o))
              + Min(Rank(outs, |outs|), extra) - Min(Rank(outs, o), extra)
    decreases |outs| - o
  {
    if o < |outs| {
      RemainingIs(outs, amount, extra, o + 1);
      RankGrows(outs, o + 1, |outs|);
      NextShare(amount, Rank(outs, |outs|) - Rank(outs, o + 1));
    }
  }

  lemma NextShare(amount: nat, n: nat)
    ensures amount * (n + 1) == amount * n + amount
  {
  }

  lemma SplitFits(total: nat, n: nat)
    requires n > 0
    ensures total / n * n + total % n == total && total % n < n
  {
  }

  /** All shares together, when the extra units are fewer than the outputs that can receive runes. */
  lemma RemainingInAll(outs: seq<TxOut>, amount: nat, extra: nat, n: nat)
    requires n == Destinations(outs) && extra <= n
    ensures Remaining(outs, amount, extra, 0) == amount * n + extra
  {
    RankIsDestinations(outs, |outs|);
    assert outs[..|outs|] == outs;
    RemainingIs(outs, amount, extra, 0);
  }

  /** An edict for output number `|outs|` gives each output that can receive runes its amount, if there is enough. */
  lemma EachGetsAmount(outs: seq<TxOut>, a: Allocation, e: Edict)
    requires |a.outputs| == |outs| == e.output && e.amount > 0 && e.amount * Destinations(outs) <= a.unallocated
    ensures var r := ApplyEdict(outs, a, e);
            && r.unallocated == a.unallocated - e.amount * Destinations(outs)
            && forall o :: 0 <= o < |outs| ==> r.outputs[o] == a.outputs[o] + if IsOpReturn(outs[o].script) then 0 else e.amount
  {
    RemainingInAll(outs, e.amount, 0, Destinations(outs));
    GiveEachMeets(outs, a, e.amount, 0, 0, 0);
  }

  /** With amount 0 it splits all there is as evenly as it can be, the first outputs getting one more. */
  lemma SplitsEvenly(outs: seq<TxOut>, a: Allocation, e: Edict, n: nat)
    requires |a.outputs| == |outs| == e.output && e.amount == 0 && n == Destinations(outs) > 0
    ensures var r := ApplyEdict(outs, a, e);
            && r.unallocated == 0
            && forall o :: 0 <= o < |outs| ==>
                 r.outputs[o] == a.outputs[o] + if IsOpReturn(outs[o].script) then 0
                                                else a.unallocated / n + if Destinations(outs[..o]) < a.unallocated % n then 1 else 0
  {
    var amount, extra := a.unallocated / n, a.unallocated % n;
    SplitFits(a.unallocated, n);
    RemainingInAll(outs, amount, extra, n);
    GiveEachMeets(outs, a, amount, extra, extra, 0);
    forall o | 0 <= o < |outs|
      ensures Rank(outs, o) == Destinations(outs[..o])
    {
      RankIsDestinations(outs, o);
    }
  }

  /** A runestone is void exactly if an edict names an output beyond the number that means all of them, or its pointer one that
      does not exist. */
  lemma CenotaphIff(outs: seq<TxOut>, edicts: seq<Edict>, pointer: Option<nat>)
    ensures IsCenotaph(outs, Runestone(edicts, pointer))
       <==> (exists i :: 0 <= i < |edicts| && edicts[i].output > |outs|) || (pointer.Some? && pointer.value >= |outs|)
  {
    if e :| e in edicts && e.output > |outs| {
      var i :| 0 <= i < |edicts| && edicts[i] == e;
    }
    assert forall i :: 0 <= i < |edicts| ==> edicts[i] in edicts;
  }
}
