/** Which outputs a rune transfer may spend, and when there are not enough of them, in terms of the unspent outputs and the
    answers of ord alone. */
module SpendingRules {
  import opened Wrappers
  import opened Transactions
  import opened RuneAllocation
  import opened CoinSelection
  import opened RunePsbt

  // ---------------------------------------------------------------- transfers

  ghost predicate ValidTransfer(ord: Ord, t: Transfer)
  {
    t.postage > 0 && t.amount > 0 && t.receiver.Some? && ord.ids(t.rune).Some?
  }

  /** Transfer `i` is the first invalid one. */
  ghost predicate FirstInvalid(ord: Ord, ts: seq<Transfer>, i: int)
  {
    0 <= i < |ts| && !ValidTransfer(ord, ts[i]) && forall j :: 0 <= j < i ==> ValidTransfer(ord, ts[j])
  }

  lemma {:induction false} CheckedIff(ord: Ord, ts: seq<Transfer>)
    ensures CheckTransfers(ord, ts) == None <==> forall i :: 0 <= i < |ts| ==> ValidTransfer(ord, ts[i])
    ensures forall i :: FirstInvalid(ord, ts, i) ==> CheckTransfers(ord, ts) == CheckTransfer(ord, ts[i])
  {
    if ts != [] {
      var front, last := ts[..|ts| - 1], ts[|ts| - 1];
      CheckedIff(ord, front);
      assert CheckTransfer(ord, last) == None <==> ValidTransfer(ord, last);
      forall i | FirstInvalid(ord, ts, i)
        ensures CheckTransfers(ord, ts) == CheckTransfer(ord, ts[i])
      {
        assert i < |front| ==> FirstInvalid(ord, front, i);
      }
    }
  }

  lemma {:induction false} SomeInvalid(ord: Ord, ts: seq<Transfer>) returns (i: nat)
    requires exists k :: 0 <= k < |ts| && !ValidTransfer(ord, ts[k])
    ensures FirstInvalid(ord, ts, i)
  {
    var front := ts[..|ts| - 1];
    if k :| 0 <= k < |front| && !ValidTransfer(ord, front[k]) {
      i := SomeInvalid(ord, front);
      assert forall j :: 0 <= j < i ==> ts[j] == front[j];
    } else {
      i := |front|;
      assert forall j :: 0 <= j < i ==> ts[j] == front[j];
    }
  }

  /** The error of the first invalid transfer: its postage, then its amount, then its receiver, then its rune. */
  lemma InvalidTransferRaises(w: Wallet, ord: Ord, encipher: Runestone -> Script, raw: seq<Utxo>,
                              ts: seq<Transfer>, feeRate: int, maxNumInputs: int, i: nat)
    requires FirstInvalid(ord, ts, i)
    ensures var t := ts[i];
            Create(w, ord, encipher, raw, ts, feeRate, maxNumInputs)
            == Raise(if t.postage > 0 && t.amount == 0 then ZeroTransferAmount
                     else if t.postage > 0 && t.amount > 0 && t.receiver.Some? then LookupError
                     else ValueError)
  {
    CheckedIff(ord, ts);
  }

  /** Units of the rune in all transfers. */
  function Wanted(ts: seq<Transfer>, r: Rune): int
  {
    if ts == [] then 0 else Wanted(ts[..|ts| - 1], r) + if ts[|ts| - 1].rune == r then ts[|ts| - 1].amount else 0
  }

  lemma {:induction false} WantedIsRequired(ts: seq<Transfer>, r: Rune)
    ensures Wanted(ts, r) == if r in Required(ts) then Required(ts)[r] else 0
  {
    if ts != [] {
      WantedIsRequired(ts[..|ts| - 1], r);
    }
  }

  // ---------------------------------------------------------------- what is available

  /** Units of the rune that the output offers: it needs a witness script, and the change address or enough confirmations. */
  ghost function Offered(w: Wallet, ord: Ord, r: Rune, u: Utxo): nat
  {
    match ord.balances(u.outpoint)
    case None => 0
    case Some(held) =>
      if u.hasWitnessScript && (u.address == w.changeAddress || u.confirmations >= w.minNonChangeConfirmations) && r in held
      then held[r] else 0
  }

  ghost function Available(w: Wallet, ord: Ord, r: Rune, us: seq<Utxo>): nat
  {
    if us == [] then 0 else Available(w, ord, r, us[..|us| - 1]) + Offered(w, ord, r, us[|us| - 1])
  }

  lemma {:induction false} InsertedIsAvailable(w: Wallet, ord: Ord, r: Rune, us: seq<Utxo>, u: Utxo)
    ensures Available(w, ord, r, InsertUtxo(us, u)) == Available(w, ord, r, us) + Offered(w, ord, r, u)
  {
    if us == [] || us[|us| - 1].confirmations >= u.confirmations {
      assert (us + [u])[..|us|] == us;
    } else {
      var front, last := us[..|us| - 1], us[|us| - 1];
      InsertedIsAvailable(w, ord, r, front, u);
      assert (InsertUtxo(front, u) + [last])[..|InsertUtxo(front, u)|] == InsertUtxo(front, u);
    }
  }

  lemma {:induction false} ListedIsAvailable(w: Wallet, ord: Ord, r: Rune, raw: seq<Utxo>)
    ensures Available(w, ord, r, ListUtxos(raw)) == Available(w, ord, r, raw)
  {
    if raw != [] {
      ListedIsAvailable(w, ord, r, raw[..|raw| - 1]);
      InsertedIsAvailable(w, ord, r, ListUtxos(raw[..|raw| - 1]), raw[|raw| - 1]);
    }
  }

  lemma {:induction false} AvailableNext(w: Wallet, ord: Ord, r: Rune, u: Utxo, us: seq<Utxo>)
    ensures Available(w, ord, r, [u] + us) == Offered(w, ord, r, u) + Available(w, ord, r, us)
  {
    if us == [] {
      assert [u] + us == [u] && [u][..0] == [];
    } else {
      AvailableNext(w, ord, r, u, us[..|us| - 1]);
      assert ([u] + us)[..|us|] == [u] + us[..|us| - 1];
    }
  }

  /** The eligible outputs hold of each required rune what is available. */
  lemma {:induction false} EligibleIsAvailable(w: Wallet, ord: Ord, runes: set<Rune>, r: Rune, us: seq<Utxo>)
    requires r in runes
    ensures Held(ord, r, EligibleIn(w, ord, runes, us)) == Available(w, ord, r, us)
  {
    if us != [] {
      var u, rest := us[0], us[1..];
      assert us == [u] + rest;
      EligibleIsAvailable(w, ord, runes, r, rest);
      AvailableNext(w, ord, r, u, rest);
      if Offered(w, ord, r, u) > 0 {
        assert Shows(ord, u, r);
      }
      if Eligible(w, ord, runes, u) {
        assert ([u] + EligibleIn(w, ord, runes, rest))[1..] == EligibleIn(w, ord, runes, rest);
      }
    }
  }

  // ---------------------------------------------------------------- what may be spent

  /** One of the transfers moves a rune that the output holds. */
  ghost predicate Needed(ord: Ord, ts: seq<Transfer>, u: Utxo)
  {
    exists i :: 0 <= i < |ts| && Shows(ord, u, ts[i].rune)
  }

  lemma NeededIff(w: Wallet, ord: Ord, ts: seq<Transfer>, u: Utxo)
    requires CheckTransfers(ord, ts) == None
    ensures Eligible(w, ord, Required(ts).Keys, u)
       <==> && u.hasWitnessScript && (u.address == w.changeAddress || u.confirmations >= w.minNonChangeConfirmations)
            && Needed(ord, ts, u)
  {
    RequiredIsPositive(ord, ts);
    if Needed(ord, ts, u) {
      var i :| 0 <= i < |ts| && Shows(ord, u, ts[i].rune);
      assert ts[i].rune in Required(ts).Keys;
    }
    if exists r :: r in Required(ts).Keys && Shows(ord, u, r) {
      var r :| r in Required(ts).Keys && Shows(ord, u, r);
      assert r in Required(ts);
    }
  }

  /** Every input has a witness script and is ours. If it holds runes, then it is at the change address or has the
      confirmations, and it holds a rune that is moved; otherwise ord shows it to be without runes. */
  lemma InputsMayBeSpent(w: Wallet, ord: Ord, encipher: Runestone -> Script, raw: seq<Utxo>,
                         ts: seq<Transfer>, feeRate: int, maxNumInputs: int, u: Utxo)
    requires Create(w, ord, encipher, raw, ts, feeRate, maxNumInputs).Ok?
    requires u in Create(w, ord, encipher, raw, ts, feeRate, maxNumInputs).value.inputs
    ensures u in raw && u.hasWitnessScript && u.fingerprints.Some? && w.fingerprint in u.fingerprints.value
    ensures ord.balances(u.outpoint).Some?
    ensures ord.balances(u.outpoint).value != map[] ==>
              (u.address == w.changeAddress || u.confirmations >= w.minNonChangeConfirmations) && Needed(ord, ts, u)
  {
    var p, t, runeInputs, feeInputs := CreatedFrom(w, ord, encipher, raw, ts, feeRate, maxNumInputs);
    ListUtxosMeets(raw);
    if u in runeInputs {
      NeededIff(w, ord, ts, u);
    } else {
      assert u in feeInputs;
    }
  }

  // ---------------------------------------------------------------- when there is too little

  /** ord has indexed the output if it has a witness script, and it is ours if it is one that would be spent. */
  ghost predicate CanBePassed(w: Wallet, ord: Ord, ts: seq<Transfer>, u: Utxo)
  {
    u.hasWitnessScript ==>
      && ord.balances(u.outpoint).Some?
      && ((u.address == w.changeAddress || u.confirmations >= w.minNonChangeConfirmations) && Needed(ord, ts, u) ==>
            u.fingerprints.Some? && w.fingerprint in u.fingerprints.value)
  }

  lemma PassedIff(w: Wallet, ord: Ord, ts: seq<Transfer>, u: Utxo)
    requires CheckTransfers(ord, ts) == None
    ensures RuneUsable(w, ord, Required(ts).Keys, u) <==> CanBePassed(w, ord, ts, u)
  {
    NeededIff(w, ord, ts, u);
  }

  /** InsufficientRuneBalance is raised exactly for valid transfers of which one moves a rune that the outputs offer too
      little of, when the loop gets past all outputs. */
  lemma InsufficientRunesIff(w: Wallet, ord: Ord, encipher: Runestone -> Script, raw: seq<Utxo>,
                             ts: seq<Transfer>, feeRate: int, maxNumInputs: int)
    ensures Create(w, ord, encipher, raw, ts, feeRate, maxNumInputs) == Raise(InsufficientRuneBalance)
       <==> && ts != [] && (forall i :: 0 <= i < |ts| ==> ValidTransfer(ord, ts[i]))
            && (forall u :: u in raw ==> CanBePassed(w, ord, ts, u))
            && exists i :: 0 <= i < |ts| && Available(w, ord, ts[i].rune, raw) < Wanted(ts, ts[i].rune)
  {
    CheckedIff(ord, ts);
    if ts != [] {
      if CheckTransfers(ord, ts) == None {
        RaisedIff(w, ord, encipher, raw, ts, feeRate, maxNumInputs);
        ShortIff(w, ord, raw, ts);
        PassableIff(w, ord, raw, ts);
      } else {
        var i := SomeInvalid(ord, ts);
        InvalidTransferRaises(w, ord, encipher, raw, ts, feeRate, maxNumInputs, i);
      }
    }
  }

  lemma RaisedIff(w: Wallet, ord: Ord, encipher: Runestone -> Script, raw: seq<Utxo>,
                  ts: seq<Transfer>, feeRate: int, maxNumInputs: int)
    requires ts != [] && CheckTransfers(ord, ts) == None
    ensures Create(w, ord, encipher, raw, ts, feeRate, maxNumInputs) == Raise(InsufficientRuneBalance)
       <==> && RunesUsable(w, ord, Required(ts).Keys, ListUtxos(raw))
            && exists r :: r in Required(ts) && Held(ord, r, EligibleIn(w, ord, Required(ts).Keys, ListUtxos(raw))) < Required(ts)[r]
  {
    RequiredIsPositive(ord, ts);
    InsufficientRuneBalanceIff(w, ord, Required(ts), ListUtxos(raw));
    if SelectRunes(w, ord, Required(ts), ListUtxos(raw)).Ok? {
      var us, t := SelectRunes(w, ord, Required(ts), ListUtxos(raw)).value, Target(Outputs(w, ord, encipher, ts), feeRate);
      FundFeeMeets(w, ord, t, |us|, Sats(us), ListUtxos(raw));
    }
  }

  lemma ShortIff(w: Wallet, ord: Ord, raw: seq<Utxo>, ts: seq<Transfer>)
    requires CheckTransfers(ord, ts) == None
    ensures (exists r :: r in Required(ts) && Held(ord, r, EligibleIn(w, ord, Required(ts).Keys, ListUtxos(raw))) < Required(ts)[r])
       <==> exists i :: 0 <= i < |ts| && Available(w, ord, ts[i].rune, raw) < Wanted(ts, ts[i].rune)
  {
    RequiredIsPositive(ord, ts);
    forall r | r in Required(ts)
      ensures Held(ord, r, EligibleIn(w, ord, Required(ts).Keys, ListUtxos(raw))) == Available(w, ord, r, raw)
      ensures Wanted(ts, r) == Required(ts)[r]
    {
      assert r in Required(ts).Keys;
      EligibleIsAvailable(w, ord, Required(ts).Keys, r, ListUtxos(raw));
      ListedIsAvailable(w, ord, r, raw);
      WantedIsRequired(ts, r);
    }
    if i :| 0 <= i < |ts| && Available(w, ord, ts[i].rune, raw) < Wanted(ts, ts[i].rune) {
      assert ts[i].rune in Required(ts);
    }
  }

  lemma PassableIff(w: Wallet, ord: Ord, raw: seq<Utxo>, ts: seq<Transfer>)
    requires CheckTransfers(ord, ts) == None
    ensures RunesUsable(w, ord, Required(ts).Keys, ListUtxos(raw)) <==> forall u :: u in raw ==> CanBePassed(w, ord, ts, u)
  {
    ListUtxosMeets(raw);
    forall u
      ensures RuneUsable(w, ord, Required(ts).Keys, u) <==> CanBePassed(w, ord, ts, u)
    {
      PassedIff(w, ord, ts, u);
    }
  }

  /** A PSBT is made only of enough: of each rune that is moved, the inputs that hold runes offer what is wanted. */
  lemma EnoughIsSpent(w: Wallet, ord: Ord, encipher: Runestone -> Script, raw: seq<Utxo>,
                      ts: seq<Transfer>, feeRate: int, maxNumInputs: int, i: nat)
    requires Create(w, ord, encipher, raw, ts, feeRate, maxNumInputs).Ok? && i < |ts|
    ensures Available(w, ord, ts[i].rune, Create(w, ord, encipher, raw, ts, feeRate, maxNumInputs).value.inputs)
              >= Wanted(ts, ts[i].rune) > 0
  {
    var p, t, runeInputs, feeInputs := CreatedFrom(w, ord, encipher, raw, ts, feeRate, maxNumInputs);
    var r := ts[i].rune;
    RequiredIsPositive(ord, ts);
    WantedIsRequired(ts, r);
    AllAreOffered(w, ord, Required(ts).Keys, r, runeInputs);
    AvailableAppend(w, ord, r, runeInputs, feeInputs);
  }

  lemma {:induction false} AllAreOffered(w: Wallet, ord: Ord, runes: set<Rune>, r: Rune, us: seq<Utxo>)
    requires forall u :: u in us ==> Eligible(w, ord, runes, u)
    ensures Available(w, ord, r, us) == Held(ord, r, us)
  {
    if us != [] {
      assert us == [us[0]] + us[1..];
      AllAreOffered(w, ord, runes, r, us[1..]);
      AvailableNext(w, ord, r, us[0], us[1..]);
      assert us[0] in us;
    }
  }

  lemma {:induction false} AvailableAppend(w: Wallet, ord: Ord, r: Rune, us: seq<Utxo>, vs: seq<Utxo>)
    ensures Available(w, ord, r, us + vs) == Available(w, ord, r, us) + Available(w, ord, r, vs)
  {
    if vs == [] {
      assert us + vs == us;
    } else {
      AvailableAppend(w, ord, r, us, vs[..|vs| - 1]);
      assert (us + vs)[..|us + vs| - 1] == us + vs[..|vs| - 1];
    }
  }
}
