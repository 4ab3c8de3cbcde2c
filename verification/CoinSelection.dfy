/** The two phases that choose the inputs of a rune transaction: inputs that hold the required runes, then inputs
    without runes that pay the fee. */
module CoinSelection {
  import opened Wrappers
  import opened Transactions
  import opened RuneAllocation

  /** An unspent output as listunspent reports it, with the fingerprints found in its descriptor if that parses. */
  datatype Utxo = Utxo(
    outpoint: Outpoint,
    amount: int,
    address: string,
    confirmations: int,
    hasWitnessScript: bool,
    fingerprints: Option<set<int>>)

  /** The answers of ord: the rune balances of an output once it is indexed, and the id of a rune. */
  datatype Ord = Ord(balances: Outpoint -> Option<map<Rune, nat>>, ids: Rune -> Option<RuneId>)

  datatype Wallet = Wallet(
    changeScript: Script,
    changeAddress: string,
    fingerprint: int,
    multisig: Multisig,
    minNonChangeConfirmations: int)

  datatype Error =
    | ValueError
    | ZeroTransferAmount
    | LookupError
    | UnindexedOutput
    | InsufficientRuneBalance
    | InsufficientBtcBalance
    | RuntimeError

  const DUST_SAT := 1000

  predicate Indexed(ord: Ord, u: Utxo)
  {
    ord.balances(u.outpoint).Some?
  }

  predicate HasRunes(ord: Ord, u: Utxo)
    requires Indexed(ord, u)
  {
    ord.balances(u.outpoint).value != map[]
  }

  function Balance(ord: Ord, r: Rune, u: Utxo): nat
  {
    match ord.balances(u.outpoint)
    case Some(balances) => if r in balances then balances[r] else 0
    case None => 0
  }

  predicate Ours(w: Wallet, u: Utxo)
  {
    u.fingerprints.Some? && w.fingerprint in u.fingerprints.value
  }

  function Prepend(u: Utxo, r: Result<seq<Utxo>, Error>): Result<seq<Utxo>, Error>
  {
    match r
    case Ok(us) => Ok([u] + us)
    case Raise(e) => Raise(e)
  }

  // ---------------------------------------------------------------- inputs for the runes

  /** An output of somebody else may still be spent by a deposit in progress, so it needs confirmations. */
  predicate Settled(w: Wallet, u: Utxo)
  {
    u.address == w.changeAddress || u.confirmations >= w.minNonChangeConfirmations
  }

  predicate HoldsAny(ord: Ord, required: map<Rune, int>, u: Utxo)
  {
    exists r :: r in required && Balance(ord, r, u) != 0
  }

  function Spend(ord: Ord, required: map<Rune, int>, u: Utxo): map<Rune, int>
  {
    map r | r in required :: required[r] - Balance(ord, r, u)
  }

  predicate Covered(required: map<Rune, int>)
  {
    forall r :: r in required ==> required[r] <= 0
  }

  /** The first loop, over the outputs that are still to be looked at. */
  function SelectRunes(w: Wallet, ord: Ord, required: map<Rune, int>, utxos: seq<Utxo>): Result<seq<Utxo>, Error>
  {
    if utxos == [] then Raise(InsufficientRuneBalance)
    else
      var u, rest := utxos[0], utxos[1..];
      if !u.hasWitnessScript then SelectRunes(w, ord, required, rest)
      else if !Indexed(ord, u) then Raise(UnindexedOutput)
      else if !HasRunes(ord, u) || !Settled(w, u) || !HoldsAny(ord, required, u) then SelectRunes(w, ord, required, rest)
      else if !Ours(w, u) then Raise(ValueError)
      else if Covered(Spend(ord, required, u)) then Ok([u])
      else Prepend(u, SelectRunes(w, ord, Spend(ord, required, u), rest))
  }

  /** The fingerprint of the wallet is in the descriptor of the output. */
  ghost predicate Spendable(w: Wallet, u: Utxo)
  {
    exists found :: u.fingerprints == Some(found) && w.fingerprint in found
  }

  /** ord shows that the output holds the rune. */
  ghost predicate Shows(ord: Ord, u: Utxo, r: Rune)
  {
    exists held :: ord.balances(u.outpoint) == Some(held) && r in held && held[r] > 0
  }

  /** What makes an output worth spending for the runes: it has a witness script, is at the change address or has enough
      confirmations, and holds one of them. */
  ghost predicate Eligible(w: Wallet, ord: Ord, runes: set<Rune>, u: Utxo)
  {
    && u.hasWitnessScript && (u.address == w.changeAddress || u.confirmations >= w.minNonChangeConfirmations)
    && exists r :: r in runes && Shows(ord, u, r)
  }

  lemma EligibleIff(w: Wallet, ord: Ord, required: map<Rune, int>, u: Utxo)
    requires Indexed(ord, u)
    ensures Eligible(w, ord, required.Keys, u)
       <==> u.hasWitnessScript && HasRunes(ord, u) && Settled(w, u) && HoldsAny(ord, required, u)
  {
    forall r
      ensures Shows(ord, u, r) <==> Balance(ord, r, u) != 0
    {
      ShowsIff(ord, u, r);
    }
    assert required.Keys == set r | r in required;
    if HoldsAny(ord, required, u) {
      var r :| r in required && Balance(ord, r, u) != 0;
      assert r in required.Keys && Shows(ord, u, r);
    }
  }

  lemma ShowsIff(ord: Ord, u: Utxo, r: Rune)
    ensures Shows(ord, u, r) <==> Balance(ord, r, u) != 0
  {
    if Balance(ord, r, u) != 0 {
      assert ord.balances(u.outpoint) == Some(ord.balances(u.outpoint).value);
    }
  }

  ghost function EligibleIn(w: Wallet, ord: Ord, runes: set<Rune>, utxos: seq<Utxo>): seq<Utxo>
  {
    if utxos == [] then []
    else if Eligible(w, ord, runes, utxos[0]) then [utxos[0]] + EligibleIn(w, ord, runes, utxos[1..])
    else EligibleIn(w, ord, runes, utxos[1..])
  }

  /** Units of `r` in the outputs. */
  function Held(ord: Ord, r: Rune, us: seq<Utxo>): nat
  {
    if us == [] then 0 else Balance(ord, r, us[0]) + Held(ord, r, us[1..])
  }

  ghost predicate Sufficient(ord: Ord, required: map<Rune, int>, us: seq<Utxo>)
  {
    forall r :: r in required ==> Held(ord, r, us) >= required[r]
  }

  lemma SufficientAfter(ord: Ord, required: map<Rune, int>, u: Utxo, us: seq<Utxo>)
    ensures Sufficient(ord, required, [u] + us) <==> Sufficient(ord, Spend(ord, required, u), us)
  {
    var s := Spend(ord, required, u);
    assert ([u] + us)[1..] == us;
    assert forall r :: r in required ==> s[r] == required[r] - Balance(ord, r, u);
    assert forall r :: Held(ord, r, [u] + us) == Balance(ord, r, u) + Held(ord, r, us);
  }

  /** `us` is the shortest prefix of `all` that suffices. */
  ghost predicate ShortestSufficient(ord: Ord, required: map<Rune, int>, us: seq<Utxo>, all: seq<Utxo>)
  {
    && us <= all
    && Sufficient(ord, required, us)
    && forall k :: 0 <= k < |us| ==> !Sufficient(ord, required, us[..k])
  }

  lemma ShortestAfter(ord: Ord, required: map<Rune, int>, u: Utxo, us: seq<Utxo>, all: seq<Utxo>)
    requires !Covered(required) && ShortestSufficient(ord, Spend(ord, required, u), us, all)
    ensures ShortestSufficient(ord, required, [u] + us, [u] + all)
  {
    SufficientAfter(ord, required, u, us);
    forall k | 0 <= k < |[u] + us|
      ensures !Sufficient(ord, required, ([u] + us)[..k])
    {
      if k == 0 {
        var r :| r in required && required[r] > 0;
        assert Held(ord, r, ([u] + us)[..0]) == 0;
      } else {
        assert ([u] + us)[..k] == [u] + us[..k - 1];
        SufficientAfter(ord, required, u, us[..k - 1]);
      }
    }
  }

  /** What the first loop returns or raises, for all wallets, indexes and outputs. */
  ghost predicate RuneSelectionOutcome(w: Wallet, ord: Ord, required: map<Rune, int>, utxos: seq<Utxo>, r: Result<seq<Utxo>, Error>)
  {
    match r
    case Ok(us) =>
      && ShortestSufficient(ord, required, us, EligibleIn(w, ord, required.Keys, utxos))
      && forall u :: u in us ==> u in utxos && Spendable(w, u) && Eligible(w, ord, required.Keys, u)
    case Raise(InsufficientRuneBalance) => !Sufficient(ord, required, EligibleIn(w, ord, required.Keys, utxos))
    case Raise(UnindexedOutput) => exists u :: u in utxos && ord.balances(u.outpoint) == None
    case Raise(ValueError) => exists u :: u in utxos && !Spendable(w, u)
    case _ => false
  }

  lemma {:induction false} SelectRunesMeets(w: Wallet, ord: Ord, required: map<Rune, int>, utxos: seq<Utxo>)
    requires !Covered(required)
    ensures RuneSelectionOutcome(w, ord, required, utxos, SelectRunes(w, ord, required, utxos))
  {
    if utxos == [] {
      var r :| r in required && required[r] > 0;
      assert Held(ord, r, []) == 0;
    } else {
      var u, rest := utxos[0], utxos[1..];
      assert utxos == [u] + rest;
      var spent := Spend(ord, required, u);
      assert spent.Keys == required.Keys;
      if Indexed(ord, u) {
        EligibleIff(w, ord, required, u);
      }
      assert Ours(w, u) || !Spendable(w, u);
      if !u.hasWitnessScript || (Indexed(ord, u) && !Eligible(w, ord, required.Keys, u)) {
        SelectRunesMeets(w, ord, required, rest);
      } else if Indexed(ord, u) && Ours(w, u) {
        if Covered(spent) {
          assert Sufficient(ord, spent, []);
          ShortestAfter(ord, required, u, [], EligibleIn(w, ord, required.Keys, rest));
        } else {
          SelectRunesMeets(w, ord, spent, rest);
          SelectedNext(w, ord, required, u, rest);
        }
      }
    }
  }

  lemma SelectedNext(w: Wallet, ord: Ord, required: map<Rune, int>, u: Utxo, rest: seq<Utxo>)
    requires !Covered(required) && Ours(w, u) && Indexed(ord, u) && Eligible(w, ord, required.Keys, u)
    requires var spent := Spend(ord, required, u);
             RuneSelectionOutcome(w, ord, spent, rest, SelectRunes(w, ord, spent, rest))
    ensures RuneSelectionOutcome(w, ord, required, [u] + rest, Prepend(u, SelectRunes(w, ord, Spend(ord, required, u), rest)))
  {
    var spent := Spend(ord, required, u);
    var all := EligibleIn(w, ord, required.Keys, rest);
    assert spent.Keys == required.Keys;
    assert ([u] + rest)[1..] == rest;
    SufficientAfter(ord, required, u, all);
    match SelectRunes(w, ord, spent, rest)
    case Ok(us) => ShortestAfter(ord, required, u, us, all);
    case Raise(_) =>
  }

  ghost predicate RuneUsable(w: Wallet, ord: Ord, runes: set<Rune>, u: Utxo)
  {
    (u.hasWitnessScript ==> ord.balances(u.outpoint) != None) && (Eligible(w, ord, runes, u) ==> Spendable(w, u))
  }

  /** The loop gets past these outputs: those with a witness script are indexed, and the eligible ones are ours. */
  ghost predicate RunesUsable(w: Wallet, ord: Ord, runes: set<Rune>, us: seq<Utxo>)
  {
    forall u :: u in us ==> RuneUsable(w, ord, runes, u)
  }

  lemma RunesUsableNext(w: Wallet, ord: Ord, runes: set<Rune>, u: Utxo, us: seq<Utxo>)
    ensures RunesUsable(w, ord, runes, [u] + us) <==> RuneUsable(w, ord, runes, u) && RunesUsable(w, ord, runes, us)
  {
    assert u in [u] + us;
    assert forall v :: v in us ==> v in [u] + us;
  }

  lemma EligibleNext(w: Wallet, ord: Ord, runes: set<Rune>, u: Utxo, us: seq<Utxo>)
    ensures EligibleIn(w, ord, runes, [u] + us)
         == if Eligible(w, ord, runes, u) then [u] + EligibleIn(w, ord, runes, us) else EligibleIn(w, ord, runes, us)
  {
    assert ([u] + us)[1..] == us;
  }

  /** InsufficientRuneBalance is raised exactly when every output that is looked at can be, and the eligible ones hold
      too little. */
  lemma {:induction false} NotSelectedIff(w: Wallet, ord: Ord, required: map<Rune, int>, utxos: seq<Utxo>)
    requires !Covered(required)
    ensures SelectRunes(w, ord, required, utxos) == Raise(InsufficientRuneBalance)
       <==> RunesUsable(w, ord, required.Keys, utxos) && !Sufficient(ord, required, EligibleIn(w, ord, required.Keys, utxos))
  {
    if utxos == [] {
      var r :| r in required && required[r] > 0;
      assert Held(ord, r, []) == 0;
    } else {
      var u, rest := utxos[0], utxos[1..];
      assert utxos == [u] + rest;
      var spent, all := Spend(ord, required, u), EligibleIn(w, ord, required.Keys, rest);
      assert spent.Keys == required.Keys;
      RunesUsableNext(w, ord, required.Keys, u, rest);
      SufficientAfter(ord, required, u, all);
      if Indexed(ord, u) {
        EligibleIff(w, ord, required, u);
      }
      if !Eligible(w, ord, required.Keys, u) {
        NotSelectedIff(w, ord, required, rest);
      } else if !Covered(spent) {
        NotSelectedIff(w, ord, spent, rest);
      }
    }
  }

  /** ... that is, when some required rune is short. */
  lemma InsufficientRuneBalanceIff(w: Wallet, ord: Ord, required: map<Rune, int>, utxos: seq<Utxo>)
    requires !Covered(required)
    ensures SelectRunes(w, ord, required, utxos) == Raise(InsufficientRuneBalance)
       <==> && RunesUsable(w, ord, required.Keys, utxos)
            && exists r :: r in required && Held(ord, r, EligibleIn(w, ord, required.Keys, utxos)) < required[r]
  {
    NotSelectedIff(w, ord, required, utxos);
  }

  /** The outputs that are chosen when the loop ends behind these. */
  ghost predicate ChosenFrom(w: Wallet, ord: Ord, required: map<Rune, int>, seen: seq<Utxo>, us: seq<Utxo>)
  {
    RunesUsable(w, ord, required.Keys, seen) && ShortestSufficient(ord, required, us, EligibleIn(w, ord, required.Keys, seen))
  }

  ghost predicate Chosen(w: Wallet, ord: Ord, required: map<Rune, int>, utxos: seq<Utxo>, us: seq<Utxo>)
  {
    exists seen :: seen <= utxos && ChosenFrom(w, ord, required, seen, us)
  }

  lemma ShortestBefore(ord: Ord, required: map<Rune, int>, u: Utxo, us: seq<Utxo>, all: seq<Utxo>)
    requires ShortestSufficient(ord, required, [u] + us, [u] + all)
    ensures ShortestSufficient(ord, Spend(ord, required, u), us, all)
  {
    SufficientAfter(ord, required, u, us);
    assert ([u] + us)[1..] == us && ([u] + all)[1..] == all;
    forall k | 0 <= k < |us|
      ensures !Sufficient(ord, Spend(ord, required, u), us[..k])
    {
      assert ([u] + us)[..k + 1] == [u] + us[..k];
      SufficientAfter(ord, required, u, us[..k]);
    }
  }

  /** An output that is not eligible changes nothing. */
  lemma ChosenSkip(w: Wallet, ord: Ord, required: map<Rune, int>, u: Utxo, seen: seq<Utxo>, us: seq<Utxo>)
    requires (u.hasWitnessScript ==> Indexed(ord, u)) && !Eligible(w, ord, required.Keys, u)
    ensures ChosenFrom(w, ord, required, [u] + seen, us) <==> ChosenFrom(w, ord, required, seen, us)
  {
    RunesUsableNext(w, ord, required.Keys, u, seen);
    EligibleNext(w, ord, required.Keys, u, seen);
  }

  /** An eligible output is the first one chosen. */
  lemma ChosenTake(w: Wallet, ord: Ord, required: map<Rune, int>, u: Utxo, seen: seq<Utxo>, us: seq<Utxo>)
    requires !Covered(required) && Indexed(ord, u) && Ours(w, u) && Eligible(w, ord, required.Keys, u)
    ensures ChosenFrom(w, ord, required, [u] + seen, [u] + us) <==> ChosenFrom(w, ord, Spend(ord, required, u), seen, us)
    ensures ChosenFrom(w, ord, required, [u] + seen, us) ==> us != [] && us == [u] + us[1..]
  {
    var all := EligibleIn(w, ord, required.Keys, seen);
    assert Spend(ord, required, u).Keys == required.Keys;
    RunesUsableNext(w, ord, required.Keys, u, seen);
    EligibleNext(w, ord, required.Keys, u, seen);
    NothingIsShort(ord, required);
    if ShortestSufficient(ord, required, [u] + us, [u] + all) {
      ShortestBefore(ord, required, u, us, all);
    }
    if ShortestSufficient(ord, Spend(ord, required, u), us, all) {
      ShortestAfter(ord, required, u, us, all);
    }
  }

  lemma NothingIsShort(ord: Ord, required: map<Rune, int>)
    requires !Covered(required)
    ensures !Sufficient(ord, required, [])
  {
    var r :| r in required && required[r] > 0;
    assert Held(ord, r, []) == 0;
  }

  lemma CoveredNeedsNothing(ord: Ord, required: map<Rune, int>, us: seq<Utxo>, all: seq<Utxo>)
    requires Covered(required) && ShortestSufficient(ord, required, us, all)
    ensures us == []
  {
    assert Sufficient(ord, required, us[..0]);
  }

  lemma ChosenSkips(w: Wallet, ord: Ord, required: map<Rune, int>, u: Utxo, rest: seq<Utxo>, us: seq<Utxo>)
    requires !Covered(required)
    requires (u.hasWitnessScript ==> Indexed(ord, u)) && !Eligible(w, ord, required.Keys, u)
    ensures Chosen(w, ord, required, [u] + rest, us) <==> Chosen(w, ord, required, rest, us)
  {
    NothingIsShort(ord, required);
    if seen :| seen <= rest && ChosenFrom(w, ord, required, seen, us) {
      ChosenSkip(w, ord, required, u, seen, us);
      assert [u] + seen <= [u] + rest;
    }
    if seen :| seen <= [u] + rest && ChosenFrom(w, ord, required, seen, us) {
      assert seen == [u] + seen[1..] && seen[1..] <= rest;
      ChosenSkip(w, ord, required, u, seen[1..], us);
    }
  }

  lemma ChosenTakes(w: Wallet, ord: Ord, required: map<Rune, int>, u: Utxo, rest: seq<Utxo>, us: seq<Utxo>)
    requires !Covered(required) && Indexed(ord, u) && Ours(w, u) && Eligible(w, ord, required.Keys, u)
    ensures Chosen(w, ord, required, [u] + rest, us)
       <==> us != [] && us[0] == u && Chosen(w, ord, Spend(ord, required, u), rest, us[1..])
  {
    NothingIsShort(ord, required);
    if seen :| seen <= [u] + rest && ChosenFrom(w, ord, required, seen, us) {
      assert seen == [u] + seen[1..] && seen[1..] <= rest;
      ChosenTake(w, ord, required, u, seen[1..], us);
      ChosenTake(w, ord, required, u, seen[1..], us[1..]);
    }
    if us != [] && us[0] == u && Chosen(w, ord, Spend(ord, required, u), rest, us[1..]) {
      var seen :| seen <= rest && ChosenFrom(w, ord, Spend(ord, required, u), seen, us[1..]);
      ChosenTake(w, ord, required, u, seen, us[1..]);
      assert us == [u] + us[1..];
      assert [u] + seen <= [u] + rest;
    }
  }

  lemma CoveredChoice(w: Wallet, ord: Ord, required: map<Rune, int>, utxos: seq<Utxo>, us: seq<Utxo>)
    requires Covered(required)
    ensures Chosen(w, ord, required, utxos, us) <==> us == []
  {
    assert ChosenFrom(w, ord, required, [], []);
    if seen :| seen <= utxos && ChosenFrom(w, ord, required, seen, us) {
      CoveredNeedsNothing(ord, required, us, EligibleIn(w, ord, required.Keys, seen));
    }
  }

  /** An output that the loop does not get past ends every choice before it. */
  lemma NothingChosen(w: Wallet, ord: Ord, required: map<Rune, int>, utxos: seq<Utxo>, us: seq<Utxo>)
    requires !Covered(required)
    requires utxos == [] || !RunesUsable(w, ord, required.Keys, [utxos[0]])
    ensures !Chosen(w, ord, required, utxos, us)
  {
    NothingIsShort(ord, required);
    forall seen | seen <= utxos
      ensures !ChosenFrom(w, ord, required, seen, us)
    {
      assert seen == [] || seen[0] in seen;
    }
  }

  /** The loop returns these outputs exactly when they are the shortest sufficient choice from some prefix of the list
      that it gets past. */
  lemma {:induction false} SelectedIff(w: Wallet, ord: Ord, required: map<Rune, int>, utxos: seq<Utxo>, us: seq<Utxo>)
    requires !Covered(required)
    ensures SelectRunes(w, ord, required, utxos) == Ok(us) <==> Chosen(w, ord, required, utxos, us)
    decreases |utxos|
  {
    if utxos == [] || !RunesUsable(w, ord, required.Keys, [utxos[0]]) {
      NothingChosen(w, ord, required, utxos, us);
    } else {
      var u, rest := utxos[0], utxos[1..];
      assert utxos == [u] + rest && u in [utxos[0]];
      if !Eligible(w, ord, required.Keys, u) {
        SelectedIff(w, ord, required, rest, us);
        ChosenSkips(w, ord, required, u, rest, us);
      } else {
        var spent := Spend(ord, required, u);
        ChosenTakes(w, ord, required, u, rest, us);
        if us != [] && us[0] == u {
          assert us == [u] + us[1..];
          assert us[1..] == [] <==> us == [u];
          if Covered(spent) {
            CoveredChoice(w, ord, spent, rest, us[1..]);
          } else {
            SelectedIff(w, ord, spent, rest, us[1..]);
          }
        }
      }
    }
  }

  // ---------------------------------------------------------------- inputs for the fee

  function Sats(us: seq<Utxo>): int
  {
    if us == [] then 0 else us[0].amount + Sats(us[1..])
  }

  /** The transaction being funded: its outputs without the bitcoin change, and the fee rate. */
  datatype Target = Target(outs: seq<TxOut>, feeRate: int)

  /** The fee, with room for a change output. */
  function Fee(w: Wallet, t: Target, inputs: nat): int
  {
    t.feeRate * VirtualSize(inputs, t.outs + [TxOut(1, w.changeScript)], w.multisig)
  }

  /** What `inputs` inputs worth `sat` would leave as change. */
  function Change(w: Wallet, t: Target, inputs: nat, sat: int): int
  {
    sat - TotalValue(t.outs) - Fee(w, t, inputs)
  }

  /** The change is exactly nothing, or no dust. */
  predicate Funded(w: Wallet, t: Target, inputs: nat, sat: int)
  {
    Change(w, t, inputs, sat) == 0 || Change(w, t, inputs, sat) >= DUST_SAT
  }

  /** The second loop. */
  function FundFee(w: Wallet, ord: Ord, t: Target, inputs: nat, sat: int, utxos: seq<Utxo>): Result<seq<Utxo>, Error>
    decreases |utxos|
  {
    if Funded(w, t, inputs, sat) then Ok([])
    else if utxos == [] then Raise(InsufficientBtcBalance)
    else
      var u, rest := utxos[0], utxos[1..];
      if !Indexed(ord, u) then Raise(UnindexedOutput)
      else if HasRunes(ord, u) || !u.hasWitnessScript then FundFee(w, ord, t, inputs, sat, rest)
      else if !Ours(w, u) then Raise(ValueError)
      else Prepend(u, FundFee(w, ord, t, inputs + 1, sat + u.amount, rest))
  }

  /** The usable outputs that ord shows to be without runes. */
  ghost function RuneFree(ord: Ord, utxos: seq<Utxo>): seq<Utxo>
  {
    if utxos == [] then []
    else if utxos[0].hasWitnessScript && ord.balances(utxos[0].outpoint) == Some(map[])
    then [utxos[0]] + RuneFree(ord, utxos[1..])
    else RuneFree(ord, utxos[1..])
  }

  /** With these inputs as well, the outputs and the fee for the size with a change output leave nothing, or 1000 satoshis
      or more. */
  ghost predicate FundedWith(w: Wallet, t: Target, inputs: nat, sat: int, us: seq<Utxo>)
  {
    var size := VirtualSize(inputs + |us|, t.outs + [TxOut(1, w.changeScript)], w.multisig);
    var left := sat + Sats(us) - (TotalValue(t.outs) + t.feeRate * size);
    left == 0 || left >= 1000
  }

  ghost predicate ShortestFunding(w: Wallet, t: Target, inputs: nat, sat: int, us: seq<Utxo>, all: seq<Utxo>)
  {
    && us <= all
    && FundedWith(w, t, inputs, sat, us)
    && forall k :: 0 <= k < |us| ==> !FundedWith(w, t, inputs, sat, us[..k])
  }

  ghost predicate NeverFunded(w: Wallet, t: Target, inputs: nat, sat: int, all: seq<Utxo>)
  {
    forall k :: 0 <= k <= |all| ==> !FundedWith(w, t, inputs, sat, all[..k])
  }

  ghost predicate FundingOutcome(w: Wallet, ord: Ord, t: Target, inputs: nat, sat: int, utxos: seq<Utxo>, r: Result<seq<Utxo>, Error>)
  {
    match r
    case Ok(us) =>
      && ShortestFunding(w, t, inputs, sat, us, RuneFree(ord, utxos))
      && forall u :: u in us ==>
           u in utxos && Spendable(w, u) && u.hasWitnessScript && ord.balances(u.outpoint) == Some(map[])
    case Raise(InsufficientBtcBalance) => NeverFunded(w, t, inputs, sat, RuneFree(ord, utxos))
    case Raise(UnindexedOutput) => exists u :: u in utxos && ord.balances(u.outpoint) == None
    case Raise(ValueError) => exists u :: u in utxos && !Spendable(w, u)
    case _ => false
  }

  lemma FundedAfter(w: Wallet, t: Target, inputs: nat, sat: int, u: Utxo, us: seq<Utxo>)
    ensures FundedWith(w, t, inputs, sat, [u] + us) <==> FundedWith(w, t, inputs + 1, sat + u.amount, us)
  {
    assert ([u] + us)[1..] == us;
    assert Sats([u] + us) == u.amount + Sats(us);
    assert inputs + |[u] + us| == inputs + 1 + |us|;
  }

  lemma ShortestFundingAfter(w: Wallet, t: Target, inputs: nat, sat: int, u: Utxo, us: seq<Utxo>, all: seq<Utxo>)
    requires !Funded(w, t, inputs, sat) && ShortestFunding(w, t, inputs + 1, sat + u.amount, us, all)
    ensures ShortestFunding(w, t, inputs, sat, [u] + us, [u] + all)
  {
    FundedAfter(w, t, inputs, sat, u, us);
    forall k | 0 <= k < |[u] + us|
      ensures !FundedWith(w, t, inputs, sat, ([u] + us)[..k])
    {
      if k > 0 {
        assert ([u] + us)[..k] == [u] + us[..k - 1];
        FundedAfter(w, t, inputs, sat, u, us[..k - 1]);
      }
    }
  }

  lemma NeverFundedAfter(w: Wallet, t: Target, inputs: nat, sat: int, u: Utxo, all: seq<Utxo>)
    requires !Funded(w, t, inputs, sat) && NeverFunded(w, t, inputs + 1, sat + u.amount, all)
    ensures NeverFunded(w, t, inputs, sat, [u] + all)
  {
    forall k | 0 <= k <= |[u] + all|
      ensures !FundedWith(w, t, inputs, sat, ([u] + all)[..k])
    {
      if k > 0 {
        assert ([u] + all)[..k] == [u] + all[..k - 1];
        FundedAfter(w, t, inputs, sat, u, all[..k - 1]);
      }
    }
  }

  lemma FundedNext(w: Wallet, ord: Ord, t: Target, inputs: nat, sat: int, u: Utxo, rest: seq<Utxo>, r: Result<seq<Utxo>, Error>)
    requires !Funded(w, t, inputs, sat) && Ours(w, u) && Indexed(ord, u) && !HasRunes(ord, u) && u.hasWitnessScript
    requires FundingOutcome(w, ord, t, inputs + 1, sat + u.amount, rest, r)
    ensures FundingOutcome(w, ord, t, inputs, sat, [u] + rest, Prepend(u, r))
  {
    assert ([u] + rest)[1..] == rest;
    match r
    case Ok(us) => ShortestFundingAfter(w, t, inputs, sat, u, us, RuneFree(ord, rest));
    case Raise(InsufficientBtcBalance) => NeverFundedAfter(w, t, inputs, sat, u, RuneFree(ord, rest));
    case Raise(_) =>
  }

  lemma FundedNow(w: Wallet, ord: Ord, t: Target, inputs: nat, sat: int, utxos: seq<Utxo>)
    ensures Funded(w, t, inputs, sat) ==> FundingOutcome(w, ord, t, inputs, sat, utxos, Ok([]))
    ensures !Funded(w, t, inputs, sat) ==> FundingOutcome(w, ord, t, inputs, sat, [], Raise(InsufficientBtcBalance))
  {
    assert Sats([]) == 0;
  }

  lemma {:induction false} FundFeeMeets(w: Wallet, ord: Ord, t: Target, inputs: nat, sat: int, utxos: seq<Utxo>)
    ensures FundingOutcome(w, ord, t, inputs, sat, utxos, FundFee(w, ord, t, inputs, sat, utxos))
    decreases |utxos|
  {
    FundedNow(w, ord, t, inputs, sat, utxos);
    if !Funded(w, t, inputs, sat) && utxos != [] {
      var u, rest := utxos[0], utxos[1..];
      assert utxos == [u] + rest;
      assert Ours(w, u) || !Spendable(w, u);
      if Indexed(ord, u) && (HasRunes(ord, u) || !u.hasWitnessScript) {
        FundFeeMeets(w, ord, t, inputs, sat, rest);
      } else if Indexed(ord, u) && Ours(w, u) {
        FundFeeMeets(w, ord, t, inputs + 1, sat + u.amount, rest);
        FundedNext(w, ord, t, inputs, sat, u, rest, FundFee(w, ord, t, inputs + 1, sat + u.amount, rest));
      }
    }
  }

  /** The loop gets past these outputs: they are indexed, and those it would spend are ours. */
  ghost predicate FeeUsable(w: Wallet, ord: Ord, us: seq<Utxo>)
  {
    forall u :: u in us ==>
      ord.balances(u.outpoint) != None && (u.hasWitnessScript && ord.balances(u.outpoint) == Some(map[]) ==> Spendable(w, u))
  }

  lemma FeeUsableNext(w: Wallet, ord: Ord, u: Utxo, us: seq<Utxo>)
    ensures FeeUsable(w, ord, [u] + us) <==> FeeUsable(w, ord, [u]) && FeeUsable(w, ord, us)
    ensures FeeUsable(w, ord, [u]) <==> Indexed(ord, u) && (u.hasWitnessScript && !HasRunes(ord, u) ==> Ours(w, u))
  {
    assert u in [u] && u in [u] + us;
    assert forall v :: v in us ==> v in [u] + us;
  }

  lemma RuneFreeNext(ord: Ord, u: Utxo, us: seq<Utxo>)
    requires Indexed(ord, u)
    ensures RuneFree(ord, [u] + us)
         == if u.hasWitnessScript && !HasRunes(ord, u) then [u] + RuneFree(ord, us) else RuneFree(ord, us)
  {
    assert ([u] + us)[1..] == us;
  }

  lemma NeverFundedNext(w: Wallet, t: Target, inputs: nat, sat: int, u: Utxo, all: seq<Utxo>)
    ensures NeverFunded(w, t, inputs, sat, [u] + all)
       <==> !Funded(w, t, inputs, sat) && NeverFunded(w, t, inputs + 1, sat + u.amount, all)
  {
    FundedByNone(w, t, inputs, sat, [u] + all);
    if NeverFunded(w, t, inputs, sat, [u] + all) {
      forall k | 0 <= k <= |all|
        ensures !FundedWith(w, t, inputs + 1, sat + u.amount, all[..k])
      {
        assert ([u] + all)[..k + 1] == [u] + all[..k];
        FundedAfter(w, t, inputs, sat, u, all[..k]);
      }
    }
    if !Funded(w, t, inputs, sat) && NeverFunded(w, t, inputs + 1, sat + u.amount, all) {
      NeverFundedAfter(w, t, inputs, sat, u, all);
    }
  }

  lemma FundedByNone(w: Wallet, t: Target, inputs: nat, sat: int, all: seq<Utxo>)
    ensures FundedWith(w, t, inputs, sat, all[..0]) <==> Funded(w, t, inputs, sat)
    ensures FundedWith(w, t, inputs, sat, []) <==> Funded(w, t, inputs, sat)
    ensures Funded(w, t, inputs, sat) ==> !NeverFunded(w, t, inputs, sat, all)
  {
    assert all[..0] == [] && Sats([]) == 0;
  }

  /** The loop gets past every output, and none of the prefixes of those that it spends funds the transaction. */
  ghost predicate Exhausts(w: Wallet, ord: Ord, t: Target, inputs: nat, sat: int, utxos: seq<Utxo>)
  {
    FeeUsable(w, ord, utxos) && NeverFunded(w, t, inputs, sat, RuneFree(ord, utxos))
  }

  predicate IsSpent(ord: Ord, u: Utxo)
    requires Indexed(ord, u)
  {
    u.hasWitnessScript && !HasRunes(ord, u)
  }

  lemma ExhaustsNext(w: Wallet, ord: Ord, t: Target, inputs: nat, sat: int, u: Utxo, rest: seq<Utxo>)
    requires !Funded(w, t, inputs, sat)
    ensures Exhausts(w, ord, t, inputs, sat, [u] + rest)
       <==> && FeeUsable(w, ord, [u])
            && if IsSpent(ord, u) then Exhausts(w, ord, t, inputs + 1, sat + u.amount, rest)
               else Exhausts(w, ord, t, inputs, sat, rest)
  {
    FeeUsableNext(w, ord, u, rest);
    if Indexed(ord, u) {
      RuneFreeNext(ord, u, rest);
      NeverFundedNext(w, t, inputs, sat, u, RuneFree(ord, rest));
    }
  }

  lemma RaisesNext(w: Wallet, ord: Ord, t: Target, inputs: nat, sat: int, u: Utxo, rest: seq<Utxo>)
    requires !Funded(w, t, inputs, sat)
    ensures FundFee(w, ord, t, inputs, sat, [u] + rest) == Raise(InsufficientBtcBalance)
       <==> && FeeUsable(w, ord, [u])
            && FundFee(w, ord, t, if IsSpent(ord, u) then inputs + 1 else inputs,
                       if IsSpent(ord, u) then sat + u.amount else sat, rest) == Raise(InsufficientBtcBalance)
  {
    FeeUsableNext(w, ord, u, rest);
    assert ([u] + rest)[1..] == rest;
  }

  /** InsufficientBtcBalance is raised exactly when the loop gets past every output and no prefix of the usable
      rune-free ones funds the transaction. */
  lemma {:induction false} InsufficientBtcBalanceIff(w: Wallet, ord: Ord, t: Target, inputs: nat, sat: int, utxos: seq<Utxo>)
    ensures FundFee(w, ord, t, inputs, sat, utxos) == Raise(InsufficientBtcBalance)
       <==> FeeUsable(w, ord, utxos) && NeverFunded(w, t, inputs, sat, RuneFree(ord, utxos))
    decreases |utxos|
  {
    FundedByNone(w, t, inputs, sat, RuneFree(ord, utxos));
    if utxos != [] && !Funded(w, t, inputs, sat) {
      var u, rest := utxos[0], utxos[1..];
      assert utxos == [u] + rest;
      RaisesNext(w, ord, t, inputs, sat, u, rest);
      ExhaustsNext(w, ord, t, inputs, sat, u, rest);
      if Indexed(ord, u) && IsSpent(ord, u) {
        InsufficientBtcBalanceIff(w, ord, t, inputs + 1, sat + u.amount, rest);
      } else {
        InsufficientBtcBalanceIff(w, ord, t, inputs, sat, rest);
      }
    }
  }

  ghost predicate FundedFrom(w: Wallet, ord: Ord, t: Target, inputs: nat, sat: int, seen: seq<Utxo>, us: seq<Utxo>)
  {
    FeeUsable(w, ord, seen) && ShortestFunding(w, t, inputs, sat, us, RuneFree(ord, seen))
  }

  ghost predicate FundedBy(w: Wallet, ord: Ord, t: Target, inputs: nat, sat: int, utxos: seq<Utxo>, us: seq<Utxo>)
  {
    exists seen :: seen <= utxos && FundedFrom(w, ord, t, inputs, sat, seen, us)
  }

  lemma ShortestFundingBefore(w: Wallet, t: Target, inputs: nat, sat: int, u: Utxo, us: seq<Utxo>, all: seq<Utxo>)
    requires ShortestFunding(w, t, inputs, sat, [u] + us, [u] + all)
    ensures ShortestFunding(w, t, inputs + 1, sat + u.amount, us, all)
  {
    FundedAfter(w, t, inputs, sat, u, us);
    assert ([u] + us)[1..] == us && ([u] + all)[1..] == all;
    forall k | 0 <= k < |us|
      ensures !FundedWith(w, t, inputs + 1, sat + u.amount, us[..k])
    {
      assert ([u] + us)[..k + 1] == [u] + us[..k];
      FundedAfter(w, t, inputs, sat, u, us[..k]);
    }
  }

  lemma FundedAlready(w: Wallet, ord: Ord, t: Target, inputs: nat, sat: int, utxos: seq<Utxo>, us: seq<Utxo>)
    requires Funded(w, t, inputs, sat)
    ensures FundedBy(w, ord, t, inputs, sat, utxos, us) <==> us == []
  {
    FundedByNone(w, t, inputs, sat, us);
    assert FundedFrom(w, ord, t, inputs, sat, [], []);
  }

  lemma FundedSkips(w: Wallet, ord: Ord, t: Target, inputs: nat, sat: int, u: Utxo, rest: seq<Utxo>, us: seq<Utxo>)
    requires !Funded(w, t, inputs, sat) && Indexed(ord, u) && (HasRunes(ord, u) || !u.hasWitnessScript)
    ensures FundedBy(w, ord, t, inputs, sat, [u] + rest, us) <==> FundedBy(w, ord, t, inputs, sat, rest, us)
  {
    FundedByNone(w, t, inputs, sat, us);
    if seen :| seen <= rest && FundedFrom(w, ord, t, inputs, sat, seen, us) {
      FeeUsableNext(w, ord, u, seen);
      RuneFreeNext(ord, u, seen);
      assert [u] + seen <= [u] + rest;
      assert FundedFrom(w, ord, t, inputs, sat, [u] + seen, us);
    }
    if seen :| seen <= [u] + rest && FundedFrom(w, ord, t, inputs, sat, seen, us) {
      assert seen != [];
      assert seen == [u] + seen[1..] && seen[1..] <= rest;
      FeeUsableNext(w, ord, u, seen[1..]);
      RuneFreeNext(ord, u, seen[1..]);
      assert FundedFrom(w, ord, t, inputs, sat, seen[1..], us);
    }
  }

  lemma FundedTakes(w: Wallet, ord: Ord, t: Target, inputs: nat, sat: int, u: Utxo, rest: seq<Utxo>, us: seq<Utxo>)
    requires !Funded(w, t, inputs, sat) && Indexed(ord, u) && !HasRunes(ord, u) && u.hasWitnessScript && Ours(w, u)
    ensures FundedBy(w, ord, t, inputs, sat, [u] + rest, us)
       <==> us != [] && us[0] == u && FundedBy(w, ord, t, inputs + 1, sat + u.amount, rest, us[1..])
  {
    FundedByNone(w, t, inputs, sat, us);
    if seen :| seen <= [u] + rest && FundedFrom(w, ord, t, inputs, sat, seen, us) {
      assert seen != [];
      assert seen == [u] + seen[1..] && seen[1..] <= rest;
      FeeUsableNext(w, ord, u, seen[1..]);
      RuneFreeNext(ord, u, seen[1..]);
      assert us == [u] + us[1..];
      ShortestFundingBefore(w, t, inputs, sat, u, us[1..], RuneFree(ord, seen[1..]));
      assert FundedFrom(w, ord, t, inputs + 1, sat + u.amount, seen[1..], us[1..]);
    }
    if us != [] && us[0] == u && FundedBy(w, ord, t, inputs + 1, sat + u.amount, rest, us[1..]) {
      var seen :| seen <= rest && FundedFrom(w, ord, t, inputs + 1, sat + u.amount, seen, us[1..]);
      FeeUsableNext(w, ord, u, seen);
      RuneFreeNext(ord, u, seen);
      assert us == [u] + us[1..];
      ShortestFundingAfter(w, t, inputs, sat, u, us[1..], RuneFree(ord, seen));
      assert [u] + seen <= [u] + rest;
      assert FundedFrom(w, ord, t, inputs, sat, [u] + seen, us);
    }
  }

  lemma NeverFundedBy(w: Wallet, ord: Ord, t: Target, inputs: nat, sat: int, utxos: seq<Utxo>, us: seq<Utxo>)
    requires !Funded(w, t, inputs, sat) && (utxos == [] || !FeeUsable(w, ord, [utxos[0]]))
    ensures !FundedBy(w, ord, t, inputs, sat, utxos, us)
  {
    FundedByNone(w, t, inputs, sat, us);
    forall seen | seen <= utxos
      ensures !FundedFrom(w, ord, t, inputs, sat, seen, us)
    {
      assert seen == [] || seen[0] in seen;
    }
  }

  /** The loop returns these outputs exactly when they are the shortest funding from some prefix of the list that it
      gets past. */
  lemma {:induction false} FundedIff(w: Wallet, ord: Ord, t: Target, inputs: nat, sat: int, utxos: seq<Utxo>, us: seq<Utxo>)
    ensures FundFee(w, ord, t, inputs, sat, utxos) == Ok(us) <==> FundedBy(w, ord, t, inputs, sat, utxos, us)
    decreases |utxos|
  {
    if Funded(w, t, inputs, sat) {
      FundedAlready(w, ord, t, inputs, sat, utxos, us);
    } else if utxos == [] || !FeeUsable(w, ord, [utxos[0]]) {
      NeverFundedBy(w, ord, t, inputs, sat, utxos, us);
    } else {
      var u, rest := utxos[0], utxos[1..];
      assert utxos == [u] + rest;
      FeeUsableNext(w, ord, u, rest);
      if HasRunes(ord, u) || !u.hasWitnessScript {
        FundedIff(w, ord, t, inputs, sat, rest, us);
        FundedSkips(w, ord, t, inputs, sat, u, rest, us);
      } else {
        FundedTakes(w, ord, t, inputs, sat, u, rest, us);
        if us != [] && us[0] == u {
          assert us == [u] + us[1..];
          FundedIff(w, ord, t, inputs + 1, sat + u.amount, rest, us[1..]);
        }
      }
    }
  }
}
