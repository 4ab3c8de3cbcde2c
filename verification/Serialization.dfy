/** Transactions as bytes (BIP 144, "Serialization"; BIP 141, "Transaction size calculations"): the estimate of Transactions is
    the size of what is broadcast. */
module Serialization {
  import opened Transactions

  type Bytes = seq<Byte>

  // ---------------------------------------------------------------- bytes

  /** The lowest `n` bytes, the lowest first. */
  function LittleEndian(v: int, n: nat): (bytes: Bytes)
    ensures |bytes| == n
    decreases n
  {
    if n == 0 then [] else [v % 256] + LittleEndian(v / 256, n - 1)
  }

  function WriteCompactSize(n: nat): Bytes
  {
    if n < 0xfd then [n]
    else if n < 0x1_0000 then [0xfd] + LittleEndian(n, 2)
    else if n < 0x1_0000_0000 then [0xfe] + LittleEndian(n, 4)
    else [0xff] + LittleEndian(n, 8)
  }

  /** An input that is signed in its witness: its own script is empty. */
  datatype TxIn = TxIn(txid: Bytes, vout: nat, sequence: nat)

  function WriteInput(i: TxIn): Bytes
  {
    i.txid + LittleEndian(i.vout, 4) + WriteCompactSize(0) + LittleEndian(i.sequence, 4)
  }

  function WriteInputs(ins: seq<TxIn>): Bytes
  {
    if ins == [] then [] else WriteInputs(ins[..|ins| - 1]) + WriteInput(ins[|ins| - 1])
  }

  function WriteOutput(out: TxOut): Bytes
  {
    LittleEndian(out.value, 8) + WriteCompactSize(|out.script|) + out.script
  }

  function WriteOutputs(outs: seq<TxOut>): Bytes
  {
    if outs == [] then [] else WriteOutputs(outs[..|outs| - 1]) + WriteOutput(outs[|outs| - 1])
  }

  function WriteItems(items: seq<Bytes>): Bytes
  {
    if items == [] then [] else WriteItems(items[..|items| - 1]) + WriteCompactSize(|items[|items| - 1]|) + items[|items| - 1]
  }

  /** A stack of witness items. */
  function WriteStack(items: seq<Bytes>): Bytes
  {
    WriteCompactSize(|items|) + WriteItems(items)
  }

  function WriteStacks(stacks: seq<seq<Bytes>>): Bytes
  {
    if stacks == [] then [] else WriteStacks(stacks[..|stacks| - 1]) + WriteStack(stacks[|stacks| - 1])
  }

  /** There is one stack for each input. */
  datatype Tx = Tx(version: int, ins: seq<TxIn>, outs: seq<TxOut>, stacks: seq<seq<Bytes>>, lockTime: int)

  function WriteBody(tx: Tx): Bytes
  {
    WriteCompactSize(|tx.ins|) + WriteInputs(tx.ins) + WriteCompactSize(|tx.outs|) + WriteOutputs(tx.outs)
  }

  /** Without witnesses. */
  function WriteStripped(tx: Tx): Bytes
  {
    LittleEndian(tx.version, 4) + WriteBody(tx) + LittleEndian(tx.lockTime, 4)
  }

  /** With marker, flag and witnesses, if there are any. */
  function WriteFull(tx: Tx): Bytes
  {
    if tx.stacks == [] then WriteStripped(tx)
    else LittleEndian(tx.version, 4) + [0, 1] + WriteBody(tx) + WriteStacks(tx.stacks) + LittleEndian(tx.lockTime, 4)
  }

  function Weight(tx: Tx): nat
  {
    3 * |WriteStripped(tx)| + |WriteFull(tx)|
  }

  // ---------------------------------------------------------------- sizes

  /** What spends an output of the multisig: nothing, the signatures, and the redeem script. */
  ghost predicate SpendsMultisig(stack: seq<Bytes>, m: Multisig)
  {
    && |stack| == m.numSignatures + 2 && |stack[0]| == 0 && |stack[|stack| - 1]| == m.redeemScriptSize
    && forall i :: 0 < i < |stack| - 1 ==> |stack[i]| <= 71
  }

  /** All signatures have 71 bytes. */
  ghost predicate FullSignatures(stack: seq<Bytes>)
  {
    forall i :: 0 < i < |stack| - 1 ==> |stack[i]| == 71
  }

  ghost predicate IsMultisigTx(tx: Tx, m: Multisig)
  {
    && |tx.stacks| == |tx.ins|
    && (forall i :: 0 <= i < |tx.ins| ==> |tx.ins[i].txid| == 32)
    && (forall i :: 0 <= i < |tx.stacks| ==> SpendsMultisig(tx.stacks[i], m))
  }

  lemma CompactSizeIs(n: nat)
    ensures |WriteCompactSize(n)| == CompactSize(n)
  {
  }

  lemma {:induction false} InputsSize(ins: seq<TxIn>)
    requires forall i :: 0 <= i < |ins| ==> |ins[i].txid| == 32
    ensures |WriteInputs(ins)| == |ins| * 41
  {
    if ins != [] {
      InputsSize(ins[..|ins| - 1]);
      assert |WriteInput(ins[|ins| - 1])| == 41;
    }
  }

  lemma {:induction false} OutputsSizeIs(outs: seq<TxOut>)
    ensures |WriteOutputs(outs)| == OutputsSize(outs)
  {
    if outs != [] {
      OutputsSizeIs(outs[..|outs| - 1]);
      CompactSizeIs(|outs[|outs| - 1].script|);
    }
  }

  /** The empty item and the first `n` signatures. */
  lemma {:induction false} SignaturesSize(items: seq<Bytes>, n: nat)
    requires |items| == n + 1 && |items[0]| == 0 && forall i :: 0 < i <= n ==> |items[i]| <= 71
    ensures |WriteItems(items)| <= 1 + n * 72
    ensures (forall i :: 0 < i <= n ==> |items[i]| == 71) ==> |WriteItems(items)| == 1 + n * 72
  {
    var front, last := items[..n], items[n];
    assert |WriteItems(items)| == |WriteItems(front)| + |WriteCompactSize(|last|)| + |last|;
    if n > 0 {
      SignaturesSize(front, n - 1);
    } else {
      assert front == [];
    }
  }

  lemma StackSize(stack: seq<Bytes>, m: Multisig)
    requires SpendsMultisig(stack, m)
    ensures |WriteStack(stack)| <= WitnessSize(m)
    ensures FullSignatures(stack) ==> |WriteStack(stack)| == WitnessSize(m)
  {
    var front, last := stack[..|stack| - 1], stack[|stack| - 1];
    SignaturesSize(front, m.numSignatures);
    CompactSizeIs(|stack|);
    CompactSizeIs(|last|);
    assert |WriteItems(stack)| == |WriteItems(front)| + |WriteCompactSize(|last|)| + |last|;
  }

  lemma NextMultiple(n: nat, size: nat)
    ensures (n + 1) * size == n * size + size
  {
  }

  lemma LastStack(stacks: seq<seq<Bytes>>, n: nat)
    requires |stacks| == n + 1
    ensures |WriteStacks(stacks)| == |WriteStacks(stacks[..n])| + |WriteStack(stacks[n])|
  {
  }

  /** Each stack has at most `size` bytes, or exactly so many. */
  lemma {:induction false} StacksSize(stacks: seq<seq<Bytes>>, size: nat, exact: bool, n: nat)
    requires |stacks| == n
    requires forall i :: 0 <= i < n ==> |WriteStack(stacks[i])| <= size && (exact ==> |WriteStack(stacks[i])| == size)
    ensures |WriteStacks(stacks)| <= n * size && (exact ==> |WriteStacks(stacks)| == n * size)
  {
    if n > 0 {
      StacksSize(stacks[..n - 1], size, exact, n - 1);
      LastStack(stacks, n - 1);
      NextMultiple(n - 1, size);
    }
  }

  lemma BodySize(tx: Tx)
    requires forall i :: 0 <= i < |tx.ins| ==> |tx.ins[i].txid| == 32
    ensures |WriteStripped(tx)| == BaseSize(|tx.ins|, tx.outs)
  {
    InputsSize(tx.ins);
    OutputsSizeIs(tx.outs);
    CompactSizeIs(|tx.ins|);
    CompactSizeIs(|tx.outs|);
  }

  lemma WeightIs(tx: Tx, m: Multisig)
    requires IsMultisigTx(tx, m)
    ensures Weight(tx) <= 4 * BaseSize(|tx.ins|, tx.outs) + WitnessesSize(|tx.ins|, m)
    ensures (forall i :: 0 <= i < |tx.stacks| ==> FullSignatures(tx.stacks[i])) ==>
              Weight(tx) == 4 * BaseSize(|tx.ins|, tx.outs) + WitnessesSize(|tx.ins|, m)
  {
    BodySize(tx);
    forall i | 0 <= i < |tx.stacks|
      ensures |WriteStack(tx.stacks[i])| <= WitnessSize(m)
      ensures FullSignatures(tx.stacks[i]) ==> |WriteStack(tx.stacks[i])| == WitnessSize(m)
    {
      StackSize(tx.stacks[i], m);
    }
    StacksSize(tx.stacks, WitnessSize(m), forall i :: 0 <= i < |tx.stacks| ==> FullSignatures(tx.stacks[i]), |tx.stacks|);
  }

  /** The estimate is a quarter of the weight of the signed transaction, rounded up, if its signatures have 71 bytes; shorter
      ones never make it larger. */
  lemma EstimateIsSize(tx: Tx, m: Multisig)
    requires IsMultisigTx(tx, m)
    ensures (Weight(tx) + 3) / 4 <= VirtualSize(|tx.ins|, tx.outs, m)
    ensures (forall i :: 0 <= i < |tx.stacks| ==> FullSignatures(tx.stacks[i])) ==>
              (Weight(tx) + 3) / 4 == VirtualSize(|tx.ins|, tx.outs, m)
  {
    WeightIs(tx, m);
  }

  lemma FullStack(m: Multisig) returns (stack: seq<Bytes>)
    ensures SpendsMultisig(stack, m) && FullSignatures(stack)
  {
    var signature, script: Bytes := seq(71, i => 0), seq(m.redeemScriptSize, i => 0);
    stack := [[]] + seq(m.numSignatures, i => signature) + [script];
    assert stack[|stack| - 1] == script;
    assert forall i :: 0 < i < |stack| - 1 ==> stack[i] == signature;
  }

  /** There is such a transaction for any inputs, outputs and multisig. */
  lemma EstimateIsReached(ins: seq<TxIn>, outs: seq<TxOut>, m: Multisig) returns (tx: Tx)
    requires forall i :: 0 <= i < |ins| ==> |ins[i].txid| == 32
    ensures tx.ins == ins && tx.outs == outs && IsMultisigTx(tx, m)
    ensures (Weight(tx) + 3) / 4 == VirtualSize(|ins|, outs, m)
  {
    var stack := FullStack(m);
    tx := Tx(2, ins, outs, seq(|ins|, i => stack), 0);
    assert forall i :: 0 <= i < |tx.stacks| ==> tx.stacks[i] == stack;
    EstimateIsSize(tx, m);
  }
}
