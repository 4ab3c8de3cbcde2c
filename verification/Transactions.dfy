/** Transaction outputs, and the virtual size of a P2WSH multisig transaction (BIP 141, "Transaction size
    calculations") estimated from its inputs and outputs. */
module Transactions {

  type Byte = b: int | 0 <= b < 256
  type Script = seq<Byte>

  datatype Outpoint = Outpoint(txid: string, vout: nat)

  datatype TxOut = TxOut(value: int, script: Script)

  const OP_RETURN: Byte := 0x6a

  predicate IsOpReturn(script: Script)
  {
    script != [] && script[0] == OP_RETURN
  }

  function TotalValue(outs: seq<TxOut>): int
  {
    if outs == [] then 0 else TotalValue(outs[..|outs| - 1]) + outs[|outs| - 1].value
  }

  // ---------------------------------------------------------------- serialized sizes

  function CompactSize(n: nat): nat
  {
    if n < 253 then 1 else if n <= 0xffff then 3 else if n <= 0xffff_ffff then 5 else 9
  }

  /** An outpoint, an empty script and a sequence number. */
  const INPUT_SIZE := 36 + 1 + 4

  function OutputSize(out: TxOut): nat
  {
    8 + CompactSize(|out.script|) + |out.script|
  }

  function OutputsSize(outs: seq<TxOut>): nat
  {
    if outs == [] then 0 else OutputsSize(outs[..|outs| - 1]) + OutputSize(outs[|outs| - 1])
  }

  /** What the inputs of one multisig cost: its number of signatures and the size of its redeem script. */
  datatype Multisig = Multisig(numSignatures: nat, redeemScriptSize: nat)

  const SIGNATURE_SIZE := 71

  /** An empty item, the signatures and the redeem script. */
  function WitnessSize(m: Multisig): nat
  {
    CompactSize(m.numSignatures + 2) + 1 + m.numSignatures * (1 + SIGNATURE_SIZE)
      + CompactSize(m.redeemScriptSize) + m.redeemScriptSize
  }

  function BaseSize(inputs: nat, outs: seq<TxOut>): nat
  {
    4 + CompactSize(inputs) + inputs * INPUT_SIZE + CompactSize(|outs|) + OutputsSize(outs) + 4
  }

  /** The witness data of all inputs, with the marker and the flag; nothing at all without inputs. */
  function WitnessesSize(inputs: nat, m: Multisig): nat
  {
    if inputs == 0 then 0 else 2 + inputs * WitnessSize(m)
  }

  /** estimate_p2wsh_multisig_tx_virtual_size: a quarter of the weight, rounded up. */
  function VirtualSize(inputs: nat, outs: seq<TxOut>, m: Multisig): nat
  {
    (4 * BaseSize(inputs, outs) + WitnessesSize(inputs, m) + 3) / 4
  }

  lemma AppendedOutput(inputs: nat, outs: seq<TxOut>, out: TxOut)
    ensures BaseSize(inputs, outs + [out]) >= BaseSize(inputs, outs) + OutputSize(out)
    ensures TotalValue(outs + [out]) == TotalValue(outs) + out.value
  {
    assert (outs + [out])[..|outs|] == outs;
  }

  /** The estimate does not depend on the value of an output, only on its script. */
  lemma SizeIgnoresValue(inputs: nat, outs: seq<TxOut>, m: Multisig, v: int, w: int, script: Script)
    ensures VirtualSize(inputs, outs + [TxOut(v, script)], m) == VirtualSize(inputs, outs + [TxOut(w, script)], m)
  {
    assert (outs + [TxOut(v, script)])[..|outs|] == outs == (outs + [TxOut(w, script)])[..|outs|];
  }

  /** Another output makes the transaction larger by at least its own size. */
  lemma SizeGrows(inputs: nat, outs: seq<TxOut>, m: Multisig, out: TxOut)
    ensures VirtualSize(inputs, outs + [out], m) >= VirtualSize(inputs, outs, m) + OutputSize(out)
  {
    AppendedOutput(inputs, outs, out);
    QuarterRoundedUp(BaseSize(inputs, outs), BaseSize(inputs, outs + [out]), WitnessesSize(inputs, m), OutputSize(out));
  }

  lemma QuarterRoundedUp(a: nat, b: nat, w: nat, d: nat)
    requires b >= a + d
    ensures (4 * b + w + 3) / 4 >= (4 * a + w + 3) / 4 + d
  {
  }
}
