# Verification of the Rune and RSK-to-TAP bridge node

A Dafny model of the parts of the bridge node where a mistake loses or duplicates money, with proofs of what these
parts promise.

* `Bits`, `Bch`, `Descriptors`: the checksum of output descriptors (BIP 380, section "Checksum"). Numbers take the
  place of bit vectors; XOR and shifts are defined on them. `Gf32` and `Bip380` prove which code it is: it is linear
  over the field with 32 elements, and it gives the checksum of a test vector.
* `Decimals`, `FeeArithmetic`: the fee on Rune-to-EVM transfers, in decimal floating point with rounding half-even.
* `EvmEvents`, `EventScanner`: the batched fetch of EVM events and the scanner with its checkpoint.
* `TransferBatches`: the RSK-to-TAP batch machine, with any number of calls in progress.
* `Transactions`: outputs and the virtual size of a P2WSH multisig transaction (BIP 141, "Transaction size
  calculations"); `Serialization` has the bytes whose number that is.
* `RuneAllocation`: where the runes of the inputs go (Runes documentation, "Transferring").
* `CoinSelection`, `RunePsbt`, `OrdMultisig`: the PSBT builder. The first two give the result as functions and prove
  what it means; the third is the wallet object that builds it with loops over mutable state. `SpendingRules` says
  which outputs are spent, and when there are too few, in terms of the unspent outputs and of ord alone.
* `PsbtValidation`: the checks of a federator before it signs, against the PSBT and the fee rate of the leader;
  `SigningRules` says exactly what is signed, and `PsbtExamples` has inputs for all of this.
* `RuneDeposits`: the Rune-to-EVM protocol as a machine. A run is any sequence of committed transactions, outside
  events and crashes, with any number of scans and sends in progress and any fee at each scan. `ScannedOutputs` says
  what one scan stores; `SubmittedOnce`,
  `CheckpointSafety`, `SettledOutputs`, `Confirmations`, `SignatureCollection`, `MessageHashes` and `Backing` prove
  invariants of all its runs; `RuneBridgeService` is the service object, each method tied to the steps of the machine.
* `TokenDeposits`, `RuneTokenService`: the same for token deposits back to Bitcoin.

Conventions. A table is a map from its unique key, or a list in the order of it. A transaction is one step: it
commits, or it has no effect. An exception is a value of a result type, or a step without effect. Answers of Bitcoin,
ord, the EVM node, the messenger and other federators are parameters. The margin 1.1 is 11/10.

Findings stated as results:

* The validation loop reads `runestone.edicts[0]` for every transfer, so a message with several transfers is always
  rejected (`SeveralTransfersRejected`). The results on signing hold for any number and are used for one.
* A follower checks neither how many runes the inputs hold, nor that the net amount is not zero, nor the pointer of the
  runestone. `SignedPaysExactlyIff` is the exact condition under which the receiver gets its amount, `RunesTaken` what a
  signature can take, and `ShortInputsAreSigned`, `ZeroAmountTakesAll` and `PointerTakesRest` are the three ways to fail.
  The PSBTs of the leader are none of them (`BroadcastPaysReceiver`).
* A PSBT with exact funding and no change pays for a change output that is not there; a follower rejects it if that
  output is a tenth of the size or more (`LeaderPsbtAcceptedIff`, with an input in `ExactFundingIsRejected`).
* A federator does not record that it has signed: for one deposit it signs any number of PSBTs (`SignedForEach`), and
  these exclude each other exactly if they share an input (`MinableIff`). The leader broadcasts one at most
  (`BroadcastAtMostOnce`).
* If the fee percentage changes while a deposit is ACCEPTED, a scan may rewrite its net amount, while signatures of the
  old one are kept (`UpdateRecoversIff`) and sent (`StaleSignatureIsSent`). With a fixed fee this cannot happen
  (`SubmittedSignaturesRecover`); with fees that change it cannot exactly if the listsinceblock buffer is not above the
  required confirmations (`SafeIffTight`). The defaults are 6 and 1.
* If `transact` raises although the node took the transaction, the deposit is marked as failed; it is still submitted
  only once (`SubmittedAtMostOnce`).
* The remark that a transfer "will just be resumed" after too many pending transactions does not hold: the deposit stays
  in SENDING_TO_EVM for good (`AbandonedIsStuck`, `NeverResumed`), and so does whatever was being sent when the node
  crashed (`CrashedIsStuck`, for each of the three machines). Only safety is proved, no progress.
* If no confirmations are required, a scan accepts a transaction that is only in the mempool (`UnconfirmedIsAccepted`).
  No run accepts one too early exactly if at least one is required, or the buffer keeps every scan from starting
  (`AcceptedConfirmedIff`).
* RSK-to-TAP batches follow the counter exactly if no transfer arrives behind one that is already in a batch
  (`BatchesArePrefixIff`). Whether the contract's events come in counter order is not decided here.

## Model

| member | source | states |
|---|---|---|
| `Bch.DescsumPolymod` | bridge_node/bridge/common/btc/descriptors.py:14-22 | the two loops compute the remainder of the symbols by the five generators, as the recursive definition gives it; `Gf32.PolymodTimes` and `Bip380.Vector` say which code this is |
| `Bch.AddFeedback` | bridge_node/bridge/common/btc/descriptors.py:20-21 | the inner loop adds the generators of the bits shifted out |
| `Bch.PolymodLinear` | bridge_node/bridge/common/btc/descriptors.py:14-22 | the code is linear: the remainder of an XOR of states and symbols is the XOR of the remainders |
| `Bch.StepInjective` | bridge_node/bridge/common/btc/descriptors.py:17-21 | for a fixed symbol a step never maps two 40-bit states to one |
| `Bch.PolymodInjective` | bridge_node/bridge/common/btc/descriptors.py:14-22 | nor do any number of steps with the same symbols |
| `Bch.LastEight` | bridge_node/bridge/common/btc/descriptors.py:47-48 | the remainder of a text ending in eight symbols is its remainder with eight zeros instead, XOR the packed symbols |
| `Bch.BurstDetected` | bridge_node/bridge/common/btc/descriptors.py:14-22 | changing anything within eight consecutive symbols changes the remainder |
| `Gf32.GeneratorsAreMultiples` | bridge_node/bridge/common/btc/descriptors.py:11 | the five generators are one polynomial over the field with 32 elements, x^8 = 30x^7 + 23x^6 + 15x^5 + 14x^4 + 10x^3 + 6x^2 + 12x + 9, times 1, x, x^2, x^3 and x^4 of the field |
| `Gf32.PolymodTimes` | bridge_node/bridge/common/btc/descriptors.py:11-22 | the code is linear over that field: multiplying the state and every symbol by a field element multiplies the remainder by it |
| `Bip380.Vector` | bridge_node/bridge/common/btc/descriptors.py:9-49 | the test vector of BIP 380: descsum_create of raw(deadbeef) is raw(deadbeef)#89f8spxm, which fixes the generator, both charsets, the grouping and the final XOR |
| `Descriptors.DescsumExpand` | bridge_node/bridge/common/btc/descriptors.py:25-42 | the loop gives None exactly for a character outside the charset, and otherwise the symbols of the groups of three |
| `Descriptors.ExpandInjective` | bridge_node/bridge/common/btc/descriptors.py:25-42 | texts of the same length with the same symbols are the same text |
| `Descriptors.TextIsRead` | bridge_node/bridge/common/btc/descriptors.py:25-42 | a text over the charset can be read back from its symbols, three characters at a time, whose groups are the digits of the fourth symbol in base three |
| `Descriptors.ChecksumIsUnique` | bridge_node/bridge/common/btc/descriptors.py:45-61 | for a given body the created checksum is accepted, and no other eight characters are |
| `Descriptors.RoundTrip` | bridge_node/bridge/common/btc/descriptors.py:45-61 | descsum_check accepts what descsum_create makes of any body over the charset |
| `Descriptors.CheckedIff` | bridge_node/bridge/common/btc/descriptors.py:45-61 | descsum_check returns True exactly for what descsum_create makes of some body, and for a descriptor without a number sign if no checksum is required |
| `Descriptors.RaisesIff` | bridge_node/bridge/common/btc/descriptors.py:52-61 | it raises IndexError exactly for a number sign in fewer than nine characters, and TypeError exactly for a foreign character in the body of a readable checksum |
| `Descriptors.BurstRejected` | bridge_node/bridge/common/btc/descriptors.py:52-61 | two descriptors whose symbols differ only within eight consecutive places are never both accepted |
| `Descriptors.TwoGroupsDetected` | bridge_node/bridge/common/btc/descriptors.py:52-61 | changing characters within two adjacent groups of three makes the check fail |
| `Descriptors.FourCharactersDetected` | bridge_node/bridge/common/btc/descriptors.py:52-61 | changing one character, or any within four consecutive places, makes descsum_check return False |
| `Descriptors.Bip380IsValid` | bridge_node/bridge/common/btc/descriptors.py:9-10 | the checksum alphabet has 32 different characters, as the results above require |
| `FeeArithmetic.NetAmountIsExact` | bridge_node/bridge/bridges/runes/service.py:1436-1456 | no decimal step rounds when the precision holds the digits: the net amount is floor(amount * (100 - p) / 100) whatever the divisibility, lies between 0 and the amount, and net and fee add up to it |
| `FeeArithmetic.DecimalsAreExact` | bridge_node/bridge/bridges/runes/service.py:1436-1456 | the amount, the fee and the net amount as decimals are exact under the same conditions |
| `Decimals.FixRounds` | bridge_node/bridge/decimalcontext.py:7-12 | an operation whose result has more digits than the precision gives the nearest value with that many digits, of two equally near the even one, and otherwise the exact result |
| `FeeArithmetic.Uint128AmountIsExact` | bridge_node/bridge/bridges/runes/service.py:1436-1456 | the same with 80 digits for every amount below 2^128, every divisibility, and percentages in [0, 100] with at most 30 fractional digits |
| `EvmEvents.GetEvents` | bridge_node/bridge/common/evm/utils.py:58-89 | raises for an empty range; otherwise the loop ends, its ranges partition the blocks, and the result is that of one fetch over all of them |
| `EvmEvents.PartitionCoversOnce` | bridge_node/bridge/common/evm/utils.py:71-87 | each block of the range lies in exactly one batch and no other block in any |
| `EventScanner.EvmEventScanner.FetchEvents` | bridge_node/bridge/common/evm/scanner.py:63-71 | every kind of event over the whole range, one kind after the other |
| `EventScanner.EvmEventScanner.ScanNewEvents` | bridge_node/bridge/common/evm/scanner.py:42-77 | a scan fetches, sorts, delivers and moves the checkpoint as the specification function says, or does nothing |
| `EventScanner.EventFeedIsFaithful` | bridge_node/bridge/common/evm/scanner.py:63-73 | what the callback gets is each event of the range once, in order of block, transaction index and log index |
| `EventScanner.RunDelivers` | bridge_node/bridge/common/evm/scanner.py:42-77 | after any scans with any heights and roll-backs, exactly the events from start + 1 to the checkpoint have been delivered, in order; the checkpoint is the furthest block a committed scan could reach |
| `EventScanner.RunsAgree` | bridge_node/bridge/common/evm/scanner.py:42-77 | two runs that reached the same block delivered the same list, however they were cut into scans |
| `EventScanner.DeliveredExactlyOnce` | bridge_node/bridge/common/evm/scanner.py:42-77 | the multiplicity of an event in what was delivered is one if it lies in the range and zero otherwise |
| `EventScanner.CheckpointNeverDecreases` | bridge_node/bridge/common/evm/scanner.py:42-77 | later scans never move the checkpoint back and only append to what was delivered |
| `TransferBatches.RskToTapService.ProcessCurrentTransferBatch` | bridge_node/bridge/bridges/tap_rsk/rsk_to_tap.py:35-81 | a call without a crash has the effect of all its transactions in order, which `CallPaysFirst` and `CallResumes` describe; it raises exactly if the batch was left in SENDING_TO_TAP |
| `TransferBatches.RskToTapService.GetOrCreateCurrentBatch` | bridge_node/bridge/bridges/tap_rsk/rsk_to_tap.py:83-119 | the oldest unfinished batch, or a new one as the first transaction of the machine creates it |
| `TransferBatches.AssignTakesFirst` | bridge_node/bridge/bridges/tap_rsk/rsk_to_tap.py:100-118 | a new batch holds exactly the first batch_limit free transfers by counter |
| `TransferBatches.AssignKeepsOthers` | bridge_node/bridge/bridges/tap_rsk/rsk_to_tap.py:100-118 | no other batch gains or loses a transfer |
| `TransferBatches.RunKeeps` | bridge_node/bridge/bridges/tap_rsk/rsk_to_tap.py:35-119 | over every run, with crashes and overlapping calls, only the newest batch is unfinished, batches hold between one and batch_limit transfers, each is sent at most once, and none is recorded as sent without having been sent |
| `TransferBatches.SendingsPayMembers` | bridge_node/bridge/bridges/tap_rsk/rsk_to_tap.py:50-63 | over every run each call of send_assets names as many recipients as its batch has members, each the recipient of the member at its place |
| `TransferBatches.RowsAreFirstArrivals` | bridge_node/bridge/bridges/tap_rsk/rsk_scanner.py:48-65 | over every run each transfer has the recipient of the first event that arrived with its counter |
| `TransferBatches.ArrivalsHaveRows` | bridge_node/bridge/bridges/tap_rsk/rsk_scanner.py:48-65 | over every run each counter that arrived has a transfer |
| `TransferBatches.CallPaysFirst` | bridge_node/bridge/bridges/tap_rsk/rsk_to_tap.py:35-119 | an undisturbed call while all batches are finalized pays the recipients of the first batch_limit free transfers by counter, in one call of send_assets, and finalizes their batch; without free transfers it does nothing |
| `TransferBatches.CallResumes` | bridge_node/bridge/bridges/tap_rsk/rsk_to_tap.py:35-81 | an undisturbed call sends a created batch to its members and finalizes it, finalizes a batch that was sent, and leaves one in SENDING_TO_TAP as it is |
| `TransferBatches.NeverResumed` | bridge_node/bridge/bridges/tap_rsk/rsk_to_tap.py:71-72 | a batch in SENDING_TO_TAP that no call is sending stays so over every continuation, and nothing is sent any more |
| `TransferBatches.CrashedIsStuck` | bridge_node/bridge/bridges/tap_rsk/rsk_to_tap.py:42-72 | a crash leaves exactly a batch that was being sent in that state |
| `TransferBatches.TransferSentAtMostOnce` | bridge_node/bridge/bridges/tap_rsk/rsk_to_tap.py:35-119 | no transfer is covered by two calls of send_assets, however many calls of the service overlap |
| `TransferBatches.MembersAreFixed` | bridge_node/bridge/bridges/tap_rsk/rsk_to_tap.py:35-119 | the members of a batch never change once it exists |
| `TransferBatches.BatchesArePrefixIff` | bridge_node/bridge/bridges/tap_rsk/rsk_to_tap.py:83-119 | over every run the batches in id order are a prefix of all transfers by counter exactly if every transfer that was inserted came with a counter above those already in batches |
| `TransferBatches.BatchesArePrefix` | bridge_node/bridge/bridges/tap_rsk/rsk_to_tap.py:83-119 | in particular if transfers arrive in ascending counter order |
| `TransferBatches.LateTransferIsOvertaken` | bridge_node/bridge/bridges/tap_rsk/rsk_to_tap.py:83-119 | a run with a transfer that is not in time, and the batches it ends with |
| `Transactions.SizeGrows` | bridge_node/bridge/common/btc/multisig_utils.py:24-91 | another output makes the estimate larger by at least the size of that output |
| `Transactions.SizeIgnoresValue` | bridge_node/bridge/common/btc/multisig_utils.py:41-49 | the placeholder change output costs what the real one will cost |
| `Serialization.EstimateIsSize` | bridge_node/bridge/common/btc/multisig_utils.py:24-91 | for any inputs, outputs and multisig the estimate is the virtual size of the bytes of the signed transaction if its signatures have 71 bytes, and no smaller if some are shorter |
| `Serialization.EstimateIsReached` | bridge_node/bridge/common/btc/multisig_utils.py:54-91 | for any inputs, outputs and multisig there is such a transaction |
| `RuneAllocation.AllocationConserves` | bridge_node/bridge/common/ord/multisig.py:292-306 | in the model of Runes allocation the units in the outputs and those burned add up to the units in the inputs, for every runestone |
| `RuneAllocation.OrderIsIrrelevant` | bridge_node/bridge/common/ord/multisig.py:263-280 | what the edicts ask for does not depend on their order |
| `RuneAllocation.DefiniteEdictsAllocate` | bridge_node/bridge/common/ord/multisig.py:263-306 | edicts that can all be met give each output what they ask for it and the pointer the rest, burning nothing, in any order |
| `RuneAllocation.OneEdictAllocates` | bridge_node/bridge/common/ord/multisig.py:292-306 | with a single edict each output gets what the edict and the default output give it, for every rune, any amount and any pointer |
| `RuneAllocation.SplitsEvenly` | bridge_node/bridge/common/ord/multisig.py:292-306 | an edict of amount 0 for all outputs splits what is left as evenly as it can be among those that can receive runes |
| `RuneAllocation.EachGetsAmount` | bridge_node/bridge/common/ord/multisig.py:292-306 | an edict of another amount for all outputs gives each of them that amount, if there is enough |
| `CoinSelection.SelectRunesMeets` | bridge_node/bridge/common/ord/multisig.py:356-415 | the rune inputs are the shortest sufficient prefix of the eligible outputs, which have a witness script, are at the change address or have the confirmations, and hold a required rune, and each is ours; each exception is raised only for its reason |
| `CoinSelection.InsufficientRuneBalanceIff` | bridge_node/bridge/common/ord/multisig.py:412-415 | InsufficientRuneBalanceError is raised if and only if the eligible outputs hold too little of some required rune, and those with a witness script are indexed and the eligible ones ours |
| `CoinSelection.SelectedIff` | bridge_node/bridge/common/ord/multisig.py:356-415 | these inputs are returned if and only if they are the shortest sufficient choice from some prefix of the list that the loop gets past |
| `CoinSelection.FundFeeMeets` | bridge_node/bridge/common/ord/multisig.py:417-462 | the fee inputs are the shortest prefix of the outputs with a witness script and without runes that leaves no change or at least 1000 satoshis |
| `CoinSelection.InsufficientBtcBalanceIff` | bridge_node/bridge/common/ord/multisig.py:439-452 | InsufficientBTCBalanceError is raised if and only if no prefix of the usable rune-free outputs funds the transaction, and the loop gets past every output |
| `CoinSelection.FundedIff` | bridge_node/bridge/common/ord/multisig.py:417-462 | these inputs are returned if and only if they are the shortest funding from some prefix of the list that the loop gets past |
| `RunePsbt.ListUtxosMeets` | bridge_node/bridge/common/ord/multisig.py:578-583 | list_utxos keeps every output and puts those with most confirmations first |
| `RunePsbt.SatoshisConserved` | bridge_node/bridge/common/ord/multisig.py:417-483 | inputs are worth the outputs and the fee; a change output is the last one, pays the multisig and is no dust |
| `RunePsbt.FeeCoversSize` | bridge_node/bridge/common/ord/multisig.py:423-483 | the fee is at least the rate times the size of the final transaction, with equality exactly when a change output was added |
| `RunePsbt.InputsAreDistinct` | bridge_node/bridge/common/ord/multisig.py:356-462 | no output is spent twice, and every input was listed and is ours |
| `RunePsbt.RunesConserved` | bridge_node/bridge/common/ord/multisig.py:240-483 | for every rune: each receiver output is paid its postage and gets exactly its transfers, all the rest goes to output 1 of the multisig, nothing is burned, in any order of the edicts |
| `RunePsbt.CreatedIff` | bridge_node/bridge/common/ord/multisig.py:240-483 | a PSBT comes out exactly if the transfers are valid, the runes suffice, the fee can be paid, what is looked at on the way is indexed and ours, and the inputs are not too many |
| `SpendingRules.InputsMayBeSpent` | bridge_node/bridge/common/ord/multisig.py:356-462 | every input of a PSBT was listed, has a witness script and our fingerprint; if it holds runes, it is at the change address or has the required confirmations, and holds a rune that is moved |
| `SpendingRules.InsufficientRunesIff` | bridge_node/bridge/common/ord/multisig.py:240-415 | InsufficientRuneBalanceError comes out exactly if all transfers are valid, every output can be passed, and of some rune less is wanted than the outputs offer that have a witness script, and the change address or the required confirmations |
| `SpendingRules.EnoughIsSpent` | bridge_node/bridge/common/ord/multisig.py:356-415 | the inputs of a PSBT offer of each rune what the transfers want |
| `SpendingRules.InvalidTransferRaises` | bridge_node/bridge/common/ord/transfers.py:43-57 | of several transfers the first invalid one decides the exception, by its postage, its amount, its receiver and its rune |
| `RunePsbt.TransferAt` | bridge_node/bridge/common/ord/multisig.py:263-286 | edict and output of each transfer |
| `RunePsbt.EdictsAsk` | bridge_node/bridge/common/ord/multisig.py:263-287 | the edicts ask for what the transfers move, in all and at each output, also with repeated runes |
| `OrdMultisig.OrdMultisig.PlanTransfers` | bridge_node/bridge/common/ord/multisig.py:263-289 | the first loop finds the first invalid transfer, or builds the edicts, outputs and required amounts |
| `OrdMultisig.OrdMultisig.AddPsbtInput` | bridge_node/bridge/common/ord/multisig.py:331-354 | an output without our fingerprint raises and is not added |
| `OrdMultisig.OrdMultisig.AddRuneInputs` | bridge_node/bridge/common/ord/multisig.py:356-415 | the loop over the outputs adds exactly the inputs of the specification function, with the test for confirmations where the output is not at the change address, or raises its error |
| `OrdMultisig.OrdMultisig.PopWithoutRunes` | bridge_node/bridge/common/ord/multisig.py:442-452 | the inner loop pops up to the first output without runes |
| `OrdMultisig.OrdMultisig.AddFeeInputs` | bridge_node/bridge/common/ord/multisig.py:417-462 | the popping loop adds exactly the inputs of the specification function, and returns their value and the fee |
| `OrdMultisig.OrdMultisig.AddOutputs` | bridge_node/bridge/common/ord/multisig.py:291-323 | runestone, rune change and receivers, in this order |
| `OrdMultisig.OrdMultisig.AddChange` | bridge_node/bridge/common/ord/multisig.py:469-482 | a change output exactly if something is left, and the fee of the PSBT is then the computed one |
| `OrdMultisig.OrdMultisig.CreateRunePsbt` | bridge_node/bridge/common/ord/multisig.py:240-483 | the whole method builds the PSBT that the results above are about, or raises the same error |
| `PsbtValidation.SeveralTransfersRejected` | bridge_node/bridge/bridges/runes/service.py:1122-1143 | since every transfer is compared with the first edict, a message with several transfers is never signed |
| `PsbtValidation.SignedIsSeen` | bridge_node/bridge/bridges/runes/service.py:1033-1158 | a signed message is about an accepted deposit of the federator, and its only edict moves the net amount of its rune to the output that pays its receiver |
| `PsbtValidation.SignedAllocation` | bridge_node/bridge/bridges/runes/service.py:1077-1158 | where every rune in the inputs of a signed PSBT goes, output by output |
| `PsbtValidation.SignedPaysExactlyIff` | bridge_node/bridge/bridges/runes/service.py:1077-1158 | the receiver gets exactly the net amount if and only if the inputs hold exactly that, or they hold more, the amount is not zero and the runestone does not point to the receiver |
| `PsbtValidation.RunesTaken` | bridge_node/bridge/bridges/runes/service.py:1077-1158 | of every rune, what one signature can take from the multisig: what the edict gives, or everything if the runestone points to the receiver or to its own output |
| `PsbtValidation.SignedWithPointer` | bridge_node/bridge/bridges/runes/service.py:1077-1177 | for every accepted deposit, output to spend and pointer up to the receiver there is a PSBT that is signed |
| `PsbtValidation.ShortInputsAreSigned` | bridge_node/bridge/bridges/runes/service.py:1077-1177 | inputs with too few runes are signed, and the receiver gets less |
| `PsbtValidation.ZeroAmountTakesAll` | bridge_node/bridge/bridges/runes/service.py:1077-1177 | a net amount of zero is signed, and the receiver gets everything |
| `PsbtValidation.PointerTakesRest` | bridge_node/bridge/bridges/runes/service.py:1077-1177 | a pointer to the receiver is signed, and the receiver gets everything |
| `PsbtExamples.ExampleIsSignable` | bridge_node/bridge/bridges/runes/service.py:1033-1075 | for every amount and pointer a deposit and a runestone to which these results apply |
| `PsbtValidation.SignedForEach` | bridge_node/bridge/bridges/runes/service.py:1019-1180 | that a deposit was signed for is not recorded: of one request a PSBT is signed for each output to spend, and all of them can be mined |
| `PsbtValidation.MinableIff` | bridge_node/bridge/bridges/runes/service.py:1019-1180 | transactions can all be mined, one after the other, if and only if their inputs are unspent and no two share one |
| `PsbtValidation.SigningBound` | bridge_node/bridge/bridges/runes/service.py:1099-1177 | what is not paid back to the multisig is a postage for each receiver outside it and the fee; the fee is below 11/10 of the size times three times the larger of the own estimate and the least rate, and at least 10/11 of the size times the larger of a third of the estimate and the least rate |
| `SigningRules.SignedIff` | bridge_node/bridge/bridges/runes/service.py:1019-1183 | a federator signs if and only if: at most one transfer, which repeats an accepted deposit; the runestone and the outputs have the form that pays its receiver; the rate lies between the least rate and a third of the estimate, and three times the larger of both; and the fee between 10/11 and 11/10 of the size times the rate |
| `SigningRules.FeeDecides` | bridge_node/bridge/bridges/runes/service.py:1170-1177 | once everything else is accepted, the fee is refused as too high or too low exactly outside of these two bounds |
| `SigningRules.LeastFee` | bridge_node/bridge/bridges/runes/service.py:1160-1177 | whatever is signed pays at least 10/11 of its size times a third of the own estimate, and times 15 satoshis on mainnet and 1 elsewhere |
| `SigningRules.RefusalHasReason` | bridge_node/bridge/bridges/runes/service.py:1028-1177 | the first thing that is wrong decides the error: two transfers for one event, then a transfer that does not repeat an accepted deposit, then the runestone and the outputs, then the rate, then the fee |
| `PsbtValidation.LeaderStructureAccepted` | bridge_node/bridge/bridges/runes/service.py:1077-1158 | a single-transfer PSBT of create_rune_psbt passes every structural check |
| `PsbtValidation.LeaderFeeAcceptedIff` | bridge_node/bridge/bridges/runes/service.py:1170-1177 | the fee of a PSBT of create_rune_psbt passes exactly if a change output was added, or the one paid for but left out is below a tenth of the size |
| `PsbtValidation.LeaderPsbtAcceptedIff` | bridge_node/bridge/bridges/runes/service.py:1033-1177 | a federator that has seen the deposit and whose window holds the rate signs such a PSBT exactly under that condition |
| `PsbtValidation.LeaderPsbtChecks` | bridge_node/bridge/bridges/runes/service.py:1033-1177 | only two checks can fail on such a PSBT: the rate is outside the window, or the fee pays for a change output that is left out and a tenth of the size or more |
| `PsbtExamples.ExactFundingIsRejected` | bridge_node/bridge/bridges/runes/service.py:1170-1175 | for every amount of at most 19 bytes an output and the PSBT that create_rune_psbt makes of it, which is refused because of its fee |
| `PsbtExamples.ExampleRoundTrips` | bridge_node/bridge/common/ord/multisig.py:292-306 | there is a way to write runestones into bytes and read them back, as the results on PSBTs require |
| `PsbtValidation.RateAccepted` | bridge_node/bridge/bridges/runes/service.py:1160-1168 | estimates within a factor of two put the adjusted rate of the leader into the window of the follower, on mainnet and elsewhere |
| `PsbtValidation.RateAcceptedIff` | bridge_node/bridge/bridges/runes/service.py:1160-1168 | the exact condition on any two estimates and least rate |
| `SubmittedOnce.SubmittedAtMostOnce` | bridge_node/bridge/bridges/runes/service.py:720-833 | over every run of scans, rounds, sends, confirmations and crashes acceptTransferFromBtc is called at most once for each transaction output and rune |
| `SubmittedOnce.StatusesFollowEdges` | bridge_node/bridge/bridges/runes/models.py:106-114 | every step of every run takes a status along an edge of the status machine, or leaves it |
| `SubmittedOnce.StoreEntriesDetects` | bridge_node/bridge/bridges/runes/service.py:376-440 | a scan creates deposits and moves DETECTED to ACCEPTED, and changes no other status |
| `SubmittedOnce.NeverResumed` | bridge_node/bridge/bridges/runes/service.py:720-833 | a deposit in SENDING_TO_EVM that nobody is sending stays so, and is not submitted, over every continuation of every run |
| `SubmittedOnce.AbandonedIsStuck` | bridge_node/bridge/bridges/runes/service.py:754-784 | giving up a prepared send gets there |
| `SubmittedOnce.CrashedIsStuck` | bridge_node/bridge/bridges/runes/service.py:754-833 | a crash keeps what was committed and submitted, and leaves exactly the deposits in SENDING_TO_EVM in that state |
| `SubmittedOnce.StepKeeps` | bridge_node/bridge/bridges/runes/service.py:720-888 | each step keeps: a send in progress owns its deposit, which is SENDING_TO_EVM, and what was submitted is never ACCEPTED again |
| `CheckpointSafety.NoDepositIsLost` | bridge_node/bridge/bridges/runes/service.py:181-451 | over every run each output at or below the stored last block is ACCEPTED, and each of its runes has a deposit at ACCEPTED or later, unless the scan that moved the last block past it did so before its address was registered, or after ord had dropped it |
| `SettledOutputs.AcceptedIffNotMissed` | bridge_node/bridge/bridges/runes/service.py:181-451 | that exception is exact: over every run the deposits of such an output are accepted if and only if the scan that passed it did not miss it |
| `SettledOutputs.SettledIsFinal` | bridge_node/bridge/bridges/runes/service.py:376-451 | once the stored last block has moved past an output, its deposits keep user, amount and net amount over every continuation, and none is added or accepted any more |
| `SettledOutputs.RunSettles` | bridge_node/bridge/bridges/runes/service.py:187-193 | if the listsinceblock buffer is not above the required confirmations, a deposit is only accepted by the scan that moves past it |
| `CheckpointSafety.LastBlockNeverDecreases` | bridge_node/bridge/bridges/runes/service.py:445-450 | the stored last block never moves back |
| `CheckpointSafety.ListMinedCovers` | bridge_node/bridge/bridges/runes/service.py:195-261 | the list of a scan has an entry for every relevant output after the last block, with its confirmations and balances |
| `CheckpointSafety.StoreEntriesGrows` | bridge_node/bridge/bridges/runes/service.py:293-440 | storing a list accepts what is confirmed enough, and loses nothing that was accepted |
| `Confirmations.SubmittedIsConfirmed` | bridge_node/bridge/bridges/runes/service.py:437-439 | over every run each call is about an output on the chain with at least the required confirmations |
| `Confirmations.AcceptedIsConfirmed` | bridge_node/bridge/bridges/runes/service.py:319-330 | over every run with at least one required confirmation, a transaction is ACCEPTED only while its output is on the chain with the required confirmations |
| `Confirmations.AcceptedConfirmedIff` | bridge_node/bridge/bridges/runes/service.py:187-193 | this holds for all runs if and only if at least one confirmation is required or the buffer is below 1 |
| `ScannedOutputs.ScannedTxs` | bridge_node/bridge/bridges/runes/service.py:213-343 | after a scan a transaction has a row exactly if it had one, or is after the last block or in the mempool and not at the change address; it is ACCEPTED exactly if it was, or one of these has the required confirmations |
| `ScannedOutputs.ScannedDeposits` | bridge_node/bridge/bridges/runes/service.py:345-440 | after a scan a deposit is there exactly if it was, or such an output on the chain, which ord still shows, brings its rune to a deposit address; it is accepted exactly if it was, or that output has the confirmations; an old one keeps its progress and a new one has none |
| `ScannedOutputs.UnconfirmedIsDetected` | bridge_node/bridge/bridges/runes/service.py:310-343 | an output that is only in the mempool has a row after a scan, DETECTED unless it was accepted before, and brings no deposit |
| `ScannedOutputs.StoreEntryTxs` | bridge_node/bridge/bridges/runes/service.py:294-343 | the row of an entry: its address, its status, and its user, which is that of the deposit address or stays as it was |
| `ScannedOutputs.LastEntryDecides` | bridge_node/bridge/bridges/runes/service.py:294-343 | of several entries for one output the last decides the address and the user |
| `SignatureCollection.PruneIsSound` | bridge_node/bridge/bridges/runes/service.py:979-1018 | pruning keeps valid answers only, one of each signer |
| `SignatureCollection.PruneIsComplete` | bridge_node/bridge/bridges/runes/service.py:979-1018 | exactly the signers with a valid answer are left |
| `SignatureCollection.UpdateMeets` | bridge_node/bridge/bridges/runes/service.py:699-710 | a round keeps signers and signatures aligned and distinct, and only appends |
| `SignatureCollection.UpdatedSigners` | bridge_node/bridge/bridges/runes/service.py:706-709 | after a round exactly the old signers and those with a valid answer have signed |
| `SignatureCollection.UpdateRecoversIff` | bridge_node/bridge/bridges/runes/service.py:699-710 | with a new message hash the stored signatures still recover to their signers if and only if there were none or the hash is the old one |
| `SignatureCollection.RoundsKeepValid` | bridge_node/bridge/bridges/runes/service.py:679-718 | over any rounds with a fixed message hash: as many signatures as signers, no signer twice, each signature recovering to its signer |
| `SignatureCollection.AddedByFederator` | bridge_node/bridge/bridges/runes/service.py:702-709 | each signer was added in some round by a valid answer of that round, and was a federator in it |
| `SignatureCollection.EnoughSigners` | bridge_node/bridge/bridges/runes/service.py:711-744 | when there are enough, the slice that is sent comes from num_required different accounts, each a federator in the round that added it |
| `SignatureCollection.SubmittedSignatures` | bridge_node/bridge/bridges/runes/service.py:725-745 | over every run each call carries as many signatures as the step that prepared it required, from that many different accounts, each a federator when its signature was added |
| `MessageHashes.SignatureIsForRow` | bridge_node/bridge/bridges/runes/bridge.py:72-90 | over every run each signature of a call is its account's signature of the message hash for the user of the call and the net amount that the row had when the round that added it read it |
| `MessageHashes.SignatureRecoversIff` | bridge_node/bridge/bridges/runes/service.py:699-745 | so it recovers for what is submitted if and only if the row had the net amount of the call by then |
| `MessageHashes.SubmittedSignaturesRecover` | bridge_node/bridge/bridges/runes/service.py:679-790 | over every run with a fixed fee, or with a buffer that is not above the required confirmations, each call carries signatures of different accounts for exactly the user and net amount it is made with |
| `MessageHashes.StaleSignatureIsSent` | bridge_node/bridge/bridges/runes/service.py:434-435 | with a larger buffer: a run in which the fee changes, a scan rewrites the net amount of an ACCEPTED deposit, and a call carries a signature of the old amount |
| `MessageHashes.SafeIffTight` | bridge_node/bridge/bridges/runes/service.py:187-193 | calls carry signatures of what they submit whatever the fee does if and only if the buffer is not above the required confirmations |
| `SignatureCollection.CallsCarryEnough` | bridge_node/bridge/bridges/runes/service.py:725-744 | if every send of a run requires at least n signatures, every call carries at least n |
| `Backing.SubmittedToDepositor` | bridge_node/bridge/bridges/runes/service.py:376-440 | over every run each call credits the user of the deposit address with the amount in that output less the fee of some scan of the run |
| `Backing.SubmittedIsBacked` | bridge_node/bridge/bridges/runes/service.py:1436-1456 | over every run, whatever the fees, the total net amount of a rune submitted for any set of users never exceeds what went to their deposit addresses |
| `RuneBridgeService.RuneBridgeService.ListTransactions` | bridge_node/bridge/bridges/runes/service.py:213-261 | the loop over the response keeps received outputs with an address that is not the change address |
| `RuneBridgeService.RuneBridgeService.IndexRune` | bridge_node/bridge/bridges/runes/service.py:376-440 | find or create the deposit of one rune and update its fields |
| `RuneBridgeService.RuneBridgeService.IndexTransaction` | bridge_node/bridge/bridges/runes/service.py:294-443 | find or create the row of a transaction, as `ScannedOutputs.StoreEntryTxs` describes it, then the deposits of its runes |
| `RuneBridgeService.RuneBridgeService.ScanRuneDeposits` | bridge_node/bridge/bridges/runes/service.py:181-451 | a call has the effect of the three scan steps of the machine, which `ScannedOutputs.ScannedTxs` and `ScannedOutputs.ScannedDeposits` describe; it raises ValueError if the buffer is below the required confirmations, and for an invalid buffer |
| `RuneBridgeService.RuneBridgeService.PruneInvalidAnswers` | bridge_node/bridge/bridges/runes/service.py:979-1002 | the loop with its set of signers keeps the answers of the specification function |
| `RuneBridgeService.RuneBridgeService.UpdateRuneDepositSignatures` | bridge_node/bridge/bridges/runes/service.py:679-718 | the loop has the effect of the signature step, raises unless ACCEPTED, and returns whether there are enough |
| `RuneBridgeService.RuneBridgeService.SendRuneDepositToEvm` | bridge_node/bridge/bridges/runes/service.py:720-833 | a call has the effect of the send steps for every reply of the node and of the messenger; nothing happens when frozen or when signatures are missing, and each exception is raised exactly for its reason |
| `RuneBridgeService.RuneBridgeService.ConfirmSentRuneDeposit` | bridge_node/bridge/bridges/runes/service.py:846-888 | only SENT_TO_EVM is moved on, to the status of the receipt |
| `RuneBridgeService.SendStepsAre` | bridge_node/bridge/bridges/runes/service.py:740-833 | what the send steps come to: the final status for each outcome, and one submission with the first num_required signatures |
| `TokenDeposits.RowsAreEvents` | bridge_node/bridge/bridges/runes/service.py:1192-1244 | over every run there is a deposit exactly for each RuneTransferToBtc event, with the receiver, the amount and the rune of the first event of its transaction hash and log index |
| `TokenDeposits.BroadcastAtMostOnce` | bridge_node/bridge/bridges/runes/service.py:1281-1404 | over every run with crashes broadcast_psbt is called at most once for each token deposit |
| `TokenDeposits.StatusesFollowEdges` | bridge_node/bridge/bridges/runes/models.py:117-124 | the status moves from ACCEPTED to SENDING_TO_BTC, and on to SENT_TO_BTC or SENDING_TO_BTC_FAILED, only |
| `TokenDeposits.BroadcastIsStored` | bridge_node/bridge/bridges/runes/service.py:1370-1379 | a step that broadcasts finds the same PSBT stored with status SENDING_TO_BTC |
| `TokenDeposits.FinalizedIsSigned` | bridge_node/bridge/bridges/runes/service.py:1352-1368 | what finalizes out of num_required signed PSBTs holds that many signed copies of the PSBT from different cosigners |
| `TokenDeposits.BroadcastIsSigned` | bridge_node/bridge/bridges/runes/service.py:1345-1379 | so does everything that is ever broadcast |
| `TokenDeposits.BroadcastPaysReceiver` | bridge_node/bridge/bridges/runes/service.py:1304-1379 | every broadcast transaction gives the receiver of the deposit exactly its net amount of its rune, returns every other unit to the multisig and burns nothing |
| `TokenDeposits.BroadcastIsPriced` | bridge_node/bridge/bridges/runes/service.py:1310-1343 | over every run a broadcast transaction has at most 200 inputs, and its fee lies within a factor of 11/10 of the size times the least rate and the adjusted maximum rate of the node |
| `TokenDeposits.NeverResumed` | bridge_node/bridge/bridges/runes/service.py:1370-1404 | a deposit in SENDING_TO_BTC that no call is sending stays so over every continuation, and is not broadcast |
| `TokenDeposits.CrashedIsStuck` | bridge_node/bridge/bridges/runes/service.py:1370-1404 | a crash leaves exactly the deposits in SENDING_TO_BTC in that state |
| `RuneTokenService.HandleStepsAre` | bridge_node/bridge/bridges/runes/service.py:1281-1404 | the steps of one call broadcast what is prepared, store it and record the outcome, or do nothing |
| `RuneTokenService.ValidationErrorIff` | bridge_node/bridge/bridges/runes/service.py:1304-1344 | the node refuses the PSBT of its own wallet exactly if its second estimate of the fee rate has moved out of the window, or the fee pays for a change output that is not there |
| `RuneTokenService.RuneTokenService.PreparePsbt` | bridge_node/bridge/bridges/runes/service.py:1289-1368 | what is prepared is the PSBT that the wallet makes of an ACCEPTED deposit with an amount and that passes all own checks, with num_required copies signed by different cosigners, the own one first; every error has its reason |
| `RuneTokenService.OutcomeDecides` | bridge_node/bridge/bridges/runes/service.py:1289-1368 | the result tells whether something is prepared, and there is only one way to prepare a deposit |
| `RuneTokenService.FinalizesIff` | bridge_node/bridge/bridges/runes/service.py:1352-1368 | num_required signed PSBTs finalize exactly if they are copies signed by different cosigners |
| `RuneTokenService.RuneTokenService.SendPsbt` | bridge_node/bridge/bridges/runes/service.py:1370-1404 | one broadcast of the PSBT, which is left in the row; the status is SENDING_TO_BTC_FAILED exactly if broadcasting raises, and SENT_TO_BTC with the transaction id exactly if nothing raises |
| `RuneTokenService.RuneTokenService.HandleAcceptedRuneTokenDeposit` | bridge_node/bridge/bridges/runes/service.py:1281-1404 | the whole call sends what is prepared, and then raises exactly if broadcasting or the messenger does; if nothing is prepared, it changes nothing and returns or raises the reason |

## Left out

- RPC calls, HTTP, networking, messengers, sleeps and retries; their answers are parameters.
- Signature recovery, key derivation and the PSBT and runestone encodings. Recovery is a function; deciphering an
  enciphered runestone gives back its edicts in some order and its pointer. Combining signed PSBTs fails for another
  PSBT, and finalizing fails without enough cosigners.
- SQLAlchemy sessions, foreign keys, and the rows of users and runes apart from the user of a deposit address.
- Reorganisations of the Bitcoin chain: the chain only grows. The logs of EVM blocks below the safety margin are fixed.
- Outputs spent before ord indexed them: nothing is promised about runes that ord never showed.
- Message hashes of another contract: the hash is a function of the deposit, the user and the net amount.
- Messengers that raise: those of the repository catch every exception; the machines allow one that raises as well.
- Progress: what is left in SENDING_TO_EVM, SENDING_TO_BTC or SENDING_TO_TAP stays there.
- The checks of a federator before it signs a Rune-to-EVM transfer, and the checks of a deposit before signatures are
  asked for; answers are arbitrary, so nothing depends on them.
- Overflow of 128-bit amounts in edicts, and flaws other than outputs that do not exist that make a runestone a
  cenotaph.
- Minting and etching in the allocation of runes.
- The regular expressions that parse descriptors of unspent outputs; the fingerprints they find are given.
- Estimating the fee rate; estimates are given as whole numbers.
- Floating point: the margins are exact fractions, and the gas reserve is one answer of the environment.
- SendRuneDepositToEvm: nonce, gas and balance are one answer whether the call can be paid and made.
- HandleAcceptedRuneTokenDeposit: the finalized PSBT is represented by the PSBT that was signed.
- ScanRuneDeposits: the rune table and the notifications are not stored.
- tap_to_rsk.py: its batches are ordered by a counter that is never set.
- Deposit scanning on the TAP side, the contracts, the frontend, the API, migrations and configuration.
