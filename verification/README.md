# Serai, verified

A Dafny model of the parts of Serai whose correctness is hard to see: threshold cryptography over a prime
field and a group of its order, the Tributary ledger, three protocols which are sensitive to races and
reboots, Monero's encodings, and two computations of the coordinator. `dafny verify dfyconfig.toml` checks every
file together.

## What is modelled, and how

**Threshold cryptography** (`Scalars`, `Points`, `Sums`, `Lagrange`, `Windowing`, `MultiExponentiation`, `Batch`,
`ThresholdKeys`, `KeyView`, `KeyGen`, `MuSig`, `Schnorr`, `Nonces`, `Signing`). Scalars are the residues of an
unspecified prime above 65535, the largest participant index. Points are an unspecified abelian group every element of
which has that order. Nothing is assumed of the generator, nor of the hashes to challenges and binding factors, which
are unspecified constants, so every result holds for all of them. Key generation, key views with offsets, MuSig and
both rounds of FROST (sections 4 and 5 of RFC 9591) are methods over these; the main results are that any
sufficiently large signing set, whatever its offset and binding factors, ends with a signature by the group key,
that everyone derives the same keys, and that blame only ever falls on what doesn't hold. Key generation's batch is
of everyone's proof of possession of the key their share is encrypted with and of everyone's share.

**Tributary** (`Transactions`, `TributaryMerkle`, `Blocks`, `Mempools`, `ProvidedQueues`, `Blockchains`). Digests are
symbolic: what was hashed determines the digest and the other way around, and a transaction's signature isn't part of
what is hashed. The database is the fields of three objects, and a block is added at once. The main results are that a
block passes verification exactly if it is acceptable, a condition stated without reference to the loop that checks
it, that the block a node builds is acceptable whatever order its maps yield their entries in, and holds as much as fits
of everything queued and pooled, that no acceptable block makes adding it panic, exactly which blocks leave the mempool and
the provided transactions in step with the chain, and that every chain has every signer's nonces in a row.

**Races and reboots** (`Mini`, `Handover`, `BatchSigning`). `Mini` is a state machine over what each of two threads does
while it holds a lock; its results hold in every interleaving, for any number of blocks and ticks: every batch ever
published has the keys it should, and every interleaving ends, without a deadlock. `Handover` is
one network's handover between validator sets: two tasks, each a step under one lock and one database
transaction, with a step which fails midway keeping what it already provided. `BatchSigning` is driven by any
sequence of messages, reboots and panics.

**Monero** (`Slide`, `MoneroSerialize`, `MoneroMerkle`), and **the coordinator's computations** (`SlashReport`,
`ShareRouting`).

## What turned out not to hold

Each of these has a lemma with an input it fails for, and one with exactly when it holds.

- The binding factors' transcript holds the group key with the offset added twice, since the key the offset is
  added to already has it. `Signing.TranscriptKey`: it is the group key exactly without an offset, given a generator
  which isn't the identity; `Signing.TranscriptKeyDiffers` is at an offset of one. The model does the same, and signing
  doesn't depend on it, as all signers agree on it.
- The digits of a 256-bit scalar don't always sum to it, as the code's own comments say. `Slide.NafExact` and
  `Slide.RecoveredExact`: they do, and the scalar recovered is the scalar itself, exactly if no window begins so close
  to the top that its carry ripples off the end (`Slide.Loses`); `Slide.LostCarry` is at the greatest number.
- The amount of an order's provided transactions on the chain isn't always right, as it is read from the database
  instead of from the open transaction. `ProvidedQueues.QuantitiesExact`: it is exactly for blocks with at most one
  transaction per order; `Blockchains.TwoPerOrderSpoil` is at a block with two.
- The mempool doesn't always stay in step with the chain. `Blockchains.PoolInStep`: a block leaves it in step exactly
  if nothing in it conflicts with what is in the mempool, and `Mempools.AddedKeeps`: adding a transaction does exactly
  if it isn't an oversized unsigned one, whose size isn't checked; `Blockchains.ConflictInput` is at the first nonce,
  and `Blockchains.ConflictSpoils` and `Blockchains.OversizedSpoils` are what always follows otherwise.
- A provided transaction isn't always on the chain once: the code only looks for it in prior blocks.
  `Blockchains.EveryChain`: it is never in two blocks, and `Blockchains.OnceExactly`: it is never twice in one block
  exactly if transactions which weren't provided locally aren't let through, as when a block is voted on;
  `Blockchains.ProvidedTwice` is at any transaction which wasn't.
- `TributarySpec::i` isn't always right. `ShareRouting.ShiftIsRight` and `ShareRouting.RangesTile`: it is exactly if all
  removed validators before the one queried are one; `ShareRouting.ShiftIsWrong` is at two of three removed.

## Model

| member | source | states |
|---|---|---|
| `Lagrange.LagrangeCoefficient` | crypto/dkg/src/lib.rs:209-227 | the loop computes the product of the other indexes over the product of their differences, which is never zero |
| `Lagrange.CoefficientIsLambda` | crypto/dkg/src/lib.rs:209-227 | for a list without duplicates the coefficient only depends on the set of its members |
| `Lagrange.Interpolate` | crypto/dkg/src/lib.rs:209-227 | over any set of participants, the weighted values of any polynomial of lesser degree than the set's size sum to its value at zero |
| `Lagrange.InterpolatePoints` | crypto/dkg/src/lib.rs:209-227 | the same of commitments, in the group |
| `ThresholdKeys.NewParams` | crypto/dkg/src/lib.rs:169-182 | exactly the parameters with 1 <= t <= n and i <= n are accepted, and which error there is otherwise |
| `ThresholdKeys.ValidateMap` | crypto/dkg/src/lib.rs:129-152 | a map is accepted exactly if it is of everyone included but us; otherwise the error is of its size, or of the first who is missing or duplicated |
| `ThresholdKeys.NewCore` | crypto/dkg/src/lib.rs:267-279 | the group key is the interpolation of the first t verification shares |
| `ThresholdKeys.Write` | crypto/dkg/src/lib.rs:301-315 | the encoding of everything but the group key |
| `ThresholdKeys.EncodedAt` | crypto/dkg/src/lib.rs:301-315 | where everything is in the encoding: the length and bytes of the identifier, t, n, i, the secret share, and every verification share by its participant |
| `ThresholdKeys.Read` | crypto/dkg/src/lib.rs:325-367 | every failure to decode, and otherwise the keys with the group key interpolated anew |
| `ThresholdKeys.ReadWritten` | crypto/dkg/src/lib.rs:301-367 | whatever is written is read back |
| `ThresholdKeys.ReadExact` | crypto/dkg/src/lib.rs:325-367 | whatever is accepted begins with exactly what is written for the keys returned |
| `KeyView.Offset` | crypto/dkg/src/lib.rs:433-440 | offsets accumulate |
| `KeyView.OffsetGroupKey` | crypto/dkg/src/lib.rs:433-460 | an offset moves the group key by its multiple of the generator, and without one it is the key generated |
| `KeyView.ViewKeys` | crypto/dkg/src/lib.rs:474-506 | for exactly the signing sets from t to n signers, the view over the sorted set |
| `KeyView.SortedUnique` | crypto/dkg/src/lib.rs:474-480 | every signer's view sorts one signing set to one list |
| `KeyView.ViewShareMatches` | crypto/dkg/src/lib.rs:482-496 | a signer's verification share in anyone's view is the generator times their secret share in their own |
| `KeyView.ViewSharesSum` | crypto/dkg/src/lib.rs:486-496 | the view's verification shares sum to the offset group key |
| `KeyView.ViewSecretsExponent` | crypto/dkg/src/lib.rs:474-506 | the view's secret shares sum, times the generator, to the offset group key |
| `KeyView.ViewSecretsSum` | crypto/dkg/src/lib.rs:474-506 | for shares of any polynomial of lesser degree than the set's size, the view's secret shares sum to the group secret plus the offset |
| `KeyGen.Polynomial` | crypto/dkg/src/frost.rs:154-169 | Horner's rule is the polynomial's value |
| `KeyGen.HonestShare` | crypto/dkg/src/frost.rs:154-169 | a share of the committed polynomial satisfies the commitments |
| `KeyGen.Exponential` | crypto/dkg/src/frost.rs:369-377 | the pairs sum to the commitments evaluated at the participant |
| `KeyGen.ShareVerificationStatements` | crypto/dkg/src/frost.rs:379-398 | the statement sums to the identity exactly for a share which satisfies the commitments |
| `KeyGen.GenerateSecretShares` | crypto/dkg/src/frost.rs:296-330 | everyone else is sent a share, and all shares, with the one kept, satisfy the commitments |
| `KeyGen.SecretMatches` | crypto/dkg/src/frost.rs:412-483 | valid shares sum to a secret matching the summed commitments |
| `KeyGen.CalculateShare` | crypto/dkg/src/frost.rs:412-483 | if every proof of possession and every share holds, the keys the commitments determine, with the share kept and those received summed; `InvalidShare` with a blame proof only of a share which doesn't hold, without one only of a proof which doesn't; and what alone doesn't hold is what is named |
| `KeyGen.DerivedAgree` | crypto/dkg/src/frost.rs:455-479 | all participants derive one group key and one map of verification shares |
| `KeyGen.DerivedInterpolate` | crypto/dkg/src/lib.rs:267-279 | derived verification shares interpolate to the group key over any set of at least t |
| `KeyGen.DerivedSurvive` | crypto/dkg/src/lib.rs:301-367 | derived keys, written and read, are the same keys with the same group key |
| `MuSig.CheckKeys` | crypto/dkg/src/musig.rs:21-36 | exactly one to 65535 distinct keys are accepted |
| `MuSig.MusigKey` | crypto/dkg/src/musig.rs:65-73 | the sum of the keys times their binding factors, with both errors |
| `MuSig.Musig` | crypto/dkg/src/musig.rs:79-141 | exactly a signer in the list gets keys, whose group key is the one of `musig_key` and whose verification shares undo the coefficients |
| `MuSig.MusigSigningKeys` | crypto/dkg/src/musig.rs:101-141 | everyone's keys, with any offset, are keys of a signing set for `musig_key` |
| `MultiExponentiation.PrepBits` | crypto/multiexp/src/lib.rs:52-72 | every grouping is the scalar's digit in base 2 to the window |
| `MultiExponentiation.PrepTables` | crypto/multiexp/src/straus.rs:11-23 | every table holds the point's multiples |
| `MultiExponentiation.Straus` | crypto/multiexp/src/straus.rs:27-49 | the plain sum of scalars times points, for every window |
| `MultiExponentiation.StrausVartime` | crypto/multiexp/src/straus.rs:51-78 | the same |
| `MultiExponentiation.Pippenger` | crypto/multiexp/src/pippenger.rs:10-38 | the same, from buckets |
| `MultiExponentiation.PippengerVartime` | crypto/multiexp/src/pippenger.rs:40-84 | the same, from buckets which may be absent |
| `MultiExponentiation.Multiexp` | crypto/multiexp/src/lib.rs:127-189 | the plain sum at every length, under either table of thresholds |
| `MultiExponentiation.MultiexpVartime` | crypto/multiexp/src/lib.rs:127-203 | the same |
| `Batch.BatchVerifier.Queue` | crypto/multiexp/src/batch.rs:45-95 | a statement is queued with a non-zero weight, the first with one |
| `Batch.BatchVerifier.FaultyWeighted` | crypto/multiexp/src/batch.rs:45-95 | weighting doesn't change whether a statement is the identity |
| `Batch.BatchVerifier.Verify` | crypto/multiexp/src/batch.rs:99-102 | whether all statements, weighted, sum to the identity |
| `Batch.BatchVerifier.VerifyVartime` | crypto/multiexp/src/batch.rs:105-108 | the same |
| `Batch.BatchVerifier.BlameVartime` | crypto/multiexp/src/batch.rs:114-129 | whatever the binary search names isn't the identity before weighting, and it names one if the batch fails |
| `Batch.BatchVerifier.VerifyWithVartimeBlame` | crypto/multiexp/src/batch.rs:133-139 | the unwrap doesn't fail, only a faulty statement is named, and a single faulty one always is |
| `Batch.BatchVerifier.VerifyVartimeWithVartimeBlame` | crypto/multiexp/src/batch.rs:143-149 | the same |
| `Schnorr.SignVerifies` | crypto/schnorr/src/lib.rs:73-83 | a signature by a key and nonce satisfies sG = R + cA |
| `Schnorr.StatementsVerify` | crypto/schnorr/src/lib.rs:87-99 | the statements sum to the identity exactly if the signature verifies |
| `Schnorr.Verify` | crypto/schnorr/src/lib.rs:107-109 | whether sG = R + cA |
| `Nonces.BindingFactor.CalculateBindingFactors` | crypto/frost/src/nonce.rs:258-270 | everyone's factors, from one transcript |
| `Nonces.BoundOf` | crypto/frost/src/nonce.rs:277-288 | a participant's nonces, by every generator, with their factors |
| `Nonces.BindingFactor.Nonces` | crypto/frost/src/nonce.rs:291-309 | the sum of first nonces and the multi-exponentiation of second ones are the sum of everyone's bound nonces |
| `Signing.SigningSet` | crypto/frost/src/sign.rs:304-324 | exactly the sets with enough signers, all in bounds and none twice are accepted, and the error otherwise |
| `Signing.TranscriptBinds` | crypto/frost/src/sign.rs:338-389 | one transcript for the binding factors is of one session: the same context, message, signers, and commitments of every signer |
| `Signing.Sign` | crypto/frost/src/sign.rs:297-433 | the session an accepted set forms, the machine for it, whose binding factors are hashes of the transcript of all of it, and the share c * x + d + rho * e |
| `Signing.TranscriptKey` | crypto/frost/src/sign.rs:376-382 | the transcript's key is the group key exactly without an offset |
| `Signing.TranscriptKeyDiffers` | crypto/frost/src/sign.rs:376-382 | an offset it isn't for |
| `Signing.SessionAgrees` | crypto/frost/src/sign.rs:335-405 | all signers compute one nonce sum and one challenge |
| `Signing.HonestShare` | crypto/frost/src/algorithm.rs:192-220 | an honest share is valid to every signer |
| `Signing.ValidSharesComplete` | crypto/frost/src/sign.rs:475-489 | valid shares sum to a valid signature |
| `Signing.InvalidShareSpoils` | crypto/frost/src/sign.rs:475-489 | a single invalid share makes the signature invalid |
| `Signing.Complete` | crypto/frost/src/sign.rs:468-516 | for shares of everyone else, a signature exactly if they sum to one, and otherwise an error naming no one or a signer with an invalid share; for other maps, exactly what is wrong with them |
| `Signing.OutcomeOfKeys` | crypto/frost/src/sign.rs:475-515 | with keys which interpolate to the group key: all valid yields a signature, a single invalid share is named, and the internal error means at least two are invalid |
| `Signing.HonestSession` | crypto/frost/src/sign.rs:297-489 | for any signing set, offset and binding factors, everyone's shares are valid and sum to a signature by the offset group key |
| `Signing.HonestComplete` | crypto/frost/src/sign.rs:468-489 | `complete` returns that signature to every signer |
| `Signing.RunSession` | crypto/frost/src/tests/mod.rs:100-153 | both rounds, run by every signer of any set large enough, end with one signature for all of them, which verifies by the offset group key |
| `Signing.DerivedSigningKeys` | crypto/dkg/src/frost.rs:412-483 | keys of at least t participants of one key generation are keys of a signing set |
| `Slide.AsBits` | coins/monero/src/unreduced_scalar.rs:41-48 | the bits of the bytes' number |
| `Slide.NonAdjacentForm` | coins/monero/src/unreduced_scalar.rs:56-105 | the digits, written in place with carries, are the width-5 form defined by residues modulo 32 |
| `Slide.NafDigits` | coins/monero/src/unreduced_scalar.rs:56-105 | every digit is zero, or odd and from -15 to 15 |
| `Slide.NafGaps` | coins/monero/src/unreduced_scalar.rs:56-105 | four zeros follow every non-zero digit |
| `Slide.NafValue` | coins/monero/src/unreduced_scalar.rs:56-105 | the digits sum to the number, or to it less 2 to its length, and exactly to it if it is at most half of that |
| `Slide.NafExact` | coins/monero/src/unreduced_scalar.rs:51-105 | the digits sum to the number, less 2 to its length exactly if a carry ripples off the end |
| `Slide.SlideSum` | coins/monero/src/unreduced_scalar.rs:116-122 | the same of the bytes of a scalar, where no carry is lost with the top bit clear |
| `Slide.RecoveredExact` | coins/monero/src/unreduced_scalar.rs:107-136 | the scalar recovered is the scalar itself exactly if no carry is lost |
| `Slide.DoubleAndAdd` | coins/monero/src/unreduced_scalar.rs:124-135 | the loop is the digits' sum modulo the group order |
| `Slide.RecoverMoneroSlideScalar` | coins/monero/src/unreduced_scalar.rs:116-136 | the early return and the loop both give the digits' sum modulo the group order, which is the scalar's exactly if no carry is lost |
| `Slide.LostCarry` | coins/monero/src/unreduced_scalar.rs:51-105 | the digits of the greatest number sum to -1 |
| `TributaryMerkle.Merkle` | coordinator/tributary/src/merkle.rs:3-31 | the loop over levels is the recursive root |
| `TributaryMerkle.MerkleInjective` | coordinator/tributary/src/merkle.rs:3-31 | equal roots are of equal lists, of any lengths |
| `Transactions.VerifyTransaction` | coordinator/tributary/src/transaction.rs:187-218 | exactly which transactions pass, for the nonce expected, and exactly when there is which error |
| `Transactions.CountOne` | coordinator/tributary/src/blockchain.rs:56-66 | nonces are counted by signer and topic, and a transaction counts for no others |
| `Blocks.Verify` | coordinator/tributary/src/block.rs:171-270 | a block passes exactly if it fits, builds on the tip, commits to its transactions, and every transaction may follow those before it; otherwise the error is that of the first check not passed, by the first transaction not to |
| `Blocks.AcceptedOrder` | coordinator/tributary/src/block.rs:206-249 | provided transactions come first and signed ones last in every block which passes |
| `Blocks.BlockBinds` | coordinator/tributary/src/block.rs:66-76 | blocks with one hash have one parent and the same transactions in the same order, but for their signatures |
| `Blocks.OnlyMissing` | coordinator/tributary/src/tendermint/mod.rs:370-384 | a block is only ever refused temporarily for a provided transaction we don't have, with all transactions before it acceptable, and never once it is being added |
| `Blocks.NewBlock` | coordinator/tributary/src/block.rs:114-160 | the longest prefix that fits of the provided, unsigned and signed transactions; the panic for unsorted nonces can't happen |
| `Blocks.SizeConcat` | coordinator/tributary/src/block.rs:99-106 | the size of a block is its header's and that of each transaction with the byte for its type |
| `Mempools.Mempool.Add` | coordinator/tributary/src/mempool.rs:107-175 | exactly which transactions are added, the pool with them, and the error for any other |
| `Mempools.AddedKeeps` | coordinator/tributary/src/mempool.rs:107-175 | the pool's nonces stay in a row from the chain's, without conflicts, and its counts right, exactly if what is added isn't an oversized unsigned transaction |
| `Mempools.Mempool.Block` | coordinator/tributary/src/mempool.rs:188-218 | every transaction once, in any order of the map, with the signed ones sorted by nonce |
| `Mempools.Mempool.Remove` | coordinator/tributary/src/mempool.rs:221-253 | the pool without the transaction, whose count doesn't underflow |
| `Mempools.RemovedSigned` | coordinator/tributary/src/mempool.rs:221-253 | chaining the next nonce leaves the pool in step with the chain, if nothing in the pool conflicts |
| `Mempools.RemovedUnsigned` | coordinator/tributary/src/mempool.rs:221-253 | so does chaining an unsigned transaction |
| `ProvidedQueues.ProvidedTransactions.Provide` | coordinator/tributary/src/provided.rs:89-145 | exactly which transactions are accepted, what is stored and queued, and exactly when there is which error |
| `ProvidedQueues.ProvideKeeps` | coordinator/tributary/src/provided.rs:89-145 | queues stay what was provided past what is on the chain |
| `ProvidedQueues.ProvidedTransactions.Complete` | coordinator/tributary/src/provided.rs:148-190 | what is stored and dequeued; neither assert nor the search panics |
| `ProvidedQueues.CompleteKeeps` | coordinator/tributary/src/provided.rs:148-190 | completing the first of its order in a block keeps local and chained sequences in step |
| `ProvidedQueues.NextCompletable` | coordinator/tributary/src/provided.rs:155-176 | for every acceptable block, neither assert nor the search panics for any of its transactions |
| `ProvidedQueues.QuantitiesExact` | coordinator/tributary/src/provided.rs:178-189 | all amounts on the chain are right exactly for blocks with at most one transaction per order |
| `ProvidedQueues.CompletedBlockQuantity` | coordinator/tributary/src/provided.rs:178-189 | for every order a block has any transaction of, one more than was on the chain is stored for it, and nothing is stored for another block |
| `ProvidedQueues.LocallyProvidedExact` | coordinator/tributary/src/blockchain.rs:135-148 | a block's transactions of an order are said to be provided exactly if there are none or all on the chain of that order are |
| `ProvidedQueues.QueuedIsNew` | coordinator/tributary/src/provided.rs:89-190 | nothing queued is on the chain |
| `Blockchains.Flatten` | coordinator/tributary/src/blockchain.rs:219-222 | every queue's transactions in their order, whatever the order of queues |
| `Blockchains.ContentsAccepted` | coordinator/tributary/src/blockchain.rs:218-227 | any prefix of the queues and the pool is accepted |
| `Blockchains.FilledHolds` | coordinator/tributary/src/blockchain.rs:218-227 | such a block has nothing but what is queued or pooled, and everything of it unless one more transaction doesn't fit |
| `Blockchains.Blockchain.AddTransaction` | coordinator/tributary/src/blockchain.rs:154-190 | exactly what is added, and that everything stays in step exactly unless an oversized unsigned transaction is |
| `Blockchains.Blockchain.NextNonce` | coordinator/tributary/src/blockchain.rs:196-216 | the nonce a participant's next transaction needs, and None for others |
| `Blockchains.Blockchain.ProvideTransaction` | coordinator/tributary/src/blockchain.rs:192-194 | everything stays in step |
| `Blockchains.Blockchain.VerifyBlock` | coordinator/tributary/src/blockchain.rs:229-272 | a block passes exactly if it is acceptable, and the error otherwise |
| `Blockchains.Blockchain.BuildBlock` | coordinator/tributary/src/blockchain.rs:218-227 | the block built is acceptable with only what is provided locally, and holds as much as fits of all of every queue, then all unsigned and then all signed transactions of the mempool |
| `Blockchains.Blockchain.AddBlock` | coordinator/tributary/src/blockchain.rs:275-340 | exactly acceptable blocks extend the chain, without a panic; chain and indexes stay valid for all of them, and pool and queues stay in step exactly if nothing conflicts and there is at most one provided transaction per order |
| `Blockchains.ChainExtends` | coordinator/tributary/src/blockchain.rs:275-340 | an acceptable block extends a valid chain to a valid chain |
| `Blockchains.EveryChain` | coordinator/tributary/src/blockchain.rs:229-340 | in every run, every signer's nonces are 0, 1, 2, ..., their count is stored, no unsigned transaction is there twice, no provided transaction is in two blocks, and every block is stored as after its parent |
| `Blockchains.OnceExactly` | coordinator/tributary/src/block.rs:210-232 | no acceptable block has a provided transaction twice exactly if those not provided locally aren't let through |
| `Blockchains.ProvidedTwice` | coordinator/tributary/src/block.rs:210-232 | any transaction which isn't provided locally may be there twice in one block, and never in a later one |
| `Blockchains.WalkVisits` | coordinator/tributary/src/blockchain.rs:131-133 | `block_after` walks from the genesis over every block once, to the tip |
| `Blockchains.EveryWalk` | coordinator/tributary/src/blockchain.rs:131-133 | it does in every run, and ends there |
| `Blockchains.PoolInStep` | coordinator/tributary/src/blockchain.rs:310-330 | a block leaves the pool in step exactly if nothing in it conflicts with the pool |
| `Blockchains.StoreInStep` | coordinator/tributary/src/blockchain.rs:310-316 | a block leaves what is provided in step exactly if it has at most one transaction per order |
| `Blockchains.ConflictSpoils` | coordinator/tributary/src/mempool.rs:188-253 | for every block with a conflicting transaction, the one in the pool stays there, and no block upon it may have it |
| `Blockchains.ConflictInput` | coordinator/tributary/src/mempool.rs:188-253 | a signer's conflicting first transactions, one in the pool and one in the first block |
| `Blockchains.OversizedSpoils` | coordinator/tributary/src/mempool.rs:160-167 | an unsigned transaction is added whatever its size, and a block may have it exactly if it fits |
| `Blockchains.TwoPerOrderSpoil` | coordinator/tributary/src/provided.rs:178-189 | two of an order in a block lead to one being queued while on the chain |
| `Mini.NextKeeps` | mini/src/lib.rs:57-141 | every step of either thread keeps the invariant, and what was included stays |
| `Mini.ActivateKeeps` | mini/src/lib.rs:68-77 | a key activates while no batch of its activation block was published, which keeps the invariant |
| `Mini.ScanKeeps` | mini/src/lib.rs:117-141 | publishing, waiting and returning keep the invariant |
| `Mini.ReceiveKeeps` | mini/src/lib.rs:122-130 | so does receiving |
| `Mini.IncludedKeys` | mini/src/lib.rs:57-141 | every included batch has the keys active by its block in the list then, and in the list at any later time |
| `Mini.PublishedKeys` | mini/src/lib.rs:57-141 | in every interleaving, every batch ever published is of its block and has the first key, and the second exactly from the activation block on if one was queued |
| `Mini.WaitsForPublished` | mini/src/lib.rs:117-130 | at most three batches aren't included, and the processor only waits on a batch it published |
| `Mini.RunEnds` | mini/src/lib.rs:57-141 | every interleaving ends, within eight steps per tick, one per block and three |
| `Mini.NoDeadlock` | mini/src/lib.rs:57-141 | until both threads ended, one of them has a step to take |
| `Mini.EndsRightly` | mini/src/lib.rs:57-141 | neither thread ends before it ran out of ticks or blocks |
| `Handover.Coordinator.ReceiveBatch` | coordinator/src/db.rs:98-108 | the batch is expected, and everything stays valid |
| `Handover.Withhold` | coordinator/src/main.rs:653-688 | a handover batch waits for the batch before it, a later one for the handover batch |
| `Handover.Coordinator.ReceivePreprocess` | coordinator/src/main.rs:641-701 | a batch's transaction is queued or provided, with nothing else queued if it is provided, and nothing provided before is taken back |
| `Handover.HandoverIsQueued` | coordinator/src/main.rs:905-914 | the panic for a handover batch which isn't queued can't happen |
| `Handover.ReleaseAll` | coordinator/src/main.rs:902-931 | the queues and what to publish are what the batches verified release |
| `Handover.Coordinator.VerifyPublished` | coordinator/src/substrate/mod.rs:520-550 | whatever is published, the batches verified are exactly those published in a row as expected; operations halt for another, and a batch our processor didn't report yet panics |
| `Handover.Coordinator.VerifyPass` | coordinator/src/main.rs:892-958 | everything stays valid, whether the pass commits, is abandoned midway, halts or panics. If the row of batches published as expected ends, it commits to all of it exactly if every Tributary something is released to is known, and all is provided which the batches before the first unknown one release; otherwise nothing changes |
| `Handover.ProvidedInOrder` | coordinator/src/main.rs:892-958 | a set's transactions are provided once each, in order, its handover batch with all prior batches verified and the others with the handover batch verified |
| `BatchSigning.BatchSigner.Attempt` | processor/src/batch_signer.rs:114-188 | exactly when a preprocess is sent, which is once for every batch and attempt, and that nothing of other batches changes |
| `BatchSigning.BatchSigner.Sign` | processor/src/batch_signer.rs:192-203 | a batch is signable unless completed, and attempted |
| `BatchSigning.BatchSigner.HandlePreprocesses` | processor/src/batch_signer.rs:220-307 | an attempt's machines are taken once, and their nonces consumed; exactly when our shares are sent, exactly which senders make it panic, and that nothing of other batches changes |
| `BatchSigning.BatchSigner.HandleShares` | processor/src/batch_signer.rs:309-391 | a batch is completed, with the asserts on it holding, or a participant is named; exactly when it panics, and that nothing of other batches changes |
| `BatchSigning.BatchSigner.BatchSigned` | processor/src/batch_signer.rs:402-420 | nothing of the batch remains |
| `BatchSigning.Run` | processor/src/batch_signer.rs:87-420 | over any messages, reboots and panics: one preprocess per batch and attempt, and no nonce behind two shares |
| `MoneroSerialize.WriteVarint` | coins/monero/src/serialize.rs:42-54 | the encoding of the integer |
| `MoneroSerialize.ReadVarint` | coins/monero/src/serialize.rs:106-123 | the loop reads what the recursive reader does |
| `MoneroSerialize.VarintRead` | coins/monero/src/serialize.rs:42-123 | every integer of a width is read back |
| `MoneroSerialize.ReadIsVarint` | coins/monero/src/serialize.rs:106-123 | whatever is accepted is the encoding of an integer of the width, and of no other |
| `MoneroSerialize.VarintLength` | coins/monero/src/serialize.rs:32-35 | `varint_len` is the encoding's length |
| `MoneroSerialize.VecRead` | coins/monero/src/serialize.rs:75-82 | vectors of anything read back are read back |
| `MoneroSerialize.VecExact` | coins/monero/src/serialize.rs:148-172 | and are read from nothing but what they write |
| `MoneroSerialize.InputCodec` | coins/monero/src/transaction.rs:31-72 | inputs are read back, and only from what they write |
| `MoneroSerialize.OutputCodec` | coins/monero/src/transaction.rs:90-129 | so are outputs |
| `MoneroSerialize.PrefixCodec` | coins/monero/src/transaction.rs:139-240 | so are prefixes: any accepted one writes to exactly the bytes read |
| `MoneroSerialize.KindBytes` | coins/monero/src/transaction.rs:31-129 | the bytes for the kinds of inputs and outputs, and that no other byte is an input's |
| `MoneroSerialize.TimelockKinds` | coins/monero/src/transaction.rs:139-169 | which integers are which timelocks, and that they are written as they were read |
| `MoneroSerialize.PrefixBytes` | coins/monero/src/transaction.rs:31-240 | the bytes of an input and of a prefix with every kind of part, whatever their keys |
| `MoneroSerialize.ReadsBack` | coins/monero/src/transaction.rs:31-240 | what is written for anything reads back exactly if it is valid |
| `MoneroMerkle.MerkleRoot` | coins/monero/src/merkle.rs:5-55 | nothing underflows, and the root is the tree by halves over the leaves merged to the lower power of two |
| `MoneroMerkle.TreeOfPairs` | coins/monero/src/merkle.rs:42-52 | hashing a level in pairs leaves the tree the same |
| `MoneroMerkle.LowerPowerUnique` | coins/monero/src/merkle.rs:15-19 | there is one lower power of two |
| `MoneroMerkle.RootInjective` | coins/monero/src/merkle.rs:5-55 | equal roots of equally many leaves are of the same leaves |
| `SlashReport.MedianWithinHonest` | coordinator/src/tributary/scanner.rs:582-590 | a median lies within what the honest reported, with less than half dishonest |
| `SlashReport.Medians` | coordinator/src/tributary/scanner.rs:581-590 | everyone's median |
| `SlashReport.Reduce` | coordinator/src/tributary/scanner.rs:592-608 | the points taken off are the least for a threshold of shares to have none, and a threshold has none |
| `SlashReport.Calculate` | coordinator/src/tributary/scanner.rs:563-627 | a report exactly if anyone with a share reported: of exactly everyone with points, in order, by the medians, which are within what the honest reported, less the least for a threshold of shares to have no points, with fatal slashes at the maximum |
| `ShareRouting.Amount` | coordinator/src/tributary/spec.rs:91-97 | the weight of everyone who isn't removed |
| `ShareRouting.IndexesOf` | coordinator/src/tributary/spec.rs:104-138 | a removed validator has no indexes, and others are shifted by the last removed before them |
| `ShareRouting.ShiftIsRight` | coordinator/src/tributary/spec.rs:121-136 | that is where the indexes of everyone remaining before end exactly if all removed validators before are one |
| `ShareRouting.ShiftIsWrong` | coordinator/src/tributary/spec.rs:121-136 | removed validators it isn't for |
| `ShareRouting.RangesTile` | coordinator/src/tributary/spec.rs:91-138 | everyone's indexes tile those there are exactly if that is so for everyone remaining |
| `ShareRouting.ListShares` | coordinator/src/main.rs:461-476 | the list holds everyone else's share, at their position |
| `ShareRouting.StoreShares` | coordinator/src/tributary/handle.rs:345-362 | every share is stored under who it is from and who it was addressed to |
| `ShareRouting.DrainOurs` | coordinator/src/tributary/handle.rs:364-396 | the shares drained are those addressed to us |
| `ShareRouting.AddSender` | coordinator/src/tributary/handle.rs:418-437 | a sender's shares are added under the sender's own indexes |
| `ShareRouting.Route` | coordinator/src/tributary/handle.rs:337-440 | whatever the order of senders, each of ours is told exactly of everyone else's shares |
| `ShareRouting.RouteRemaining` | coordinator/src/tributary/handle.rs:337-440 | the same with the indexes computed for the validators remaining |
| `ShareRouting.RoutedShare` | coordinator/src/main.rs:449-484 | and those are what their processors addressed to it |

## Left out

- Networking, RPC, tasks and sleeps: every handler is one step.
- Curves, hashes, ciphers, transcripts and proofs of discrete log equality: unspecified functions, or not part of this model.
- Integer widths: amounts, nonces and identifiers are unbounded, except for participants' 16 bits and the widths of variable-length integers.
- Algorithms other than Schnorr, their addenda, and caching of preprocesses: signing is for one nonce by one generator, although nonces are summed for any amount of both.
- The first round of key generation: commitments are taken as verified, and what shares decrypt to as given; `KeyGen.KeyMachine.Valid` says what that established. Blame between participants isn't modelled.
- Restarts of the Tributary: the mempool and queues as rebuilt from the database aren't modelled, nor is the mempool's list in the database.
- Tendermint: whether evidence is valid is an unspecified predicate, which doesn't change as the chain grows.
- Blockchains.Blockchain.AddBlock: requires everything to be in step before the block, as blocks and transactions which leave it out of step may make later ones panic; `Blockchains.EveryChain` is of every chain without that.
- Handover.Coordinator.ReceivePreprocess: requires the first preprocess of a batch to immediately follow the batch, as the code assumes.
- ShareRouting.Route: requires ranges which tile the indexes, which `ShareRouting.RangesTile` says exactly when the code yields.
- The accumulation of data in the coordinator, whose amount needed counts validators by weight, and the cosigning of Substrate blocks.
- Prunable data, ring signatures and RingCT of Monero transactions, and anything but their prefix.
- Schedulers, the message queue, the key gen and signing state machines other than for batches, and everything on Substrate.
