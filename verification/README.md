# Verified model of the confidential-comparison service

Two participants each pledge a receivable: a time window, a currency, an identifier and an exclusivity flag.
They encrypt their pledges, an evaluator compares them under encryption, and either a governed decryptor or a
coalition of threshold operators releases whether they concern the same asset and whether they conflict.
This project models that service in Dafny and proves what it promises: the encrypted circuit computes the plain
policy, every one-shot protocol keeps its guarantees over all interleavings and crashes, a key ceremony of any size
yields keys of one secret that every coalition reconstructs, and a released bit is the policy's answer on the
pledges the two participants enrolled.

## Layout

| files | what they hold |
|---|---|
| `Basics`, `Arithmetic` | options and results, create-only names, integer facts |
| `SlotVectors`, `BitEncoding`, `ComparisonTree`, `PolicyCircuit` | the homomorphic circuit as a program over slot vectors, and the plain policy |
| `GovernedRelease`, `ReleaseGuarantees`, `EvaluationGuarantees`, `GovernedDecryptor`, `GovernedEvaluator` | evaluation and one-shot release as a step machine, its guarantees, and the decryptor and the evaluator as objects that refine it |
| `Publication`, `PublicationGuarantees`, `Publisher` | the same for publishing a participant-originated artifact |
| `SecretSharing`, `Ceremony`, `CeremonySeed`, `CeremonyShares`, `SharingLimits`, `CeremonyNetwork`, `CeremonyNodes`, `CeremonyForms`, `CeremonyStages`, `CeremonyDriver`, `CeremonyGuards` | Shamir sharing over a prime field and its limits, operators and aggregator as call machines and as objects, the network, the co-located driver, and what no history of calls can make a party do |
| `ThresholdDealer` | the co-located dealer and its one-shot decryption |
| `Enrollments`, `ReleaseGate`, `ReleaseGateGuarantees`, `HonestQuorum`, `CoalitionResults`, `PublicResults` | enrollments and their pairing, the operators' gate, combining shares, what honest operators' signatures can be combined to, the order of a coalition's writes, and what stands behind a public result |
| `SessionLedger`, `WireCodecs`, `WireLayouts` | the one-shot session ledger, the positional wire formats and their byte offsets |

`dafny verify dfyconfig.toml` checks everything. Every lemma carries `{:induction false}`: its proof is its body.

## Assumptions

- A hash is modelled as the value it digests, so equal digests mean equal contents, and digests of different domains differ.
- A signature is its key and its message; it verifies exactly on what its key holder signed. An honest key holder's signatures appear as a hypothesis where they matter.
- A ciphertext is its decrypted slot vector, together with the multiplications and rotations spent on it. Equal vectors with equal cost stand for equal bytes.
- Ring elements are integers read modulo a prime, without encryption noise. Key shares, relinearization and Galois shares, Lagrange weights and key switching have their algebraic meaning.
- A store is a set of create-only names, each operation atomic. A failing read is a crash of the reading process.
- Clocks, random draws and foreign inputs are parameters. In the governed release, whether a submission verifies for its side (signature, component digests, ciphertext shapes) and the enrollment gate of a case are parameters too; `PublicResults` fills in the gate.

## Findings

- `participant_originated_artifact.go:1011-1015` says that a bad enrollment signature stops an import before anything is durable. The nonce claim, the admission and the ciphertext already are. The model follows the code; a later attempt with a good signature completes the import (`BadSignatureCommitsAndRecovers`).
- A publication attempt that is refused for its role has already consumed its nonce (`RefusalBurnsNonce`).
- The comparison with the other role's manifest (`participant_originated_artifact.go:994-1002`) can never refuse (`CrossRoleTestIsRedundant`).
- Two attempts with different clocks can complete an import that reconciliation then always refuses; `ReconcileExact` gives the exact condition, `SkewedClocksNeverReconcile` a run.
- With public commitments instead of encrypted identifiers, the evaluation equals the policy exactly when the commitments agree with the identifiers or the terms do not conflict (`PublicModeExact`).
- The roster rules compare points as integers, the field compares residues. A coalition's shares determine the secret if and only if its points have at least as many different residues as the threshold, or one is zero modulo the prime (`CoalitionExact`, `DeterminedExactly`); a coalition of exactly threshold size with nonzero points therefore needs pairwise different residues. A roster with points 1 and q + 1 passes the rules and its operators can never reconstruct (`ValidRosterMayCollide`).
- Two enrollments derived for one case from two different artifacts need not pair: they pair exactly when artifacts, submission nonces and circuit inputs all differ (`OneCasePairsExactly`).
- The governed recomputation checks the enrollments only after its create-only admission (`decryptor.go:219-239`), so a refusal there ends the case for good (`UnverifiedIsFinal`).
- A coalition release that crashes between its result and its consumed mark leaves a public result that no later attempt can complete or return (`StrandedForGood`): an undisturbed attempt returns exactly when no result is public (`LoneReturnsExactly`).
- A valid pledge whose key id is longer than 1024 bytes is accepted by the decoder and refused by the encoder (`PledgeReencodesExactly`, `LongKeyIdIsReadOnly`).

## Model

| member | source | states |
|---|---|---|
| `SlotVectors.KeepSlots` | fhe-lab/lattigo/circuit.go:588-601 | the mask loop keeps exactly the named slots and zeroes every other; it fails exactly on an index outside the vector |
| `SlotVectors.KeepRange` | fhe-lab/lattigo/circuit.go:580-586 | a range keeps exactly its own slots, and fails exactly when it leaves the vector |
| `BitEncoding.WriteUint64Bits` | fhe-lab/lattigo/circuit.go:188-192 | the loop writes the 64-bit string of the value, most significant bit first, and nothing else |
| `BitEncoding.WriteBytesBits` | fhe-lab/lattigo/circuit.go:194-200 | the loops write the bits of every byte in order and nothing else |
| `BitEncoding.WriteUint256Bits` | fhe-lab/lattigo/circuit.go:202-206 | the limb loop writes the bits of all limbs in order and nothing else |
| `BitEncoding.BitsRoundTrip` | fhe-lab/lattigo/circuit.go:188-192 | a written integer that fits the width reads back unchanged |
| `BitEncoding.BytesBitsInjective` | fhe-lab/lattigo/circuit.go:194-200 | two byte strings of one length are equal exactly when their bit strings are |
| `ComparisonTree.VerdictsOnBits` | fhe-lab/lattigo/circuit.go:461-516 | on bits, the tree's field expressions are integer less-than and equality, and never both hold |
| `ComparisonTree.TreeHolds` | fhe-lab/lattigo/circuit.go:488-514 | after k merges every group start holds the exact verdict of its own group of 2^k slots and all other slots are zero, for any number of blocks and any input residues: no leak between blocks or rows, no wrap-around |
| `ComparisonTree.BlockComparesIntegers` | fhe-lab/lattigo/circuit.go:461-516 | for blocks of any power-of-two width, the slot of a block decides the integers its bits spell |
| `ComparisonTree.TreeCost` | fhe-lab/lattigo/circuit.go:488-551 | a tree of width 2^k costs multiplication depth exactly k+1 and rotates by exactly the first k powers of two |
| `ComparisonTree.BlockStarts` | fhe-lab/lattigo/circuit.go:554-563 | the nested loops list exactly the multiples of the group width below the total |
| `ComparisonTree.MergeVerdicts` | fhe-lab/lattigo/circuit.go:488-514 | one loop pass is one merge of the tree |
| `ComparisonTree.CompareTwoBlocks` | fhe-lab/lattigo/circuit.go:461-516 | the stride loop computes the finished two-block tree |
| `ComparisonTree.Equal256` | fhe-lab/lattigo/circuit.go:520-552 | the stride loop computes the finished AND tree, cut down to slot 0 |
| `ComparisonTree.EqualOfSymmetric` | fhe-lab/lattigo/circuit.go:520-552 | equality is the same with the sides swapped, for any residues |
| `PolicyCircuit.EncryptPledge` | fhe-lab/lattigo/circuit.go:65-174 | refuses exactly the invalid plain pledges of either identity mode, otherwise lays out all five vectors at the documented offsets and carries each commitment in its own field |
| `PolicyCircuit.ValidPlainExactly` | fhe-lab/lattigo/circuit.go:162-174 | which plain pledges are encrypted, said of bytes and numbers: a window that is not empty, a positive amount, identifiers with a nonzero byte, and a commitment exactly in the public mode |
| `PolicyCircuit.SubmissionAmount` | fhe-lab/lattigo/circuit.go:65-160 | the first 256 slots of the amount vector spell the amount, the rest is zero |
| `PolicyCircuit.SubmissionObligation` | fhe-lab/lattigo/circuit.go:65-160 | the obligation vector holds the obligation bit by bit and nothing else |
| `PolicyCircuit.ObligationsCompare` | fhe-lab/lattigo/circuit.go:65-160 | two obligation vectors are equal exactly when the obligations are |
| `PolicyCircuit.CircuitValue` | fhe-lab/lattigo/circuit_v5.go:143-220 | for arbitrary inputs, slot 0 of each output is the product of its factors and every other slot is zero |
| `PolicyCircuit.ArbitraryInputs` | fhe-lab/lattigo/circuit_v5.go:151-219 | for arbitrary inputs: no output outside slot 0, a zero identity verdict forces a zero conflict, and swapping the sides changes nothing |
| `PolicyCircuit.CircuitDecidesPolicy` | fhe-lab/lattigo/circuit_v5.go:143-220 | on honest encodings both output vectors are exactly the plain policy's two decisions |
| `PolicyCircuit.SubmissionsDecidePolicy` | fhe-lab/lattigo/circuit.go:65-160 | what two participants submit, fed to the circuit, gives the plain policy's two answers on their terms; in the public mode the older evaluation gives the terms' answer gated by the submitted commitments |
| `PolicyCircuit.RecomputeCircuitV5` | fhe-lab/lattigo/circuit_v5.go:143-220 | the gate sequence computes the circuit, and refuses exactly missing or misshapen inputs |
| `PolicyCircuit.CircuitCost` | fhe-lab/lattigo/circuit.go:13-20 | the circuit's depth is exactly 11 and it asks for exactly the nine published rotations |
| `PolicyCircuit.EvaluateV4Decides` | fhe-lab/lattigo/circuit.go:208-321 | the two identity modes of the older evaluation: encrypted identifiers give the policy, public commitments the terms gated by commitment equality |
| `PolicyCircuit.PublicModeExact` | fhe-lab/lattigo/circuit.go:208-321 | the exact condition under which the public-commitment mode agrees with the policy |
| `GovernedRelease.RunKeeps` | fhe-lab/lattigo/governedfhe/decryptor.go:189-450 | every interleaving of any number of evaluations, releases, crashes and foreign writes keeps the store invariant, and stored records never change |
| `ReleaseGuarantees.AtMostOnce` | fhe-lab/lattigo/governedfhe/decryptor.go:330-450 | in every run a case gets at most one admission, one decryption and one signature, and every returned and public result is the same |
| `ReleaseGuarantees.RecordsAreFinal` | fhe-lab/lattigo/governedfhe/decryptor.go:369-447 | admission, retained, public and consumed records persist unchanged in every continuation |
| `ReleaseGuarantees.MismatchIsFinal` | fhe-lab/lattigo/governedfhe/decryptor.go:189-279 | a recorded mismatch names the recomputed ciphertext and excludes any later verified record, admission, decryption or public result |
| `ReleaseGuarantees.DeadEndIsFinal` | fhe-lab/lattigo/governedfhe/decryptor.go:358-439 | a release that dies between admission and retained result never yields a signature or a result |
| `ReleaseGuarantees.UnverifiedIsFinal` | fhe-lab/lattigo/governedfhe/decryptor.go:203-239 | a recomputation that ends without a verdict, by a crash or by a refusal of the enrollment gate, ends the case: nothing is ever verified, admitted, decrypted or published |
| `ReleaseGuarantees.CrashedReleaseRecovers` | fhe-lab/lattigo/governedfhe/decryptor.go:281-323 | a crash after the retained result is always completed by a retry inside the window, with the same bytes |
| `ReleaseGuarantees.AloneIsARun` | fhe-lab/lattigo/governedfhe/decryptor.go:330-450 | an undisturbed attempt is one of the runs |
| `ReleaseGuarantees.LoneReleaseExact` | fhe-lab/lattigo/governedfhe/decryptor.go:330-450 | from any reachable state, an undisturbed attempt succeeds exactly under a condition on the stores, the clock, the provenance and the expected artifact; a first success leaves admission, result and consumed mark with the recomputed bit, its own time, provenance and authority, a later one returns the retained result |
| `ReleaseGuarantees.LoneMismatchIsRecorded` | fhe-lab/lattigo/governedfhe/decryptor.go:219-266 | an undisturbed attempt that recomputes a different ciphertext records it, with the artifact and the time, and touches nothing of the release |
| `ReleaseGuarantees.ArtifactReadExactly` | fhe-lab/lattigo/governedfhe/evaluator.go:250-293 | whatever the store holds, an evaluated artifact is accepted exactly when it is of the two stored submissions and the stored ciphertext and both evaluation records are dated and about it |
| `ReleaseGuarantees.RetryReadExactly` | fhe-lab/lattigo/governedfhe/decryptor.go:281-305 | whatever the stores hold, a retained result is served again exactly when result, recomputation and admission are all about this artifact and signed by the case authority |
| `ReleaseGuarantees.HonestEvaluatorNeverMismatches` | fhe-lab/lattigo/governedfhe/evaluator.go:157-248 | without foreign writes the evaluated artifact is always recomputable and no mismatch is ever recorded |
| `EvaluationGuarantees.LoneEvaluationExact` | fhe-lab/lattigo/governedfhe/evaluator.go:157-248 | from any reachable state an undisturbed evaluation returns exactly when it has a provenance, the clock is in the window, both submissions are there, verify, are live and differ in nonce, and nothing was evaluated; it leaves a valid artifact of these submissions with the recomputed ciphertext, its provenance and its time, and otherwise changes nothing |
| `EvaluationGuarantees.AloneIsARun` | fhe-lab/lattigo/governedfhe/evaluator.go:157-248 | an undisturbed evaluation is one of the runs |
| `EvaluationGuarantees.EvaluatedIsReleased` | fhe-lab/lattigo/governedfhe/evaluator.go:157-248 | after an undisturbed evaluation an undisturbed release delivers the evaluated bit exactly when the clock, the gate and the output vector allow it |
| `EvaluationGuarantees.EvaluatedPledgesAreDecided` | fhe-lab/lattigo/governedfhe/decryptor.go:330-450 | for participants that encrypted their pledges, in time and enrolled, evaluation and release end with the plain policy's answer public and retained |
| `GovernedEvaluator.Evaluator.EvaluateFixedConflict` | fhe-lab/lattigo/governedfhe/evaluator.go:157-248 | the evaluator as it runs refines the step machine: it succeeds exactly when evaluable, with all four objects written, and a refusal writes nothing |
| `ReleaseGuarantees.PublicResultIsThePolicy` | fhe-lab/lattigo/governedfhe/decryptor.go:398-424 | any governed result ever made public carries the plain policy's answer on the two participants' pledges |
| `ReleaseGuarantees.PublicResultIsEnrolled` | fhe-lab/lattigo/governedfhe/decryptor.go:189-239 | whatever is public, both submissions verified, were enrolled, live and under different nonces when its recomputation was verified, and were still live inside the window when it was released |
| `ReleaseGuarantees.PublicResultIsTraced` | fhe-lab/lattigo/governedfhe/decryptor.go:110-188 | whatever is public is signed by the case authority and agrees with every stored object: submissions, ciphertext, both evaluation records, recomputation, admission and retained result |
| `PublicResults.PublicResultPassedTheGate` | fhe-lab/lattigo/governedfhe/decryptor.go:226-239 | in every run, behind a public result stand two stored enrollments the case itself derives, with different inputs and nonces, unrevoked keys and live windows |
| `ReleaseGuarantees.PublicConflictNeedsIdentity` | fhe-lab/lattigo/governedfhe/decryptor.go:240-279 | even for dishonest inputs, a public conflict implies a nonzero identity verdict |
| `ReleaseGuarantees.HonestPledgesAreCanonical` | fhe-lab/lattigo/governedfhe/decryptor.go:403-411 | honest encodings always pass the canonical-plaintext check |
| `GovernedDecryptor.Decryptor.Decode` | fhe-lab/lattigo/governedfhe/decryptor.go:403-411 | the slot loop accepts exactly one Boolean followed by zeros |
| `GovernedDecryptor.Decryptor.ExactRetry` | fhe-lab/lattigo/governedfhe/decryptor.go:281-323 | the retry path changes the stores as the step machine does alone |
| `GovernedDecryptor.Decryptor.PrepareVerifiedRecomputation` | fhe-lab/lattigo/governedfhe/decryptor.go:189-279 | recompute once or reuse, as the step machine does alone |
| `GovernedDecryptor.Decryptor.RunRecomputation` | fhe-lab/lattigo/governedfhe/decryptor.go:219-279 | the admitted recomputation, as the step machine does alone |
| `GovernedDecryptor.Decryptor.ReleaseOnce` | fhe-lab/lattigo/governedfhe/decryptor.go:369-450 | the one-shot writes in order, as the step machine does alone |
| `GovernedDecryptor.Decryptor.ReleaseFixedConflict` | fhe-lab/lattigo/governedfhe/decryptor.go:325-450 | a whole attempt refines the step machine: same stores, same answer |
| `Publication.RunKeeps` | fhe-lab/lattigo/governedfhe/participant_originated_artifact.go:889-1065 | every interleaving of publications of both roles with crashes keeps the journal and public-store invariant |
| `PublicationGuarantees.ManifestIsLast` | fhe-lab/lattigo/governedfhe/participant_originated_artifact.go:962-1060 | in every reachable state a public manifest implies its own ciphertext and its own enrollment are public |
| `PublicationGuarantees.OneVerificationEach` | fhe-lab/lattigo/governedfhe/participant_originated_artifact.go:765-785 | a role is bound to one verification for ever, and a nonce is never admitted for two |
| `PublicationGuarantees.OneSuccessPerRole` | fhe-lab/lattigo/governedfhe/participant_originated_artifact.go:1047-1065 | at most one attempt per role ever reports success, and it reports what is public |
| `PublicationGuarantees.CrossRoleTestIsRedundant` | fhe-lab/lattigo/governedfhe/participant_originated_artifact.go:994-1002 | the cross-role manifest test can never refuse |
| `PublicationGuarantees.AloneIsARun` | fhe-lab/lattigo/governedfhe/participant_originated_artifact.go:889-1065 | an undisturbed attempt is one of the runs |
| `PublicationGuarantees.LoneAttemptExact` | fhe-lab/lattigo/governedfhe/participant_originated_artifact.go:889-1065 | how an undisturbed attempt ends from any reachable state, refusal by refusal; in particular a crashed import is completed and a completed one is refused as replay |
| `PublicationGuarantees.NothingExpiredIsPublished` | fhe-lab/lattigo/governedfhe/participant_originated_artifact.go:650-726 | in every reachable state every admission and completion, and every reported success, is dated inside the case window and before the expiry of its artifact |
| `PublicationGuarantees.UnverifiedChangesNothing` | fhe-lab/lattigo/governedfhe/participant_originated_artifact.go:650-726 | an attempt that is not genuine, outside the window or at or after expiry is refused as such and leaves no trace, in any store |
| `PublicationGuarantees.BadSignatureCommitsAndRecovers` | fhe-lab/lattigo/governedfhe/participant_originated_artifact.go:974-1031 | an attempt with a bad enrollment signature leaves claim, admission and ciphertext behind, and a good retry completes |
| `PublicationGuarantees.RefusalBurnsNonce` | fhe-lab/lattigo/governedfhe/participant_originated_artifact.go:974-993 | an attempt refused for its role has already consumed its nonce |
| `PublicationGuarantees.ReconcileExact` | fhe-lab/lattigo/governedfhe/participant_originated_artifact.go:440-504 | reconciliation returns the recorded references exactly under a stated condition, expired or not |
| `PublicationGuarantees.SkewedClocksNeverReconcile` | fhe-lab/lattigo/governedfhe/participant_originated_artifact.go:440-504 | a run whose completed import no reconciliation ever accepts |
| `Publisher.Coordinator.ClaimNonce` | fhe-lab/lattigo/governedfhe/participant_originated_artifact.go:765-785 | creates the claim or recognises its own, and changes nothing else |
| `Publisher.Coordinator.Admit` | fhe-lab/lattigo/governedfhe/participant_originated_artifact.go:974-1005 | the role admission, as the step machine does alone |
| `Publisher.Coordinator.PublishObjects` | fhe-lab/lattigo/governedfhe/participant_originated_artifact.go:1003-1010 | ciphertext first, as the step machine does alone |
| `Publisher.Coordinator.PublishEnrollment` | fhe-lab/lattigo/governedfhe/participant_originated_artifact.go:1011-1046 | enrollment between ciphertext and manifest, as the step machine does alone |
| `Publisher.Coordinator.PublishManifest` | fhe-lab/lattigo/governedfhe/participant_originated_artifact.go:1047-1065 | manifest and completion last, as the step machine does alone |
| `Publisher.Coordinator.Publish` | fhe-lab/lattigo/governedfhe/participant_originated_artifact.go:889-1065 | a whole attempt refines the step machine: same stores, same answer |
| `SecretSharing.Reconstruction` | fhe-lab/lattigo/threshold.go:264-274 | for every prime, every set of distinct nonzero points and every polynomial of lower degree, the Lagrange-weighted values add up to the value at zero |
| `SecretSharing.WeightsSumToOne` | fhe-lab/lattigo/threshold.go:264-274 | the Lagrange weights of any point set add up to one |
| `Ceremony.Validate` | fhe-lab/lattigo/ceremony.go:98-126 | the loop accepts exactly rosters within bounds, ascending, with distinct nonzero keys |
| `Ceremony.OperatorRun` | fhe-lab/lattigo/ceremony.go:430-690 | whatever calls an operator receives, secrets are gone once it is sealed and each key it contributed to used exactly its own draw of the stream |
| `Ceremony.RunsOnlyAdvance` | fhe-lab/lattigo/ceremony.go:430-690 | over every run and every continuation: rounds only advance, nothing received or emitted is forgotten, contributions are fixed once the stream is sealed, and no logged draw changes |
| `Ceremony.RefusedChangesNothing` | fhe-lab/lattigo/ceremony.go:430-690 | a refused call changes nothing |
| `Ceremony.HandleKeeps` | fhe-lab/lattigo/ceremony.go:430-690 | every call keeps the operator invariant, and contributions are fixed once the stream is sealed |
| `Ceremony.AggregatorRun` | fhe-lab/lattigo/ceremony_aggregator.go:98-267 | whatever is delivered, the randomness of every key is the draw that belongs to it |
| `Ceremony.StagesOnlyAdvance` | fhe-lab/lattigo/ceremony_aggregator.go:98-267 | over every run and every continuation: stages and the Galois index only advance, and finished keys never change |
| `Ceremony.LockstepDraws` | fhe-lab/lattigo/ceremony_aggregator.go:113-267 | any operator and the aggregator with equal contributions used the same draw for the same key, under any two call histories |
| `Ceremony.SealedTogether` | fhe-lab/lattigo/ceremony.go:664-690 | operators sealed with the same digests had the same contributions |
| `CeremonySeed.SortKeys` | fhe-lab/lattigo/ceremony.go:475-480 | the keys come out ascending and complete whatever order the map is walked in |
| `CeremonySeed.SeedPreimage` | fhe-lab/lattigo/ceremony.go:475-496 | what is hashed lists every contribution once, by ascending point |
| `CeremonySeed.PreimageIsUnique` | fhe-lab/lattigo/ceremony.go:475-496 | one contribution map has one preimage |
| `CeremonySeed.PreimageDetermines` | fhe-lab/lattigo/ceremony.go:475-496 | one preimage belongs to one roster and one contribution map |
| `CeremonySeed.HeardExactly` | fhe-lab/lattigo/ceremony.go:430-445 | what an operator has accepted after any arrivals, repeated or reordered |
| `CeremonySeed.SeedIgnoresOrder` | fhe-lab/lattigo/ceremony.go:430-496 | two operators that heard the same points in any order derive the same contributions, hence the same seed |
| `CeremonyShares.RunKeeps` | fhe-lab/lattigo/ceremony.go:501-580 | on a network that delays, reorders, repeats and drops, every share in progress is the sum of the polynomials received |
| `CeremonyShares.SealedShare` | fhe-lab/lattigo/ceremony.go:501-580 | in every run a sealed share is the sum of all polynomials at its point, each counted once |
| `CeremonyShares.CoalitionReconstructs` | fhe-lab/lattigo/ceremony.go:501-595 | in every run, any coalition of at least threshold size whose points are nonzero and distinct modulo the prime reconstructs the sum of all secrets |
| `CeremonyShares.SmallCoalition` | fhe-lab/lattigo/ceremony.go:98-126 | different operators at points below the prime always qualify |
| `SharingLimits.DeterminedExactly` | fhe-lab/lattigo/threshold.go:264-274 | values at some points determine the constant term of every polynomial of t coefficients if and only if the points have t different residues or one is zero in the field |
| `SharingLimits.SufficientIsPoints` | fhe-lab/lattigo/ceremony.go:98-126 | for as many nonzero points as coefficients, that condition is pairwise different residues |
| `SharingLimits.CoalitionExact` | fhe-lab/lattigo/ceremony.go:501-595 | other members with the same shares at a coalition and a different secret exist if and only if the coalition's points have fewer residues than the threshold and none is zero |
| `SharingLimits.RunsLookAlike` | fhe-lab/lattigo/ceremony.go:534-580 | under any two schedules such members leave the coalition with congruent shares |
| `SharingLimits.ValidRosterMayCollide` | fhe-lab/lattigo/ceremony.go:98-126 | a roster the rules accept whose two operators can never reconstruct |
| `CeremonyNetwork.HistoryKeeps` | fhe-lab/lattigo/ceremony_aggregator.go:134-157 | operators and aggregator on one network: the gathered sum is that of the shares emitted by the points seen, over every history |
| `CeremonyNetwork.NetworkKeyIsTheSum` | fhe-lab/lattigo/ceremony_aggregator.go:134-157 | in every history, a finished public key under common contributions belongs to the sum of all secrets |
| `CeremonyNetwork.NetworkCoalitionOpensKey` | fhe-lab/lattigo/ceremony.go:501-595 | in every such history, what any qualifying coalition reconstructs opens the collective public key |
| `CeremonyNodes.OperatorNode.Dispatch` | fhe-lab/lattigo/ceremony.go:430-690 | each of the ten operator methods moves the object exactly as the call machine moves, and a refused call changes nothing |
| `CeremonyNodes.AggregatorNode.Dispatch` | fhe-lab/lattigo/ceremony_aggregator.go:98-267 | each of the six aggregator methods moves the object exactly as the stage machine moves, and a refused delivery changes nothing |
| `CeremonyNodes.VerifyAttestations` | fhe-lab/lattigo/ceremony.go:730-753 | accepts exactly one valid signature of every roster member over the same digests |
| `CeremonyForms.KeysOfOneSecret` | fhe-lab/lattigo/ceremony_aggregator.go:134-267 | the gathered shares form a public, a relinearization and nine Galois keys of one secret, the sum of all members' secrets, each with its own draw |
| `CeremonyForms.ShareIsSumPolynomial` | fhe-lab/lattigo/ceremony.go:534-580 | a driven operator's accumulated share is the sum polynomial at its point |
| `CeremonyDriver.ContributionRound` | fhe-lab/lattigo/ceremony_colocated.go:76-85 | the nested loops deliver every contribution to everyone, and stop exactly at a zero contribution |
| `CeremonyDriver.SharesRound` | fhe-lab/lattigo/ceremony_colocated.go:86-109 | every private share is emitted and accepted once, no step is refused, every share is sealed |
| `CeremonyDriver.PublicRound` | fhe-lab/lattigo/ceremony_colocated.go:110-118 | no step is refused and the aggregator holds the sum of all public-key shares |
| `CeremonyDriver.RelinOneRoundOf` | fhe-lab/lattigo/ceremony_colocated.go:119-131 | no step is refused and the aggregator holds the sum of all first-round shares |
| `CeremonyDriver.RelinTwoRoundOf` | fhe-lab/lattigo/ceremony_colocated.go:132-140 | no step is refused and the aggregator holds the relinearization key |
| `CeremonyDriver.GaloisRounds` | fhe-lab/lattigo/ceremony_colocated.go:141-158 | the open-ended loop ends after one pass per rotation, with all Galois keys |
| `CeremonyDriver.Finish` | fhe-lab/lattigo/ceremony_colocated.go:173-198 | every operator seals, and the attestations verify against the roster |
| `CeremonyDriver.Conduct` | fhe-lab/lattigo/ceremony_colocated.go:76-208 | the seated ceremony succeeds exactly when no contribution and not the policy id is zero |
| `CeremonyDriver.RunColocatedCeremony` | fhe-lab/lattigo/ceremony_colocated.go:34-209 | for every count and threshold: it succeeds exactly on acceptable inputs, and then all operators are sealed with secrets erased, shares lie on the sum polynomial, the keys are keys of the sum of all secrets and the attestations cover the roster |
| `CeremonyDriver.CompletedReconstructs` | fhe-lab/lattigo/ceremony_colocated.go:34-209 | every coalition of at least threshold size of a completed ceremony reconstructs the sum of all secrets |
| `CeremonyDriver.CompletedCoalition` | fhe-lab/lattigo/ceremony_colocated.go:160-209 | the secret a coalition reconstructs opens the collective public key |
| `CeremonyDriver.CompletedFromSamples` | fhe-lab/lattigo/ceremony_colocated.go:34-209 | a completed ceremony in terms of what was sampled: all keys are keys of the sum of the sampled secrets, every share is the sum of the sampled polynomials at its point, and every attestation covers exactly these keys under the sampled key |
| `CeremonyGuards.NobodyIsSkipped` | fhe-lab/lattigo/ceremony.go:430-580 | over every history of calls an operator has a reference string only with a contribution of every member, and leaves the sharing round only with a share of every member |
| `CeremonyGuards.NothingTwice` | fhe-lab/lattigo/ceremony.go:501-561 | over every continuation no recipient gets a second share and no second share of a sender counts |
| `CeremonyGuards.ContributionsStay` | fhe-lab/lattigo/ceremony.go:430-447 | over every continuation a contribution that was heard is never replaced |
| `CeremonyGuards.AcceptsOwnSharesOnly` | fhe-lab/lattigo/ceremony.go:534-561 | a share is taken exactly when it is of this ceremony, for this operator, signed with the roster key of its sender and the first from it; it adds exactly its value |
| `CeremonyGuards.SharesOwnPolynomial` | fhe-lab/lattigo/ceremony.go:501-532 | over every history an operator shares exactly once with each member, its own polynomial at that point, under its own key |
| `CeremonyGuards.AttestsItsOwn` | fhe-lab/lattigo/ceremony.go:664-690 | over every history an operator attests exactly after all rotations, complete digests of its own reference string, under its own key |
| `CeremonyGuards.PublicShareExactly` | fhe-lab/lattigo/ceremony.go:582-597 | over every history the public-key share comes in its round, from the own secret and the first draw |
| `CeremonyGuards.RelinOneExactly` | fhe-lab/lattigo/ceremony.go:599-615 | over every history the first relinearization share comes in its round, from the own secret and mask and the second draw |
| `CeremonyGuards.RelinTwoExactly` | fhe-lab/lattigo/ceremony.go:617-639 | over every history the second relinearization share comes in its round, from the combined first round |
| `CeremonyGuards.GaloisShareExactly` | fhe-lab/lattigo/ceremony.go:641-662 | over every history rotation shares come in the circuit's order, each from its own draw |
| `CeremonyGuards.KeysNeedEveryone` | fhe-lab/lattigo/ceremony_aggregator.go:98-267 | over every history of deliveries no key is finished before every member's share of it is in |
| `CeremonyGuards.GathersExactly` | fhe-lab/lattigo/ceremony_aggregator.go:134-281 | over every history the aggregator takes one share per member in each stage, rotations in the circuit's order |
| `CeremonyGuards.AttestedByAll` | fhe-lab/lattigo/ceremony.go:730-757 | attestations that verify are one of every roster member, over these digests, under the roster key |
| `ThresholdDealer.GenerateThresholdParties` | fhe-lab/lattigo/threshold.go:215-254 | the nested loops give every party the sum of all polynomials at its point, and refuse exactly bad bounds |
| `ThresholdDealer.DealtCoalition` | fhe-lab/lattigo/threshold.go:215-274 | the additive shares of any group of at least threshold size add up to the sum of all secrets |
| `ThresholdDealer.PairDecrypts` | fhe-lab/lattigo/threshold.go:361-430 | any two dealt parties open a fresh ciphertext to what the collective secret opens it to |
| `ThresholdDealer.DecryptsOnce` | fhe-lab/lattigo/threshold.go:361-430 | once a decryption of a c1 was begun, no later call on it by any pair decrypts anything |
| `ThresholdDealer.DecryptsExactly` | fhe-lab/lattigo/threshold.go:361-430 | the dealt runtime decrypts exactly a committed result with two different parties and an unused c1, to what the collective secret opens, and a refused call consumes nothing |
| `Enrollments.PairingIsForced` | fhe-lab/lattigo/enrollment_v5.go:248-317 | cross-certification fixes the partner's scope, session and slot; nothing pairs with itself or in both orders |
| `Enrollments.PairedMeans` | fhe-lab/lattigo/enrollment_v5.go:248-317 | what two enrollments that pair have in common and how they differ, field by field, and what the pair names |
| `Enrollments.PairsWhen` | fhe-lab/lattigo/enrollment_v5.go:248-317 | nothing else is asked of two valid enrollments |
| `Enrollments.VerifyEnrollmentExactly` | fhe-lab/lattigo/enrollment_v5.go:321-360 | for arbitrary signed enrollments, however made: accepted exactly when complete, for this key and these parameters, in its window inside its issuer's, with the commitment of its own claim, and signed over all of it with the key of a listed issuer that is not revoked |
| `Enrollments.BuildsExactly` | fhe-lab/lattigo/governedfhe/enrollment_v5.go:252-330 | a case derives an enrollment exactly from complete facts, a deployed adapter and an artifact of this case, side and role that expires within it |
| `Enrollments.BuiltSays` | fhe-lab/lattigo/governedfhe/enrollment_v5.go:252-380 | every field of a derived enrollment against the case: the claim is for the role's own id, its role, vault, policy and expiry; governance record, nullifier, input commitment, issuer, times and nonce |
| `Enrollments.BuiltIsValid` | fhe-lab/lattigo/governedfhe/enrollment_v5.go:252-380 | every derived enrollment is valid |
| `Enrollments.OneCasePairsExactly` | fhe-lab/lattigo/governedfhe/enrollment_v5.go:252-380 | the two enrollments of one case pair exactly when artifacts, nonces and circuit inputs differ |
| `Enrollments.OneCasePairsForOwnArtifacts` | fhe-lab/lattigo/governedfhe/enrollment_v5.go:452-475 | with the artifacts' own digests the roles keep the artifacts apart |
| `Enrollments.DifferentCasesNeverPair` | fhe-lab/lattigo/enrollment_v5.go:261-270 | enrollments of two case bindings never pair, in any roles |
| `Enrollments.ReconstructExact` | fhe-lab/lattigo/governedfhe/enrollment_v5.go:525-558 | a stored record is accepted exactly when it is the one the case derives |
| `Enrollments.RecordExactly` | fhe-lab/lattigo/governedfhe/enrollment_v5.go:400-558 | a stored record is accepted exactly when every field is the case's and the signature is the role's own key over the derived enrollment |
| `Enrollments.CaseGateExact` | fhe-lab/lattigo/governedfhe/enrollment_v5.go:571-687 | the case gate opens exactly under conditions on the records, the case, the evaluator and the clock; every other comparison it makes is implied |
| `Enrollments.GateAdmits` | fhe-lab/lattigo/governedfhe/enrollment_v5.go:589-687 | an open gate means that A's claim is for the case's participant A and B's for B, each signed with that participant's unrevoked key, and the pair is of the case's session, sides and inputs |
| `ReleaseGate.CheckEnrollments` | fhe-lab/lattigo/operator_release_v5.go:175-204 | accepts exactly two enrollments that verify here, pair, and are the ones the descriptor names |
| `ReleaseGate.CheckInputs` | fhe-lab/lattigo/operator_release_v5.go:206-234 | accepts exactly the inputs both enrollments and the descriptor name |
| `ReleaseGate.CheckRecomputation` | fhe-lab/lattigo/operator_release_v5.go:236-286 | accepts exactly its own turn, its own runtime and outputs equal to its own recomputation |
| `ReleaseGate.VerifyAndRecompute` | fhe-lab/lattigo/operator_release_v5.go:132-287 | the fourteen checks in order decide exactly the stated authorization, and the verdict carries the operator's own outputs |
| `ReleaseGate.CollectQuorum` | fhe-lab/lattigo/governedfhe/coalition.go:643-682 | returns the first two accepting operators, two different ones, exactly when two accept and all accepting ones agree with the proposal |
| `ReleaseGate.RequireCanonical` | fhe-lab/lattigo/operator_release_v5.go:590-603 | accepts exactly one Boolean followed by zeros |
| `ReleaseGate.CanonicalIsOneBit` | fhe-lab/lattigo/operator_release_v5.go:590-603 | canonical vectors are exactly the two that spell a Boolean |
| `ReleaseGate.IndexById` | fhe-lab/lattigo/operator_release_v5.go:525-528 | the index holds the last operator listed under each id |
| `ReleaseGate.CheckResponse` | fhe-lab/lattigo/operator_release_v5.go:539-560 | accepts exactly an unused point with a matching, signed and readable share |
| `ReleaseGate.CombineReleaseBit` | fhe-lab/lattigo/operator_release_v5.go:503-583 | combines exactly a quorum of good responses with a canonical plaintext, and returns its bit |
| `ReleaseGateGuarantees.CombinesTheNamedPair` | fhe-lab/lattigo/operator_release_v5.go:536-568 | a successful combination used exactly the two named coalition members, once each |
| `ReleaseGateGuarantees.LookupFindsLast` | fhe-lab/lattigo/operator_release_v5.go:525-528 | an id finds the last operator listed under it, and nothing exactly when none is |
| `ReleaseGateGuarantees.QuorumIsSigned` | fhe-lab/lattigo/operator_release_v5.go:503-583 | every response of a combination is signed with the key the manifest lists for its operator, over this descriptor, id, point and share, and the descriptor is complete and of this ciphertext and key |
| `ReleaseGateGuarantees.GeneratesExactly` | fhe-lab/lattigo/distributed_threshold.go:288-358 | an operator shares exactly for a complete descriptor of this ciphertext, its key and a coalition naming it, and sends its own additive share under its own id, point and signature |
| `ReleaseGateGuarantees.BitsNeverMix` | fhe-lab/lattigo/operator_release_v5.go:340-380 | one signature serves one slot of one session, one ciphertext and one coalition |
| `ReleaseGateGuarantees.OnlyOwnOutputsAreReleased` | fhe-lab/lattigo/operator_release_v5.go:293-331 | for any coordinator and any request history, a combination carrying an honest operator's signature opened that operator's own recomputed output for a request it accepted |
| `ReleaseGateGuarantees.AcceptedRequest` | fhe-lab/lattigo/operator_release_v5.go:132-287 | an accepted request is one cross-certified session whose two enrollments each carry the signature of an issuer this operator trusts, over exactly the enrolled inputs, and its outputs are never (not same, conflict) |
| `ReleaseGateGuarantees.AcceptsExactly` | fhe-lab/lattigo/operator_release_v5.go:132-287 | the fourteen checks as one condition on the request, the operator, its ledger and its clock |
| `ReleaseGateGuarantees.AcceptedPledges` | fhe-lab/lattigo/operator_release_v5.go:264-286 | if the participants enrolled encodings of their pledges, the recomputed outputs are the policy's answers |
| `ReleaseGateGuarantees.CoalitionReleasesThePolicy` | fhe-lab/lattigo/governedfhe/coalition.go:728-800 | any two operators of any completed 2-of-n ceremony that accept a request release shares that combine, and the two bits are the plain policy's |
| `HonestQuorum.CaseRequestIsAccepted` | fhe-lab/lattigo/governedfhe/coalition.go:403-457 | the request a coordinator builds from an open case gate is accepted by every operator of the coalition that serves the key and runs the named build |
| `HonestQuorum.HonestQuorumOpens` | fhe-lab/lattigo/operator_release_v5.go:503-583 | where the listed operators are honest and nobody else signs with their keys, every combination that goes through consists of two different operators' own shares of the output both recomputed, and decodes to it, in any order of responses and coalition |
| `HonestQuorum.OwnDescriptorNames` | fhe-lab/lattigo/operator_release_v5.go:340-380 | the descriptor an honest operator signs names the two enrollments it accepted, their session and slot, its key, the expiry and its own output |
| `HonestQuorum.HonestCombinationIsThePolicy` | fhe-lab/lattigo/operator_release_v5.go:503-583 | so over honest operators a combination for enrollments of two encoded pledges is always one bit, the plain policy's, whoever coordinates |
| `CoalitionResults.RunKeeps` | fhe-lab/lattigo/governedfhe/coalition.go:419-548 | every interleaving of attempts with crashes keeps the store invariant, and results and marks persist |
| `CoalitionResults.OneResult` | fhe-lab/lattigo/governedfhe/coalition.go:536-548 | over every run at most one attempt returns, and it returns the public result |
| `CoalitionResults.StrandedForGood` | fhe-lab/lattigo/governedfhe/coalition.go:536-548 | after a crash between result and mark, no continuation ever marks or returns |
| `CoalitionResults.StrandedIsReachable` | fhe-lab/lattigo/governedfhe/coalition.go:536-548 | a run that ends in that state |
| `CoalitionResults.AloneIsARun` | fhe-lab/lattigo/governedfhe/coalition.go:309-548 | an undisturbed attempt on any store, however its checks end, is one of the runs |
| `CoalitionResults.LoneReturnsExactly` | fhe-lab/lattigo/governedfhe/coalition.go:309-548 | in every reachable store an undisturbed attempt that finds a result returns if and only if no result is public; then admission, result and mark are stored, otherwise result and mark stay |
| `CoalitionResults.ResultsComeFromArrivals` | fhe-lab/lattigo/governedfhe/coalition.go:462-548 | what holds of every result an attempt arrives at holds of everything stored and returned |
| `PublicResults.PublicCoalitionResultIsThePolicy` | fhe-lab/lattigo/governedfhe/coalition.go:432-548 | in every run whose arrivals are what serving quorums combine, every public or returned coalition result carries the plain policy's two bits |
| `CoalitionResults.CoalitionStore.Release` | fhe-lab/lattigo/governedfhe/coalition.go:309-548 | early refusal, consumed test, admission, late refusal, result and mark in order refine the undisturbed attempt |
| `SessionLedger.SessionStore.Reserve` | fhe-lab/lattigo/session_ledger.go:104-153 | admits exactly a well-formed pairing none of whose four names is taken, and changes the buckets as the call machine |
| `SessionLedger.SessionStore.Transition` | fhe-lab/lattigo/session_ledger.go:194-221 | settles exactly a reserved session: state, time and outputs change, pairing and reservation stay, refusal changes nothing |
| `SessionLedger.SessionStore.MarkReleased` | fhe-lab/lattigo/session_ledger.go:157-162 | releases exactly a reserved session, binds its outputs and its time, and leaves the rest |
| `SessionLedger.SessionStore.MarkFailed` | fhe-lab/lattigo/session_ledger.go:167-171 | fails exactly a reserved session, notes the time and leaves the rest |
| `SessionLedger.RunKeeps` | fhe-lab/lattigo/session_ledger.go:98-221 | over every run the two indexes are exactly the inverse of the session records |
| `SessionLedger.ConsumedOnce` | fhe-lab/lattigo/session_ledger.go:98-153 | over every run no nullifier and no enrollment is in two sessions |
| `SessionLedger.AdmittedExactly` | fhe-lab/lattigo/session_ledger.go:98-153 | a reachable ledger admits exactly a complete pairing that shares no name with any session ever reserved |
| `SessionLedger.SettledIsFinal` | fhe-lab/lattigo/session_ledger.go:155-221 | released and failed sessions never change again, and no session loses its pairing |
| `SessionLedger.NeverAgain` | fhe-lab/lattigo/session_ledger.go:98-153 | after a reservation, nothing sharing its session, nullifier or an enrollment is ever admitted |
| `WireCodecs.ReleaseTransportsExact` | fhe-lab/lattigo/distributed_threshold.go:533-630 | release descriptors and responses, with their validations, are read exactly as they are written, and no byte string is both |
| `WireCodecs.CheckedExact` | fhe-lab/lattigo/distributed_threshold.go:496-581 | for every format and every validation of its fields, a value is read from a byte string exactly when it is written as it |
| `WireCodecs.CodecExact` | fhe-lab/lattigo/distributed_threshold.go:632-650 | for every format of literal, fixed and length-prefixed fields, the accepted byte strings are exactly the encodings of valid values |
| `WireCodecs.EnrollmentTransportExact` | fhe-lab/lattigo/enrollment_transport.go:26-185 | the signed enrollment, with its shape validation, is read exactly as it is written, and modes and their bytes determine each other |
| `WireCodecs.EnrollmentSize` | fhe-lab/lattigo/enrollment_transport.go:11-20 | every accepted enrollment has the one wire size |
| `WireCodecs.Unmarshal` | fhe-lab/lattigo/ceremony.go:220-250 | the advancing reader computes the decoder and must end exactly at the end |
| `WireCodecs.FramesInjective` | fhe-lab/lattigo/circuit_v5.go:96-107 | length-prefixed concatenation is injective over payload sequences of any lengths |
| `WireCodecs.SessionRecordExact` | fhe-lab/lattigo/session_ledger.go:223-258 | a ledger record and its 177 bytes determine each other, and every string of that length is a record |
| `WireCodecs.PrivateShareExact` | fhe-lab/lattigo/ceremony.go:202-250 | a private share is read from a byte string exactly when it is written as that byte string |
| `WireLayouts.MostSignificantFirst` | fhe-lab/lattigo/ceremony.go:202-218 | numbers stand most significant byte first |
| `WireLayouts.FieldStandsAt` | fhe-lab/lattigo/ceremony.go:202-250 | in every format, what stands at the offset of a field is that field |
| `WireLayouts.PrivateShareLayout` | fhe-lab/lattigo/ceremony.go:202-250 | the byte offsets of roster, ceremony, epoch, sender, recipient, payload and signature in a private share, numbers big-endian |
| `WireLayouts.SessionRecordLayout` | fhe-lab/lattigo/session_ledger.go:223-258 | the byte offsets of every field of the 177-byte session record |
| `WireLayouts.DescriptorBytesExactly` | fhe-lab/lattigo/distributed_threshold.go:496-581 | which 320 bytes are a release descriptor, condition by condition at the byte offsets |
| `WireLayouts.ResponseFields` | fhe-lab/lattigo/distributed_threshold.go:595-630 | the byte offsets of an accepted release response, whose share has the stated digest |
| `WireLayouts.EnrollmentBytesExactly` | fhe-lab/lattigo/enrollment_transport.go:26-185 | which 564 bytes are a signed enrollment, condition by condition at the byte offsets |
| `WireCodecs.PledgeDecodesExactly` | fhe-lab/lattigo/types.go:212-313 | the one pledge decoder, mode byte and validation included, accepts exactly the encodings of valid pledges of either mode |
| `WireLayouts.PledgeFields` | fhe-lab/lattigo/types.go:212-313 | the fields of an accepted pledge: key id, nonzero fingerprint, commitments, mode byte and four or five readable ciphertexts |
| `WireCodecs.PledgeReencodesExactly` | fhe-lab/lattigo/types.go:169-313 | what the pledge decoder accepts is written back, byte for byte, exactly when the key id has at most 1024 bytes |
| `WireCodecs.LongKeyIdIsReadOnly` | fhe-lab/lattigo/types.go:169-313 | with any readable ciphertext, a valid pledge with a 1025-byte key id that is read and not written |

## Left out

- Lattice arithmetic below the algebra: noise, number-theoretic transforms, rescaling, smudging. Depth and rotations are counted, rescaling is not.
- Secrecy. Only functional correctness and state safety are stated.
- File handling of the object stores, quotas, temporary files, databases and durability: replaced by atomic create-only names and maps.
- JSON and hexadecimal forms, error texts, metrics and timing.
- The ciphertext bytes inside a pledge are opaque in `WireCodecs`; whether one can be read is a parameter.
- The operator bundle format is not spelled out.
- Evaluation requests, ingress grants and nonce reservation around the older evaluation (`circuit.go:338-420`).
- Settlement attestations (`ConfirmReleasedBits`) and the transcript, which repeat the combination of the gate and add a signature.
- ReleaseGate.CollectQuorum: takes the verdicts as given, because the source computes them concurrently without shared state.
- CoalitionResults.CoalitionStore.Release: the checks before the consumed test, and verification and combination after the admission, appear as one outcome; `PublicResults` states what that outcome is.
- CeremonyDriver.RunColocatedCeremony: returns shares instead of serialized operator bundles; re-importing a bundle is not modelled.
- ThresholdDealer.PairDecrypts: the decision and its two-party decryption are modelled on values, so the mutex around the used set is not captured; the decoded vector is left as a residue.
- The user interface, network services and deployment code of the repository.
