# Verified models of Repro It

This project models six parts of Repro It in Dafny and proves what they promise over whole runs, or between a
producer and the separate checker that judges it. `dafny verify dfyconfig.toml` checks everything.

1. **Processor requirement reduction.** The reducer walks features, operating-system states and the identity of a
   requirement, asks an executor that it does not trust to run trials under three budgets, and emits a receipt. A
   separately written checker re-derives what the receipt may mean from capability strings. `Prerequisites`,
   `ProcessorReducer`, `ReducerRuns` and `ReducerReasons` cover the runs; `ProcessorNames`, `IdentityToken`,
   `ProcessorRequirement` and `ProcessorCapture` the codecs; `StatePrerequisites` the chains behind states;
   `ProcessorBinding` and `Agreement` the capability lists of the producer and its checker. `CapabilityNames` and
   `AgreementRuns` say exactly which runs the checker accepts, `AgreementRoom` which reductions bind, `Sweeps` which
   groups a run can remove; `AgreementExact` puts them together into the exact condition, `AgreementNames` says when
   the names alone decide it, and `AgreementInstance` has concrete capsules on both sides. `BinderExact` and
   `CheckerSoundness` say what binding leaves and what acceptance means for a capsule that anyone made.
   An executor is any pair of functions of the position, the view and the grant, so a theorem about all executors
   covers every trace of answers.
2. **Sealing and opening.** `SealNonces`, `Sealing`, `SealBatch`, `SealUpload` and `Opening` model nonces, chunking,
   the ciphertext map, sorting, binding and opening; `SealSuccess`, `SealManifest` and `SealExact` say exactly when
   sealing succeeds; `SealContents` says what an upload carries, `OpeningExact` what opens; `SealRoundTrip` proves the
   round trip; `SealInstance` is a capture that seals and opens; `ManagedCandidate` models the streaming variant.
3. **Capsule resolution.** `CapsuleResolution` and `CapsuleCover`: five stages over a consume-once tracker.
   `CapsuleMeaning` says field by field what resolves.
4. **Record and replay.** `TranscriptPool` is the shared quota pool as a state machine over its critical sections;
   `HttpTranscript` has the pool, the recorder and the transcript checks; `TranscriptReplay` the fail-stop cursor and
   the results over whole runs, `TranscriptRecording` what a recorder accepts. `AutomaticCapsule` resolves a capsule
   into observations per class, `AutomaticMeaning` says what it accepts, `AutomaticReplay` and `AutomaticReplayRuns`
   replay them.
5. **Provider leases.** `Reservation` and `ReservationRuns` model the two-level allocator, `Checkpoint` and
   `CheckpointRuns` the checkpoint provider that rebuilds one on every pin.
6. **Two compact algorithms.** `Coverage` and `CoverageRuns` for World coverage, `DwarfScan` for the streaming search
   with a carry buffer.

Each component follows one pattern: a method or class in the source's own form is proved equal to a function, and the
promises are then proved about that function over every input or every run. What an acceptance guarantees is stated a
second time in outright terms, without that function.

## What the model stands on

Digests, ids and keys are values compared for equality and order. Hash functions, the cipher, canonical encodings and
parsers, signatures and the file contents are parameters. Where a result needs something of them, it is a named
premise: `SealModel.Ideal` (the cipher opens what it sealed, the nonce encoding is inverted), `SealModel.ReadsBack` (the
one manifest is read back), `SealSuccess.WellBehaved` (the cipher accepts every chunk and adds its tag, no two byte
strings share a digest, a nonce is written as sixteen URL-safe characters), `Prelude.CollisionFree`,
`CheckerSoundness.InjectiveDigest` (no two capsules share a digest) and `Checkpoint.DigestsApart`. `SealInstance.SealedInstanceOpens` meets the premises about sealing and opening together. The
nonces of a run are any stream; what a result needs of them is a finite window of new draws, `SealNonces.FreshFor`.
Lifetime expiry, the verification of a checkpoint file, the sizes that reads return and the
readiness of a consumer are parameters too, so the results hold for all of them.

Machine arithmetic is written out: saturating u64 sums in the budgets and the pool, checked u64 sums in the allocator,
u32 parsing in the identity token, and lemmas that say where a check can never fire.

## Where the code does less than it seems to

- The checker rebuilds names from capability strings, and the normalized form loses `-` in features and `_` in states.
  `AgreementIsExact` gives the exact condition for agreement; with a free place in the list it says that no such name
  may occur (`NamesDecide`), and `RefusedReductionExists` is a capsule on which the agreement fails. The names that the
  repository itself captures satisfy the condition; the general validators admit names that do not.
- `xcr0.avx512` depends on `AVX512F`, which depends on `AVX`. If a requirement starts without the middle link, `AVX`
  may be removed under the kept state. `StateChainsAreExact` gives the exact condition.
- The identity token decoder accepts a sign and leading zeros in its numerals. `TokenIsCanonical` says exactly when
  the text survives, and `LeadingZeroIsDropped` is a text that does not.
- `FileCheckpointProvider::release` removes a lease before it compares it, so a refused release can still take a lease
  out. `RefusedReleaseStillRemoves` says exactly when.

## Model

| member | source | states |
|---|---|---|
| `Ordering.RequireStrictOrder` | crates/reproit-core/src/model.rs:1130-1142 | the one pass that remembers only the previous value accepts exactly the lists that are strictly ascending between every two positions |
| `Ordering.StrictOrderIsUnique` | crates/reproit-core/src/model.rs:1130-1142 | the members of a strictly ordered list fix the list |
| `Ordering.SortDedupIsStrict` | crates/reproit-core/src/model/processor.rs:208-213 | sorting and deduplicating keeps exactly the members and orders them strictly |
| `Prerequisites.WalkIsBounded` | crates/reproit-backend/src/processor.rs:116-139 | in any acyclic table no walk has more rows than the table |
| `Prerequisites.FeatureRequires` | crates/reproit-backend/src/processor.rs:116-139 | the frontier loop bounded by the table length answers reachability exactly, for every acyclic table |
| `Prerequisites.FeatureTableRanked` | crates/reproit-backend/src/processor.rs:98-109 | the shipped prerequisite table is acyclic |
| `Prerequisites.DepthDropsAlongWalk` | crates/reproit-backend/src/processor.rs:141-148 | the dependency depth falls by at least the number of rows walked |
| `Prerequisites.DepthIsAttained` | crates/reproit-backend/src/processor.rs:141-148 | the depth is the length of some walk, so it is the longest one |
| `Prerequisites.DependentIsDeeper` | crates/reproit-backend/src/processor.rs:141-148 | a feature is strictly deeper than everything it requires, directly or not |
| `ProcessorNames.FeatureNormalizes` | crates/reproit-core/src/model/processor.rs:378-397 | a valid feature normalizes exactly when it fits in 96 bytes |
| `ProcessorNames.StateNormalizes` | crates/reproit-core/src/model/processor.rs:378-397 | a valid state normalizes exactly when it fits in 96 bytes |
| `ProcessorNames.FeatureInversion` | crates/reproit-core/src/model/processor.rs:330-337 | the checker's inverse gives a feature back if and only if the feature has no hyphen |
| `ProcessorNames.SuffixInversion` | crates/reproit-core/src/model/processor.rs:330-337 | lowercasing undoes the inverse on every capability suffix |
| `ProcessorNames.StateSuffix` | crates/reproit-core/src/model/processor.rs:354-365 | a state is its own capability suffix if and only if it has no underscore |
| `ProcessorNames.FeatureSuffixInjective` | crates/reproit-core/src/model/processor_capture.rs:262-272 | distinct hyphen-free features have distinct suffixes |
| `IdentityToken.NumeralRoundTrip` | crates/reproit-core/src/model/processor_capture.rs:223-260 | reading a numeral and writing it returns the text if and only if it has no sign and no leading zero |
| `IdentityToken.TokenRoundTrip` | crates/reproit-core/src/model/processor_capture.rs:207-260 | decoding an encoded identity returns it if and only if the identity validates |
| `IdentityToken.TokenIsCanonical` | crates/reproit-core/src/model/processor_capture.rs:207-260 | encoding a decoded token returns the token if and only if its numerals are canonical |
| `IdentityToken.LeadingZeroIsDropped` | crates/reproit-core/src/model/processor_capture.rs:223-260 | a token with a leading zero is accepted and does not come back: the failing input of the unconditional round trip |
| `Capsule.BodyIgnoresCapabilities` | crates/reproit-core/src/model/processor.rs:309-321 | replacing the capability list leaves every other test of the capsule's validation as it was |
| `ProcessorRequirement.ComputeRequirementCapabilities` | crates/reproit-core/src/model/processor.rs:176-213 | the pushing loops, the sort and the first failing name give the specified list or error |
| `ProcessorRequirement.CapabilitiesDescribed` | crates/reproit-core/src/model/processor.rs:176-213 | the list exists exactly when the view validates and its names fit, is strictly ordered, and holds exactly the strings built from the architecture, features, states, identity and digest |
| `ProcessorRequirement.PrefixesDisjoint` | crates/reproit-core/src/model/processor.rs:323-328 | no capability falls under two of the prefixes |
| `ProcessorReducer.DependentFeatureRemains` | crates/reproit-backend/src/processor.rs:150-155 | true exactly when another required feature reaches this one in the prerequisite table |
| `ProcessorReducer.ValidateReceipt` | crates/reproit-core/src/model/processor.rs:153-173 | the pass with a set of seen labels accepts exactly the well-shaped receipts with pairwise different labels |
| `ProcessorReducer.ReduceProcessorRequirements` | crates/reproit-backend/src/processor.rs:253-361 | the loop with its running requirement, trials, totals and reason is the step-by-step run of `Reduce` for every executor; `ReducerReasons` says what that run reports without it |
| `ReducerRuns.ConstraintsAreCanonical` | crates/reproit-backend/src/processor.rs:641-665 | the trial order lists each constraint of the requirement once, dependents before what they need, features before their states |
| `ReducerRuns.RemovePresence` | crates/reproit-backend/src/processor.rs:176-197 | removing a constraint removes it, the states derived from it and nothing else |
| `ReducerRuns.RemoveKeepsValid` | crates/reproit-backend/src/processor.rs:307-312 | every trial view of a valid requirement validates, so that error branch never runs |
| `ReducerRuns.BlockedStays` | crates/reproit-backend/src/processor.rs:291-295 | a feature blocked at its turn is never unblocked by later removals |
| `ReducerRuns.RunStaysInBudget` | crates/reproit-backend/src/processor.rs:296-390 | over whole runs: at most the allowed trials, every grant within what is left, totals below every cap before each trial, an over-limit trial retained and last, no cap passed by an executor that obeys its grants, and a grant ready at every position that the run reaches without having stopped |
| `ReducerRuns.CompleteRunKeepsRetained` | crates/reproit-backend/src/processor.rs:273-348 | a run that ends Complete keeps exactly the constraints with a retained trial |
| `ReducerRuns.UncontrollableRunIsExplained` | crates/reproit-backend/src/processor.rs:273-348 | in a run that ends Uncontrollable each constraint left has a retained trial, or was refused by the executor, or a feature of the final requirement depends on it |
| `ReducerRuns.PrerequisitesSurvive` | crates/reproit-backend/src/processor.rs:283-312 | a kept dependent keeps its transitive prerequisites, and a kept state its feature, in the result and in the view of every trial, and no view holds anything new |
| `ReducerReasons.TrialsAreExact` | crates/reproit-backend/src/processor.rs:283-348 | over whole runs: each trial ran the view that lacks just its constraint and the states derived from it, under exactly the grant that the totals before it left, its report was charged, and its constraint was removed exactly when the report was clean and reproduced the target |
| `ReducerReasons.ReasonIsExact` | crates/reproit-backend/src/processor.rs:221-348 | the reason of every run, from the reports, grants, totals and policy alone: Timeout and Unstable exactly by the last report, each limit exactly when, in the source's order, the last report is over its grant or a total has reached its cap, TrialLimit exactly when a constraint still present meets a full list of trials, Uncontrollable exactly when one left could not be tried, else Complete |
| `ReducerReasons.ReductionIsTold` | crates/reproit-backend/src/processor.rs:336-361 | an accepted reduction has bounded policy and one processor, and its receipt carries for every trial in order the label, the digest of the view that ran, the outcome and the decision |
| `ReducerReasons.ReducesWhen` | crates/reproit-backend/src/processor.rs:253-272 | the reducer answers exactly for valid inputs of one processor within the policy bounds, a run that does not fail and a receipt that validates |
| `ReducerReasons.RunFailsAt` | crates/reproit-backend/src/processor.rs:221-318 | a run fails only at a trial whose executor failed or whose report is both timed out and unstable |
| `StatePrerequisites.KeptChains` | crates/reproit-backend/src/processor.rs:98-114 | with no broken chain in the starting requirement, every chain behind a kept state of a result or a trial view is kept |
| `StatePrerequisites.BrokenChainLosesAvx` | crates/reproit-backend/src/processor.rs:150-155 | with xcr0.avx512 and AVX but no AVX512F, some run keeps the state and removes AVX |
| `StatePrerequisites.StateChainsAreExact` | crates/reproit-backend/src/processor.rs:98-155 | every run keeps the whole chain behind each kept state, in its result and in every trial view, if and only if the start does not hold xcr0.avx512 and AVX without AVX512F |
| `ProcessorBinding.AdmissionInput.BindProcessorRequirement` | crates/reproit-backend/src/processor.rs:598-639 | the capsule gets its foreign capabilities and the requirement's own, or is left alone |
| `ProcessorBinding.AdmissionInput.BindProcessorReduction` | crates/reproit-backend/src/processor.rs:578-596 | the edited capsule and the result, including what a late failure leaves behind |
| `ProcessorBinding.ValidateBinding` | crates/reproit-core/src/model/processor.rs:230-307 | the checker's sets and loops accept exactly the inputs of `Accepts`, whose consequences `AcceptanceIsSound` spells out |
| `CheckerSoundness.AcceptanceIsSound` | crates/reproit-core/src/model/processor.rs:230-307 | whoever made the admitted capsule: under a collision-free capsule digest, acceptance means that it is the sealed one but for its `processor.` capabilities, that its owned capabilities are exactly those of the requirement and the receipt's digest, that no host requirement is new and every lost one was removed by a trial, that each decision is what the list says, and that the receipt names this requirement |
| `BinderExact.BindsOutright` | crates/reproit-backend/src/processor.rs:578-639 | binding leaves exactly one capsule: the valid one that differs in its list alone, where foreign capabilities stay and the owned ones are those of the requirement and the receipt; it succeeds if and only if the receipt names the requirement, both validate, the names fit and that capsule is valid |
| `Agreement.BindIsIdempotent` | crates/reproit-backend/src/processor.rs:618-639 | binding the same requirement twice changes nothing |
| `Agreement.OwnedPartIsExpected` | crates/reproit-core/src/model/processor.rs:247-259 | after binding, the owned part of the list is exactly what the checker recomputes |
| `Agreement.HostRequirementsNarrow` | crates/reproit-core/src/model/processor.rs:260-270 | every host requirement that survives a reduction was in the sealed capsule |
| `CapabilityNames.PresentByName` | crates/reproit-core/src/model/processor.rs:354-372 | for any constraint, the checker's presence test answers whether some name left gives its capability, and never finds a state with an underscore |
| `CapabilityNames.CascadeTablesAgree` | crates/reproit-core/src/model/processor.rs:271-292 | the checker's own cascade table names the same states as the reducer's |
| `AgreementRuns.LossExplainedExactly` | crates/reproit-core/src/model/processor.rs:271-292 | a host requirement is explained if and only if it is still given or the checker's own name for it was required |
| `AgreementRuns.TrialsAgreeExactly` | crates/reproit-core/src/model/processor.rs:293-305 | all trials agree with the list if and only if nothing that is gone is still read under another name and no state with an underscore was retained |
| `AgreementRuns.RunAgreesExactly` | crates/reproit-core/src/model/processor.rs:230-307 | for every executor and policy: a run that binds is accepted if and only if no capability is split or orphaned by what it removed and no state with an underscore was retained |
| `AgreementRuns.ProducerCheckerAgree` | crates/reproit-backend/src/processor.rs:253-361 | for every executor and policy, a reduction that binds onto a capsule bound to the start is accepted by the checker, when no name is ambiguous |
| `AgreementRuns.ReduceAndBind` | crates/reproit-backend/src/processor.rs:556-576 | reduce, bind and check in sequence: the exact result and capsule, and no refusal by the last check for a bound capsule with unambiguous names |
| `AgreementRoom.ReceiptIsValid` | crates/reproit-backend/src/processor.rs:336-361 | whatever the executor does, the receipt of a run passes its own validation when the names fit |
| `AgreementRoom.NarrowedReductionBinds` | crates/reproit-backend/src/processor.rs:578-596 | any narrowed requirement and its receipt bind when the sealed list, less the host requirements lost, has fewer than 64 capabilities |
| `AgreementRoom.BindsExactly` | crates/reproit-backend/src/processor.rs:578-596 | a narrowed requirement and its receipt bind if and only if the list has fewer than 64 capabilities or some host requirement is lost |
| `Sweeps.SweepRuns` | crates/reproit-backend/src/processor.rs:273-348 | any group of at most 16 constraints that holds the dependents of its features can be removed by one run, leaving exactly the rest, with one more state tried and retained |
| `AgreementExact.UnreadableIsDivisive` | crates/reproit-backend/src/processor.rs:273-348 | the constraints that an unreadable run removed are a closed group of at most 16 whose removal alone already divides names from capabilities, or leaves a trial for a state with an underscore |
| `AgreementExact.AgreementIsExact` | crates/reproit-core/src/model/processor.rs:230-307 | for every bound capsule: every run that binds is accepted if and only if no divisive group of constraints can be removed with a place left in the list, a condition on the requirement and the list size alone |
| `AgreementNames.AmbiguousDivides` | crates/reproit-core/src/model/processor.rs:330-365 | removing an ambiguous feature, or an ambiguous state of its own capability, without the other names always splits or orphans the capability |
| `AgreementNames.NamesDecide` | crates/reproit-core/src/model/processor.rs:230-307 | with a free place in the list, or one constraint whose removal frees one, every run that binds is accepted if and only if no feature has a hyphen and no state an underscore |
| `AgreementNames.OneCapabilityAgrees` | crates/reproit-backend/src/processor.rs:586-596 | on a full list a requirement of one capability under several names, the checker's own among them, is never refused |
| `AgreementRoom.FullListNeedsALoss` | crates/reproit-backend/src/processor.rs:586-596 | on a full list a reduction that loses no host requirement never binds |
| `AgreementInstance.AgreementHasInstances` | crates/reproit-core/src/model/processor.rs:230-307 | for every digest function, every family of features of one capability and every list size from 3 to 64 a concrete valid capsule is bound, so the premises of the agreement theorems hold together |
| `AgreementInstance.AcceptedReductionExists` | crates/reproit-backend/src/processor.rs:556-576 | for the feature AVX some run removes it, binds, and is accepted |
| `AgreementInstance.RefusedReductionExists` | crates/reproit-backend/src/processor.rs:556-576 | for the feature A-B the same run binds and is refused on lists of every size: the failing input of the agreement |
| `AgreementInstance.FullListAgrees` | crates/reproit-backend/src/processor.rs:586-596 | a concrete full list of 64 with the features A-B and A_B on which no run is ever refused |
| `ProcessorCapture.CaptureDecodes` | crates/reproit-backend/src/processor.rs:451-514 | a well-formed capture decodes exactly when it stays inside the two list bounds |
| `ProcessorCapture.CaptureIsExact` | crates/reproit-backend/src/processor.rs:451-514 | for every list of capabilities, decoding answers exactly the valid observation of the architecture whose features and states are those of the entries, in order and each once, and whose identity is absent or comes from the only identity entry and fits the architecture |
| `ProcessorCapture.CaptureRoundTrip` | crates/reproit-backend/src/processor.rs:451-529 | for every capture that decodes, taking the initial requirement and encoding it returns the captured list with only the architecture and the requirement digest added, if and only if every entry is canonical |
| `SealModel.ChunksRejoin` | crates/reproit-backend/src/seal.rs:355-390 | cutting into chunks loses nothing, for every size including none |
| `SealModel.ChunksAreCounted` | crates/reproit-backend/src/seal.rs:384-392 | the number of chunks is the rounded-up quotient |
| `SealNonces.NonceRegistry.Register` | crates/reproit-core/src/crypto.rs:30-44 | a nonce is accepted once |
| `SealNonces.FreshSplits` | crates/reproit-core/src/crypto.rs:30-44 | a window of draws is new exactly when its first part is new and its second part is new after the first |
| `Sealing.EncryptObject` | crates/reproit-backend/src/seal.rs:355-432 | succeeds exactly when the descriptor describes the bytes, the chunks are few enough, the next draws are new and the cipher accepts every chunk; each chunk is then sealed under its own context and draw, and one nonce per chunk was drawn |
| `Sealing.AppendCiphertext` | crates/reproit-backend/src/seal.rs:434-452 | succeeds exactly when all digests are new and different; the map grows by exactly these records |
| `SealBatch.AddPlainObject` | crates/reproit-backend/src/seal.rs:502-517 | succeeds exactly when the id is in neither collection |
| `SealBatch.CollectPlaintext` | crates/reproit-backend/src/seal.rs:454-500 | succeeds exactly when the four document ids are new and apart; the objects and descriptors with the capsule and the three proofs added |
| `SealSuccess.NewNoncesNewDigests` | crates/reproit-backend/src/seal.rs:434-452 | records under new nonces have new and different digests, so fresh draws never collide |
| `SealSuccess.LoopSucceeds` | crates/reproit-backend/src/seal.rs:198-225 | the loop over the objects succeeds exactly when every descriptor has its bytes and the draws of all chunks together are new |
| `SealBatch.EncryptCaptureObjects` | crates/reproit-backend/src/seal.rs:198-225 | succeeds exactly when the ids are new and every object in id order encrypts and appends; the ciphertext map then holds every chunk of every object once and nothing else |
| `SealUpload.EncryptManifest` | crates/reproit-backend/src/seal.rs:264-288 | succeeds exactly when the manifest is one chunk with a new draw that the cipher accepts |
| `SealUpload.BuildEnvelope` | crates/reproit-backend/src/seal.rs:290-347 | succeeds exactly when the manifest binds, the unsigned identity validates, the failure can be grouped and fingerprinted, the signer signs and the signed envelope validates, which it then returns |
| `SealUpload.SealManifest` | crates/reproit-backend/src/seal.rs:166-180 | succeeds exactly when the manifest encrypts and its record is new, and then adds that record to the map |
| `SealUpload.SealCapture` | crates/reproit-backend/src/seal.rs:158-190 | the exact outcome for every request and stream of draws, and for a success that every object is stored under its own context, the ciphertext map is closed and the envelope is signed |
| `SealContents.SealedCarries` | crates/reproit-backend/src/seal.rs:158-347 | what a sealed upload says, field by field from the request: the ids, mode, digests, capabilities and revision of manifest and envelope, the objects, capsule and proofs each listed once in id order with the digest and size of the bytes handed in, the uploads in order, new ids, and the signer's signature over the unsigned envelope |
| `SealExact.SortedIdentityIsValid` | crates/reproit-backend/src/seal.rs:290-347 | with fresh draws the sorted upload list passes every test of the envelope's identity |
| `SealManifest.ManifestValidatesExactly` | crates/reproit-core/src/proof.rs:72-116 | the manifest of a sealable capture validates if and only if the capture fits and the manifest is one chunk: its versions, chunk entries, order, capsule entry and proof entries never fail |
| `SealExact.SealSucceedsExactly` | crates/reproit-backend/src/seal.rs:158-347 | sealing succeeds if and only if the ids are valid, every descriptor has its bytes, the objects have ids and roles of their own and few enough chunks, capabilities and proofs are fit, one draw per chunk and one for the manifest are new, and the manifest is one chunk under an envelope that can be signed: nothing that sealing makes itself is refused |
| `SealInstance.SealingHasInstances` | crates/reproit-backend/src/seal.rs:158-190 | a concrete suite, request and stream on which sealing succeeds |
| `SealInstance.SealedInstanceOpens` | crates/reproit-backend/src/seal.rs:69-225 | on that request the sealed capture opens again and returns its contents, so the premises of the exact condition and of the round trip hold together |
| `Opening.DecryptObject` | crates/reproit-backend/src/seal.rs:616-661 | the growing buffer ends as the concatenation of what the object's own records decrypt to, with the declared size and digest, or there is an error |
| `Opening.ValidateCiphertextClosure` | crates/reproit-backend/src/seal.rs:534-572 | accepts exactly a valid envelope whose listed records are the whole map, each with its own digest, size and nonce |
| `Opening.OpenSealedCapture` | crates/reproit-backend/src/seal.rs:69-119 | an opened capture is authentic: the signature over the unsigned envelope verifies under the given key, the map holds exactly the listed records under their digests and nonces, the manifest comes from its record, agrees with the envelope field by field and lists exactly its uploads, and every returned object is what its records decrypt to, with the declared size and digest |
| `OpeningExact.OpensExactly` | crates/reproit-backend/src/seal.rs:69-119 | for every envelope, key and ciphertext, opening answers exactly the authentic contents and refuses when there are none |
| `SealRoundTrip.ObjectOpens` | crates/reproit-backend/src/seal.rs:616-661 | a stored object opens to its bytes, for every size including empty and multi-chunk |
| `SealRoundTrip.SealedCiphertextIsClosed` | crates/reproit-backend/src/seal.rs:534-572 | the map of a sealed batch is closed over the sorted upload list |
| `SealRoundTrip.SealedNoncesDiffer` | crates/reproit-backend/src/seal.rs:397-398 | no two records of a sealed batch start with the same nonce |
| `SealRoundTrip.SealedManifestOpens` | crates/reproit-backend/src/seal.rs:92-119 | the manifest opens and binds from the envelope alone |
| `SealRoundTrip.SealedCaptureOpens` | crates/reproit-backend/src/seal.rs:69-119 | whenever sealing succeeded and the verification key matches the signer, opening succeeds |
| `SealRoundTrip.SealedContentsReturn` | crates/reproit-backend/src/seal.rs:69-225 | opening returns the same manifest and, byte for byte, every capsule object, the capsule and the three proofs |
| `ManagedCandidate.OpenManagedObject` | crates/reproit-core/src/crypto.rs:392-445 | deliveries are the object's chunks in order and never exceed its size; with a willing consumer it succeeds exactly on an intact object |
| `ManagedCandidate.StreamOneMore` | crates/reproit-core/src/crypto.rs:291-315 | adding one object's deliveries, complete or not, keeps the stream a prefix of the schedule |
| `ManagedCandidate.OpenManagedCandidate` | crates/reproit-core/src/crypto.rs:265-317 | every delivery, even before a failure, is one record decrypted under the identity's own context, in index and identity order, never past its object's size; on success the map holds exactly the listed records, the manifest agrees with the identity field by field, and every object arrived with its declared size and digest; with a willing consumer the exact condition for success |
| `CapsuleResolution.OneObjectIsMember` | crates/reproit-core/src/model/capsule.rs:398-408 | the selected object is a member and matches its selector |
| `CapsuleResolution.ObjectConsumption.Consume` | crates/reproit-core/src/model/capsule.rs:168-177 | an object is consumed exactly when it is listed and unused, and the tracker remembers it; any other is refused |
| `CapsuleResolution.ObjectConsumption.RequireComplete` | crates/reproit-core/src/model/capsule.rs:178-184 | complete exactly when every listed id was used |
| `CapsuleResolution.ConsumeAll` | crates/reproit-core/src/model/capsule.rs:206-231 | succeeds exactly when every selector names one object and no object repeats |
| `CapsuleResolution.ResolveSubject` | crates/reproit-core/src/model/capsule.rs:187-231 | the stage's manifest and members, consumed once each |
| `CapsuleResolution.ResolveTrigger` | crates/reproit-core/src/model/capsule.rs:233-257 | the trigger and its inputs, consumed once each |
| `CapsuleResolution.ResolveWorld` | crates/reproit-core/src/model/capsule.rs:280-314 | the World manifest and its artifacts, consumed once each over the shared tracker |
| `CapsuleResolution.ResolveDependency` | crates/reproit-core/src/model/capsule.rs:316-369 | no transcript, or one whose request and response objects are consumed once each |
| `CapsuleResolution.ResolveReplayCapsule` | crates/reproit-core/src/model/capsule.rs:99-131 | the five stages over one tracker are `ResolveSpec`, which `ResolvedIsMeant` characterizes without any stage |
| `CapsuleMeaning.ResolvedIsMeant` | crates/reproit-core/src/model/capsule.rs:99-408 | a capsule resolves to exactly this: every document is the only object of its role, media type and digest, read back from bytes of the right size and digest; the World has the capsule's World digest, the failure names its own object and the capsule's identity, the launch fields agree; every member, input, artifact, request and response is the only object with the id, role, media type, digest and size of the reference at its position; and all objects are used once |
| `CapsuleCover.ResolutionCoversExactly` | crates/reproit-core/src/model/capsule.rs:99-185 | success is an exact cover: the resolved descriptors are a permutation of the capsule's objects |
| `CapsuleCover.ReaderCannotChangeMeaning` | crates/reproit-core/src/model/capsule.rs:371-396 | any two readers that both succeed give the same resolved value |
| `CapsuleCover.HonestReaderSucceeds` | crates/reproit-core/src/model/capsule.rs:371-396 | if any reader succeeds, every reader that returns the declared bytes succeeds with the same result |
| `TranscriptPool.PoolIsAlwaysAccounted` | crates/reproit-backend/src/dependency.rs:311-398 | under every interleaving the counters equal the live reservations, their byte sum and the close guards, within every limit |
| `TranscriptPool.DropsAreExact` | crates/reproit-backend/src/dependency.rs:375-398 | no subtraction of a drop ever saturates |
| `TranscriptPool.ReleasedOnce` | crates/reproit-backend/src/dependency.rs:296-301 | a finished reservation is never dropped again, whatever runs afterwards |
| `TranscriptPool.QuietPoolIsEmpty` | crates/reproit-backend/src/dependency.rs:375-398 | the counters read zero exactly when no reservation and no close guard is left |
| `TranscriptPool.AdditionsFit` | crates/reproit-backend/src/dependency.rs:337-354 | within valid limits no addition of `open` leaves u64, so refusals are never arithmetic |
| `HttpTranscript.VerifyDependencyTranscript` | crates/reproit-backend/src/world.rs:255-283 | accepts exactly the transcripts of 1 to 1024 interactions in sequence, caused by the operation, with both objects present under their digests |
| `HttpTranscript.CollectIds` | crates/reproit-backend/src/dependency.rs:75-84 | the set of seen ids refuses exactly the lists in which some object name repeats |
| `HttpTranscript.ValidateTranscript` | crates/reproit-backend/src/dependency.rs:69-98 | accepts exactly the whole transcripts: 1 to 1024 interactions numbered in order, of the operation, with both objects present under their digests, no object named twice, no object without a name, and both byte limits kept |
| `HttpTranscript.DependencyTranscriptPool.Open` | crates/reproit-backend/src/dependency.rs:324-363 | a provider exactly when the bounds are in range and every counter has room, with the pool's new counters; else an unchanged pool |
| `HttpTranscript.HttpTranscriptProvider.Record` | crates/reproit-backend/src/dependency.rs:198-242 | accepts exactly when the provider is active, both sides, the count and the bytes are within bounds, the position and digests are right and both names are new; the new state, and what an expiry gives back to the pool |
| `HttpTranscript.HttpTranscriptProvider.Close` | crates/reproit-backend/src/dependency.rs:244-274 | the exact outcome, an empty provider, and the reservation and the close slot back in the pool on every path |
| `HttpTranscript.HttpTranscriptProvider.Discard` | crates/reproit-backend/src/dependency.rs:276-279 | an empty provider and its reservation back in the pool |
| `TranscriptReplay.HttpTranscriptReplay.New` | crates/reproit-backend/src/dependency.rs:102-113 | refuses exactly the transcripts that do not validate |
| `TranscriptReplay.HttpTranscriptReplay.Exchange` | crates/reproit-backend/src/dependency.rs:115-143 | the exact cursor and answer of one call |
| `TranscriptReplay.ExchangeCases` | crates/reproit-backend/src/dependency.rs:115-143 | a call is the next recorded exchange or fails the replay for good; the missing-response path is unreachable |
| `TranscriptReplay.FinishIsExact` | crates/reproit-backend/src/dependency.rs:101-150 | `finish` accepts exactly the call sequences that asked for the recorded requests, all of them, in order, for the right operation |
| `TranscriptReplay.RefusalIsFinal` | crates/reproit-backend/src/dependency.rs:115-160 | after any refused call every later call is refused and `finish` fails |
| `TranscriptReplay.AnsweredAsRecorded` | crates/reproit-backend/src/dependency.rs:115-143 | a run that asks as recorded, up to any point, is answered as recorded |
| `TranscriptReplay.RecordingIsFaithful` | crates/reproit-backend/src/dependency.rs:198-242 | over any calls the recorder's bytes, names, positions, digests and objects stay exactly those of the accepted pairs |
| `TranscriptReplay.RecordCloseReplay` | crates/reproit-backend/src/dependency.rs:198-274 | after any calls `close` succeeds exactly when it should, what it returns validates, and replaying the recorded requests returns the recorded responses and finishes |
| `TranscriptRecording.RecordAgrees` | crates/reproit-backend/src/dependency.rs:198-242 | one call on a provider that holds a recordable list is accepted if and only if it is in time and the longer list is recordable, and refused for quota exactly when inactive, late, too large or full |
| `TranscriptRecording.RecordingRefines` | crates/reproit-backend/src/dependency.rs:198-279 | over any calls, accepted or not, the provider holds exactly the pairs that a recorder over lists has taken, with their bytes, order, names and objects |
| `TranscriptRecording.RecordsExactly` | crates/reproit-backend/src/dependency.rs:198-242 | on an opened provider a list is accepted in full if and only if it is recordable: at most the bounded number, positions 0, 1, 2 and so on, right digests, names all apart, sides and total within their limits; the provider then holds exactly it |
| `TranscriptRecording.RecordedListReplays` | crates/reproit-backend/src/dependency.rs:101-274 | a recordable list of one operation closes, validates and replays: its requests in order get its responses in order and the replay finishes |
| `Reservation.ValidateCapacity` | crates/reproit-core/src/resource_model.rs:26-41 | the loop over the shares accepts exactly the valid capacities |
| `Reservation.UsageOf` | crates/reproit-core/src/resource_model.rs:144-159 | the checked running total fails only when the whole total leaves u64, in whatever order |
| `Reservation.RequireAvailable` | crates/reproit-core/src/resource_model.rs:161-172 | accepts exactly when one more lease and its claim fit |
| `Reservation.ProviderReservationModel.Reserve` | crates/reproit-core/src/resource_model.rs:71-111 | reserved exactly when the claim is representable, the id new, the service known and one more lease fits at both levels, component by component over unbounded sums; repeated and conflicting ids answered exactly; a refusal changes nothing |
| `Reservation.ProviderReservationModel.Release` | crates/reproit-core/src/resource_model.rs:113-123 | only the owning service releases, and only that reservation goes |
| `ReservationRuns.CapacityIsNeverExceeded` | crates/reproit-core/src/resource_model.rs:71-123 | over every run both lease counts and all four claim components stay within both levels |
| `ReservationRuns.NoRefusalIsOverflow` | crates/reproit-core/src/resource_model.rs:144-193 | in reachable states no checked addition fails, so every refusal is a real one |
| `ReservationRuns.ReleaseGivesBack` | crates/reproit-core/src/resource_model.rs:113-123 | a release gives back exactly its own claim to the whole and to its service, and to no other service |
| `ReservationRuns.ReserveThenRelease` | crates/reproit-core/src/resource_model.rs:71-123 | a repeated reservation changes nothing, and reserving then releasing is the identity |
| `Checkpoint.NoRoomStaysNoRoom` | crates/reproit-backend/src/checkpoint.rs:506-512 | a replayed prefix without room means the whole table has none |
| `Checkpoint.ImageSize` | crates/reproit-backend/src/checkpoint.rs:242-245 | the table and the model it stands for have the same size, so the provider's own count test never decides alone |
| `Checkpoint.ReserveClaim` | crates/reproit-backend/src/checkpoint.rs:491-519 | rebuilding a model from all leases in any order decides exactly what an incrementally kept model decides |
| `Checkpoint.FileCheckpointProvider.PinFirstSection` | crates/reproit-backend/src/checkpoint.rs:242-268 | the exact lease table after the first critical section |
| `Checkpoint.FileCheckpointProvider.Pin` | crates/reproit-backend/src/checkpoint.rs:208-279 | without interference, from the point and the table alone: which lease is returned, exactly when `pin` adds it or finds it active, each error exactly, and otherwise the table as it was |
| `Checkpoint.FileCheckpointProvider.Release` | crates/reproit-backend/src/checkpoint.rs:347-361 | the exact table and result, including the removal on a mismatch |
| `CheckpointRuns.RebuildRefinesIncremental` | crates/reproit-backend/src/checkpoint.rs:242-277 | rebuilding on every pin and keeping one model give the same table after every interleaving |
| `CheckpointRuns.EveryInterleavingFits` | crates/reproit-backend/src/checkpoint.rs:242-277 | every interleaving of pin's two critical sections with releases stays within the configured maximum |
| `AutomaticReplay.RequireContiguousPositions` | crates/reproit-backend/src/automatic_replay.rs:312-324 | the one pass with a counter per class accepts exactly the observations whose positions are an initial segment in every class |
| `AutomaticReplay.TakeBaseline` | crates/reproit-backend/src/automatic_replay.rs:326-339 | position zero is gone, and accepted exactly with the right request and outcome |
| `AutomaticReplay.TakeBaselines` | crates/reproit-backend/src/automatic_replay.rs:145-160 | succeeds exactly when positions are contiguous and both baselines hold, and leaves everything but the baselines |
| `AutomaticCapsule.Resolve` | crates/reproit-backend/src/automatic_replay.rs:84-310 | the two loops over one map, with every refusal on the way, end in `ResolvedReplay`, which `ReplayIsMeant` characterizes without any step |
| `AutomaticMeaning.ReplayIsMeant` | crates/reproit-backend/src/automatic_replay.rs:84-339 | a capsule resolves to a replay if and only if its parts say so: every artifact of the first point and every interaction of the operation has payloads of the right type, size and digest that name the same observation, keys are all apart, no position is missing below another, both baselines answer their requests, and the replay holds every other observation and nothing else |
| `AutomaticCapsule.InteractionReplays` | crates/reproit-backend/src/automatic_replay.rs:55-72 | whatever resolving accepts can be replayed: every interaction but the wall clock, asked with its recorded request, is answered with its recorded response |
| `AutomaticCapsule.RecordedRunReplays` | crates/reproit-backend/src/automatic_replay.rs:55-72 | in a run of any order a recorded request is answered exactly when no earlier call took its observation |
| `AutomaticCapsule.ObservationIsRecorded` | crates/reproit-backend/src/automatic_replay.rs:84-310 | every observation of an accepted replay comes from one artifact or interaction |
| `AutomaticCapsule.ReplayHoldsSegments` | crates/reproit-backend/src/automatic_replay.rs:48-53 | an accepted capsule holds for each class exactly the positions from its first one up to some end |
| `AutomaticReplay.AutomaticReplay.TakeResponse` | crates/reproit-backend/src/automatic_replay.rs:55-72 | a recorded observation exactly when its key is left, the request is small, has the recorded digest and makes a pair of its class and outcome; only a success changes anything, and removes only its key |
| `AutomaticReplayRuns.RemainderIsExact` | crates/reproit-backend/src/automatic_replay.rs:55-72 | after any run an observation is gone exactly when some call named it with an acceptable request, wherever it stood |
| `AutomaticReplayRuns.CompleteIsExact` | crates/reproit-backend/src/automatic_replay.rs:75-81 | `require_complete` accepts exactly the runs that asked for every observation |
| `AutomaticReplayRuns.TakenOnce` | crates/reproit-backend/src/automatic_replay.rs:55-72 | no key succeeds twice |
| `AutomaticReplayRuns.TakeSucceedsExactly` | crates/reproit-backend/src/automatic_replay.rs:55-72 | a call succeeds exactly when the whole replay accepts it and no earlier call did its work, so any order will do |
| `Coverage.ValidateWorldClosure` | crates/reproit-core/src/proof.rs:24-40 | accepts exactly the closures of the policy's own digest with one receipt per rule, of its boundary, its class, one of its mechanisms and a version in range |
| `Coverage.FullCoverage` | crates/reproit-core/src/capture_coverage.rs:50-53 | as many accepted receipts as rules means one receipt for every rule |
| `Coverage.InPolicyOrder` | crates/reproit-core/src/proof.rs:24-40 | in policy order a full set of receipts passes the independent check exactly when every version is in range |
| `Coverage.CaptureCoverage.Record` | crates/reproit-core/src/capture_coverage.rs:25-44 | a receipt is kept exactly when some rule has its boundary, its class and its mechanism and it is the first for that boundary; otherwise the capture is spoiled |
| `Coverage.CaptureCoverage.Close` | crates/reproit-core/src/capture_coverage.rs:50-61 | succeeds exactly on an unspoiled, full capture with every version in range; the closure has the policy's digest and the receipt of each rule in the policy's order, and passes the independent check |
| `CoverageRuns.ValidWhenClean` | crates/reproit-core/src/capture_coverage.rs:25-48 | a capture stays valid exactly while every receipt was accepted and nothing was unowned, and then holds exactly those receipts |
| `CoverageRuns.ClosesExactly` | crates/reproit-core/src/capture_coverage.rs:25-61 | `close` succeeds exactly when every `record` succeeded, nothing was unowned, each rule has one receipt and every version is in range |
| `CoverageRuns.ArrivalOrderDoesNotMatter` | crates/reproit-core/src/capture_coverage.rs:25-61 | the same events in any order give the same closure, or none |
| `DwarfScan.MagicHidesNothing` | crates/reproit-backend/src/subject.rs:489-493 | no marker touches the four bytes consumed first |
| `DwarfScan.ClearGrows` | crates/reproit-backend/src/subject.rs:511-512 | carrying fifteen bytes is enough: an occurrence that reaches past the boundary begins inside the next window |
| `DwarfScan.KeepTail` | crates/reproit-backend/src/subject.rs:511-512 | the last bytes of the window move to the front of the buffer |
| `DwarfScan.ContainsEmbeddedDwarf` | crates/reproit-backend/src/subject.rs:487-514 | for every file and every schedule of read sizes the answer is the whole-file one; a file that cannot be opened is an error, a failing read of the first four bytes answers no, and only a later failing read of an ELF file gives another error |

## Left out

- SealRoundTrip.SealedContentsReturn: assumes documents whose length fits in u64, which every slice in memory does.
- CapsuleResolution.ResolveReplayCapsule: does not model which error a refusal carries, because no property needs it; the same holds for the errors of `Opening`.
- Coverage.CaptureCoverage.Close: the policy digest is a parameter, so a failing canonical encoding of the policy is not modelled.
- AutomaticCapsule.Resolve: the parsers of URIs, state responses, semantic pairs, the environment and the clock, and the validation of the World and the transcript, are parameters that may fail.
- Checkpoint.ReserveClaim: assumes that distinct lease ids have distinct digests, as an ideal hash gives.
- CheckpointRuns.EveryInterleavingFits: says nothing about what two holders of the same lease id observe of each other's pin.
- TranscriptReplay.RecordCloseReplay: is about sequential use of one provider; `record` tests its reservation before it takes the state lock, so only the pool counters are stated for all interleavings.
- Materializing and verifying a checkpoint, and the files that release deletes: they change no lease and no claim.
- The file system, `/proc`, clocks, environment variables and mutex poisoning: inputs of the modelled code, taken as parameters.
- `capture_processor_capabilities` and the parsing of `cpuinfo` and the auxiliary vector: text scanning without a partner to agree with; the codecs that consume its output are modelled.
- SHA-256, AES-GCM, HKDF, Ed25519, base64url (apart from the whole groups in `Base64Url`) and canonical JSON: their libraries are not part of this model; only the framing that the code owns is, with the 12-byte nonce prefix and the overhead of 28 bytes.
- The fields of the upload envelope and the role counts of the managed identity that one comparison settles: each is one predicate parameter of the model.
- `validate_proof_set`, the admission of a candidate and the perturbation bindings: comparisons of fields.
- `private_closure.rs`, `closure.rs` and the subject packaging walk: field comparison and input and output around the resolver and the sealing that are modelled.
- Serde shapes, `format` tags, error messages, fixtures, benches, fuzz targets and the cloud interface: no behaviour of the modelled components depends on them.
- Termination and progress of the executor, the consumer and the reader: each call is one function application.
