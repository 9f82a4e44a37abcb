# Guardian verification models

Machine-checked models of the parts of Guardian whose correctness is hardest to see by
reading one function. `dafny verify dfyconfig.toml` checks everything.

* **Durable freshness and authorization.** `FreshnessState`, `Authorization` hold the pure
  rules; `HostFiles`, `FreshnessBackend`, `AuthorizationBackend` are the two compare-and-swap
  file stores, down to candidate file, re-read, replace and directory sync, over the printers,
  parsers and key order of `Json`, `JsonOrder` and `Decimal`; `JsonReading` ties the parser to
  the grammar. `Lifecycles` are the drivers as
  they run alone. `Protocol` interleaves any number of driver invocations call by call, with
  failing calls and crashes; `ProtocolInvariant` is what every step keeps, `ProtocolTheorems`
  what holds after every run, and `ReenteredEpochs` when a statement can be fresh again. An
  environment fault is a value chosen by the caller; a session that takes no further step has
  crashed; a sync failure after a replace is a failed commit that did take effect. The directory
  keeps, as a ghost, every content it ever had: those are the contents a crash can leave.
* **Supervisory control.** `Control` gives one function per entry point and a class that
  updates the status in place and is proved to do exactly that, with an output callback that
  may refuse any call. `ControlPolicy` says of each entry point what it demands and does,
  condition by condition; `ControlTheorems` is about every run of entry points and every way
  the callback can answer.
* **Byte-level formats.** `JsonText` is the concrete syntax of RFC 8259 as a tree, `JsonLiterals`
  what the ASCII printer writes for code points, `JsonScanner` the two raw-member scanners as
  loops, `JsonScannerTheorems` their exactness on valid texts and `JsonScannerShape` what they
  find on any text. `Base64Url` and `Transcript` are the signature text and the signed bytes,
  `SignedBytes` their layout and text spelled out.
* **Numeric kernels.** `Rings` (commutative rings, complex numbers over one, powers, sums),
  `Fft` (bit reversal), `Butterflies` (why a stage is right) and `FastTransform` (the loops over
  two arrays). `SquareRoot`, `Acquisition`, `Processor` use types of the C widths, so that
  wrap-around is excluded at every operation where it is not written out; `AcquisitionTheorems`
  says what the published values mean.
* **Smaller cores.** `DocumentRegister` (supersession search, authority resolution),
  `SourceStripper`, `NodeLink`.

Facts found on the way, each stated by a member below:

* The freshness record remembers one previous epoch only. Over every run, a statement that was
  told fresh is a candidate again iff its producer is back in that epoch in another tenure, with
  nothing as late accepted there (`ReenteredEpochs.FreshAgainIff`), and a run of two transitions
  away and one back ends that way (`FreshTwice`). So "at most once" holds per tenure, not per
  epoch. Going straight back is refused (`DirectReturnIsRefused`).
* Over the host transaction store the first epoch transition of a scope can be committed only
  with no previous generation, although the parameter is annotated as an integer
  (`epoch_transition_lifecycle.py:153-165`) and the repository's own lifecycle cases pass one
  over a stub store; with callers that always pass one, no transition is ever committed
  (`ProtocolTheorems.WithGenerationNoTransition`). A later one needs the freshness state its
  predecessor granted, untouched (`Lifecycles.TransitionConsumedIff`,
  `ProtocolTheorems.ConsecutiveGrantsAreAdjacent`).
* Installing another output adapter drops the permit and asks the replaced one nothing, so that
  one keeps what it last accepted: while no output failure is latched it is left released iff
  the permit was not published (`ControlTheorems.ReplacedAdapterIsNotReleased`). After a DISARM
  whose release was refused the permit is unpublished and the adapter still at 1
  (`RefusedReleaseStaysAsserted`). Nothing but installing it again changes that
  (`ReplacedKeepsLastAccepted`), so the new adapter can be cleared, armed and brought to ACTIVE
  while the replaced one stays at 1 (`ReplacedStaysAsserted`). The state stays ACTIVE or DEGRADED
  without the permit iff the new adapter accepts 0 (`ReplacementKeepsState`).
* The raw-member scanners return a scalar value together with the white space after it; for
  objects, arrays and strings the slice is exact. The two versions find different ends only on
  texts where a scalar start meets `]` before any `,` or `}`, which no valid object text
  contains (`JsonScannerTheorems.VersionsAgreeIff`); `ExtractionsAgreeIff` says for every text
  whether the two extractions then differ.
* The RMS code never exceeds the largest absolute delta of its block. It falls below the
  smallest exactly when the wrapped accumulator does (`AcquisitionTheorems.RmsBetween`), which
  12-bit codes exclude and a block of wider codes shows (`WideCodesWrap`).
* Printed as ASCII and parsed again, a string comes back unless a lone high surrogate stands
  directly before a lone low one (`JsonLiterals.LiteralRoundTripIff`).

## Model

| member | source | states |
|---|---|---|
| FreshnessState.CandidateIffFreshStep | assurance/src/guardian_assurance/freshness_evaluator.py:42-115 | a statement is a candidate iff it is of the current epoch and advances the record to a well-formed, strictly later one |
| FreshnessState.VerdictsAfterTransition | assurance/src/guardian_assurance/epoch_transition_lifecycle.py:129-150 | after a transition every statement of the new epoch is a candidate and every one of the superseded epoch an epoch rollback |
| FreshnessState.StatementValidIff | assurance/src/guardian_assurance/validation.py:74-96 | a statement is valid iff its identifier, epoch and time meet the grammars and bounds, in numbers |
| FreshnessState.StateValidIff | assurance/src/guardian_assurance/freshness_state.py:75-111 | a record is well-formed iff its parts are, its epochs differ, its mark agrees with its state, and its counters fit 64 bits |
| Decimal.WireBijection | assurance/src/guardian_assurance/authorization_fields.py:51-78 | a text is accepted with value n iff n is a uint64 and the text is its canonical decimal |
| Json.ParseOfPrint | assurance/src/guardian_assurance/freshness_host_backend.py:64-72 | parsing the compact ASCII form of any value without fractions gives the value back, escapes and surrogate pairs included |
| Json.PrintIsInjective | assurance/src/guardian_assurance/freshness_host_backend.py:64-72 | different values have different printed forms |
| FreshnessBackend.RoundTrip | assurance/src/guardian_assurance/freshness_host_backend.py:74-164 | parsing the serialized form of any well-formed freshness record gives the same record |
| FreshnessBackend.DocumentRoundTrip | assurance/src/guardian_assurance/freshness_host_backend.py:86-164 | the integrity-protected document shared by both stores reads back to the mapping it was made from |
| FreshnessBackend.ParseStateIff | assurance/src/guardian_assurance/freshness_host_backend.py:107-164 | a text is read as a record iff it is a document of exactly three members with the store's schema version, a state object holding that well-formed record by name, and the digest of precisely those two, sorted and printed |
| FreshnessBackend.AlteredDocumentIsRefused | assurance/src/guardian_assurance/freshness_host_backend.py:127-149 | with any digest and any schema text in place of its own, a document of any sorted mapping is refused unless both are its own |
| FreshnessBackend.LoadedTextCarriesItsDigest | assurance/src/guardian_assurance/freshness_host_backend.py:86-149 | every text that is read carries the digest of the canonical form of the record it yields |
| FreshnessBackend.EditedRecordNeedsCollision | assurance/src/guardian_assurance/freshness_host_backend.py:86-149 | a document whose record is exchanged for any other under the old digest is read iff the two different digested texts collide |
| JsonReading.AcceptedIsText | assurance/src/guardian_assurance/freshness_host_backend.py:112-127 | every accepted document is blanks around a text of the grammar of RFC 8259, the value read is what that text denotes, and no object in it repeats a name |
| JsonOrder.SortIsOrderedPermutation | assurance/src/guardian_assurance/freshness_host_backend.py:64-72 | sorting a value with distinct names gives strictly ordered members at every depth, and of each object a permutation of its sorted members |
| JsonLiterals.LiteralRoundTripIff | assurance/src/guardian_assurance/freshness_host_backend.py:64-72 | for strings of any code points, lone surrogates included, the printed literal is valid and decodes to the string iff no high surrogate stands directly before a low one |
| JsonLiterals.PrintsAlike | assurance/src/guardian_assurance/freshness_host_backend.py:64-72 | on strings without lone surrogates that printer is the one of whole values |
| HostFiles.HostDirectory.Replace | assurance/src/guardian_assurance/freshness_host_backend.py:277-304 | at every point of write, re-read, replace and sync the committed file is the old one or exactly the candidate text, and no other file changes |
| FreshnessBackend.HostFreshnessBackend.Load | assurance/src/guardian_assurance/freshness_host_backend.py:186-226 | a record iff the committed file is a certified document of that record and of this producer; not established iff there is no such file, unavailable iff reading fails, invalid otherwise; a stray candidate file is never read |
| FreshnessBackend.HostFreshnessBackend.Commit | assurance/src/guardian_assurance/freshness_host_backend.py:246-304 | committed iff the stored record is exactly the prepared one and no single listed fault strikes; at every crash point the record is the previous one or the candidate; a sync failure reports failure over a replaced file |
| FreshnessBackend.HostFreshnessBackend.Verify | assurance/src/guardian_assurance/freshness_host_backend.py:306-326 | verified iff the stored record is the candidate |
| Authorization.PreparedSucceeds | assurance/src/guardian_assurance/authorization_transaction.py:100-183 | a candidate prepared over a replay outcome is the legal successor of whichever state the commit compares it with: next generation, strictly higher sequence |
| Authorization.ReplayDecides | assurance/src/guardian_assurance/authorization_replay.py:78-230 | an authenticated object is a candidate iff its sequence is beyond the stored one of its own scope, or there is none and fewer than 4096 scopes; each refusal told apart |
| Authorization.PrepareDecides | assurance/src/guardian_assurance/authorization_transaction.py:100-183 | each refusal exactly, and every field of what is prepared |
| AuthorizationBackend.RoundTrip | assurance/src/guardian_assurance/authorization_host_backend.py:107-330 | parsing the serialized form of any well-formed transaction gives the same transaction |
| AuthorizationBackend.ParseTransactionIff | assurance/src/guardian_assurance/authorization_host_backend.py:193-330 | a text is read as a transaction iff it is a certified document of that well-formed transaction, its scope, replay state and record held by name |
| AuthorizationBackend.LoadedTextCarriesItsDigest | assurance/src/guardian_assurance/authorization_host_backend.py:166-330 | every text that is read carries the digest of the canonical form of the transaction it yields |
| AuthorizationBackend.ScopeKeyIsInjective | assurance/src/guardian_assurance/authorization_host_backend.py:333-367 | different replay scopes have different file keys |
| AuthorizationBackend.HostAuthorizationBackend.Load | assurance/src/guardian_assurance/authorization_host_backend.py:376-420 | a transaction iff the scope's committed file is a certified document of that transaction of this scope; not established, unavailable or invalid exactly otherwise |
| AuthorizationBackend.HostAuthorizationBackend.Commit | assurance/src/guardian_assurance/authorization_host_backend.py:443-513 | committed iff nothing was stored and nothing expected, or generation, replay state and freshness state are those prepared over, and no fault strikes; stale and persistence failure told apart; crash atomic; other scopes untouched |
| AuthorizationBackend.HostAuthorizationBackend.Verify | assurance/src/guardian_assurance/authorization_host_backend.py:515-536 | verified iff the stored transaction is the candidate |
| Lifecycles.EstablishFreshness | assurance/src/guardian_assurance/freshness_orchestrator.py:83-242 | every outcome from the stored record alone: FIRST_SEEN iff nothing is stored, invalid iff the record is, unavailable iff the load fails, and replay, the rollbacks, the transition demand and exhaustion iff the explicit comparison of epochs, times and generation; FRESH only with exactly the advanced record stored, and always if the statement is later and nothing fails; other producers untouched |
| Lifecycles.ReconcileMeans | assurance/src/guardian_assurance/authorization_freshness_reconciliation.py:56-159 | success means the store holds the target; the stored generation never falls; a fault-free run ends reconciled or in conflict, reconciled iff the store was empty, behind, or already there |
| Lifecycles.ReconcileRetry | assurance/src/guardian_assurance/authorization_freshness_reconciliation.py:56-159 | re-running after any interruption ends as one undisturbed run would, and after a success changes nothing |
| Lifecycles.Reconcile | assurance/src/guardian_assurance/authorization_freshness_reconciliation.py:56-159 | the driver does exactly that over the host store; each end code iff the stored record is invalid, unavailable, the target, not behind it, or empty or behind it; at every crash point the record is the old one or the target |
| Lifecycles.ExecuteTransaction | assurance/src/guardian_assurance/bootstrap_lifecycle.py:254-337 | consumed means both stores agree. At every content the two directories pass through, and at the end whatever the stage: no other scope or producer is touched, the scope holds what it held or the accepted candidate, and a changed projection is the candidate's resulting state with the candidate committed. Without faults, consumed iff both comparisons succeed |
| Lifecycles.BootstrapGatesMean | assurance/src/guardian_assurance/bootstrap_lifecycle.py:152-271 | passing the bootstrap gates grants exactly an initial record of the triggering producer and epoch, as the first transaction of its scope |
| Lifecycles.TransitionGatesMean | assurance/src/guardian_assurance/epoch_transition_lifecycle.py:222-295 | passing the transition gates always grants a well-formed record one transition after the previous one |
| Lifecycles.BootstrapGatesDecide | assurance/src/guardian_assurance/bootstrap_lifecycle.py:169-271 | a bootstrap proceeds iff everything it demands holds, each refusal iff its own check is the first to fail, and the prepared transaction is given field by field |
| Lifecycles.TransitionGatesDecide | assurance/src/guardian_assurance/epoch_transition_lifecycle.py:170-295 | the same for a transition |
| Lifecycles.BootstrapConsumedIff | assurance/src/guardian_assurance/bootstrap_lifecycle.py:272-337 | an undisturbed bootstrap succeeds iff its scope is empty and the producer unknown or already at the granted record |
| Lifecycles.ExecuteBootstrap | assurance/src/guardian_assurance/bootstrap_lifecycle.py:152-337 | ordinary authentication, a FIRST_SEEN trigger, an authenticated bootstrap object for exactly that statement and a replay candidate are demanded for every change of a store or crash content and for authorization, each refusal told apart; then the durable guarantee of the shared half at every crash content and for every stage failure; authorized only with both stores holding exactly the granted transaction and record, and without faults iff the scope was empty and the producer unknown or there |
| Lifecycles.ExecuteEpochTransition | assurance/src/guardian_assurance/epoch_transition_lifecycle.py:153-386 | the same for a transition, over the record it starts from |
| Lifecycles.TriggerAfterBootstrap | assurance/src/guardian_assurance/bootstrap_lifecycle.py:121-149 | the triggering statement is then a candidate if the high-water mark was unset, a replay if it was established |
| Lifecycles.TriggerAfterTransition | assurance/src/guardian_assurance/epoch_transition_lifecycle.py:129-150 | the triggering statement is then a candidate |
| Lifecycles.TransitionConsumedIff | assurance/src/guardian_assurance/authorization_host_backend.py:456-483 | exactly when a transition can be consumed over the host store |
| ProtocolInvariant.StepKeepsInv | assurance/src/guardian_assurance/freshness_orchestrator.py:99-242 | every backend call of every session, failing or not, keeps both histories legal and every session's claim true |
| ProtocolInvariant.ReachableInv | assurance/src/guardian_assurance/freshness_orchestrator.py:99-242 | hence after every interleaved run from empty stores |
| ProtocolTheorems.GenerationsIdentifyStates | assurance/src/guardian_assurance/freshness_host_backend.py:228-326 | over every run the stored generation never falls, and equal generations mean equal records |
| ProtocolTheorems.TenurePair | assurance/src/guardian_assurance/freshness_host_backend.py:246-304 | in any committed history transition sequences never fall, and within one the epochs are fixed and the high-water mark never falls |
| ProtocolTheorems.VerdictAgreesWithHistory | assurance/src/guardian_assurance/freshness_evaluator.py:56-95 | the constant-time result agrees with the whole tenure: candidate iff later than every committed time, replay iff equal to the latest, rollback iff some committed time is later |
| ProtocolTheorems.FreshAtMostOncePerTenure | assurance/src/guardian_assurance/freshness_orchestrator.py:196-242 | two decisions told FRESH for the same statement installed records of different tenures |
| ProtocolTheorems.UndisturbedCandidateIsFresh | assurance/src/guardian_assurance/freshness_orchestrator.py:99-242 | an undisturbed, fault-free decision on a candidate is told FRESH |
| ProtocolTheorems.SupersededEpochRollsBack | assurance/src/guardian_assurance/freshness_evaluator.py:97-107 | from a transition until the next, through any number of accepted statements, every statement of the superseded epoch is an epoch rollback |
| ReenteredEpochs.FreshAgainIff | assurance/src/guardian_assurance/freshness_evaluator.py:56-95 | over every run, a statement that was told FRESH is a candidate again iff the producer is back in its epoch, in another tenure, with nothing as late accepted there |
| ReenteredEpochs.FreshTwice | assurance/src/guardian_assurance/epoch_transition_lifecycle.py:153-386 | it happens: for any three epochs, a run of callers who only pass what the stores hold, ending with two sessions told FRESH for the same statement |
| ReenteredEpochs.DirectReturnIsRefused | assurance/src/guardian_assurance/epoch_transition_lifecycle.py:170-221 | never by going straight back: the outcome for the epoch just left triggers no transition, whatever the authorization |
| ReenteredEpochs.BootstrapGoesThrough | assurance/src/guardian_assurance/bootstrap_lifecycle.py:152-337 | an undisturbed bootstrap of an unknown producer commits and projects its transaction |
| ReenteredEpochs.TransitionGoesThrough | assurance/src/guardian_assurance/epoch_transition_lifecycle.py:153-386 | an undisturbed transition to an epoch neither current nor previous commits and projects, as the first of its scope or over the record its scope granted last |
| ProtocolTheorems.CommittedTransactions | assurance/src/guardian_assurance/authorization_host_backend.py:443-536 | in each scope the committed generations are 0, 1, 2, …, the sequences strictly increase, and bootstrap commits at most once |
| ProtocolTheorems.EveryEntryIsAccountedFor | assurance/src/guardian_assurance/bootstrap_lifecycle.py:254-337 | every record ever stored is an accepted statement's successor or the resulting state of a transaction already committed |
| ProtocolTheorems.SuccessMeansProjected | assurance/src/guardian_assurance/epoch_transition_lifecycle.py:300-386 | when a lifecycle or a re-run reconciliation reports success, the transaction is committed and the freshness store holds exactly its resulting state |
| ProtocolTheorems.ConsecutiveGrantsAreAdjacent | assurance/src/guardian_assurance/authorization_host_backend.py:456-483 | consecutive projected transactions of one scope grant adjacent records, so nothing was accepted in between |
| ProtocolTheorems.WithGenerationNoTransition | assurance/src/guardian_assurance/authorization_host_backend.py:456-483 | callers that always name a previous generation never commit a transition over the host store |
| Control.GuardianControl.Latch | firmware/Control/Src/guardian_control.c:130-184 | in place: latch, count an episode only for a new bit, force the output safe, record a refusal |
| Control.GuardianControl.Apply | firmware/Control/Src/guardian_control.c:187-233 | in place: ask the adapter, publish the permit only when accepted |
| Control.GuardianControl.Reevaluate | firmware/Control/Src/guardian_control.c:236-394 | in place: the evaluation policy, branch for branch |
| Control.GuardianControl.Configure | firmware/Control/Src/guardian_control.c:438-482 | in place: install an adapter and ask it for 0 |
| Control.GuardianControl.constructor | firmware/Control/Src/guardian_control.c:397-435 | starts disabled, without adapter, with the faults of its inputs live |
| Control.GuardianControl.RefreshFaults | firmware/Control/Src/guardian_control.c:74-127 | in place: the live mask of the current inputs |
| Control.GuardianControl.SetRun | firmware/Control/Src/guardian_control.c:485-505 | in place: record the local request, then evaluate |
| Control.GuardianControl.SetLocalInterlock | firmware/Control/Src/guardian_control.c:508-528 | in place: record the interlock, then evaluate |
| Control.GuardianControl.ReportHealth | firmware/Control/Src/guardian_control.c:531-558 | in place: record health and scores, then evaluate |
| Control.GuardianControl.Execute | firmware/Control/Src/guardian_control.c:561-773 | in place: the three host actions |
| ControlPolicy.ClearFaultMeans | firmware/Control/Src/guardian_control.c:629-703 | a reset is denied, changing nothing, unless unsupervised, without local request, READY, interlock closed and with an adapter; otherwise it succeeds iff the adapter accepts 0, leaving nothing latched |
| ControlPolicy.ArmMeans | firmware/Control/Src/guardian_control.c:705-773 | the same for arming, with nothing latched demanded |
| ControlPolicy.DisarmMeans | firmware/Control/Src/guardian_control.c:561-627 | disarming is never denied, keeps what is latched, and a refused release is latched |
| ControlPolicy.UndefinedIsDenied | firmware/Control/Src/guardian_control.c:561-773 | any other action code is denied and changes nothing |
| ControlPolicy.ConfigureMeans | firmware/Control/Src/guardian_control.c:438-482 | installing asks for 0 and changes state or masks only by a refusal |
| ControlPolicy.EvaluateMeans | firmware/Control/Src/guardian_control.c:236-394 | for every consistent controller: idle, tripped by the first intolerable fault, or driven as requested, with state, masks, counters and reason of each |
| ControlPolicy.LatchMeans | firmware/Control/Src/guardian_control.c:130-184 | latching drops permit and supervision, asks for 0, latches a refusal, and counts an episode iff a bit is new |
| ControlPolicy.WithIsUnion | firmware/Control/Src/guardian_control.c:130-184 | latching sets the new bits and keeps every other |
| ControlPolicy.LiveFaultBits | firmware/Control/Src/guardian_control.c:74-127 | each bit of the live mask iff its own condition |
| ControlPolicy.ReportsAreRecorded | firmware/Control/Src/guardian_control.c:485-558 | every report is recorded as given and no other input changes |
| ControlTheorems.StepKeepsInv | firmware/Control/Src/guardian_control.c:236-773 | every entry point keeps the invariant, whatever the callbacks answer |
| ControlTheorems.ReachableInv | firmware/Control/Src/guardian_control.c:397-773 | it holds after every run: FAULT_LATCHED iff a bit is latched, supervised iff ARMED, ACTIVE or DEGRADED, live faults equal their recomputation, the installed adapter's last call is the last of all and asked for exactly the published permit, and unless an output failure is latched that adapter last accepted the published permit |
| ControlTheorems.PermitMeans | firmware/Control/Src/guardian_control.c:236-394 | a published permit implies supervised, unlatched, interlock closed, local request, health READY or WARNING, state ACTIVE or DEGRADED, no live fault |
| ControlTheorems.ActionsNeverAssert | firmware/Control/Src/guardian_control.c:561-773 | no host action and no adapter installation ever asks for 1 |
| ControlTheorems.EvaluateAssertsOnlyWhenSupervised | firmware/Control/Src/guardian_control.c:236-394 | evaluation asks for 1 only while supervised, unlatched and locally requested |
| ControlTheorems.FaultBlocksPermit | firmware/Control/Src/guardian_control.c:130-184 | after a fault latch no callback is asked for 1 before a successful CLEAR_FAULT, then a successful ARM, then a local run request, in that order, the first two in states that were healthy, interlocked, unrequested and, for ARM, unlatched |
| ControlTheorems.SuccessDemands | firmware/Control/Src/guardian_control.c:629-773 | CLEAR_FAULT and ARM succeed iff those conditions hold and the adapter accepts |
| ControlTheorems.OutputFailureClearedByZero | firmware/Control/Src/guardian_control.c:668-701 | a latched output failure disappears only by a CLEAR_FAULT whose one call asked the installed adapter for 0 and was accepted |
| ControlTheorems.LatchedAsksZero | firmware/Control/Src/guardian_control.c:130-184 | in every run, while any fault is latched the last thing asked of the installed adapter was 0 |
| ControlTheorems.RecoveryReachesActive | firmware/Control/Src/guardian_control.c:485-773 | from every reachable state with an adapter that accepts from now on, seven fixed calls reach ACTIVE with the permit asserted |
| ControlTheorems.ReplacedAdapterIsNotReleased | firmware/Control/Src/guardian_control.c:438-482 | for every state and every answer, installing another adapter drops the permit and the old one keeps what it last accepted; while no output failure is latched it is left released iff the permit was not published |
| ControlTheorems.RefusedReleaseStaysAsserted | firmware/Control/Src/guardian_control.c:561-773 | a DISARM whose two calls are refused unpublishes the permit and latches an output failure while the adapter last accepted 1 |
| ControlTheorems.ReplacedKeepsLastAccepted | firmware/Control/Src/guardian_control.c:438-482 | over every run that does not install it again, an adapter that is not installed keeps what it last accepted |
| ControlTheorems.ReplacedStaysAsserted | firmware/Control/Src/guardian_control.c:438-773 | so after such a DISARM, another adapter and the recovery calls, the controller is ACTIVE with nothing latched and the replaced adapter is still at 1 |
| ControlTheorems.ReplacementKeepsState | firmware/Control/Src/guardian_control.c:438-482 | the controller stays ACTIVE or DEGRADED without the permit iff it was there and the new adapter accepts 0; a refusal latches an output failure |
| Rings.ComplexRingValid | firmware/DSP/Src/guardian_dsp.c:225-281 | the complex arithmetic of the butterflies, over any commutative ring, is a commutative ring |
| Rings.ComplexProductIsUnique | firmware/DSP/Src/guardian_dsp.c:239-246 | the product of the butterflies is the only one that makes pairs a commutative ring extending the reals with i * i = -1 |
| Rings.ImaginarySquare | firmware/DSP/Src/guardian_dsp.c:239-246 | i * i = -1, over any commutative ring |
| Fft.BitRevInvolution | firmware/DSP/Src/guardian_dsp.c:126-172 | bit reversal permutes the indices below 2^m and undoes itself |
| Fft.NextReversed | firmware/DSP/Src/guardian_dsp.c:139-157 | the carry chain turns the reversal of i into the reversal of i + 1 |
| Fft.BitReverse | firmware/DSP/Src/guardian_dsp.c:126-172 | in place, both arrays end with every element drawn from its reversed index |
| Butterflies.PartSplits | firmware/DSP/Src/guardian_dsp.c:183-281 | a transform is that of the even samples plus a twiddle times that of the odd ones |
| Butterflies.ButterflyMeans | firmware/DSP/Src/guardian_dsp.c:225-281 | two values of a stage give the two values of the next stage that the butterfly writes |
| FastTransform.Group | firmware/DSP/Src/guardian_dsp.c:205-276 | in place, exactly the butterflies of one group |
| FastTransform.Stage | firmware/DSP/Src/guardian_dsp.c:189-277 | in place, one whole stage |
| FastTransform.Transform | firmware/DSP/Src/guardian_dsp.c:175-281 | afterwards index k holds the sum of x[n] w^(n k), for every N = 2^m with m positive and every w with w^(N/2) = -1 |
| FastTransform.DftByParts | firmware/DSP/Src/guardian_dsp.c:175-281 | real and imaginary part of each value are the sums of re c - im s and re s + im c over the parts of samples and powers |
| FastTransform.QuarterTurn | firmware/DSP/Src/guardian_dsp.c:41-66 | [1, -i] is the twiddle table for four points |
| JsonText.ParseOfItems | assurance/src/guardian_assurance/signed_authorization.py:271-277 | decoding a string literal recovers its items |
| JsonScanner.ScanStringEnd | assurance/src/guardian_assurance/signed_authorization.py:162-187 | the loop finds the end that the specification function gives, or raises |
| JsonScanner.SkipBlanks | assurance/src/guardian_assurance/signed_authorization.py:156-159 | the loop stops at the first character that is not white space |
| JsonScanner.ScanAuthorizationValueEnd | assurance/src/guardian_assurance/signed_authorization.py:190-245 | the same for a value, bracket stack starting empty |
| JsonScanner.ScanWrapperValueEnd | assurance/src/guardian_assurance/signed_wrapper.py:189-261 | the same for the second version, stack starting with the bracket |
| JsonScanner.ExtractTopLevelMemberRaw | assurance/src/guardian_assurance/signed_authorization.py:248-311 | the member loop gives what the specification function gives on every text, errors included |
| JsonScannerTheorems.TransparentValue | assurance/src/guardian_assurance/signed_authorization.py:200-238 | a container scan passes over any valid value, whatever its strings contain, and is then as it was before |
| JsonScannerTheorems.LengthOfValue | assurance/src/guardian_assurance/signed_authorization.py:190-245 | the end found for a valid value is its end, for a scalar the end of the blanks after it |
| JsonScannerTheorems.ExtractIsExact | assurance/src/guardian_assurance/signed_wrapper.py:264-332 | on every valid object text both versions return exactly the source of the first member with the target name, or report that it is missing |
| JsonScannerTheorems.MemberIsFirst | assurance/src/guardian_assurance/signed_authorization.py:127-153 | with distinct names that is the source of the member, wherever it stands |
| JsonScannerTheorems.VersionsAgreeIff | assurance/src/guardian_assurance/signed_wrapper.py:189-261 | on every text, valid or not, exactly when the two versions find the same end |
| JsonScannerTheorems.ExtractionsAgreeIff | assurance/src/guardian_assurance/signed_wrapper.py:264-332 | on every text, valid or not, and for every target, exactly when the two versions have the same outcome: the text is an object and, up to the target, no scalar taken has a `]` in it, or the first that has is not the target and an error follows |
| JsonScannerShape.StringEndIff | assurance/src/guardian_assurance/signed_authorization.py:162-187 | on every text, the end found for a string is that of the one literal of characters and escapes it starts with |
| JsonScannerShape.ContainerEndIff | assurance/src/guardian_assurance/signed_authorization.py:200-238 | on every text, the end found for a container is that of the one text with matching brackets it starts with, brackets inside strings not counting; mismatched or open ones have none |
| JsonScannerShape.ValueEndIff | assurance/src/guardian_assurance/signed_wrapper.py:189-261 | on every text, the end found for a value of any kind |
| JsonScannerShape.ExtractedIff | assurance/src/guardian_assurance/signed_authorization.py:258-311 | on every text, a member is returned iff well-formed members of other names, each with a comma behind it, lead to it; missing iff they lead to the end of the object; invalid otherwise |
| JsonScannerShape.ExtractStarts | assurance/src/guardian_assurance/signed_wrapper.py:264-275 | a text that is no object is invalid for one version and a schema error for the other |
| Base64Url.DecodeOfEncode | assurance/src/guardian_assurance/signed_authorization.py:314-380 | decoding inverts encoding, for byte strings of every length |
| Base64Url.AcceptedIff | assurance/src/guardian_assurance/signed_wrapper.py:335-392 | a text is accepted iff it is over the alphabet, no digit stands alone and the spare bits are zero; it then re-encodes to itself |
| Base64Url.SignatureBijection | assurance/src/guardian_assurance/signed_authorization.py:314-380 | 64-byte signatures and accepted texts correspond one to one |
| Base64Url.SignatureAcceptedIff | assurance/src/guardian_assurance/signed_wrapper.py:335-392 | an 86-character text is a signature iff it is over the alphabet and its last character has no spare bits |
| Base64Url.EncodingKeepsNumbers | assurance/src/guardian_assurance/signed_authorization.py:314-380 | every group of three bytes, and the rest filled up with zeros, is written as the digits of the same number |
| Base64Url.LettersInOrder | assurance/src/guardian_assurance/signed_wrapper.py:335-392 | the values of the alphabet of section 5 of RFC 4648 |
| Transcript.TranscriptIsInjective | assurance/src/guardian_assurance/transcript.py:150-164 | equal transcripts have equal purpose, key, principal and canonical object |
| Transcript.PurposesAreSeparate | assurance/src/guardian_assurance/transcript.py:23-33 | no transcript of one of the five purposes is a transcript of another |
| Transcript.CanonicalIsSorted | assurance/src/guardian_assurance/authorization_transcript.py:72-128 | sorting the mapping as it is built gives the members in canonical order, for both kinds of authorization |
| Transcript.FieldsPrintPlain | assurance/src/guardian_assurance/authorization_transcript.py:72-128 | every name and text field of a canonical authorization prints between quotes without any escape |
| Transcript.CanonicalIsInjective | assurance/src/guardian_assurance/authorization_transcript.py:104-128 | different authorization objects have different canonical forms |
| Transcript.AuthorizationTranscriptIsInjective | assurance/src/guardian_assurance/authorization_transcript.py:131-191 | equal authorization transcripts have equal object, key identifier and authority |
| SignedBytes.Layout | assurance/src/guardian_assurance/transcript.py:150-164 | every transcript is the purpose, then key, principal and object, each after its big-endian length, and nothing else; there is none iff a length does not fit |
| SignedBytes.CanonicalText | assurance/src/guardian_assurance/authorization_transcript.py:72-128 | the canonical text of both kinds of authorization, field by field |
| SignedBytes.AuthorizationLayout | assurance/src/guardian_assurance/authorization_transcript.py:131-191 | what is signed: the purpose text of the object's own kind, key identifier, authority and canonical text; and exactly when there is something to sign |
| SquareRoot.ISqrt | firmware/Acquisition/Src/guardian_acquisition.c:30-80 | the exact floor square root of every 64-bit value, with no operation wrapping and the saturation branch never taken |
| Acquisition.NormalizeCode | firmware/Acquisition/Src/guardian_acquisition.c:120-147 | rounding to nearest without overflow for every pair of 32-bit values, clamped only above 32 bits |
| Acquisition.VibrationSample | firmware/Acquisition/Src/guardian_acquisition.c:151-181 | symmetric rounding and truncating division without overflow for every 32-bit delta, numerator and non-zero denominator |
| Acquisition.ChannelSums | firmware/Acquisition/Src/guardian_acquisition.c:399-429 | the channel totals, and saturated iff some sample touches a rail, for 16-bit codes |
| Acquisition.Averages | firmware/Acquisition/Src/guardian_acquisition.c:431-448 | the rounded average of every channel, for 16-bit codes |
| Acquisition.VibrationPass | firmware/Acquisition/Src/guardian_acquisition.c:500-540 | the sum of squared deltas modulo 2^64 and the exported signal, for every block whose signed subtractions C defines |
| Acquisition.NormalizedBound | firmware/Acquisition/Src/guardian_acquisition.c:120-147 | a 16-bit code normalizes to at most 4294836225, a 12-bit one to at most 268365825, so that its cast to a signed 32-bit value keeps it |
| Processor.Acquirer.ProcessBlock | firmware/Acquisition/Src/guardian_acquisition.c:267-690 | for every block whose signed subtractions C defines: the outcome, the published measurements, the signal block, counters and sequence; a refused block only counts as invalid |
| Processor.Initialize | firmware/Acquisition/Src/guardian_acquisition.c:233-264 | unusable calibration is refused, otherwise a cleared processor |
| Processor.SupplyEstimate | firmware/Acquisition/Src/guardian_acquisition.c:461-473 | the supply voltage rounded to nearest, at most 216265500 mV |
| Processor.TemperatureCentiC | firmware/Acquisition/Src/guardian_acquisition.c:482-498 | the truncating interpolation, every intermediate within its type |
| Processor.CurrentMa | firmware/Acquisition/Src/guardian_acquisition.c:566-584 | the clamped and scaled current, every intermediate within its type |
| Processor.SupplyMillivolts | firmware/Acquisition/Src/guardian_acquisition.c:586-601 | the pin voltage and the divider ratio, every intermediate within its type |
| AcquisitionTheorems.AverageBetween | firmware/Acquisition/Src/guardian_acquisition.c:431-448 | a channel average lies between the channel's smallest and largest code |
| AcquisitionTheorems.TwelveBitsAreDefined | firmware/Acquisition/Src/guardian_acquisition.c:461-598 | every block of 12-bit codes is one of those |
| AcquisitionTheorems.RmsBetween | firmware/Acquisition/Src/guardian_acquisition.c:500-549 | for every block and any bounds of its absolute deltas: the RMS code is at most the upper one, and at least the lower one iff the wrapped accumulator is at least its square times the number of frames |
| AcquisitionTheorems.RmsBetweenForTwelveBits | firmware/Acquisition/Src/guardian_acquisition.c:500-549 | for 12-bit codes the RMS code lies between the smallest and largest absolute delta of the block |
| AcquisitionTheorems.WideCodesWrap | firmware/Acquisition/Src/guardian_acquisition.c:267-549 | a block of five frames that is accepted, measured with defined arithmetic and the supply voltage of its own codes, whose RMS code is below every absolute delta |
| AcquisitionTheorems.WideCodesUndefined | firmware/Acquisition/Src/guardian_acquisition.c:500-540 | with the largest zero point the same block makes a signed subtraction overflow |
| AcquisitionTheorems.SampleIsNearest | firmware/Acquisition/Src/guardian_acquisition.c:151-181 | before clamping a signal sample is the calibrated ratio rounded to nearest |
| AcquisitionTheorems.SampleIsOdd | firmware/Acquisition/Src/guardian_acquisition.c:151-181 | opposite deltas give opposite samples |
| AcquisitionTheorems.TemperatureAtFactoryPoints | firmware/Acquisition/Src/guardian_acquisition.c:482-498 | the two factory codes read 30 and 110 degrees exactly |
| AcquisitionTheorems.TemperatureMonotone | firmware/Acquisition/Src/guardian_acquisition.c:482-498 | temperature follows the code in the direction of the factory points, for either order of them |
| AcquisitionTheorems.CurrentMeans | firmware/Acquisition/Src/guardian_acquisition.c:559-584 | zero at or below the zero point, else the exact floor of the calibrated ratio |
| AcquisitionTheorems.SteadyMeasurements | firmware/Acquisition/Src/guardian_acquisition.c:449-628 | for a block of any number of equal frames: temperature, current and supply each from its own code, its own calibration and the reference |
| AcquisitionTheorems.SteadyVibration | firmware/Acquisition/Src/guardian_acquisition.c:500-557 | for such a block: the RMS and every signal sample from the vibration code |
| AcquisitionTheorems.VerdictMeans | firmware/Acquisition/Src/guardian_acquisition.c:267-398 | which blocks are refused, and why: calibration, length or rate, or a reference of less than half a code per frame |
| AcquisitionTheorems.StatusMeans | firmware/Acquisition/Src/guardian_acquisition.c:629-652 | valid always, saturated iff a code touches a rail, stale iff the speed is invalid, the rest as given |
| AcquisitionTheorems.QuotientTruncates | firmware/Acquisition/Src/guardian_acquisition.c:482-498 | the division rounds toward zero with the sign of the ratio |
| AcquisitionTheorems.RatioIsFloor | firmware/Acquisition/Src/guardian_acquisition.c:549-601 | a calibrated ratio is the floor of the exact one |
| AcquisitionTheorems.ClampsAreNearest | firmware/Acquisition/Src/guardian_acquisition.c:82-117 | clamping keeps what fits the published type, and gives the nearest end otherwise |
| DocumentRegister.Search.Visit | tools/validate_document_register.py:338-352 | the search terminates; it succeeds with the key visited, or there is a cycle |
| DocumentRegister.GraphStep | tools/validate_document_register.py:330-356 | the graph step passes iff the supersession graph is acyclic |
| DocumentRegister.ScopesOverlapMeans | tools/validate_document_register.py:116-138 | valid scopes overlap iff some concrete context is selected by both |
| DocumentRegister.AuthorityStep | tools/validate_document_register.py:358-371 | the pair loop passes iff no two current documents conflict |
| DocumentRegister.AuthorityIsUnique | tools/validate_document_register.py:358-371 | that holds iff every context has at most one current authoritative document in each domain |
| SourceStripper.StripCommentsAndLiterals | tools/validate_authority_boundary.py:89-162 | the loops terminate and give what the specification function gives |
| SourceStripper.StripOnlyBlanks | tools/validate_authority_boundary.py:89-162 | length kept, newlines exactly where they were, characters changed only to blanks |
| SourceStripper.StripIsClean | tools/validate_authority_boundary.py:89-162 | no quote and no comment opening is left |
| SourceStripper.StripIsIdempotent | tools/validate_authority_boundary.py:89-162 | stripping twice is stripping once |
| SourceStripper.CodeIsKept | tools/validate_authority_boundary.py:159-162 | a character that opens no literal and no comment is kept and code goes on |
| SourceStripper.LiteralIsBlanked | tools/validate_authority_boundary.py:133-157 | a literal is blanked up to its first unescaped quote, and what follows is code again |
| SourceStripper.OpenLiteralIsBlanked | tools/validate_authority_boundary.py:133-157 | a literal that never ends is blanked to the end |
| SourceStripper.BlockIsBlanked | tools/validate_authority_boundary.py:110-131 | a block comment is blanked up to its first end mark, and what follows is code again |
| SourceStripper.LineIsBlanked | tools/validate_authority_boundary.py:100-108 | a line comment is blanked up to its newline, and what follows is code again |
| NodeLink.Adapter.Transmit | firmware/App/Src/guardian_f401_nodelink_adapter.c:12-79 | in place: one send, which uses up a sequence number only when accepted |
| NodeLink.Adapter.PollHeartbeat | firmware/App/Src/guardian_f401_nodelink_adapter.c:189-219 | in place: a heartbeat when the interval has elapsed, restarting it only when accepted |
| NodeLink.Initialize | firmware/App/Src/guardian_f401_nodelink_adapter.c:81-112 | a zero identifier or epoch is refused, otherwise a fresh adapter starts at sequence 1 |
| NodeLink.Adapter.SetTransport | firmware/App/Src/guardian_f401_nodelink_adapter.c:114-135 | in place: a missing transport is refused and leaves the adapter as it was |
| NodeLink.Adapter.SetLocalState | firmware/App/Src/guardian_f401_nodelink_adapter.c:137-158 | in place: only the six defined states are taken |
| NodeLink.StatesAre | firmware/App/Src/guardian_f401_nodelink_adapter.c:137-158 | the codes 0 to 5 are taken, any other refused without a change |
| NodeLink.Adapter.Tick1Ms | firmware/App/Src/guardian_f401_nodelink_adapter.c:160-179 | in place: elapsed time counts up to the interval |
| NodeLink.FramesAreNumbered | firmware/App/Src/guardian_f401_nodelink_adapter.c:36-112 | over every run the accepted frames carry exactly 1, 2, 3, … and nothing after 2^32 - 1 |
| NodeLink.HeartbeatsAreSpaced | firmware/App/Src/guardian_f401_nodelink_adapter.c:160-219 | over every run accepted heartbeats are at least 1000 ticks apart, and 1000 times their number plus the elapsed time never exceeds the ticks |
| NodeLink.SendMeans | firmware/App/Src/guardian_f401_nodelink_adapter.c:12-79 | from every reachable adapter: each refusal, one attempt or none, and exactly one frame with the next number iff accepted |
| NodeLink.PollMeans | firmware/App/Src/guardian_f401_nodelink_adapter.c:189-219 | a due heartbeat is attempted, an early one is not |
| NodeLink.HeartbeatsAreSent | firmware/App/Src/guardian_f401_nodelink_adapter.c:160-219 | while nothing is refused, n polled ticks give n / 1000 heartbeats, the k-th at tick 1000 k |

## Left out

- Null arguments of the C entry points, and an adapter used before initialization: each is one early return.
- Operating-system durability beyond the listed file effects, and concurrency inside one commit: `Protocol` takes a commit as one atomic step, the crash contents inside it are those of `HostFiles`.
- SHA-256, Ed25519 and the trust stores: the digest is an arbitrary function, file keys are injective, authentication is an input of the lifecycles.
- JsonReading.AcceptedIsText: that a text of the grammar is accepted is proved for printed texts (`Json.ParseOfPrint`), not for every layout of blanks and escapes.
- Json.ParseOfPrint: strings with lone surrogates are not values of the model, and its parser refuses their escapes, which Python's json module accepts and prints; for single literals `JsonLiterals.LiteralRoundTripIff` covers them.
- AuthorizationBackend.HostAuthorizationBackend.Load: a stored authorization identifier or sequence of another JSON type under a matching digest is invalid here, while `_parse_state` loads some of these unchecked; no commit writes one.
- AuthorizationBackend.RoundTrip: the stored identifier fields are strings; `_parse_scope` and `_parse_state` leave some other JSON types there unchecked, and the model refuses them.
- Lifecycles.EstablishFreshness: the exceptions of the field validators are one outcome, REQUEST_REJECTED.
- Floating-point rounding of the spectral kernel, the Hann window, interpolation and spectral shares: the transform is over an abstract ring with symbolic twiddles.
- FastTransform.Transform: for N = 64 the indices fit 16 bits; the loop variables are unbounded integers for general N.
- Processor.Acquirer.ProcessBlock: demands that no signed 32-bit subtraction of an accepted block overflows, which C leaves undefined; conversions of larger values to signed are taken modulo 2^32, as the target's compiler defines them.
- JsonScannerTheorems.ExtractIsExact: texts are sequences of Unicode scalar values already decoded from UTF-8; size and depth limits and the schema checks around the scanners are left out.
- Base64Url.AcceptedIff: for lengths other than 86 the padding appended before the library call would differ; the model decodes unpadded digits directly.
- Transcript.AuthorizationTranscriptIsInjective: starts from validated authorization objects; their parsing and the 8192-byte limit's reachability are left out.
- Transcript.TranscriptIsInjective: for observations, decisions and witnesses the canonical object is any byte string; that RFC 8785 canonicalization of arbitrary objects is injective is not part of this model.
- DocumentRegister.AuthorityIsUnique: a `*` inside a longer selector string is an ordinary character, as in the code.
- The register's git, digest and self-declared status checks, and the structural limits on authorization objects.
- NodeLink frame encoding, and the other message types: encoding is an opaque success or failure.
- Firmware lifecycle, health model, frame parser, fixed-layout payload encoders, guardianctl, fuzz drivers, release scripts and hardware setup.
