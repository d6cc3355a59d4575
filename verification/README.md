# Cerbero, modelled and proved

Cerbero is a SIEM pipeline: raw evidence is ingested and preserved, normalized, searched, and
evaluated by detection and correlation rules; what fails is dead-lettered and selectively replayed.
This project models the parts of it whose correctness is not visible in any single function, and
proves what they promise: protocols over whole runs with crashes and lost answers, fast algorithms
against brute-force specifications, printers against parsers, compilation against meaning.

Layout, one module per component:

- **Failure and replay.** `RetryState` (reference transition and the durable store), `Replay`
  (eligibility, the handed-off message, lineage), `ReplayReservation` (the two-table transaction),
  `ReplayProtocol` (all interleavings of workers, producers and the normalizer), `ReplayWorker` (the
  handler in the order of its effects), `NormalizerProtocol` and `NormalizerRuntime` (the same pair
  for the normalizer), `NormalizerOutcome` (what an undisturbed delivery comes to), `ReplayLoop` (both protocols joined: dead letters feed the replay queue and
  replays feed the normalizer), `ForgottenReplays` (what deduplication of dead letters is worth).
- **Raw preservation.** `RawPreserver` (the outbox protocol) and `RawPreserverCore` (its orchestration).
- **Detection.** `Threshold`, `ThresholdEvaluation`, `Sequence`, `SequenceEvaluation`, the validators
  `SignalContract` and `FindingContract`, `Materialization` (every match becomes a valid object),
  `EventCompiler`.
- **Search.** `QueryParser`, `QueryGrammar`, `QueryCompiler`, `QueryMeaning`, `SearchRows` (what a
  compiled condition selects), `SearchPaging`.
- **Parsers, framing, time, rates.** `Rfc5424`, `Rfc5424Line`, `Framing`, `Journald`,
  `JournaldCut` (exports cut off anywhere) and `JournaldRead` (any octets), `SourceTime`, `TokenBucket` and `RawClock` (its bound
  measured by raw clock readings).
- **Shared.** `Wrappers`, `Text`, `Decimal`, `Sorting`, `Contracts`.

How it is modelled. A protocol is a state and a function from a state and a step to the next state;
a run is a sequence of steps, and a step whose turn has not come changes nothing. Every outside call
may be answered, fail, or take effect with its answer lost, and a worker may crash between any two
steps. Each imperative handler is a method that changes fields in the source's order and is proved
equal to a run of the protocol over the answers it was given, so what is proved of all runs holds of
it. Loops and in-place updates keep their form; what a loop computes is stated by a function, and
the promises are lemmas about that function. Hashes, UUID checks, UTF-8 and calendar checks of
libraries are function parameters.

Where the code and its stated intent differ, the code is modelled and the difference is proved:

- The durable retry upsert accepts a failure whose message id contradicts the stored one; the
  reference refuses it. `RetryState.RefinesReferenceIff` says this is the only difference,
  `RetryState.SecondIdentityDiffers` shows how it is met, and `NormalizerProtocol.StoreIsReference`
  that runs in which each message decodes to one identity never meet it.
- Greedy sequence selection can miss a sequence. Over all stages and windows it misses none of a
  group if and only if the group holds no trap: four candidates in order where the second is farther
  in time from the last than the first, third and last are from each other and the first from the
  second (`Sequence.CompleteIffNoTraps`). Time that follows the order key leaves no trap
  (`Sequence.MonotoneHasNoTraps`), and the runtime's keys always make it follow.
- A TCP stream cut inside a length prefix, or before the first payload octet, is reported as a clean
  close (`Framing.TruncatedStream` gives the exact condition).
- The token bucket's bound holds between effective times (the latest reading so far). Between raw
  clock readings it holds for every run whose clock steps back by at most some time if and only if
  the rate is at most one per second or that time earns at most one token (`RawClock.RawBoundIff`);
  `RawClock.StepBackWitness` drives a bucket past it.
- A journal export cut inside a field name, or just before a binary value's length, value or
  terminator, ends like a complete one, and a cut text value is taken as it stands
  (`JournaldCut.CutExport` gives every case).
- A dead letter whose termination was lost is processed anew after its retry row is cleared, and may
  be isolated again. From any reachable state a message can be handed to processing if and only if
  it has not left the stream (`NormalizerProtocol.ProcessedAgainIff`), so dead-lettering alone
  settles nothing; `NormalizerProtocol.IsolatedIsNotProcessed` holds of each isolation.
- The syslog version field is read as a number: version 1 is any run of zeros and a one, with or
  without a plus sign (`Rfc5424Line.VersionIsOneIff`), and every such line parses
  (`Rfc5424Line.ParsesIffWritten`); the probe that picks a parser by content asks for digits only.
- The dead letters of one root number at most its consumed attempts plus one in every run if and
  only if the dead-letter stream remembers the identities it stored
  (`ForgottenReplays.BoundIffRemembered`); a duplicate window that closes early lets one replay whose
  termination keeps being lost fill the queue. Their identities are bounded either way
  (`ReplayLoop.IdentitiesWithinBudget`).

## Model

| member | source | states |
|---|---|---|
| RetryState.RefinesReferenceIff | crates/cerbero-normalizer/src/retry_state_postgres.rs:32-98 | On every valid stored table the upsert's outcome equals the reference transition if and only if the failure does not bring a contradicting message id to a lifecycle still being retried. |
| RetryState.SecondIdentityDiffers | crates/cerbero-normalizer/src/retry_state_postgres.rs:32-98 | Any two admissible failures of one message under different ids meet the difference: after the first is stored and still retried, the reference refuses the second and the store advances on it. |
| RetryState.UpsertAdvances | crates/cerbero-normalizer/src/retry_state_postgres.rs:32-98 | The insert, the guarded update and the refusal are, case by case, the reference transition applied to the failure the store sees, and every row they write is valid. |
| RetryState.AdvanceOutcome | crates/cerbero-normalizer/src/retry_state.rs:68-145 | A failure is refused only when inadmissible or when isolation is already required; otherwise the count grows by one, first failure time and budget stay captured, and a known message id is never replaced. |
| RetryState.AdvanceTells | crates/cerbero-normalizer/src/retry_state.rs:68-145 | An accepted failure is stored with its own retryability, error and delivery attempt; isolation is required exactly when it is permanent or spends the budget, and otherwise the next retry is the later of the last failure and the asked time. |
| RetryState.PostgresStore.RecordFailure | crates/cerbero-normalizer/src/retry_state_postgres.rs:128-171 | Whatever answer is lost, the table moves exactly as the reference says and stays valid; the caller sees the reference's result, its refusal included. |
| RetryState.PostgresStore.Clear | crates/cerbero-normalizer/src/retry_state_postgres.rs:173-187 | Clearing removes exactly the one lifecycle, also when the reply is lost, and nothing when the key is invalid or the store unreachable. |
| RetryState.RunKeepsValid | crates/cerbero-normalizer/src/retry_state.rs:176-225 | Every run of recorded failures and clears, with any lost answers, keeps every row valid. |
| RetryState.LifecycleOfRun | crates/cerbero-normalizer/src/retry_state.rs:83-118 | While a lifecycle is not cleared, its first failure time and captured budget never change, its count is exactly the failures made durable and so at most the budget, and an isolating state never moves. |
| Replay.EligibleIff | services/cerbero-worker/dlq_replay_policy.go:49-97 | Eligibility is exactly the conjunction of an enabled policy, a well-formed retryable record of the raw subject, a source position and a non-blank root; an eligible decision carries the record's own identity and a trimmed root. |
| Replay.ReasonIff | services/cerbero-worker/dlq_replay_policy.go:49-97 | Each reason is given exactly under its own condition: disabled, malformed, foreign origin, no source position, blank root, permanent failure. |
| Replay.LowerHexIff | services/cerbero-worker/dlq_replay_policy.go:103-113 | A payload hash is accepted exactly when it is sixty-four lower-case hexadecimal digits. |
| Text.TrimCuts | services/cerbero-worker/dlq_replay_policy.go:78-81 | Trimming cuts exactly the white space around an identifier and nothing inside it. |
| Replay.BuildMessage | services/cerbero-worker/replay_handoff.go:24-80 | The handoff succeeds exactly for an eligible decision, a matching reservation within budget and the hash-verified source, and then carries the lineage headers and the source's bytes. |
| Replay.HandoffIff | services/cerbero-worker/replay_handoff.go:24-62 | A message is handed off exactly for an eligible decision, its own granted reservation within budget, and the persisted source of that position and hash. |
| Replay.HandoffHeaders | services/cerbero-worker/replay_handoff.go:64-80 | The handed-off message carries the source's bytes and exactly the replay mode, identity and lineage headers, and the request id only where the source has one. |
| Replay.ReplayMessageIdInjective | services/cerbero-worker/replay_handoff.go:82-88 | A replay message identifier determines its root and its attempt, whatever characters the root holds. |
| Replay.DlqMessageIdOfReplays | crates/cerbero-normalizer/src/dead_letter.rs:140-163 | Two replay dead letters share a deduplication identity exactly when root, attempt and payload hash agree. |
| Replay.SameIdentityIff | crates/cerbero-normalizer/src/dead_letter.rs:140-163 | Any two dead letters share a deduplication identity exactly when the parts before and after its last colon agree. |
| Replay.DlqMessageIdIff | crates/cerbero-normalizer/src/dead_letter.rs:140-163 | Where message ids hold no colon and are not the word payload, they share it exactly when they are about the same replay attempt, message and bytes, stream position, or bytes. |
| Replay.PayloadIdCollides | crates/cerbero-normalizer/src/dead_letter.rs:140-163 | A message that names itself payload shares the identity of an unnamed, unpositioned message with its bytes. |
| Replay.LineagePreserved | crates/cerbero-normalizer/src/dead_letter.rs:180-199 | The dead letter of a replayed message names the original raw message, root and attempt through decimal headers, wherever the replay was delivered. |
| Replay.NamesSourceIff | crates/cerbero-normalizer/src/dead_letter.rs:58-138 | A dead letter names a replay's source position exactly where root, attempt and position all read on the replay subject, and otherwise its own message. |
| Replay.FirstFailureStartsLifecycle | crates/cerbero-normalizer/src/dead_letter.rs:180-199 | A message that never was a replay names its own position, and its dead letter starts a lifecycle rooted in its own record. |
| Replay.FailedReplayStaysInLifecycle | crates/cerbero-normalizer/src/dead_letter.rs:78-138 | Evaluating a failed replay's dead letter gives the same lifecycle, root, source position and hash as the decision that was replayed. |
| ReplayReservation.PostgresReplayStore.ReserveAttempt | services/cerbero-worker/replay_state_postgres.go:41-196 | Cut at any statement, the tables are either untouched or exactly one charge further; an answer is given only when it is the simple outcome of the reservation, so early returns without commit lose nothing. |
| ReplayReservation.ReserveIsCharged | services/cerbero-worker/replay_state_postgres.go:90-196 | A reservation keeps the ledger equal to attempts 1..consumed, undoes nothing, answers with the ledger entry of its own source record within the captured budget, and reports exhaustion only when the budget is spent. |
| ReplayReservation.GrantedIff | services/cerbero-worker/replay_state_postgres.go:90-196 | An attempt is granted exactly when the request is valid, fits the columns, contradicts nothing captured, and is already in the ledger or has room left; it is the ledger's own attempt or the next one. |
| ReplayReservation.RefusedIff | services/cerbero-worker/replay_state_postgres.go:90-196 | Each error is answered exactly under its condition: an invalid request, a contradiction with captured state, or a statement the database refuses. |
| ReplayReservation.ChargesOnlyItsOwn | services/cerbero-worker/replay_state_postgres.go:151-190 | A new grant adds one ledger entry and one consumed attempt to its own lifecycle and changes no other row; any other answer changes nothing. |
| ReplayReservation.ReserveIsIdempotent | services/cerbero-worker/replay_state_postgres.go:107-141 | Asking again for the same source record returns the same answer and charges nothing. |
| ReplayProtocol.StepKeepsInvariant | services/cerbero-worker/replay_runtime.go:152-255 | Every step of any worker, producer or the normalizer keeps the ledger exact, every task and publication backed by a charge, and every departure from the queue justified. |
| ReplayProtocol.ReplayBudget | services/cerbero-worker/replay_state_postgres.go:41-196 | After every run the distinct identifiers ever published for a root are among its first `consumed` attempts, so at most the captured maximum, whatever was redelivered, lost, crashed or re-queued. |
| ReplayProtocol.LedgerIsExact | services/cerbero-worker/replay_state_postgres.go:152-186 | After every run a lifecycle has charged exactly `consumed` source records, one attempt each, numbered 1..consumed. |
| ReplayProtocol.SameIdSameMessage | services/cerbero-worker/replay_handoff.go:64-80 | Over a raw stream whose entries may disappear but never change, two publications with one identifier are the same message: headers, lineage and bytes. |
| ReplayProtocol.ReplaysTheSource | services/cerbero-worker/replay_runtime.go:257-282 | In every run a published replay carries the bytes of the persisted raw message at its dead letter's position, under the dead letter's hash. |
| ReplayProtocol.AckedIsJustified | services/cerbero-worker/replay_runtime.go:152-255 | A dead letter leaves the queue only when its own replay was published, its budget is spent, the lookup found nothing or a stored message that is not the described one, its captured state conflicts, or it was never eligible. |
| ReplayProtocol.CapturedForever | services/cerbero-worker/replay_state_postgres.go:90-105 | From every reachable state on, captured root and maximum stay, spending only grows within the maximum, and no ledger entry is undone. |
| ReplayProtocol.FailedReplayReturns | crates/cerbero-normalizer/src/dead_letter.rs:180-199 | In every reachable state a failed replay re-enters the queue in its root's lifecycle, pointing at the same raw message. |
| ReplayLoop.PartsRun | crates/cerbero-normalizer/src/runtime.rs:295-353 | In every run of the joined system the normalizer and the worker are in states their own protocols reach, so their theorems hold of it. |
| ReplayLoop.IdentitiesWithinBudget | crates/cerbero-normalizer/src/dead_letter.rs:58-163 | In every run of the joined system the dead letters of one root carry at most consumed attempts plus one deduplication identities, and consumed never exceeds the captured maximum. |
| ReplayLoop.LettersWithinBudget | crates/cerbero-normalizer/src/eventbus.rs:186-200 | While stored identities are remembered, one root has at most consumed attempts plus one dead letters, and at most the captured maximum plus one. |
| ForgottenReplays.ForgettingIsUnbounded | crates/cerbero-normalizer/src/runtime.rs:295-353 | If stored identities may be forgotten, one published replay can leave any number of dead letters of one root with one attempt consumed. |
| ForgottenReplays.BoundIffRemembered | crates/cerbero-normalizer/src/eventbus.rs:186-200 | Letters stay within consumed attempts plus one for every root of every run exactly when stored identities are remembered. |
| ReplayProtocol.HandoffNeverRefuses | services/cerbero-worker/replay_runtime.go:197-232 | In every reachable state a sourced delivery makes a well-formed request, and after a reservation the handoff's invariant checks never refuse. |
| ReplayProtocol.UnansweredPutsBack | services/cerbero-worker/replay_runtime.go:152-255 | In every reachable state a lookup, reservation or publication without an answer, or a crash, lets go of the letter and acknowledges nothing. |
| ReplayWorker.Worker.Handle | services/cerbero-worker/replay_runtime.go:152-255 | Handling one delivery changes queue, tables and publications exactly as the protocol's steps do for the answers received, acknowledging last. |
| ReplayWorker.UndisturbedOutcome | services/cerbero-worker/replay_runtime.go:152-255 | From every state an undisturbed delivery closes its letter for exactly one reason or leaves it: it publishes the replay of the stored bytes under the paid attempt exactly when the source stands, nothing captured conflicts and an attempt is paid or to be had. |
| NormalizerProtocol.StepKeepsInvariant | crates/cerbero-normalizer/src/runtime.rs:176-353 | Every step keeps the retry table valid, one row per logical key, every publication a stored row, and every departure from the stream published or dead-lettered. |
| NormalizerProtocol.LeavesOnlyAfterPublication | crates/cerbero-normalizer/src/runtime.rs:176-353 | In every run a message leaves the stream only after its normalized event or its dead letter was published. |
| NormalizerProtocol.IsolatedIsNotProcessed | crates/cerbero-normalizer/src/runtime.rs:176-193 | From every reachable state that marks a lifecycle for isolation, the message is neither processed nor published as normalized until a new dead letter for it is out, whatever happens in between and whatever earlier lifecycles left; where that dead letter is out already, it is the latest and tells the isolating state the store holds. |
| NormalizerProtocol.ProcessedAgainIff | crates/cerbero-normalizer/src/runtime.rs:176-353 | From every reachable state and for every message, some continuation hands it to processing if and only if it has not left the stream: a dead letter is final exactly when its termination took effect. |
| NormalizerProtocol.StoreIsReference | crates/cerbero-normalizer/src/runtime.rs:176-293 | In every run whose messages each decode to one identity, the store and the reference transition agree on every recorded failure. |
| NormalizerProtocol.StreamKeysValid | crates/cerbero-normalizer/src/retry_state.rs:227-239 | Every position of the stream makes a valid retry key. |
| NormalizerProtocol.LookupDecides | crates/cerbero-normalizer/src/runtime.rs:403-408 | From every reachable state a lookup republishes the row stored under the key exactly when it is this derivation of this raw event, reports a conflict for any other row, and plans anew where none is stored. |
| NormalizerProtocol.ReadBackDecides | crates/cerbero-normalizer/src/runtime.rs:477-520 | The row read back is published exactly when its plan, payload hash included, is the one stored. |
| NormalizerProtocol.RecordIsolatesIff | crates/cerbero-normalizer/src/runtime.rs:243-293 | A recorded failure isolates its message exactly when the store's answer arrives and the failure is admissible and permanent or the last the captured budget allows. |
| NormalizerProtocol.FaultIsRecorded | crates/cerbero-normalizer/src/runtime.rs:378-440 | A failed outside call of processing goes to the failure path with its own error, and the message stays in the stream. |
| NormalizerProtocol.FaultPutsBack | crates/cerbero-normalizer/src/runtime.rs:176-353 | A failure to load, clear, record or dead-letter ends the delivery and leaves the message in the stream. |
| NormalizerProtocol.OnePublicationPerLogicalKey | crates/cerbero-normalizer/src/runtime.rs:378-440 | Under sequential redelivery all normalized publications of one logical key are the same stored row, publication identifier included, and carry the derivation they were published for. |
| NormalizerRuntime.Processor.HandleMessage | crates/cerbero-normalizer/src/runtime.rs:176-241 | Handling one delivery changes retry table, rows, publications, dead letters and stream exactly as the protocol's steps do for the answers received. |
| NormalizerRuntime.Processor.ProcessMessage | crates/cerbero-normalizer/src/runtime.rs:378-440 | Find-or-derive, store, read back and publish follow the protocol up to success or the one failure that is reported. |
| NormalizerRuntime.Processor.HandleProcessingFailure | crates/cerbero-normalizer/src/runtime.rs:243-293 | A failure is made durable first; only a state that asks for isolation goes on to the dead-letter steps. |
| NormalizerRuntime.Processor.HandleIsolation | crates/cerbero-normalizer/src/runtime.rs:295-353 | Dead letter, termination and clearing happen in that order, each only after the one before was confirmed. |
| NormalizerOutcome.CalmOutcome | crates/cerbero-normalizer/src/runtime.rs:176-353 | From every reachable state an undisturbed delivery of an isolated message buries it; otherwise it publishes and acknowledges the stored or newly stored row of its own derivation and raw event, or stores its failure and buries the message when that is permanent or spends the budget. |
| RawPreserver.StepKeepsInvariant | services/cerbero-raw-preserver/internal/preserver/core.go:157-246 | Every step of any number of workers keeps records durable and backed by sent publications, and rewrites nothing. |
| RawPreserver.AcknowledgedIsPreserved | services/cerbero-raw-preserver/internal/preserver/core.go:157-246 | In every run an acknowledged delivery has its bytes durable under the event's hash and length, its record committed and marked, and its publication sent. |
| RawPreserver.PublicationsIdentical | services/cerbero-raw-preserver/internal/preserver/core.go:202-230 | All publications ever sent for one incoming message are identical although every retry may build a fresh one. |
| RawPreserver.EvidenceIsImmutable | services/cerbero-raw-preserver/internal/preserver/core.go:80-97 | From every reachable state on, stored bytes and committed publications never change. |
| RawPreserverCore.Core.Process | services/cerbero-raw-preserver/internal/preserver/core.go:157-231 | Processing one delivery changes the stores exactly as the protocol's steps do, and its disposition is the protocol's, acknowledgement included. |
| RawPreserverCore.DispositionIff | services/cerbero-raw-preserver/internal/preserver/core.go:157-246 | Whatever was stored and whatever answers arrive, a delivery is isolated exactly when no redelivery can heal it, acknowledged exactly when every missing effect was confirmed, and retried otherwise. |
| RawPreserverCore.Core.PublishAndMark | services/cerbero-raw-preserver/internal/preserver/core.go:233-246 | Publishing precedes marking, and acknowledgement is answered only after both succeeded. |
| Threshold.ScanWindow | crates/cerbero-detection-core/src/threshold.rs:388-400 | The two-pointer loop returns the first window of the brute-force definition. |
| Threshold.EmitsIffQualifyingSetExists | crates/cerbero-detection-core/src/threshold.rs:379-430 | A group emits if and only if some set of `threshold` distinct candidates spans at most the window. |
| Threshold.EmittedWindowQualifies | crates/cerbero-detection-core/src/threshold.rs:395-405 | The emitted window has exactly `threshold` members, contiguous in (time, id) order and within the window. |
| Threshold.EmittedWindowEndsEarliest | crates/cerbero-detection-core/src/threshold.rs:388-430 | No qualifying set ends before the emitted window does. |
| ThresholdEvaluation.CollectGroups | crates/cerbero-detection-core/src/threshold.rs:336-377 | The collecting loop, with its set of seen identities and its early errors, computes the groups of the delivered events. |
| ThresholdEvaluation.Evaluate | crates/cerbero-detection-core/src/threshold.rs:304-433 | The whole evaluation equals its specification, every error path included. |
| ThresholdEvaluation.ContributionIff | crates/cerbero-detection-core/src/threshold.rs:344-377 | An event contributes its own identity and time to its own tenant's group exactly when it matches and has that group key and a time; it fails exactly at an asked question without an answer. |
| ThresholdEvaluation.EvaluationSucceedsIff | crates/cerbero-detection-core/src/threshold.rs:304-433 | Where the calendar holds every time, evaluation succeeds exactly at a valid instant, under a stated mode, with valid identities and every asked question answered. |
| ThresholdEvaluation.DeliveryOrderIrrelevant | crates/cerbero-detection-core/src/threshold.rs:336-386 | For an error-free policy and identical duplicates, any reordering or repetition of the events gives the same matches. |
| ThresholdEvaluation.MatchesStayInGroup | crates/cerbero-detection-core/src/threshold.rs:344-377 | Whatever the duplicates among the deliveries hold, every member of a match is a delivered, matching event of the match's own tenant and group; members are distinct and as many as the threshold. |
| ThresholdEvaluation.CollectSucceeds | crates/cerbero-detection-core/src/threshold.rs:336-366 | Collecting succeeds exactly when every delivered identity is valid and the policy answers for the first delivery of each id. |
| ThresholdEvaluation.ReportsIffQualifying | crates/cerbero-detection-core/src/threshold.rs:304-433 | A tenant's group is reported if and only if some `threshold` distinct events that count match, have that group key, and have times pairwise within the window. |
| ThresholdEvaluation.ReportedEndsEarliest | crates/cerbero-detection-core/src/threshold.rs:379-430 | A reported match lists qualifying events in (time, id) order, runs from the least of their own times to the greatest, and no qualifying set of events ends before it. |
| Sequence.SelectSequence | crates/cerbero-detection-core/src/correlation.rs:373-434 | The nested loops compute greedy selection. |
| Sequence.SelectIsSound | crates/cerbero-detection-core/src/correlation.rs:373-434 | For every policy, a returned selection covers all stages in strictly increasing order keys within the window, with the exact bounds of its times. |
| Sequence.SelectIsComplete | crates/cerbero-detection-core/src/correlation.rs:373-434 | In a group without traps selection succeeds whenever a qualifying sequence exists, starts no later than any, and picks no later than any with the same start. |
| Sequence.SelectsIffChainExists | crates/cerbero-detection-core/src/correlation.rs:373-434 | In a group without traps a selection is returned if and only if a qualifying sequence exists. |
| Sequence.CompleteIffNoTraps | crates/cerbero-detection-core/src/correlation.rs:373-434 | For every ordered group, greedy selection misses no sequence under any assignment of stages, stage count and window if and only if the group's keys and times hold no trap. |
| Sequence.MonotoneHasNoTraps | crates/cerbero-detection-core/src/correlation.rs:373-434 | A group whose times never decrease as its order keys grow holds no trap. |
| Sequence.GreedyMissesWithoutMonotoneTime | crates/cerbero-detection-core/src/correlation.rs:373-434 | An instance of the failing family: a concrete group with a trap holds a qualifying sequence that greedy selection misses. |
| Sequence.ObservedKeysAreTimeMonotone | crates/cerbero-detection-runtime/src/mvp_batch.rs:953-974 | Keys made of observation time and identity satisfy the hypothesis of completeness. |
| SequenceEvaluation.ValidateUniqueSignals | crates/cerbero-detection-core/src/correlation.rs:290-314 | The deduplicating loop computes the index of the delivered Signals or its error. |
| SequenceEvaluation.UniqueCharacterised | crates/cerbero-detection-core/src/correlation.rs:290-314 | Deduplication succeeds exactly when every Signal is valid, of the right mode, and equal to every other with its identity; the index then holds each delivered Signal once. |
| SequenceEvaluation.CollectCandidates | crates/cerbero-detection-core/src/correlation.rs:316-371 | Grouping puts every contributing Signal into its own tenant and join-key group, once, and nothing else; it fails exactly when some policy answer does. |
| SequenceEvaluation.ContributionIff | crates/cerbero-detection-core/src/correlation.rs:316-371 | A Signal contributes exactly when it satisfies a stage and has a join key, a time and an order key, and its candidate carries these and all the stages it satisfies. |
| SequenceEvaluation.ContributionFailsIff | crates/cerbero-detection-core/src/correlation.rs:316-371 | Grouping fails for a Signal exactly at a question that is asked and not answered. |
| SequenceEvaluation.Evaluate | crates/cerbero-detection-core/src/correlation.rs:449-530 | The whole correlation equals its specification, in whatever order identities are visited. |
| SequenceEvaluation.EvaluationSucceedsIff | crates/cerbero-detection-core/src/correlation.rs:449-530 | Where the calendar holds every time, correlation succeeds exactly under a stated mode, for consistent deliveries of valid Signals of that mode, with every asked question answered. |
| SequenceEvaluation.DeliveryOrderIrrelevant | crates/cerbero-detection-core/src/correlation.rs:473-509 | Any reordering or repetition of the delivered Signals gives the same answer, errors included. |
| SignalContract.ValidateSignal | crates/cerbero-common/src/contracts/signal_validation.rs:243-250 | The validator accepts exactly the canonical Signals: positions as ordinals, distinct inputs, counts by rule type. |
| SignalContract.MaterializeThreshold | crates/cerbero-detection-core/src/threshold.rs:471-548 | Materialisation succeeds exactly when the match's Signal is canonical, and the Signal then tells rule, tenant, times, counts and context field by field and lists the events in order. |
| SignalContract.ThresholdSignalValidIff | crates/cerbero-detection-core/src/threshold.rs:471-548 | A threshold match's Signal is canonical if and only if the producer's context is valid and the members can be numbered. |
| FindingContract.ValidateFinding | crates/cerbero-common/src/contracts/finding_validation.rs:270-320 | The validator accepts exactly the canonical Findings, correlation provenance backed by the inputs included. |
| FindingContract.MaterializeSequence | crates/cerbero-detection-core/src/correlation_finding_materializer.rs:54-115 | Materialisation succeeds exactly when the match's Finding is canonical, and the Finding then tells rule, tenant, window and context field by field and lists the Signals in order. |
| FindingContract.SequenceFindingValidIff | crates/cerbero-detection-core/src/correlation_finding_materializer.rs:54-115 | A sequence match's Finding is canonical if and only if the producer's context is valid. |
| Materialization.EveryThresholdMatchMaterializes | crates/cerbero-detection-core/src/threshold.rs:403-430 | Every match any evaluation emits becomes a canonical Signal if and only if the producer's context is valid and the threshold fits the ordinals. |
| Materialization.SequenceMatchMembers | crates/cerbero-detection-core/src/correlation.rs:473-530 | The i-th Signal of a match satisfies stage i and belongs to the match's tenant and join key; none repeats, and the window is ordered. |
| Materialization.SequenceMatchTells | crates/cerbero-detection-core/src/correlation.rs:473-530 | A match carries its plan's rule, version, configuration and mode; its Signals ascend in order key, and its window runs from the least of their times to the greatest, at most the plan's window apart. |
| Materialization.EverySequenceMatchMaterializes | crates/cerbero-detection-core/src/correlation_finding_materializer.rs:54-115 | Every match any correlation emits becomes a canonical Finding under every valid producer context, and under no other. |
| Materialization.RuntimeReportsIffSequence | crates/cerbero-detection-runtime/src/mvp_batch.rs:953-974 | Under the batch runtime's policy a group is reported if and only if the delivered Signals hold one per stage, in ascending (time, id) order, all within the window. |
| Contracts.MillisSplit | crates/cerbero-detection-core/src/threshold.rs:283-289 | Euclidean splitting keeps the order of instants both ways, also before the epoch, and scaling back returns the milliseconds. |
| EventCompiler.LoweringKeepsMeaning | crates/cerbero-detection-core/src/event_compiler.rs:163-187 | The short-circuiting evaluation of the lowered predicate gives the result of asking every child and cutting at the deciding one, and asks exactly the leaves up to it, errors included. |
| EventCompiler.EvaluationDecides | crates/cerbero-detection-core/src/event_evaluator.rs:141-175 | The evaluated result is exactly the one the tree decides: the first settling child's for AND and OR, errors included, inverted under NOT. |
| EventCompiler.EvaluationIsTruth | crates/cerbero-detection-core/src/event_evaluator.rs:141-175 | Where every leaf answers, the result is the tree's truth as all, some and not say. |
| EventCompiler.TypeCheckFindsFirst | crates/cerbero-detection-core/src/type_checker.rs:42-77 | Type checking reports exactly the first leaf, from left to right, that does not type. |
| EventCompiler.CompilesIff | crates/cerbero-detection-core/src/event_compiler.rs:235-266 | Compilation succeeds exactly when the tree and its optimized form are well-formed and typed, every stage succeeds and the backend is supported. |
| EventCompiler.LoweringKeepsShape | crates/cerbero-detection-core/src/event_compiler.rs:163-187 | The lowered predicate is free of empty AND and OR exactly when the tree is. |
| EventCompiler.CompilationKeepsMeaning | crates/cerbero-detection-core/src/event_compiler.rs:235-266 | For every leaf policy and meaning-preserving optimizer, a successful plan evaluates to what the source tree decides, its truth where every leaf answers, at the same short-circuit point when the optimizer keeps it, and holds no empty AND or OR. |
| QueryParser.ParseQuery | services/cerbero-api/search.go:657-674 | The stateful parser computes the recursive definition on every terminated token list. |
| QueryParser.Parser.ParseOr | services/cerbero-api/search.go:809-822 | The loop builds the left-associated disjunction, ends, and never moves past the end marker. |
| QueryParser.Parser.ParsePredicate | services/cerbero-api/search.go:864-909 | A predicate is read with its operator, literal or list of at most 32, leaving the position just after it. |
| QueryGrammar.ParsesExactlySentences | services/cerbero-api/search.go:788-923 | The parser accepts exactly the sentences of the layered grammar (or, then and, then not, left-associative), each with the one expression it can mean. |
| QueryGrammar.SentenceParses | services/cerbero-api/search.go:809-862 | Every sentence of the grammar, with any redundant parentheses, parses to the expression it was written for. |
| QueryGrammar.RoundTrip | services/cerbero-api/search.go:788-923 | Every expression printed fully parenthesised, or with only the needed parentheses, parses back to itself. |
| QueryCompiler.CompileExpression | services/cerbero-api/search.go:925-958 | Compilation succeeds exactly on well-typed expressions and then yields the emitted condition with its own parameters. |
| QueryCompiler.CompileSearch | services/cerbero-api/search.go:613-1017 | Over the search API's own field table, success means every field used is one of its sixteen. |
| QueryCompiler.Compiler.CompilePredicate | services/cerbero-api/search.go:960-1017 | A leaf compiles exactly when its field, operator and literals type, and binds its literals, and no others, in order. |
| QueryMeaning.BindsFaithfully | services/cerbero-api/search.go:960-1043 | The names are exactly q0..q(n-1), distinct, each placeholder occurs once, and the i-th is bound to the i-th literal from left to right. |
| QueryMeaning.CompilationKeepsMeaning | services/cerbero-api/search.go:932-958 | Read with SQL precedence, its own parameters and three-valued logic, the condition has the expression's truth value, whatever the leaves mean. |
| SearchRows.ConditionMeansQuery | services/cerbero-api/search.go:925-1017 | Over every row of the schema the compiled condition is true, false or unknown exactly as the query's own operators say of the fields: contained, leading and trailing text, membership, order, existence. |
| SearchRows.LeafAgrees | services/cerbero-api/search.go:960-1017 | Each emitted leaf says of a stored value what its operator says, NULL included. |
| SearchRows.ValuedIsTwoValued | services/cerbero-api/search.go:932-958 | Where every field asked about has a value, the query is plainly true or false by and, or and not. |
| SearchPaging.KeysetIsLater | services/cerbero-api/search.go:463-474 | The three-way keyset condition holds exactly of the rows after the cursor's row in page order. |
| SearchPaging.RunSearch | services/cerbero-api/search.go:396-461 | One request returns the next `limit` rows in order and a cursor exactly when more remain; it fails exactly when one of them cannot be shown. |
| SearchPaging.CursorCutsThere | services/cerbero-api/search.go:418-461 | Continuing from a row's cursor leaves exactly the rows after it. |
| SearchPaging.PaginationIsExact | services/cerbero-api/search.go:396-474 | For every limit and direction, following cursors ends and delivers every matching row once and in order; it fails exactly when some matching row cannot be shown. |
| Rfc5424.SplitStructuredData | crates/cerbero-normalizer/src/parser_formats.rs:487-547 | The scanning loops compute the split of the line's tail. |
| Rfc5424.SplitIff | crates/cerbero-normalizer/src/parser_formats.rs:487-547 | The splitter accepts exactly complete elements or the nil value with an optional message, and cuts after the last complete element, never inside a quoted value. |
| Rfc5424.ElementsOfValuesSplit | crates/cerbero-normalizer/src/parser_formats.rs:487-547 | Elements of section 6.3 of RFC 5424 with any parameter values, escaped as that section asks, are split off whole. |
| Rfc5424Line.LineRoundTrip | crates/cerbero-normalizer/src/parser_formats.rs:275-342 | For every PRI in 0..191, header tokens, valid or nil timestamp, structured data and message, the printed line parses and shows each of those fields under its own name, nil values as absent. |
| Rfc5424Line.ParsedIsWritten | crates/cerbero-normalizer/src/parser_formats.rs:435-469 | Whatever parses was written as a line with those fields, up to the spelling of PRI and version. |
| Rfc5424Line.ParsesIffWritten | crates/cerbero-normalizer/src/parser_formats.rs:275-342 | The parser returns an event if and only if the text is a valid line with these fields under some spelling of its PRI and of version 1. |
| Rfc5424Line.VersionIsOneIff | crates/cerbero-normalizer/src/parser_formats.rs:277-287 | The version field is read as 1 exactly when it is zeros and a final one, with or without a plus sign. |
| Framing.Reader.ReadFrame | services/cerbero-ingest/internal/syslogingest/tcp.go:191-239 | Reading one frame consumes exactly its prefix and payload, or fails as the frame definition says, end-of-file errors told apart. |
| Framing.FrameIff | services/cerbero-ingest/internal/syslogingest/tcp.go:191-239 | On any octets a frame is read exactly where a length of at most twenty digits, a space and that many octets within the limit stand. |
| Framing.CleanCloseIff | services/cerbero-ingest/internal/syslogingest/tcp.go:191-239 | On any octets a failure is taken for a clean close exactly when the stream ended inside a length prefix or right after an admissible one. |
| Framing.HandleConnection | services/cerbero-ingest/internal/syslogingest/tcp.go:82-128 | The connection loop admits frames one at a time as its specification says, stopping at the first refusal or read error. |
| Framing.AnyStream | services/cerbero-ingest/internal/syslogingest/tcp.go:82-128 | Whatever a peer sends, the admitted frames are spelled at its front one after another and were all accepted; handling stops at a refused frame or where none follows. |
| Framing.StreamRoundTrip | services/cerbero-ingest/internal/syslogingest/tcp.go:191-239 | Any list of non-empty frames within the limit, encoded as section 3.4.1 of RFC 6587 says, is admitted frame for frame. |
| Framing.TruncatedStream | services/cerbero-ingest/internal/syslogingest/tcp.go:82-128 | Cut after any octet and with any refusals, the admitted frames are the leading complete ones up to the first refusal; the close is clean exactly when nothing was refused and no payload octet of an unfinished frame arrived. |
| Framing.AdmittedIsPrefix | services/cerbero-ingest/internal/syslogingest/tcp.go:97-127 | On any octets, what is admitted is an in-order prefix of what would be without refusals. |
| Journald.Collector.ReadEntry | services/cerbero-ingest/internal/journald/export.go:101-180 | The entry loop reads what the entry definition says, limits and end of stream included, tells errors that unwrap to end-of-file from others, and leaves the position after the entry. |
| Journald.Collector.ReadBinaryValue | services/cerbero-ingest/internal/journald/export.go:182-211 | A binary value is read with its eight-octet length and its newline, or refused; the refusal unwraps to end-of-file exactly where the stream ended before the length, the value or the terminator. |
| Journald.JournalRoundTrip | services/cerbero-ingest/internal/journald/export.go:101-211 | Any list of entries with text and binary fields within the limit reads back field for field, with the last readable cursor. |
| Journald.CursorIsLast | services/cerbero-ingest/internal/journald/export.go:101-180 | An entry's cursor is the value of its last readable cursor field, and empty where there is none. |
| JournaldRead.AnyExport | services/cerbero-ingest/internal/journald/export.go:101-211 | Whatever a journal sends, the collected entries stand there one after another, each as the written form of exactly its fields within the limit; only the end of the stream may cut their newlines. |
| JournaldCut.CutExport | services/cerbero-ingest/internal/journald/export.go:101-211 | An export cut after any octet collects exactly the whole entries, then what the cut leaves of the next one, and ends clean or not, case by case. |
| JournaldCut.WholeEntriesSurvive | services/cerbero-ingest/internal/journald/export.go:101-180 | No cut loses or changes an entry written whole; at most one shortened entry follows them. |
| SourceTime.ResolveNearestYear | crates/cerbero-normalizer/src/source_time.rs:156-189 | The instant chosen from three years is at least as close to ingest as the same date and time in any representable year, leap days included, and the earlier of two equally close ones; each error is returned exactly under its condition. |
| SourceTime.StampRoundTrip | crates/cerbero-normalizer/src/source_time.rs:191-227 | A written month, day, hour, minute and second read back field for field, with either padding of the day. |
| SourceTime.NearestOfThree | crates/cerbero-normalizer/src/source_time.rs:165-182 | Being nearest among the years around the ingest year implies being nearest among all. |
| SourceTime.YearStep | crates/cerbero-normalizer/src/source_time.rs:168-174 | The closed day count grows by exactly the length of each proleptic Gregorian year. |
| TokenBucket.Bucket.Take | services/cerbero-ingest/internal/ingestapp/limits.go:35-53 | A token is granted exactly when the grant keeps every window ending now within capacity plus rate times its length; tokens stay within 0..capacity for any clock readings, and the bucket is where its readings took it. |
| TokenBucket.InstantBound | services/cerbero-ingest/internal/ingestapp/limits.go:35-53 | Between any two effective times the grants number at most capacity plus rate times the elapsed time, also when the clock stalls or steps back. |
| TokenBucket.EffectiveIsMaximum | services/cerbero-ingest/internal/ingestapp/limits.go:39-47 | The time a bucket works with is the running maximum of its start and the readings so far. |
| RawClock.RawBoundIff | services/cerbero-ingest/internal/ingestapp/limits.go:35-53 | Between any two raw readings the bound holds, for every run whose clock steps back by at most d, if and only if the rate is at most one or d earns at most one token. |
| RawClock.RawBoundWithSetback | services/cerbero-ingest/internal/ingestapp/limits.go:35-53 | For every run, grants between two raw readings number at most capacity plus rate times the elapsed time and the largest setback. |
| RawClock.NoSetbackIff | services/cerbero-ingest/internal/ingestapp/limits.go:39-47 | A run's largest setback is zero exactly when its readings never step back. |
| RawClock.SteadyClockBound | services/cerbero-ingest/internal/ingestapp/limits.go:35-53 | While the readings never step back, the bound holds between raw readings. |
| RawClock.StepBackWitness | services/cerbero-ingest/internal/ingestapp/limits.go:35-53 | A bucket of two, by its own calls, grants more than two at one raw reading after the clock stepped back. |

## Left out

- NATS, PostgreSQL, ClickHouse, HTTP and filesystem clients: they are the maps, logs and lost answers of the protocols; a transaction is one atomic step, as the row lock it takes makes it.
- A write that takes effect only after a later read already missed it, in ClickHouse or JetStream.
- Concurrent normalizer processors: `NormalizerProtocol` has one message in progress, as the consumer's limit of one pending acknowledgement intends.
- The length of the dead-letter stream's duplicate window: whether an identity is still remembered is chosen step by step.
- Retry keys of messages without stream metadata (the payload-hash fallback), and consumer names per execution mode.
- RetryState.PostgresStore.RecordFailure: instants are the microseconds of the durable columns; the nanoseconds a reference value could hold are not modelled.
- The order in which evaluators emit matches: matches are kept by tenant and group key, of which there is at most one each.
- Error messages and the payload of policy errors; errors are told apart by kind.
- Float rounding in the token bucket: tokens are reals.
- Lexing of query text, the request's time-range and fingerprint checks and the base64 cursor codec: parsing starts at tokens, paging at a prepared search and a decoded cursor.
- SourceTime.ResolveNearestYear: an ingest instant whose local year leaves the calendar library's range stops the process in the source; here it is the invalid-ingest error.
- Rfc5424.SplitStructuredData: works on characters where the source works on UTF-8 octets; every character it looks for is ASCII, so both cut at the same places.
- The JSON, journald and sshd event parsers, RFC 3164 tag splitting, mappings and Sigma translation: field copying and single-branch checks.
- The canonical JSON encoding of journal entries, and reading of durable cursors.
- The operational API, TUI, configuration, metrics, bootstrap and contract-check scripts.
