# Facade adapters of the evaluation factory, in Dafny

The repository prepares attachments for agent evaluations. Between its planning
side and the workers, model clients and file system stand a handful of stateful
adapters: they meter runs against grants, remember answers by idempotency key,
guard running work with reservation ids and fencing tokens, scan untrusted
archives within limits, and check everything that comes back. This project models
those adapters, and two scripts that select canary traces and validate annotation
bundles, and proves what they keep over every input, run or interleaving.

| module | models |
|---|---|
| `Metering`, `Execution`, `ExecutionRuns`, `ExecutionConditions`, `ExecutionAgreement`, `ExecutionOverlap`, `ExecutionFacade` | the metered execution facade: the runtime event loop, the three tiers over one idempotency key, snapshots, what every run of calls keeps, when a call succeeds and why it does not, when the tiers agree, and calls that overlap |
| `HandleRegistry`, `HandleStops`, `HandleAnswers`, `HandleRuns` | its handle registries, with runs and stop requests interleaved at every await, and what one run does to them |
| `ModelControl`, `ModelControlProtocol`, `ModelControlAnswers`, `ModelControlCache` | the direct model-control facade as atomic steps of its coroutines, and every interleaving of them |
| `ArchivePaths`, `Extraction`, `ExtractionState` | archive member names, and bounded recursive text extraction, strict and lenient |
| `Chains`, `ExtractionReach`, `ExtractionChains`, `ExtractionFaults` | what an extraction reaches and why it fails, said of the attachment's own tree |
| `Simhash` | the 256-bit similarity fingerprint |
| `Tokens`, `Matcher`, `CrossItemSafety`, `ScanConditions` | tokenising, the indexed window matcher, the safety scan built from them, and when it passes |
| `RuntimeStream`, `RuntimeReport` | the adapter that checks a legacy runtime's event stream, and what it yields of each source event |
| `Export`, `ExportConditions`, `ExportScan`, `ExportReach`, `ExportFiles` | exact workspace export, with the inventory scan, what it reaches, and the file copy below it |
| `SemanticReview`, `ReviewConditions`, `SemanticRepair` | closure of semantic reviews and repairs over any backend decision, and exactly when a review stands |
| `MessageScan`, `Canaries`, `CanaryPicks`, `CanarySelector` | the message scan and the greedy canary selection |
| `Adjudication`, `BundleConditions`, `Evidence` | annotation bundles, adjudications, gold coverage and cited evidence |
| `Prelude`, `Walks`, `ModelControlTypes` | shared values and machinery: references, Python's tuple order and sort; bounded walks; grants, usage and receipts |

How the code is modelled:

- Code that updates fields or runs a loop is a class method or a method, proved
  equal to a function of its inputs and of the old state, or to a declarative
  specification; the theorems are about those functions and specifications. The
  `...Conditions`, `...Reach`, `...Chains` and `...Report` modules say of the inputs
  themselves, with their fields and constants written out, what the result is.
- Foreign code is a parameter: hashes, case folding, Unicode normalisation,
  canonical identities, zip decoding, document text, the resolver, workers, model
  clients, clocks and the file system. Zip parsing is an arbitrary function on
  bytes, so an archive may contain itself. A hash is assumed injective only in the
  lemmas that say so.
- Coroutines are cut at their awaits, and every order of the pieces is a run.
- Exceptions are values (`Raised`, `Blocked`, `None`).

## What turned out not to hold

For each of these the model keeps what the code does, a lemma gives the exact
condition or the run that shows it, and the guarantee that does hold is proved.

- The caches of the execution facade agree downward from success
  (`TiersAgreeOnSuccess`), but not otherwise: overrides keep the raw result below,
  and a refused or rejected request can be made again at a lower tier under the same
  key. `ResourceTierAgreesIff` and `ModelTierAgreesIff` are exact over every run;
  `StorageOverrideSplits`, `ChargeOverrideSplits` and `RefusedThenExecutedSplits` are
  the runs that split them.
- In both registries a handle can be active and stopped at once: `AlwaysApartIff` in
  `HandleRegistry` and in `ModelControlProtocol`, with `StoppedHandleComesBack` and
  `RestartedHandleIsActiveAndStopped`.
- A run does not always give its handle back: `RunKeepsHandleIff`,
  `RaisingRunKeepsHandle`.
- A stop request that waits for the runtime takes whichever run holds the handle
  when it resumes, not only the run it was sent to: `StopTakesOwnRunIff`,
  `LateStopTakesAnotherRun`.
- No cache deduplicates calls or requests that overlap under one key: entries and
  answers are final only if nothing overwrites them. `CachesFinalIff` (execution
  caches), `CacheFinalIff` and `AnswersFinalIff` (model control) and `AnswersFinalIff`
  (handle registries) are exact; `OverlapReplacesMeteredResult`,
  `OverlappingCallsReplaceAnswer`, `OverlappingCancellationsChangeAnswer` and
  `OverlappingStopsChangeAnswer` are the runs.
- An export can be blocked although its source is what was requested and the copy is
  exact, because the copy is scanned under the requested name:
  `FaithfulOutputPassesIff`, `RenamedFileIsRefused`.

## Model

| member | source | states |
|---|---|---|
| `Metering.ReadStream` | src/env_mock_agent/facade/execution_adapter.py:950-1028 | the loop stops where `Consumed` says, with the network count and the last usage report of exactly the prefix it read |
| `Metering.ConsumptionStopsAtFirstOverrun` | src/env_mock_agent/facade/execution_adapter.py:990-1028 | for every stream and limit: reading stops at the first event over the limit and nowhere else, so the count is at most limit + 1 and every shorter prefix is within the limit |
| `Metering.UnmeteredReadsEverything` | src/env_mock_agent/facade/execution_adapter.py:990-1005 | without a grant the whole stream is read |
| `Metering.ConsumedPrefixIsStable` | src/env_mock_agent/facade/execution_adapter.py:950-1028 | how much is read does not depend on what comes after the stopping point |
| `ExecutionRuns.CachesAreWriteOnce` | src/env_mock_agent/facade/execution_adapter.py:1170-1212 | between any two points of any run of calls, no entry of the four caches changes or disappears |
| `ExecutionRuns.TiersAgreeOnSuccess` | src/env_mock_agent/facade/execution_adapter.py:383-781 | after any run, a SUCCEEDED model entry is the resource entry, and a SUCCEEDED resource entry carries the execution entry's result, under the same request hash |
| `ExecutionAgreement.ResourceTierAgreesIff` | src/env_mock_agent/facade/execution_adapter.py:478-615 | over every run and every key with a resource entry: if the call that wrote it was let through, execution and resource cache agree if and only if its result was not overridden (a run over the network limit was recognised as such, a delivered output is within the storage limit); if it was refused, if and only if a later unmetered call under the key fails just as the refusal did, at the same time |
| `ExecutionAgreement.ModelTierAgreesIff` | src/env_mock_agent/facade/execution_adapter.py:617-781 | over every run and every key with a model entry: if the call was validly bound, resource and model cache agree if and only if the last usage report it read was not malformed or over the grant; if it was rejected, if and only if a later call at the resource tier fails just as the rejection did, at the same time |
| `ExecutionAgreement.ControlCodesComeFromResolver` | src/env_mock_agent/facade/execution_adapter.py:405-469 | an attempt fails with the code of a refusal, rejection or override if and only if the resolver reports that code |
| `ExecutionAgreement.RefusedThenExecutedSplits` | src/env_mock_agent/facade/execution_adapter.py:398-414 | a run for every refused request: executing it afterwards under its key leaves two different results |
| `ExecutionAgreement.StorageOverrideSplits` | src/env_mock_agent/facade/execution_adapter.py:583-615 | a run for every delivered output over the storage limit: a success in the execution cache, a limit failure in the resource cache |
| `ExecutionAgreement.ChargeOverrideSplits` | src/env_mock_agent/facade/execution_adapter.py:703-745 | a run for every delivery whose report passes the model grant: a success in two caches, a limit failure in the third |
| `ExecutionOverlap.MoveKeepsCachesIff` | src/env_mock_agent/facade/execution_adapter.py:389-781 | with calls cut where they wait for their workers: a cached entry changes exactly when a call resumes with another entry than the one its key has got meanwhile |
| `ExecutionOverlap.CachesFinalIff` | src/env_mock_agent/facade/execution_adapter.py:1170-1212 | over every interleaving: the caches are write-once if and only if no resuming call overwrites an entry |
| `ExecutionOverlap.InterleavingIsSequential` | src/env_mock_agent/facade/execution_adapter.py:389-781 | if no call begins under a key for which another waits, every interleaving is the sequential run of the same calls in the order of their beginnings, up to entries still to be written |
| `ExecutionOverlap.QuietInterleavingIsRun` | src/env_mock_agent/facade/execution_adapter.py:389-781 | once nothing waits, its caches are exactly those of that sequential run |
| `ExecutionOverlap.NonOverlappingCachesAreFinal` | src/env_mock_agent/facade/execution_adapter.py:1170-1212 | and they are write-once at every point |
| `ExecutionOverlap.OverlapReplacesMeteredResult` | src/env_mock_agent/facade/execution_adapter.py:389-615 | with overlap, from any state: an unmetered call that resumes last replaces the result below a metered success |
| `ExecutionRuns.ResourceSuccessWasMetered` | src/env_mock_agent/facade/execution_adapter.py:478-615 | every SUCCEEDED resource entry was run by the metered call that wrote it, with nothing cached before, and its usage is within all four limits of that grant |
| `ExecutionRuns.ModelSuccessWasMetered` | src/env_mock_agent/facade/execution_adapter.py:617-781 | the same for the model tier, which is charged for exactly that attempt, within the model grant |
| `ExecutionRuns.ControlledCallReplays` | src/env_mock_agent/facade/execution_adapter.py:630-640 | a repeated controlled call gets the first answer and writes nothing, whatever the world now does |
| `ExecutionRuns.AttemptIsBounded` | src/env_mock_agent/facade/execution_adapter.py:950-1049 | an attempt starts at most one process, passes the network limit by at most one request, and then does not succeed |
| `ExecutionRuns.AdmittedRunsPassOnlyTwoLimits` | src/env_mock_agent/facade/execution_adapter.py:504-606 | once the checks before a run let it through, its usage is admitted if and only if the whole stream is within the network limit and a delivered output within the storage limit |
| `ExecutionRuns.AttemptSucceedsIff` | src/env_mock_agent/facade/execution_adapter.py:405-469 | the exact condition, on the world alone, for a metered attempt to succeed; a success names the output found, a failure carries a code, and only retryable failures are retryable |
| `ExecutionRuns.RuntimeSucceedsIff` | src/env_mock_agent/facade/execution_adapter.py:919-1110 | the runtime route delivers if and only if the whole stream is within the limit, ends in a finish without raising, and leaves an output inside staging |
| `ExecutionConditions.ControlledCallSucceedsIff` | src/env_mock_agent/facade/execution_adapter.py:617-781 | with all fields written out, a controlled call on a fresh key succeeds if and only if the descriptor and model grant were made for just this request, the resource grant has room for it, the attempt succeeds, and its usage and charge are within both grants |
| `ExecutionConditions.RejectedIff` | src/env_mock_agent/facade/execution_adapter.py:643-700 | a controlled call on a fresh key is rejected, with zero usage and nothing written at a lower tier, if and only if mode, route, profile, operation or descriptor of its binding, or one of the three allowances of its grant, does not fit; which code it then gets |
| `ExecutionConditions.RefusedIff` | src/env_mock_agent/facade/execution_adapter.py:498-582 | a metered call on a fresh key is refused before anything runs if and only if its grant is for another request or has no room for its processes, network or renderer; with which status and code |
| `ExecutionConditions.EverySuccessWasMadeFor` | src/env_mock_agent/facade/execution_adapter.py:617-781 | after any run, every SUCCEEDED model entry goes back to a call whose descriptor and grant were made for its request, within both of its grants |
| `ExecutionConditions.UsageIs` | src/env_mock_agent/facade/execution_adapter.py:583-600 | the resource usage of an attempt, counted in the events it read and the output it left |
| `ExecutionConditions.ReportIsChargedAs` | src/env_mock_agent/facade/execution_adapter.py:703-745 | a usage report of the runtime is charged for its turns, at least one request, with input, output and both cache counts each under their own name and their sum as the charge; it is malformed exactly if one of the four counts is negative |
| `ExecutionConditions.UnfinishedRunFailsWith` | src/env_mock_agent/facade/execution_adapter.py:1274-1312 | a run that does not end in a finish fails with the status and code of its last event, error code by error code |
| `ExecutionConditions.ResultsNameRequest` | src/env_mock_agent/facade/execution_adapter.py:1051-1110 | every result names the id, hash, artifact, attempt, snapshot and route of its request, and the worker of that route |
| `ExecutionRuns.EveryReceiptIsAccounted` | src/env_mock_agent/facade/execution_adapter.py:617-781 | after any run, every receipt goes back to one controlled call and is charged exactly the last usage report that call read, the full allowance, or nothing for an invalid binding, each under its exact condition |
| `ExecutionRuns.FactIndexIsExact` | src/env_mock_agent/facade/execution_adapter.py:330-335 | the index maps each canonical fact id to the one ledger fact that has it |
| `ExecutionRuns.LocksAreExact` | src/env_mock_agent/facade/execution_adapter.py:336-355 | locking succeeds if and only if every required fact is known, and locks them in order at their values |
| `ExecutionRuns.SnapshotLocksRequiredFacts` | src/env_mock_agent/facade/execution_adapter.py:313-381 | a snapshot locks exactly the required facts, in order, each at the value of its unique ledger fact |
| `ExecutionRuns.IssuedSnapshotHasCall` | src/env_mock_agent/facade/execution_adapter.py:373-381 | every snapshot the facade knows was issued by a call of this run |
| `ExecutionRuns.SuccessHadCurrentSnapshot` | src/env_mock_agent/facade/execution_adapter.py:405-469 | every cached SUCCEEDED execution ran against a snapshot issued earlier in the run, with the ledger equal to its snapshot-time value and the worker's copy unmutated |
| `ExecutionFacade.AttachmentExecutionFacade.SnapshotWorld` | src/env_mock_agent/facade/execution_adapter.py:313-381 | the method on the facade's dictionaries takes the step of the run model and gives its answer |
| `ExecutionFacade.AttachmentExecutionFacade.IndexFacts` | src/env_mock_agent/facade/execution_adapter.py:330-335 | the loop builds the exact fact index or gives up at a blank or repeated id |
| `ExecutionFacade.AttachmentExecutionFacade.LockFacts` | src/env_mock_agent/facade/execution_adapter.py:336-355 | the loop builds the exact locks or gives up at a missing fact |
| `ExecutionFacade.AttachmentExecutionFacade.Attempt` | src/env_mock_agent/facade/execution_adapter.py:405-469 | the attempt of the run model, with the event loop run as a loop |
| `ExecutionFacade.AttachmentExecutionFacade.Execute` | src/env_mock_agent/facade/execution_adapter.py:383-469 | the step and answer of the execution tier, changing nothing else |
| `ExecutionFacade.AttachmentExecutionFacade.ExecuteWithResources` | src/env_mock_agent/facade/execution_adapter.py:471-615 | the step and answer of the resource tier |
| `ExecutionFacade.AttachmentExecutionFacade.ExecuteWithControls` | src/env_mock_agent/facade/execution_adapter.py:617-781 | the step and answer of the model tier |
| `HandleRegistry.RegistryFollowsHistory` | src/env_mock_agent/facade/execution_adapter.py:783-854 | in every interleaving, for both registries: a run is cancelled only for a request with the reservation and fence it was last registered with; each answer is justified by what happened before; a replay repeats an earlier answer for its request id; a handle is registered exactly when it was registered and not released since |
| `HandleRegistry.StepKeepsApartIff` | src/env_mock_agent/facade/execution_adapter.py:958-1061 | from a state in which no handle is registered and stopped, any step leads to one in which some handle is if and only if it registers a stopped handle, by an ordinary event or by one over the limit |
| `HandleRegistry.AlwaysApartIff` | src/env_mock_agent/facade/execution_adapter.py:958-1061 | over every run: no handle is ever registered and stopped at once if and only if no step registers a stopped handle |
| `HandleRegistry.StoppedHandleComesBack` | src/env_mock_agent/facade/execution_adapter.py:958-974 | a run stopped between two events is registered and stopped at once |
| `HandleStops.StopTakesOwnRunIff` | src/env_mock_agent/facade/execution_adapter.py:834-849 | over every run: a stop that resumes after its cancellation unregisters the run it cancelled if and only if the handle was since not touched or last registered by that run, another run if and only if another registered last, and nothing if and only if it was released last |
| `HandleStops.LateStopTakesAnotherRun` | src/env_mock_agent/facade/execution_adapter.py:838-849 | a run of steps in which it is another run, which is then reported as already stopped while it still reads its events |
| `HandleStops.ReleasedAndBackIsStillOwnRun` | src/env_mock_agent/facade/execution_adapter.py:838-849 | a run of steps in which the handle was released in between and it is still its own run |
| `HandleAnswers.AnswerChangesIff` | src/env_mock_agent/facade/execution_adapter.py:783-820 | the exact step at which an answer that the model registry remembers changes |
| `HandleAnswers.AnswersFinalIff` | src/env_mock_agent/facade/execution_adapter.py:783-820 | over every run: remembered answers are final if and only if no resuming stop overwrites one |
| `HandleAnswers.AnswersAreFinal` | src/env_mock_agent/facade/execution_adapter.py:783-820 | without overlapping requests under one id they are final |
| `HandleAnswers.OverlappingStopsChangeAnswer` | src/env_mock_agent/facade/execution_adapter.py:783-820 | a run with overlap in which a remembered failure becomes a success |
| `HandleRuns.RunKeepsHandleIff` | src/env_mock_agent/facade/execution_adapter.py:950-1061 | from any registry, after any uninterrupted run that registered: its handle is still registered if and only if the stream raised or its telemetry was unreadable without an overrun, or it overran on an event without a run handle or with a failing cancellation; the handle counts as stopped otherwise, and no other handle changes |
| `HandleRuns.RaisingRunKeepsHandle` | src/env_mock_agent/facade/execution_adapter.py:1029-1034 | a concrete such run: an ended run is still registered |
| `ModelControl.DirectReceiptIsHonest` | src/env_mock_agent/facade/model_control_adapter.py:123-195 | output, result reference and success come together and only within the grant; reported usage decides success exactly; otherwise the full allowance, or nothing for backpressure |
| `ModelControl.EndedCallLeaves` | src/env_mock_agent/facade/model_control_adapter.py:123-195 | said of the dictionary the client returns: each of the four counts is charged as given under its own key or alias, or as nothing; the call succeeds if and only if their sum, the output count and one request are within the grant; the usage is refused if and only if one of the four is boolean, not whole or negative |
| `ModelControl.ModelControlFacade.Generate` | src/env_mock_agent/facade/model_control_adapter.py:68-122 | the method up to its await takes the start step of the protocol |
| `ModelControl.ModelControlFacade.GenerateResumes` | src/env_mock_agent/facade/model_control_adapter.py:123-195 | the method after its await takes the finish step |
| `ModelControl.ModelControlFacade.Cancel` | src/env_mock_agent/facade/model_control_adapter.py:197-228 | the method up to its await, or to its answer, takes the cancel step |
| `ModelControl.ModelControlFacade.CancelResumes` | src/env_mock_agent/facade/model_control_adapter.py:217-228 | after the awaited task: CANCELLED is recorded unless the task ended with an error of its own |
| `ModelControlProtocol.EveryHistoryIsJustified` | src/env_mock_agent/facade/model_control_adapter.py:109-228 | in every interleaving: a task is cancelled only by a request with its own reservation and fence; ALREADY_FINISHED only for a handle that ran and ended; CANCELLED only after a cancellation was sent; a replay repeats an answer given before |
| `ModelControlAnswers.EveryCancellationIsDecided` | src/env_mock_agent/facade/model_control_adapter.py:197-228 | in every interleaving each new decision on a cancellation request is exactly the one that the calls begun and ended before it call for, and the facade's registries are what that history says |
| `ModelControlAnswers.CallBeginsIff` | src/env_mock_agent/facade/model_control_adapter.py:68-122 | a call waits for its client if and only if descriptor and grant are genuine and fit field by field, nothing is remembered under its key and the client is known; its handle is then registered with the grant's reservation and fence; and exactly when it is refused |
| `ModelControlProtocol.StoppedIsPermanent` | src/env_mock_agent/facade/model_control_adapter.py:192-194 | a stopped handle stays stopped in every continuation |
| `ModelControlProtocol.ActiveHandlesAreNotStopped` | src/env_mock_agent/facade/model_control_adapter.py:109-194 | if each handle is started at most once, no handle is active and stopped, and active handles are exactly those of the calls in flight |
| `ModelControlProtocol.StartKeepsApartIff` | src/env_mock_agent/facade/model_control_adapter.py:109-122 | a start keeps active and stopped handles apart if and only if it does not start a stopped handle |
| `ModelControlProtocol.AlwaysApartIff` | src/env_mock_agent/facade/model_control_adapter.py:109-194 | over every run: no handle is ever active and stopped at once if and only if no stopped handle is started |
| `ModelControlProtocol.RestartedHandleIsActiveAndStopped` | src/env_mock_agent/facade/model_control_adapter.py:109-194 | restarting any finished handle under a new key makes it both |
| `ModelControlProtocol.AnswersAreFinal` | src/env_mock_agent/facade/model_control_adapter.py:202-228 | without overlapping requests under one id, recorded cancellation answers never change |
| `ModelControlProtocol.RepeatedCancellationReplays` | src/env_mock_agent/facade/model_control_adapter.py:202-204 | then a repeated cancellation id replays the first answer |
| `ModelControlProtocol.AnswerChangesIff` | src/env_mock_agent/facade/model_control_adapter.py:217-228 | with overlap: the exact step at which a recorded answer, with its request and time, changes |
| `ModelControlProtocol.AnswersFinalIff` | src/env_mock_agent/facade/model_control_adapter.py:202-228 | over every run: recorded answers are final if and only if no step overwrites one |
| `ModelControlProtocol.OverlappingCancellationsChangeAnswer` | src/env_mock_agent/facade/model_control_adapter.py:202-228 | a run of five steps in which a recorded FAILED becomes CANCELLED |
| `ModelControlCache.EveryDirectReceiptIsHonest` | src/env_mock_agent/facade/model_control_adapter.py:68-195 | in every interleaving a remembered receipt goes back to a call under its key, names its descriptor and grant, carries output and result exactly on success, and its success is within that grant |
| `ModelControlCache.CacheIsWriteOnce` | src/env_mock_agent/facade/model_control_adapter.py:252-259 | if calls under one key do not overlap, a remembered answer never changes |
| `ModelControlCache.RepeatedCallReplays` | src/env_mock_agent/facade/model_control_adapter.py:88-92 | then a repeated call gets the first output and receipt, and a different call under the key is refused |
| `ModelControlCache.CachedAnswerChangesIff` | src/env_mock_agent/facade/model_control_adapter.py:252-259 | with overlap: the exact step at which a remembered output and receipt change |
| `ModelControlCache.CacheFinalIff` | src/env_mock_agent/facade/model_control_adapter.py:252-259 | over every run: remembered answers are final if and only if no resuming call replaces one |
| `ModelControlCache.OverlappingCallsReplaceAnswer` | src/env_mock_agent/facade/model_control_adapter.py:109-195 | a run of two overlapping calls in which a remembered success becomes a failure |
| `Extraction.SucceedsIffFits` | src/env_mock_agent/facade/duplicate_adapter.py:191-228 | a walk succeeds if and only if nothing it asks for fails, its paths are distinct and its totals are within the limits; then the accumulator is the flatten of the walk |
| `Extraction.SuccessIsPreserved` | src/env_mock_agent/facade/duplicate_adapter.py:353-538 | success survives raised file, depth, member, byte and ratio limits and the step from strict to lenient, with identical chunks and paths and no larger totals, for any directory or archive |
| `Extraction.ZipWalkIsStable` | src/env_mock_agent/facade/duplicate_adapter.py:468-538 | inside archives a walk without failure is the same walk under any more permissive mode |
| `Extraction.SelfContainingArchiveFails` | src/env_mock_agent/facade/duplicate_adapter.py:468-538 | an archive that contains itself is walked to an end and refused at every depth limit |
| `ExtractionState.State.AddMember` | src/env_mock_agent/facade/duplicate_adapter.py:202-215 | the in-place counters equal the member effect, and the path set mirrors the path list |
| `ExtractionState.State.AddPath` | src/env_mock_agent/facade/duplicate_adapter.py:217-221 | a repeated path raises, a new one is appended |
| `ExtractionState.State.AddText` | src/env_mock_agent/facade/duplicate_adapter.py:223-228 | text is appended within the character limit |
| `ExtractionState.State.ScanZip` | src/env_mock_agent/facade/duplicate_adapter.py:468-538 | the recursive walk on the mutable accumulator ends for any bytes and equals the effects applied in order |
| `ExtractionState.State.ScanEntries` | src/env_mock_agent/facade/duplicate_adapter.py:484-538 | the same for the loop over a listing, up to its first failure |
| `ExtractionState.ExtractDirectory` | src/env_mock_agent/facade/duplicate_adapter.py:386-431 | the same for a directory tree |
| `ExtractionState.ExtractTextProjections` | src/env_mock_agent/facade/duplicate_adapter.py:353-383 | the whole extraction equals the outcome the theorems are about |
| `ExtractionChains.ExtractionReaches` | src/env_mock_agent/facade/duplicate_adapter.py:353-538 | said of the attachment alone, for any directory or nested archive: extraction succeeds if and only if every spot that a chain of indices leads to is sound (readable, not encrypted, no link, within size, ratio and nesting limits, no name twice, scannable if strict) and the totals fit; texts, paths and counts are then those of exactly these spots, in order |
| `ExtractionChains.PathsAreReached` | src/env_mock_agent/facade/duplicate_adapter.py:484-515 | a path is extracted if and only if some chain leads to a spot whose names on the way, joined by slashes, are that path |
| `ExtractionChains.TextsAreReached` | src/env_mock_agent/facade/duplicate_adapter.py:526-529 | a text is extracted if and only if some chain leads to a document with that text |
| `ExtractionChains.EveryEntryWasSafe` | src/env_mock_agent/facade/duplicate_adapter.py:478-525 | every archive entry a successful extraction met, at any depth, is unencrypted, no link, and within the limits for size, compression ratio and nesting |
| `ExtractionReach.FailsIffUnsound` | src/env_mock_agent/facade/duplicate_adapter.py:386-538 | the walk fails exactly where some chain leads to an unsound spot, although it stops at the first failure and has a depth limit |
| `ExtractionFaults.FailureHasCause` | src/env_mock_agent/facade/duplicate_adapter.py:386-538 | a failure for encryption, truncation, a link, a bad name or an unsupported file has, somewhere in the attachment, a spot that is just that |
| `ArchivePaths.NormalizedStaysInside` | src/env_mock_agent/facade/duplicate_adapter.py:581-589 | a normalised member name has exactly the named parts of the text, in order, none of them leading upwards, and no slash at either end |
| `Simhash.Simhash` | src/env_mock_agent/facade/duplicate_adapter.py:605-622 | the nested loops give 64 hexadecimal digits that denote the number whose bits are the signs of the vote weights of all shingle digests |
| `Simhash.OutputBitIsMajority` | src/env_mock_agent/facade/duplicate_adapter.py:613-621 | output bit b is set if and only if at least half of the shingle digests have bit b set |
| `Simhash.UnanimousFingerprint` | src/env_mock_agent/facade/duplicate_adapter.py:613-621 | when all shingles agree the fingerprint is their digest, bit for bit |
| `Simhash.UnanimousFingerprintIsDigest` | src/env_mock_agent/facade/duplicate_adapter.py:613-622 | and its number is that of the digest's bytes, first byte first |
| `Simhash.FingerprintIgnoresOrder` | src/env_mock_agent/facade/duplicate_adapter.py:613-621 | the order of the shingles does not matter |
| `Simhash.OneTokenMovesWeightsLittle` | src/env_mock_agent/facade/duplicate_adapter.py:610-621 | replacing one token moves every weight by at most twice the shingle size, so a bit that far from flipping never flips |
| `Tokens.ScanKeepsWordCharacters` | src/env_mock_agent/facade/duplicate_adapter.py:600-602 | tokenising keeps every word character once and in order |
| `Tokens.TokensAreStretches` | src/env_mock_agent/facade/cross_item_safety_adapter.py:38-41 | the tokens are, from left to right, the maximal stretches of word characters and of single dots, underscores, slashes and hyphens with word characters on both sides, and they hold every word character |
| `Tokens.ScanGivesTokens` | src/env_mock_agent/facade/cross_item_safety_adapter.py:38-41 | every match is, on its own, one token from end to end |
| `Tokens.RescanIsStable` | src/env_mock_agent/facade/cross_item_safety_adapter.py:231-237 | tokenising the space-joined tokens gives the same tokens back |
| `Tokens.DigestsEqualIffTokensEqual` | src/env_mock_agent/facade/cross_item_safety_adapter.py:236-237 | with an injective hash, digests of token lists are equal if and only if the lists are |
| `Matcher.MatchedFingerprintIds` | src/env_mock_agent/facade/cross_item_safety_adapter.py:192-228 | the indexed search returns exactly the sorted ids of the fingerprints that have a window, and aborts if and only if that set is larger than the limit, in any iteration order |
| `Matcher.BuildIndexes` | src/env_mock_agent/facade/cross_item_safety_adapter.py:200-211 | each index lists, per length and digest, exactly the fingerprints of its kind |
| `Matcher.HitsAreMatches` | src/env_mock_agent/facade/cross_item_safety_adapter.py:212-228 | whatever the index finds is a true match |
| `Matcher.MatchesAreHits` | src/env_mock_agent/facade/cross_item_safety_adapter.py:212-228 | whatever truly matches is found once all windows were looked at |
| `Matcher.MatchMeansSameTokens` | src/env_mock_agent/facade/cross_item_safety_adapter.py:192-237 | with an injective hash, a fingerprint of some tokens matches if and only if those tokens occur in a projection of its kind |
| `CrossItemSafety.Answer` | src/env_mock_agent/facade/cross_item_safety_adapter.py:130-179 | a scan passes only with the complete, exact match list over everything a strict extraction yields; every other answer has its one reason |
| `CrossItemSafety.SafetyScanFacade.Scan` | src/env_mock_agent/facade/cross_item_safety_adapter.py:114-179 | a key is answered once, with the right answer; a different request under it is refused; repeats change nothing |
| `ScanConditions.ScanPassesIff` | src/env_mock_agent/facade/cross_item_safety_adapter.py:130-179 | said of the attachment's own tree: a scan passes if and only if its normalisation is known, the material unchanged, every spot sound, the totals within the limits and no more fingerprints found than allowed; it then names exactly the fingerprints found in a document's text, or in a path if they are of paths, and counts every spot |
| `ScanConditions.BlockedScanSaysWhy` | src/env_mock_agent/facade/cross_item_safety_adapter.py:240-276 | a code for encryption, truncation, a link, a bad name or an unsupported container is given only if the attachment holds such a spot |
| `RuntimeStream.Run` | src/env_mock_agent/facade/runtime_adapter.py:125-188 | the loop yields, stores and fails as the turn-by-turn model does, for streams that raise too |
| `RuntimeStream.AcceptsExactlyTheProtocol` | src/env_mock_agent/facade/runtime_adapter.py:133-184 | there is no error exactly as long as the events so far meet the declarative protocol, and then all were yielded and stored in order |
| `RuntimeStream.CompletesIffConforms` | src/env_mock_agent/facade/runtime_adapter.py:125-188 | the adapter completes if and only if the source does not raise and the whole stream conforms |
| `RuntimeReport.YieldsReportSources` | src/env_mock_agent/facade/runtime_adapter.py:194-283 | every yielded event says what its source event said: kind by type, the usage counts, the tool, and the failure code by the error code |
| `RuntimeReport.CompletesIffSourceConforms` | src/env_mock_agent/facade/runtime_adapter.py:125-231 | the same condition said of the source events alone; a completed run's last event is RUN_COMPLETED if and only if its source's last event is a finish, and RUN_FAILED if and only if it is a failure |
| `RuntimeStream.YieldsAreWellFormed` | src/env_mock_agent/facade/runtime_adapter.py:125-230 | at every moment the yielded events are numbered from one, start with the only RUN_STARTED, have a terminal event only last and after usage, belong to this run and carry exactly their kind's payload; the sink holds at most one event more |
| `Export.ExportWorkspace` | src/env_mock_agent/facade/release_export_adapter.py:104-161 | the result is the fault of the first faulty output, or an export of exactly the requested members and outputs: the last inventory check and the constructor never refuse |
| `Export.CopyOutputs` | src/env_mock_agent/facade/release_export_adapter.py:113-153 | the loop reports the first fault, or has collected the members of every output |
| `Export.NoFaultIffFaithful` | src/env_mock_agent/facade/release_export_adapter.py:114-153 | no output is blocked if and only if each was found and copied with exactly its requested members and hash, and its source left unchanged |
| `ExportConditions.ExpectedAre` | src/env_mock_agent/facade/release_export_adapter.py:117-117 | an output is held to exactly the requested members that name it, in their order |
| `ExportConditions.FaultSaysWhy` | src/env_mock_agent/facade/release_export_adapter.py:129-152 | which comparison blocks an output whose files could all be scanned and copied |
| `ExportConditions.MemberOrderIs` | src/env_mock_agent/facade/release_export_adapter.py:632-647 | members come by container, top level first, then by path, then by type, then by output |
| `ExportConditions.FileCountIsCardinality` | src/env_mock_agent/facade/release_export_v2.py:332-339 | files are counted and directories are not |
| `ExportScan.ScanSucceedsIffFits` | src/env_mock_agent/facade/release_export_adapter.py:188-203 | a scan succeeds if and only if nothing fails, no file is met twice and the totals are within the limits, although they are checked member by member; then it holds the flatten of the walk |
| `ExportReach.ScanReaches` | src/env_mock_agent/facade/release_export_adapter.py:290-463 | said of the file tree alone, with the archives in it: a scan succeeds if and only if every spot is sound, no file is met twice and the totals fit; it then lists one member for every spot, under the names on the way or its name in the archive, with its type, size, hash and container |
| `ExportScan.FaithfulCopyScansAlike` | src/env_mock_agent/facade/release_export_adapter.py:290-463 | the scan of any tree with the same names, kinds and bytes as a scannable source, made under the name of the requested path, gives the same inventory, unless it is a single file whose new name has the suffix of an unsupported container: then it fails for that |
| `ExportScan.FaithfulOutputPassesIff` | src/env_mock_agent/facade/release_export_adapter.py:114-153 | an unchanged source with a faithful copy has no fault if and only if the source has the requested members and hash and is not a single file requested under the name of an unsupported container |
| `ExportScan.RenamedFileIsRefused` | src/env_mock_agent/facade/release_export_adapter.py:368-370 | a file `blob` requested as `x.tar` matches its request, is copied byte for byte, and is still blocked |
| `ExportScan.ScannedIsBounded` | src/env_mock_agent/facade/release_export_adapter.py:290-307 | a scanned inventory is the sorted arrangement of the members of the walk, within the limits |
| `ExportFiles.ScanState.Add` | src/env_mock_agent/facade/release_export_adapter.py:195-203 | the in-place list and total equal the member effect |
| `ExportFiles.ScanState.ScanNode` | src/env_mock_agent/facade/release_export_adapter.py:310-382 | the recursive walk over a tree on the mutable state equals its effects applied in order |
| `ExportFiles.ScanState.ScanZip` | src/env_mock_agent/facade/release_export_adapter.py:385-463 | the same for nested archives, which ends for any bytes |
| `ExportFiles.ScanOutput` | src/env_mock_agent/facade/release_export_adapter.py:290-307 | the whole scan equals the inventory the theorems are about |
| `ExportFiles.CopyRegularFile` | src/env_mock_agent/facade/release_export_adapter.py:509-545 | whatever lengths reads and writes have, the copy succeeds if and only if the file is regular, within the limit and exactly as long as reported, and then equals it; otherwise a prefix was written |
| `Export.PartitionIsExact` | src/env_mock_agent/facade/release_export_adapter.py:117-117 | filtering the members by each of several distinct outputs neither loses nor repeats one |
| `Export.FinalInventoryIsExact` | src/env_mock_agent/facade/release_export_v2.py:158-167 | for a valid request the sorted concatenation of the per-output members is the requested inventory |
| `SemanticReview.ReviewCitesAuthorizedEvidence` | src/env_mock_agent/facade/semantic_review_adapter.py:974-983 | whatever the backend decides, a review that is not BLOCKED cites only authorised evidence |
| `SemanticReview.ReviewResolvesExactly` | src/env_mock_agent/facade/semantic_review_adapter.py:937-971 | it resolves exactly the set of required findings where there is repair lineage and none otherwise, inside that lineage; a persisting finding has a current successor, not a blocker if ACCEPTED |
| `SemanticReview.AbstentionLeavesNothingRequired` | src/env_mock_agent/facade/semantic_review_v2.py:615-635 | a review can abstain only where no finding has to be resolved |
| `ReviewConditions.OutcomeFollowsCodes` | src/env_mock_agent/facade/semantic_review_v2.py:615-635 | whenever the backend neither abstains nor is blocked: ACCEPTED exactly if all findings have severity P2 or P3, and so only inconsistent metadata is found; REJECTED exactly if a leak is found; REQUIRES_REPAIR otherwise, exactly if some finding has P0 or P1 and none is a leak |
| `ReviewConditions.PolicyIs` | src/env_mock_agent/facade/semantic_review_v2.py:108-206 | round, severity, scope, waiver and repair of all nineteen codes |
| `ReviewConditions.ReviewStandsIff` | src/env_mock_agent/facade/semantic_review_adapter.py:545-629 | for every request, material and backend: a review is not BLOCKED if and only if the material is the request's, the backend decides, every finding and resolution stands on its own fields, the required findings are resolved exactly, and the outcome is the one the codes call for |
| `ReviewConditions.BlockedReviewSaysWhy` | src/env_mock_agent/facade/semantic_review_adapter.py:545-629 | the exact condition of each code of a BLOCKED review |
| `SemanticReview.FindingsBelongToRound` | src/env_mock_agent/facade/semantic_review_v2.py:406-440 | every finding carries the policy of its code and belongs to the review's round |
| `SemanticReview.OnlyLeakageRoundRejects` | src/env_mock_agent/facade/semantic_review_v2.py:108-206 | only the leakage round can reject an item |
| `SemanticReview.ReviewFacade.ReviewOnce` | src/env_mock_agent/facade/semantic_review_adapter.py:545-629 | one answer per key, whatever the backend would say later; another request under it is a conflict |
| `SemanticRepair.RejectionsCannotBeRepaired` | src/env_mock_agent/facade/semantic_review_v2.py:667-686 | the finding that makes a review reject can never be the target of a valid semantic repair |
| `SemanticRepair.FailedRepairSaysWhy` | src/env_mock_agent/facade/semantic_review_adapter.py:631-737 | the exact condition of each failure code of a repair, when the backend itself gives none |
| `SemanticRepair.RepairFacade.RepairOnce` | src/env_mock_agent/facade/semantic_review_adapter.py:631-737 | one answer per key, and a repeat registers nothing |
| `MessageScan.ScanMessages` | scripts/select_eval_factory_canaries.py:151-202 | the single pass with two path sets counts exactly the reads with an earlier mutation of the same path and the mutations with an earlier read of it, as the quadratic specification defines them, every tool family, error and truncation, and every term found in the text |
| `MessageScan.VisitDescribes` | scripts/select_eval_factory_canaries.py:178-201 | one visited block keeps path sets and counters exact |
| `CanarySelector.SelectCanaries` | scripts/select_eval_factory_canaries.py:331-375 | a selection exists if and only if the target is in range and there are enough distinct scans, and it is then the sorted greedy choice |
| `CanarySelector.PickNext` | scripts/select_eval_factory_canaries.py:367-374 | one round picks the best remaining scan and keeps all three counters equal to the counts over the selected scans, and the pool equal to the scans not selected |
| `CanarySelector.Best` | scripts/select_eval_factory_canaries.py:344-367 | the maximum over the pool by counter-based scores is best by the counts over the selected scans, in any iteration order |
| `CanarySelector.SelectionGuarantee` | scripts/select_eval_factory_canaries.py:331-375 | the result has the asked number of distinct scans in id order, and the total verified deficit dropped by at least that number or no scan left out carries an unmet verified trait |
| `Canaries.SelectionIgnoresOrder` | scripts/select_eval_factory_canaries.py:331-375 | scans with unique ids are selected the same way for every permutation of the input |
| `Canaries.GreedyIsUnique` | scripts/select_eval_factory_canaries.py:342-374 | scores never tie, so there is one greedy sequence |
| `CanaryPicks.GreedyIffInOrder` | scripts/select_eval_factory_canaries.py:344-367 | a sequence is greedy if and only if each pick is preferred to every scan not picked before: more unfilled verified places first, at equal numbers more unfilled annotation places, then a category no pick has, then rarity, then the id |
| `CanaryPicks.GainCountsPlaces` | scripts/select_eval_factory_canaries.py:345-354 | a gain is the number of places, over all targets among the traits, that no pick has filled |
| `Canaries.DeficitDropsOrPoolIsExhausted` | scripts/select_eval_factory_canaries.py:342-374 | every greedy sequence lowers the verified deficit by its length or exhausts the pool |
| `Adjudication.ValidateRecords` | scripts/validate_eval_factory_annotations.py:494-540 | the passes report no error if and only if the bundle is valid in the declarative sense, and otherwise exactly the errors there are, each for its record and input |
| `BundleConditions.BundleOkIff` | scripts/validate_eval_factory_annotations.py:494-540 | validity said of the records alone: distinct ids, evidence listed once and covering every citation, each adjudication with enough inputs by distinct annotators other than the adjudicator, on the same subject, and gold records adjudicated |
| `Adjudication.CheckRuling` | scripts/validate_eval_factory_annotations.py:269-317 | an adjudication is reported if and only if one of its conditions fails |
| `Adjudication.ValidRulingIsSound` | scripts/validate_eval_factory_annotations.py:269-317 | in a valid, well-shaped bundle every adjudicated record has pairwise distinct SUBMITTED inputs on its subject, from pairwise distinct annotators, none the adjudicator, at least two for SAFETY and RELEASE |
| `Adjudication.AdjudicationsDoNotChain` | scripts/validate_eval_factory_annotations.py:303-306 | no input of an adjudication is itself adjudicated |
| `Adjudication.GoldRecordsAreAdjudicated` | scripts/validate_eval_factory_annotations.py:525-530 | in gold mode every other non-superseded record is an input of some sound adjudication |
| `Adjudication.ValidCitationsAreListed` | scripts/validate_eval_factory_annotations.py:244-266 | in a valid bundle every evidence id cited in a payload, at any depth, is the id of exactly one piece of evidence listed in the record |
| `Evidence.CollectRefs` | scripts/validate_eval_factory_annotations.py:176-187 | the recursion with its growing set collects the references of the value |
| `Evidence.CollectsExactlyTheCited` | scripts/validate_eval_factory_annotations.py:176-187 | an id is collected if and only if some path through objects and lists leads to it in a reference list |
| `Evidence.CheckEvidence` | scripts/validate_eval_factory_annotations.py:244-266 | evidence is reported if and only if its ids are not unique strings, a cited id is missing, or a high-risk record has only approximate evidence |

## Left out

- Hashing, Unicode normalisation, case folding, canonical JSON, zip and document decoding, the file system, clocks and the network: parameters of the model, without properties of their own beyond the ones a lemma names.
- Identity checks: whether an object's carried hash is the hash of its contents is a field of the object.
- Object ids and hashes of results and receipts: results and receipts are values here and refer to one another by value; telemetry is an opaque value, and a call reads the clock once.
- Effects of overlapping calls outside the caches and registries, such as two workers in one staging directory: each call has a world of its own.
- Extraction.SuccessIsPreserved: does not raise the character limit, because the code also hands that limit to the document extractor, whose text may depend on it.
- Adjudication.ValidateRecords: schema, canary, contract and per-type validators are one opaque error count per record, since each is a list of independent field checks.
- Adjudication.ValidRulingIsSound: assumes well-shaped records, as the JSON schemas prescribe; the schemas are data outside the model.
- The duplicate fingerprint facade around extraction and fingerprint: its cache repeats the pattern proved for the safety scan.
- The model-controlled variants of review and repair and their cancellation: the same protocol and receipt rules as the direct model-control facade.
- The root path and media type an output is scanned under: parameters of the scan, since choosing them is a filter over the requested members.
- Where an exported output is placed, and directories made for it: `Export` takes refusals of the destination as a parameter, and compression ratios are compared exactly rather than as floating point quotients.
- Heuristic message scanning, size traits, manifests and reports of the canary script; runtime readiness; routing; command line tools.
- Read errors of the operating system during extraction: a path that cannot be read is not modelled.
