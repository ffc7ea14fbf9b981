/** The metered execution facade as functions: one attempt at a request, and the
    three tiers that share an idempotency key but keep separate caches. What lies
    outside (resolver, workers, file system, hashes) is an argument of each call. */
module Execution {
  import opened Prelude
  import opened ModelControlTypes
  import opened Metering

  // ---------------------------------------------------------------- contracts

  datatype Status = Success | PolicyBlock | CapabilityBlock | RetryableFailure | TerminalFailure

  datatype FailureCode =
    | WorldLedgerStale | WorldLedgerMutationAttempt
    | MaterialNotFound | MaterialMismatch
    | ImplementationMissing | ImplementationMismatch
    | ProviderExecutionFailed | RuntimeExecutionFailed | RuntimeTimeout
    | RuntimeAuthUnavailable | RuntimeToolDenied | RuntimeProtocolError
    | OutputPathViolation | OutputMissing
    | ResourceGrantInvalid | ResourceLimitExceeded | ResourceRendererUnavailable
    | ModelGrantInvalid | ModelProfileMismatch | ModelLimitExceeded

  datatype RouteKind = ProviderRoute | RuntimeRoute

  /** `genuine` says, here and in the other contracts, that the carried hash is the
      hash of the contents: the identity check accepts the object. */
  datatype Request = Request(
    genuine: bool,
    id: string,
    sha: string,
    key: string,
    artifactId: string,
    attempt: nat,
    snapshotRef: Ref,
    route: RouteKind,
    routeId: string,
    routeVersion: Option<string>,
    relativePath: string,
    mediaType: string,
    requiredTools: seq<string>,
    modelProfileRef: Option<Ref>)

  function RequestRef(r: Request): Ref { Ref("attachment-execution-request", r.id, "v2", r.sha) }

  /** Telemetry of a run, or the time at which there was none. */
  datatype Telemetry = Unavailable(observedAt: int) | Observed(digest: int)

  datatype Result = Result(
    requestRef: Ref,
    artifactId: string,
    attempt: nat,
    status: Status,
    snapshotRef: Ref,
    route: RouteKind,
    routeId: string,
    workerVersion: Option<string>,
    outputSha: Option<string>,
    retryable: bool,
    failure: Option<FailureCode>,
    telemetry: Telemetry)

  function FailureResult(r: Request, status: Status, code: FailureCode, telemetry: Telemetry): Result
  {
    Result(RequestRef(r), r.artifactId, r.attempt, status, r.snapshotRef, r.route, r.routeId,
           None, None, status == RetryableFailure, Some(code), telemetry)
  }

  function SuccessResult(r: Request, digest: string, version: Option<string>, telemetry: Telemetry): Result
  {
    Result(RequestRef(r), r.artifactId, r.attempt, Success, r.snapshotRef, r.route, r.routeId,
           version, Some(digest), false, None, telemetry)
  }

  datatype ResourceUsage = ResourceUsage(
    processStarts: nat, rendererOperations: nat, networkRequests: nat, retainedBytes: nat)

  const NO_USAGE := ResourceUsage(0, 0, 0, 0)

  datatype ResourceGrant = ResourceGrant(
    genuine: bool,
    ref: Ref,
    operationRef: Ref,
    processLimit: nat,
    rendererLimit: nat,
    networkLimit: nat,
    storageLimit: nat)
  {
    predicate Admits(u: ResourceUsage)
    {
      && u.processStarts <= processLimit
      && u.rendererOperations <= rendererLimit
      && u.networkRequests <= networkLimit
      && u.retainedBytes <= storageLimit
    }
  }

  datatype Bounded = Bounded(grantRef: Ref, result: Result, usage: ResourceUsage)

  datatype Receipt = Receipt(
    descriptorRef: Ref,
    grantRef: Ref,
    outcome: ReceiptOutcome,
    resultOf: Option<Result>,
    usage: ModelUsage,
    failure: Option<FailureCode>,
    telemetry: Telemetry,
    completedAt: int)

  // ------------------------------------------------------------ outside world

  datatype Fact = Fact(key: string, value: string)

  datatype Ledger = Ledger(facts: seq<Fact>, allowsConflicts: bool)

  datatype Material = Resolved(artifactId: string, relativePath: string) | Unresolved(code: FailureCode)

  datatype Output = Output(insideStaging: bool, present: bool, digest: string, size: nat)

  datatype ProviderRun = ProviderRaises | ProviderReturns(artifactId: string, built: bool)

  /** Everything one call may observe outside the facade, at a time `now`. `events` are what the
      runtime would emit if read to the end, `raises` whether it then fails;
      `missingLedger` is the code with which the resolver reports an unknown ledger. */
  datatype World = World(
    now: int,
    ledgers: map<string, Ledger>,
    missingLedger: FailureCode,
    known: bool,
    implementation: string,
    material: Material,
    provider: ProviderRun,
    events: seq<Event>,
    raises: bool,
    output: Output,
    ledgerAfter: Ledger)

  /** Foreign functions: hashes, case folding, telemetry. */
  datatype Lib = Lib(
    fold: string -> string,
    ledgerSha: Ledger -> string,
    factId: string -> Option<string>,
    valueSha: string -> string,
    snapshotRef: Snapshot -> Ref,
    telemetryOf: seq<Event> -> Option<int>)

  datatype Error =
    | StaleIdentity | IdempotencyConflict | UnmeteredResult | ResourceOnlyResult
    | LedgerMissing | LedgerConflictsAllowed | LedgerMismatch
    | FactKeyInvalid | FactMissing

  datatype Reply<+T> = Ok(value: T) | Raised(error: Error)

  // ---------------------------------------------------------------- snapshots

  datatype SnapshotRequest = SnapshotRequest(
    genuine: bool, ref: Ref, key: string, ledgerRef: Ref, requiredFactIds: seq<string>)

  datatype Lock = Lock(factId: string, valueSha: string)

  datatype Snapshot = Snapshot(requestRef: Ref, ledgerRef: Ref, locks: seq<Lock>, ledgerSha: string, takenAt: int)

  datatype SnapshotMaterial = SnapshotMaterial(ledgerRef: Ref, ledgerSha: string)

  /** `facts_by_id`: None when a key is blank or two keys share a canonical id. */
  function FactIndex(lib: Lib, facts: seq<Fact>): Option<map<string, string>>
  {
    if facts == [] then Some(map[])
    else
      var last := facts[|facts| - 1];
      var rest := FactIndex(lib, facts[..|facts| - 1]);
      if rest.None? || lib.factId(last.key).None? || lib.factId(last.key).value in rest.value then None
      else Some(rest.value[lib.factId(last.key).value := last.value])
  }

  function Locks(lib: Lib, index: map<string, string>, required: seq<string>): Option<seq<Lock>>
  {
    if required == [] then Some([])
    else
      var last := required[|required| - 1];
      var rest := Locks(lib, index, required[..|required| - 1]);
      if rest.None? || last !in index then None
      else Some(rest.value + [Lock(last, lib.valueSha(index[last]))])
  }

  function TakeSnapshot(lib: Lib, r: SnapshotRequest, ledgers: map<string, Ledger>, now: int): Reply<Snapshot>
  {
    if r.ledgerRef.objectId !in ledgers then Raised(LedgerMissing)
    else
      var ledger := ledgers[r.ledgerRef.objectId];
      if ledger.allowsConflicts then Raised(LedgerConflictsAllowed)
      else if r.ledgerRef.objectSha256 != lib.ledgerSha(ledger) then Raised(LedgerMismatch)
      else
        var index := FactIndex(lib, ledger.facts);
        if index.None? then Raised(FactKeyInvalid)
        else
          var locks := Locks(lib, index.value, r.requiredFactIds);
          if locks.None? then Raised(FactMissing)
          else Ok(Snapshot(r.ref, r.ledgerRef, locks.value, lib.ledgerSha(ledger), now))
  }

  // -------------------------------------------------------------- one attempt

  /** What an attempt reports to the tiers above it. */
  datatype Observation = Observation(processStarts: nat, networkRequests: nat, lastUsage: Option<RuntimeUsage>)

  const NOTHING := Observation(0, 0, None)

  datatype Attempt = Attempt(result: Result, seen: Observation)

  function OutputResult(r: Request, w: World, version: Option<string>, telemetry: Telemetry): Result
  {
    if !w.output.insideStaging then FailureResult(r, PolicyBlock, OutputPathViolation, telemetry)
    else if !w.output.present then FailureResult(r, TerminalFailure, OutputMissing, telemetry)
    else SuccessResult(r, w.output.digest, version, telemetry)
  }

  function ProviderAttempt(r: Request, w: World): Result
  {
    if !w.known then FailureResult(r, CapabilityBlock, ImplementationMissing, Unavailable(w.now))
    else if r.routeVersion.Some? && r.routeVersion.value != w.implementation then
      FailureResult(r, CapabilityBlock, ImplementationMismatch, Unavailable(w.now))
    else if w.material.Unresolved? then FailureResult(r, PolicyBlock, w.material.code, Unavailable(w.now))
    else if w.material.artifactId != r.artifactId || w.material.relativePath != r.relativePath then
      FailureResult(r, PolicyBlock, MaterialMismatch, Unavailable(w.now))
    else if w.provider.ProviderRaises? || w.provider.artifactId != r.artifactId || !w.provider.built then
      FailureResult(r, TerminalFailure, ProviderExecutionFailed, Unavailable(w.now))
    else OutputResult(r, w, Some(w.implementation), Unavailable(w.now))
  }

  function RuntimeFailureResult(r: Request, terminal: Option<Event>, telemetry: Telemetry): Result
  {
    if terminal.None? || terminal.value.errorCode.None? then
      FailureResult(r, RetryableFailure, RuntimeExecutionFailed, telemetry)
    else match terminal.value.errorCode.value
      case Timeout => FailureResult(r, RetryableFailure, RuntimeTimeout, telemetry)
      case AuthUnavailable => FailureResult(r, CapabilityBlock, RuntimeAuthUnavailable, telemetry)
      case ToolDenied => FailureResult(r, PolicyBlock, RuntimeToolDenied, telemetry)
      case PathEscape => FailureResult(r, PolicyBlock, OutputPathViolation, telemetry)
      case ProtocolError => FailureResult(r, TerminalFailure, RuntimeProtocolError, telemetry)
      case _ => FailureResult(r, RetryableFailure, RuntimeExecutionFailed, telemetry)
  }

  /** The verdict on a stream of which `m.consumed` events were read. */
  function StreamResult(lib: Lib, r: Request, w: World, m: Meter): Result
    requires m.consumed <= |w.events|
  {
    var events := w.events[..m.consumed];
    if w.raises && !m.overrun then FailureResult(r, RetryableFailure, RuntimeExecutionFailed, Unavailable(w.now))
    else if lib.telemetryOf(events).None? then
      FailureResult(r, TerminalFailure, RuntimeProtocolError, Unavailable(w.now))
    else
      var telemetry := Observed(lib.telemetryOf(events).value);
      if m.overrun then FailureResult(r, PolicyBlock, ResourceLimitExceeded, telemetry)
      else if events == [] then RuntimeFailureResult(r, None, telemetry)
      else if events[|events| - 1].eventType != RuntimeFinished then
        RuntimeFailureResult(r, Some(events[|events| - 1]), telemetry)
      else OutputResult(r, w, r.routeVersion, telemetry)
  }

  function RuntimeAttempt(lib: Lib, r: Request, w: World, limit: Option<nat>): Attempt
  {
    if !w.known then Attempt(FailureResult(r, CapabilityBlock, ImplementationMissing, Unavailable(w.now)), NOTHING)
    else if w.material.Unresolved? then
      Attempt(FailureResult(r, PolicyBlock, w.material.code, Unavailable(w.now)), NOTHING)
    else if w.material.artifactId != r.artifactId then
      Attempt(FailureResult(r, PolicyBlock, MaterialMismatch, Unavailable(w.now)), NOTHING)
    else
      var m := Metered(lib.fold, w.events, limit);
      Attempt(StreamResult(lib, r, w, m), Observation(1, m.networkRequests, m.lastUsage))
  }

  /** The selected route. */
  function Worker(lib: Lib, r: Request, w: World, limit: Option<nat>): Attempt
  {
    if r.route == ProviderRoute then Attempt(ProviderAttempt(r, w), NOTHING) else RuntimeAttempt(lib, r, w, limit)
  }

  /** What the ledger allows a worker's attempt `a` to be: the snapshot must be one of
      this facade's, the ledger must still hash to its snapshot-time value, and the
      worker's copy must come back unchanged. */
  function UnderLedger(lib: Lib, issued: map<Ref, SnapshotMaterial>, r: Request, w: World, a: Attempt): Attempt
  {
    if r.snapshotRef !in issued then
      Attempt(FailureResult(r, PolicyBlock, WorldLedgerStale, Unavailable(w.now)), NOTHING)
    else
      var material := issued[r.snapshotRef];
      if material.ledgerRef.objectId !in w.ledgers then
        Attempt(FailureResult(r, PolicyBlock, w.missingLedger, Unavailable(w.now)), NOTHING)
      else
        var ledger := w.ledgers[material.ledgerRef.objectId];
        if lib.ledgerSha(ledger) != material.ledgerSha then
          Attempt(FailureResult(r, PolicyBlock, WorldLedgerStale, Unavailable(w.now)), NOTHING)
        else if lib.ledgerSha(w.ledgerAfter) != lib.ledgerSha(ledger) then
          a.(result := FailureResult(r, PolicyBlock, WorldLedgerMutationAttempt, Unavailable(w.now)))
        else a
  }

  /** `_execute` past its cache. */
  function AttemptAt(lib: Lib, issued: map<Ref, SnapshotMaterial>, r: Request, w: World, limit: Option<nat>): Attempt
  {
    UnderLedger(lib, issued, r, w, Worker(lib, r, w, limit))
  }

  // -------------------------------------------------------------------- tiers

  datatype ExecutionEntry = ExecutionEntry(requestSha: string, result: Result)

  datatype ResourceEntry = ResourceEntry(requestSha: string, grantSha: string, bounded: Bounded)

  datatype ModelEntry = ModelEntry(
    requestSha: string, grantSha: string, modelSha: string, bounded: Bounded, receipt: Receipt)

  datatype SnapshotEntry = SnapshotEntry(requestSha: string, snapshot: Snapshot)

  datatype State = State(
    snapshots: map<string, SnapshotEntry>,
    issued: map<Ref, SnapshotMaterial>,
    executions: map<string, ExecutionEntry>,
    resources: map<string, ResourceEntry>,
    models: map<string, ModelEntry>)

  const INITIAL := State(map[], map[], map[], map[], map[])

  /** What a call answers and which entries it adds under its key. */
  datatype Plan<+T> = Plan(
    reply: Reply<T>,
    execution: Option<ExecutionEntry>,
    resource: Option<ResourceEntry>,
    model: Option<ModelEntry>,
    seen: Observation)

  function Only<T>(reply: Reply<T>): Plan<T> { Plan(reply, None, None, None, NOTHING) }

  function Put<V>(cache: map<string, V>, key: string, entry: Option<V>): map<string, V>
  {
    if entry.Some? then cache[key := entry.value] else cache
  }

  function Commit<T>(s: State, key: string, p: Plan<T>): State
  {
    s.(executions := Put(s.executions, key, p.execution),
       resources := Put(s.resources, key, p.resource),
       models := Put(s.models, key, p.model))
  }

  /** The execution tier around an attempt `a`, which is made only if needed. */
  function ExecuteOn(lib: Lib, s: State, r: Request, a: Attempt): Plan<Result>
  {
    if !r.genuine then Only(Raised(StaleIdentity))
    else if r.key in s.executions then
      if s.executions[r.key].requestSha != r.sha then Only(Raised(IdempotencyConflict))
      else Only(Ok(s.executions[r.key].result))
    else
      Plan(Ok(a.result), Some(ExecutionEntry(r.sha, a.result)), None, None, a.seen)
  }

  function Execute(lib: Lib, s: State, r: Request, w: World, limit: Option<nat>): Plan<Result>
  {
    ExecuteOn(lib, s, r, AttemptAt(lib, s.issued, r, w, limit))
  }

  const RENDERER_MEDIA: set<string> := {"application/pdf", "image/jpeg", "image/png", "image/svg+xml"}

  datatype Verdict = Verdict(status: Status, code: FailureCode)

  /** The checks made before anything runs: a refusal, or None. */
  function Refusal(lib: Lib, r: Request, g: ResourceGrant): Option<Verdict>
  {
    if g.operationRef != RequestRef(r) then Some(Verdict(PolicyBlock, ResourceGrantInvalid))
    else if (r.route == RuntimeRoute && g.processLimit < 1)
         || (g.networkLimit < 1 && exists t :: t in r.requiredTools && lib.fold(t) in NETWORK_TOOLS) then
      Some(Verdict(PolicyBlock, ResourceLimitExceeded))
    else if r.mediaType in RENDERER_MEDIA && g.rendererLimit < 1 then
      Some(Verdict(CapabilityBlock, ResourceRendererUnavailable))
    else None
  }

  function UsageOf(r: Request, size: nat, result: Result, seen: Observation): ResourceUsage
  {
    ResourceUsage(seen.processStarts,
                  if r.mediaType in RENDERER_MEDIA then 1 else 0,
                  seen.networkRequests,
                  if result.status == Success then size else 0)
  }

  /** A raw result over any of the four limits is replaced by a limit failure. */
  function Bound(r: Request, g: ResourceGrant, raw: Result, usage: ResourceUsage): Bounded
  {
    Bounded(g.ref,
            if g.Admits(usage) then raw else FailureResult(r, PolicyBlock, ResourceLimitExceeded, raw.telemetry),
            usage)
  }

  /** The resource tier around an attempt `a` in a world `w`. */
  function ExecuteWithResourcesOn(lib: Lib, s: State, r: Request, g: ResourceGrant, a: Attempt, w: World)
    : Plan<Bounded>
  {
    if !g.genuine then Only(Raised(StaleIdentity))
    else if r.key in s.resources then
      var e := s.resources[r.key];
      if e.requestSha != r.sha || e.grantSha != g.ref.objectSha256 then Only(Raised(IdempotencyConflict))
      else Only(Ok(e.bounded))
    else if r.key in s.executions then Only(Raised(UnmeteredResult))
    else
      var refusal := Refusal(lib, r, g);
      if refusal.Some? then
        var result := FailureResult(r, refusal.value.status, refusal.value.code, Unavailable(w.now));
        var b := Bounded(g.ref, result, NO_USAGE);
        Plan(Ok(b), None, Some(ResourceEntry(r.sha, g.ref.objectSha256, b)), None, NOTHING)
      else
        var run := ExecuteOn(lib, s, r, a);
        if run.reply.Raised? then Plan(Raised(run.reply.error), run.execution, None, None, run.seen)
        else
          var raw := run.reply.value;
          var b := Bound(r, g, raw, UsageOf(r, w.output.size, raw, run.seen));
          Plan(Ok(b), run.execution, Some(ResourceEntry(r.sha, g.ref.objectSha256, b)), None, run.seen)
  }

  function ExecuteWithResources(lib: Lib, s: State, r: Request, g: ResourceGrant, w: World): Plan<Bounded>
  {
    ExecuteWithResourcesOn(lib, s, r, g, AttemptAt(lib, s.issued, r, w, Some(g.networkLimit)), w)
  }

  /** Why an invocation is not validly bound; the last failing check wins. */
  function InvalidBinding(r: Request, d: Descriptor, mg: ModelGrant): Option<FailureCode>
  {
    if d.mode != OpaqueRuntimeEnvelope then Some(ModelGrantInvalid)
    else if r.route != RuntimeRoute then Some(ModelGrantInvalid)
    else if r.modelProfileRef != Some(d.modelProfileRef) then Some(ModelProfileMismatch)
    else if d.operationRef != RequestRef(r) then Some(ModelGrantInvalid)
    else if !mg.Binds(d) then Some(ModelGrantInvalid)
    else None
  }

  /** The charge: the last usage report if there is one and it is well formed,
      the whole allowance otherwise. */
  function Charge(mg: ModelGrant, seen: Observation): ModelUsage
  {
    if seen.lastUsage.Some? && NormalizedUsage(seen.lastUsage.value).Some?
    then NormalizedUsage(seen.lastUsage.value).value
    else mg.FullAllowance()
  }

  predicate Malformed(seen: Observation)
  {
    seen.lastUsage.Some? && NormalizedUsage(seen.lastUsage.value).None?
  }

  datatype Controlled = Controlled(bounded: Bounded, receipt: Receipt)

  function Settle(r: Request, d: Descriptor, mg: ModelGrant, b: Bounded, seen: Observation, now: int): Controlled
  {
    var usage := Charge(mg, seen);
    var telemetry := b.result.telemetry;
    if Malformed(seen) || !mg.Admits(usage) then
      Controlled(b.(result := FailureResult(r, PolicyBlock, ModelLimitExceeded, telemetry)),
                 Receipt(d.ref, mg.ref, BlockedPolicy, None, usage, Some(ModelLimitExceeded), telemetry, now))
    else if b.result.status == Success then
      Controlled(b, Receipt(d.ref, mg.ref, Succeeded, Some(b.result), usage, None, telemetry, now))
    else
      Controlled(b, Receipt(d.ref, mg.ref, Failed, None, usage,
                            Some(if b.result.failure.Some? then b.result.failure.value else RuntimeExecutionFailed),
                            telemetry, now))
  }

  function Reject(r: Request, g: ResourceGrant, d: Descriptor, mg: ModelGrant, code: FailureCode, w: World)
    : Controlled
  {
    Controlled(Bounded(g.ref, FailureResult(r, PolicyBlock, code, Unavailable(w.now)), NO_USAGE),
               Receipt(d.ref, mg.ref, BlockedPolicy, None, ZERO_USAGE, Some(code), Unavailable(w.now), w.now))
  }

  function EntryOf(r: Request, g: ResourceGrant, mg: ModelGrant, c: Controlled): ModelEntry
  {
    ModelEntry(r.sha, g.ref.objectSha256, mg.ref.objectSha256, c.bounded, c.receipt)
  }

  /** The model tier around an attempt `a` in a world `w`. */
  function ExecuteWithControlsOn(lib: Lib, s: State, r: Request, g: ResourceGrant, d: Descriptor, mg: ModelGrant,
                                 a: Attempt, w: World): Plan<Controlled>
  {
    if !r.genuine || !d.genuine || !mg.genuine then
      Only(Raised(StaleIdentity))
    else if r.key in s.models then
      var e := s.models[r.key];
      if e.requestSha != r.sha || e.grantSha != g.ref.objectSha256 || e.modelSha != mg.ref.objectSha256 then
        Only(Raised(IdempotencyConflict))
      else Only(Ok(Controlled(e.bounded, e.receipt)))
    else if r.key in s.resources then Only(Raised(ResourceOnlyResult))
    else
      var invalid := InvalidBinding(r, d, mg);
      if invalid.Some? then
        if !g.genuine then Only(Raised(StaleIdentity))
        else
          var c := Reject(r, g, d, mg, invalid.value, w);
          Plan(Ok(c), None, None, Some(EntryOf(r, g, mg, c)), NOTHING)
      else
        var run := ExecuteWithResourcesOn(lib, s, r, g, a, w);
        if run.reply.Raised? then Plan(Raised(run.reply.error), run.execution, run.resource, None, run.seen)
        else
          var c := Settle(r, d, mg, run.reply.value, run.seen, w.now);
          Plan(Ok(c), run.execution, run.resource, Some(EntryOf(r, g, mg, c)), run.seen)
  }

  function ExecuteWithControls(lib: Lib, s: State, r: Request, g: ResourceGrant, d: Descriptor, mg: ModelGrant,
                               w: World): Plan<Controlled>
  {
    ExecuteWithControlsOn(lib, s, r, g, d, mg, AttemptAt(lib, s.issued, r, w, Some(g.networkLimit)), w)
  }

  datatype SnapshotStep = SnapshotStep(state: State, reply: Reply<Snapshot>)

  function SnapshotWorld(lib: Lib, s: State, r: SnapshotRequest, ledgers: map<string, Ledger>, now: int): SnapshotStep
  {
    if !r.genuine then SnapshotStep(s, Raised(StaleIdentity))
    else if r.key in s.snapshots then
      if s.snapshots[r.key].requestSha != r.ref.objectSha256 then SnapshotStep(s, Raised(IdempotencyConflict))
      else SnapshotStep(s, Ok(s.snapshots[r.key].snapshot))
    else
      var taken := TakeSnapshot(lib, r, ledgers, now);
      if taken.Raised? then SnapshotStep(s, taken)
      else
        var shot := taken.value;
        SnapshotStep(s.(snapshots := s.snapshots[r.key := SnapshotEntry(r.ref.objectSha256, shot)],
                        issued := s.issued[lib.snapshotRef(shot) := SnapshotMaterial(shot.ledgerRef, shot.ledgerSha)]),
                     taken)
  }
}
