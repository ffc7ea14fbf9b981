/** What the checks, charges and verdicts of the execution facade amount to, written
    out on the fields of requests, grants and usage. */
module ExecutionConditions {
  import opened Prelude
  import opened ModelControlTypes
  import opened Metering
  import opened Execution
  import opened ExecutionRuns
  import opened ExecutionAgreement

  // ---------------------------------------------------------------------- bindings

  /** A runtime invocation that its descriptor and model grant were made for. */
  ghost predicate MadeFor(r: Request, d: Descriptor, mg: ModelGrant)
  {
    && d.mode == OpaqueRuntimeEnvelope && r.route == RuntimeRoute
    && r.modelProfileRef == Some(d.modelProfileRef)
    && d.operationRef == Ref("attachment-execution-request", r.id, "v2", r.sha)
    && mg.descriptorRef == d.ref && mg.modelProfileRef == d.modelProfileRef
    && mg.requestAllowance == d.requestAllowance && mg.tokenAllowance == d.tokenAllowance
    && mg.outputTokenLimit == d.outputTokenAllowance
  }

  /** The code of a rejection: a wrong profile, unless mode or route is wrong too. */
  ghost predicate RejectedFor(r: Request, d: Descriptor, code: FailureCode)
  {
    if d.mode == OpaqueRuntimeEnvelope && r.route == RuntimeRoute && r.modelProfileRef != Some(d.modelProfileRef)
    then code == ModelProfileMismatch else code == ModelGrantInvalid
  }

  lemma BindingIff(r: Request, d: Descriptor, mg: ModelGrant)
    ensures InvalidBinding(r, d, mg).None? <==> MadeFor(r, d, mg)
    ensures InvalidBinding(r, d, mg).Some? ==> RejectedFor(r, d, InvalidBinding(r, d, mg).value)
  {
  }

  /** A rejection: blocked, charged nothing, and nothing run or cached below. */
  ghost predicate Rejects(p: Plan<Controlled>)
  {
    && p.reply.Ok? && p.execution.None? && p.resource.None?
    && var c := p.reply.value;
       && c.receipt.outcome == BlockedPolicy && c.receipt.resultOf.None?
       && c.receipt.usage == ModelUsage(0, 0, 0, 0, 0, 0, Reported)
       && c.bounded.result.status == PolicyBlock && c.bounded.result.failure == c.receipt.failure
  }

  /** A genuine controlled call under a fresh key is rejected if and only if its
      descriptor and grant were not made for it, field by field; and its code says
      whether the profile was the reason. */
  lemma RejectedIff(lib: Lib, s: State, r: Request, g: ResourceGrant, d: Descriptor, mg: ModelGrant, w: World)
    requires r.key !in s.models && r.key !in s.resources && r.key !in s.executions
    requires r.genuine && g.genuine && d.genuine && mg.genuine
    ensures
      var p := ExecuteWithControls(lib, s, r, g, d, mg, w);
      && (Rejects(p) <==> !MadeFor(r, d, mg))
      && (Rejects(p) ==>
            && p.reply.value.receipt.failure.Some?
            && RejectedFor(r, d, p.reply.value.receipt.failure.value))
  {
    BindingIff(r, d, mg);
    if InvalidBinding(r, d, mg).None? {
      ControlCallWrites(lib, s, ControlCall(r, g, d, mg, w));
      AcceptedWritesBelow(lib, s, r, g, d, mg, w);
    }
  }

  lemma AcceptedWritesBelow(lib: Lib, s: State, r: Request, g: ResourceGrant, d: Descriptor, mg: ModelGrant, w: World)
    requires r.key !in s.models && r.key !in s.resources && r.key !in s.executions
    requires r.genuine && g.genuine && d.genuine && mg.genuine && InvalidBinding(r, d, mg).None?
    ensures ExecuteWithControls(lib, s, r, g, d, mg, w).resource.Some?
  {
  }

  // ---------------------------------------------------------------------- refusals

  ghost predicate NeedsNetwork(lib: Lib, r: Request)
  {
    exists t :: t in r.requiredTools && lib.fold(t) in {"webfetch", "websearch", "fetch", "search"}
  }

  ghost predicate NeedsRenderer(r: Request)
  {
    r.mediaType in {"application/pdf", "image/jpeg", "image/png", "image/svg+xml"}
  }

  /** The resource grant is for this request and leaves room to begin. */
  ghost predicate RoomFor(lib: Lib, r: Request, g: ResourceGrant)
  {
    && g.operationRef == Ref("attachment-execution-request", r.id, "v2", r.sha)
    && (r.route == RuntimeRoute ==> g.processLimit >= 1)
    && (NeedsNetwork(lib, r) ==> g.networkLimit >= 1)
    && (NeedsRenderer(r) ==> g.rendererLimit >= 1)
  }

  /** The verdict of a refusal: another operation, then processes or network, and
      only then the renderer. */
  ghost predicate RefusedFor(lib: Lib, r: Request, g: ResourceGrant, status: Status, code: FailureCode)
  {
    if g.operationRef != Ref("attachment-execution-request", r.id, "v2", r.sha) then
      status == PolicyBlock && code == ResourceGrantInvalid
    else if (r.route == RuntimeRoute && g.processLimit == 0) || (NeedsNetwork(lib, r) && g.networkLimit == 0) then
      status == PolicyBlock && code == ResourceLimitExceeded
    else status == CapabilityBlock && code == ResourceRendererUnavailable
  }

  lemma RefusalIff(lib: Lib, r: Request, g: ResourceGrant)
    ensures Refusal(lib, r, g).None? <==> RoomFor(lib, r, g)
    ensures Refusal(lib, r, g).Some? ==>
              RefusedFor(lib, r, g, Refusal(lib, r, g).value.status, Refusal(lib, r, g).value.code)
  {
  }

  /** A genuine metered call under a fresh key runs nothing if and only if its grant
      has no room for it, and says why. */
  lemma RefusedIff(lib: Lib, s: State, r: Request, g: ResourceGrant, w: World)
    requires r.key !in s.resources && r.key !in s.executions && r.genuine && g.genuine
    ensures
      var p := ExecuteWithResources(lib, s, r, g, w);
      && p.reply.Ok?
      && (p.execution.None? <==> !RoomFor(lib, r, g))
      && (p.execution.None? ==>
            var b := p.reply.value;
            && b.usage == ResourceUsage(0, 0, 0, 0) && b.result.failure.Some?
            && RefusedFor(lib, r, g, b.result.status, b.result.failure.value))
  {
    RefusalIff(lib, r, g);
  }

  // ---------------------------------------------------------------- usage and charges

  /** What a metered run is measured by: one process per runtime, the renderer if the
      media type needs it, the network tool starts read, and the bytes delivered. */
  lemma UsageIs(lib: Lib, issued: map<Ref, SnapshotMaterial>, r: Request, g: ResourceGrant, w: World)
    ensures
      var a := AttemptAt(lib, issued, r, w, Some(g.networkLimit));
      var u := UsageOf(r, w.output.size, a.result, a.seen);
      var read := w.events[..Consumed(lib.fold, w.events, Some(g.networkLimit))];
      && u.processStarts == (if StartsRuntime(lib, issued, r, w) then 1 else 0)
      && u.rendererOperations == (if NeedsRenderer(r) then 1 else 0)
      && u.networkRequests == (if StartsRuntime(lib, issued, r, w) then |NetworkStartsIn(lib.fold, read)| else 0)
      && u.retainedBytes == (if a.result.status == Success then w.output.size else 0)
  {
    AttemptObserves(lib, issued, r, w, g.networkLimit);
    StartsAreCounted(lib.fold, w.events[..Consumed(lib.fold, w.events, Some(g.networkLimit))]);
  }

  /** The positions of network tool starts. */
  ghost function NetworkStartsIn(fold: string -> string, events: seq<Event>): set<nat>
  {
    set i: nat | i < |events| && events[i].eventType == ToolStarted
              && fold(events[i].toolName) in {"webfetch", "websearch", "fetch", "search"}
  }

  lemma StartsInAppend(fold: string -> string, events: seq<Event>, e: Event)
    ensures NetworkStartsIn(fold, events + [e])
         == NetworkStartsIn(fold, events) + if IsNetworkStart(fold, e) then {|events|} else {}
  {
    var all := events + [e];
    assert all[|events|] == e && forall i :: 0 <= i < |events| ==> all[i] == events[i];
  }

  lemma {:induction false} StartsAreCounted(fold: string -> string, events: seq<Event>)
    ensures NetworkStarts(fold, events) == |NetworkStartsIn(fold, events)|
  {
    if events == [] {
      assert NetworkStartsIn(fold, events) == {};
    } else {
      var n := |events| - 1;
      StartsAreCounted(fold, events[..n]);
      StartsInAppend(fold, events[..n], events[n]);
      assert events == events[..n] + [events[n]];
      assert n !in NetworkStartsIn(fold, events[..n]);
    }
  }

  /** What a runtime's report is charged as, field by field; it is malformed if and
      only if one of its four counts is negative. */
  lemma ReportIsChargedAs(u: RuntimeUsage)
    ensures NormalizedUsage(u).None? <==>
              u.inputTokens < 0 || u.outputTokens < 0 || u.cacheCreationTokens < 0 || u.cacheReadTokens < 0
    ensures NormalizedUsage(u).Some? ==>
              var c := NormalizedUsage(u).value;
              && (c.requests == u.turns || c.requests == 1) && c.requests >= u.turns && c.requests >= 1
              && c.inputTokens == u.inputTokens && c.outputTokens == u.outputTokens
              && c.cacheCreationTokens == u.cacheCreationTokens && c.cacheReadTokens == u.cacheReadTokens
              && c.chargedTokens - c.inputTokens - c.outputTokens == c.cacheCreationTokens + c.cacheReadTokens
              && c.source == Reported
  {
  }

  /** Within all limits of both grants. */
  ghost predicate WithinGrants(g: ResourceGrant, mg: ModelGrant, u: ResourceUsage, c: ModelUsage)
  {
    && u.processStarts <= g.processLimit && u.rendererOperations <= g.rendererLimit
    && u.networkRequests <= g.networkLimit && u.retainedBytes <= g.storageLimit
    && c.requests <= mg.requestAllowance && c.chargedTokens <= mg.tokenAllowance
    && c.outputTokens <= mg.outputTokenLimit
  }

  /** A report that the model grant covers. */
  ghost predicate Covers(mg: ModelGrant, u: RuntimeUsage)
  {
    && u.inputTokens >= 0 && u.outputTokens >= 0 && u.cacheCreationTokens >= 0 && u.cacheReadTokens >= 0
    && mg.requestAllowance >= 1 && u.turns <= mg.requestAllowance && u.outputTokens <= mg.outputTokenLimit
    && u.inputTokens + u.outputTokens + u.cacheCreationTokens + u.cacheReadTokens <= mg.tokenAllowance
  }

  lemma CoveredIff(mg: ModelGrant, u: RuntimeUsage)
    ensures !Negative(u) && mg.Admits(NormalizedUsage(u).value) <==> Covers(mg, u)
  {
  }

  /** When a genuine controlled call under a fresh key succeeds, said of its request,
      its grants and the world alone: everything was made for it, there is room, the
      snapshot is current, the whole stream delivers within the limits, and its last
      usage report, if any, is covered. */
  lemma ControlledCallSucceedsIff(lib: Lib, s: State, r: Request, g: ResourceGrant, d: Descriptor, mg: ModelGrant,
                                  w: World)
    requires r.key !in s.models && r.key !in s.resources && r.key !in s.executions
    requires r.genuine && g.genuine && d.genuine && mg.genuine
    ensures ExecuteWithControls(lib, s, r, g, d, mg, w).reply.Ok?
    ensures ExecuteWithControls(lib, s, r, g, d, mg, w).reply.value.receipt.outcome == Succeeded <==>
              && MadeFor(r, d, mg) && RoomFor(lib, r, g)
              && SawLedger(lib, s.issued, r, w) && RuntimeDelivers(lib, r, w, g.networkLimit)
              && w.output.insideStaging && w.output.present && w.output.size <= g.storageLimit
              && (LastUsage(w.events).Some? ==> Covers(mg, LastUsage(w.events).value))
  {
    BindingIff(r, d, mg);
    RefusalIff(lib, r, g);
    RejectedIff(lib, s, r, g, d, mg, w);
    ControlledSuccessIff(lib, s, r, g, d, mg, w);
    AttemptSucceedsIff(lib, s.issued, r, w, g.networkLimit);
    if RoomFor(lib, r, g) { AdmittedRunsPassOnlyTwoLimits(lib, s.issued, r, g, w); }
    if NetworkStarts(lib.fold, w.events) <= g.networkLimit {
      ConsumptionStopsAtFirstOverrun(lib.fold, w.events, g.networkLimit);
      assert w.events[..|w.events|] == w.events;
    }
    if LastUsage(w.events).Some? { CoveredIff(mg, LastUsage(w.events).value); }
  }

  /** The call that wrote a SUCCEEDED model entry. */
  ghost predicate SucceededFor(lib: Lib, c: Call, e: ModelEntry)
  {
    && c.ControlCall? && MadeFor(c.r, c.d, c.mg) && RoomFor(lib, c.r, c.g)
    && e.receipt.resultOf == Some(e.bounded.result)
    && WithinGrants(c.g, c.mg, e.bounded.usage, e.receipt.usage)
  }

  /** After any run, every SUCCEEDED model entry goes back to a call whose descriptor,
      model grant and resource grant were all made for it, and is within all their
      limits. */
  lemma EverySuccessWasMadeFor(lib: Lib, calls: seq<Call>, k: string) returns (i: nat)
    requires k in Run(lib, calls).models
    requires Run(lib, calls).models[k].receipt.outcome == Succeeded
    ensures i < |calls| && calls[i].ControlCall? && calls[i].r.key == k
    ensures SucceededFor(lib, calls[i], Run(lib, calls).models[k])
  {
    i := Writer(lib, calls, ModelTier, k);
    var c, s := calls[i], Before(lib, calls, i);
    ModelStepWrites(lib, s, c, k);
    BindingIff(c.r, c.d, c.mg);
    RefusalIff(lib, c.r, c.g);
    SettledSuccess(lib, s.issued, c);
  }

  lemma SettledSuccess(lib: Lib, issued: map<Ref, SnapshotMaterial>, c: Call)
    requires c.ControlCall?
    ensures
      var (b, seen) := Answer(lib, issued, c.r, c.g, c.w);
      var x := Settle(c.r, c.d, c.mg, b, seen, c.w.now);
      x.receipt.outcome == Succeeded ==>
        && Refusal(lib, c.r, c.g).None? && x.receipt.resultOf == Some(x.bounded.result)
        && WithinGrants(c.g, c.mg, x.bounded.usage, x.receipt.usage)
  {
  }

  // ---------------------------------------------------------------- runtime failures

  /** Status and code of a run that did not end in a finish, by its last event. */
  ghost predicate FailsWith(last: Option<Event>, status: Status, code: FailureCode)
  {
    if last.None? || last.value.errorCode.None? then status == RetryableFailure && code == RuntimeExecutionFailed
    else
      var e := last.value.errorCode.value;
      && (code == RuntimeTimeout <==> e == Timeout)
      && (code == RuntimeAuthUnavailable <==> e == AuthUnavailable)
      && (code == RuntimeToolDenied <==> e == ToolDenied)
      && (code == OutputPathViolation <==> e == PathEscape)
      && (code == RuntimeProtocolError <==> e == ProtocolError)
      && (code == RuntimeExecutionFailed <==> e in {CancelledRun, ModelUnavailable, BudgetExceeded, ProcessError})
      && (status == PolicyBlock <==> e in {ToolDenied, PathEscape})
      && (status == CapabilityBlock <==> e == AuthUnavailable)
      && (status == TerminalFailure <==> e == ProtocolError)
      && (status == RetryableFailure <==>
            e in {Timeout, CancelledRun, ModelUnavailable, BudgetExceeded, ProcessError})
  }

  /** A started run that is read to its end, without raising, and does not end in a
      finish fails as its last event says. */
  lemma UnfinishedRunFailsWith(lib: Lib, r: Request, w: World, limit: nat)
    requires w.known && w.material.Resolved? && w.material.artifactId == r.artifactId
    requires !w.raises && NetworkStarts(lib.fold, w.events) <= limit && lib.telemetryOf(w.events).Some?
    requires w.events == [] || w.events[|w.events| - 1].eventType != RuntimeFinished
    ensures
      var x := RuntimeAttempt(lib, r, w, Some(limit)).result;
      var last := if w.events == [] then None else Some(w.events[|w.events| - 1]);
      x.failure.Some? && FailsWith(last, x.status, x.failure.value)
  {
    var last := if w.events == [] then None else Some(w.events[|w.events| - 1]);
    var telemetry := Observed(lib.telemetryOf(w.events).value);
    ConsumptionStopsAtFirstOverrun(lib.fold, w.events, limit);
    assert w.events[..|w.events|] == w.events;
    assert RuntimeAttempt(lib, r, w, Some(limit)).result == RuntimeFailureResult(r, last, telemetry);
    RuntimeFailureIs(r, last, telemetry);
  }

  lemma RuntimeFailureIs(r: Request, last: Option<Event>, telemetry: Telemetry)
    ensures
      var x := RuntimeFailureResult(r, last, telemetry);
      x.failure.Some? && FailsWith(last, x.status, x.failure.value)
  {
  }

  /** Every result names its request: its id and hash, artifact, attempt, snapshot and
      route, and no other. */
  ghost predicate Names(x: Result, r: Request)
  {
    && x.requestRef == Ref("attachment-execution-request", r.id, "v2", r.sha)
    && x.artifactId == r.artifactId && x.attempt == r.attempt && x.snapshotRef == r.snapshotRef
    && x.route == r.route && x.routeId == r.routeId
  }

  lemma ResultsNameRequest(lib: Lib, issued: map<Ref, SnapshotMaterial>, r: Request, w: World, limit: Option<nat>)
    ensures Names(AttemptAt(lib, issued, r, w, limit).result, r)
    ensures
      var x := AttemptAt(lib, issued, r, w, limit).result;
      x.status == Success ==>
        x.workerVersion == if r.route == ProviderRoute then Some(w.implementation) else r.routeVersion
  {
    WorkersNameRequest(lib, r, w, limit);
  }

  lemma ProviderNamesRequest(r: Request, w: World)
    ensures Names(ProviderAttempt(r, w), r)
    ensures ProviderAttempt(r, w).status == Success ==> ProviderAttempt(r, w).workerVersion == Some(w.implementation)
  {
  }

  lemma StreamNamesRequest(lib: Lib, r: Request, w: World, m: Meter)
    requires m.consumed <= |w.events|
    ensures Names(StreamResult(lib, r, w, m), r)
    ensures StreamResult(lib, r, w, m).status == Success ==> StreamResult(lib, r, w, m).workerVersion == r.routeVersion
  {
  }

  lemma WorkersNameRequest(lib: Lib, r: Request, w: World, limit: Option<nat>)
    ensures Names(Worker(lib, r, w, limit).result, r)
    ensures
      var x := Worker(lib, r, w, limit).result;
      x.status == Success ==>
        x.workerVersion == if r.route == ProviderRoute then Some(w.implementation) else r.routeVersion
  {
    if r.route == ProviderRoute {
      ProviderNamesRequest(r, w);
    } else {
      StreamNamesRequest(lib, r, w, Metered(lib.fold, w.events, limit));
    }
  }
}
