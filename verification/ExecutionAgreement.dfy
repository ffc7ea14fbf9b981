/** When the caches of the execution facade's tiers agree, exactly: over every run
    of calls and every key, in terms of the checks the writing call met. */
module ExecutionAgreement {
  import opened Prelude
  import opened ModelControlTypes
  import opened Metering
  import opened Execution
  import opened ExecutionRuns

  // ------------------------------------------- codes only the tiers or a resolver give

  /** The codes of refusals, overrides and rejections. */
  predicate IsControlCode(code: FailureCode)
  {
    || code == ResourceGrantInvalid || code == ResourceLimitExceeded || code == ResourceRendererUnavailable
    || code == ModelGrantInvalid || code == ModelProfileMismatch || code == ModelLimitExceeded
  }

  /** The attempt ends because the resolver reports `code`, for the ledger or for
      the worker's material. */
  ghost predicate ResolverFails(lib: Lib, issued: map<Ref, SnapshotMaterial>, r: Request, w: World, code: FailureCode)
  {
    && r.snapshotRef in issued
    && var material := issued[r.snapshotRef];
       if material.ledgerRef.objectId !in w.ledgers then w.missingLedger == code
       else
         && lib.ledgerSha(w.ledgers[material.ledgerRef.objectId]) == material.ledgerSha == lib.ledgerSha(w.ledgerAfter)
         && w.known && w.material == Unresolved(code)
         && (r.route == ProviderRoute && r.routeVersion.Some? ==> r.routeVersion.value == w.implementation)
  }

  lemma StreamsGiveNoControlCode(lib: Lib, r: Request, w: World, m: Meter, code: FailureCode)
    requires m.consumed <= |w.events| && IsControlCode(code) && (code == ResourceLimitExceeded ==> !m.overrun)
    ensures StreamResult(lib, r, w, m).failure != Some(code)
  {
  }

  lemma ProviderGivesControlCodeIff(r: Request, w: World, code: FailureCode)
    requires IsControlCode(code)
    ensures ProviderAttempt(r, w).failure == Some(code) <==>
              && w.known && w.material == Unresolved(code)
              && (r.routeVersion.Some? ==> r.routeVersion.value == w.implementation)
  {
  }

  lemma RuntimeGivesControlCodeIff(lib: Lib, r: Request, w: World, limit: Option<nat>, code: FailureCode)
    requires IsControlCode(code) && (code == ResourceLimitExceeded ==> limit.None?)
    ensures RuntimeAttempt(lib, r, w, limit).result.failure == Some(code) <==> w.known && w.material == Unresolved(code)
  {
    var m := Metered(lib.fold, w.events, limit);
    StreamsGiveNoControlCode(lib, r, w, m, code);
  }

  lemma WorkerGivesControlCodeIff(lib: Lib, r: Request, w: World, limit: Option<nat>, code: FailureCode)
    requires IsControlCode(code) && (code == ResourceLimitExceeded ==> limit.None?)
    ensures Worker(lib, r, w, limit).result.failure == Some(code) <==>
              && w.known && w.material == Unresolved(code)
              && (r.route == ProviderRoute && r.routeVersion.Some? ==> r.routeVersion.value == w.implementation)
  {
    if r.route == ProviderRoute {
      ProviderGivesControlCodeIff(r, w, code);
    } else {
      RuntimeGivesControlCodeIff(lib, r, w, limit, code);
    }
  }

  /** No attempt makes such a code up: it has it from the resolver, or (for the
      limit code) from its own network limit. */
  lemma ControlCodesComeFromResolver(lib: Lib, issued: map<Ref, SnapshotMaterial>, r: Request, w: World,
                                     limit: Option<nat>, code: FailureCode)
    requires IsControlCode(code) && (code == ResourceLimitExceeded ==> limit.None?)
    ensures AttemptAt(lib, issued, r, w, limit).result.failure == Some(code) <==> ResolverFails(lib, issued, r, w, code)
  {
    WorkerGivesControlCodeIff(lib, r, w, limit, code);
    LedgerGivesCodeIff(lib, issued, r, w, Worker(lib, r, w, limit), code);
  }

  /** A code that is not about the ledger comes from the worker or the resolver. */
  lemma LedgerGivesCodeIff(lib: Lib, issued: map<Ref, SnapshotMaterial>, r: Request, w: World, a: Attempt,
                           code: FailureCode)
    requires code != WorldLedgerStale && code != WorldLedgerMutationAttempt
    requires a.result.failure == Some(code) <==>
               && w.known && w.material == Unresolved(code)
               && (r.route == ProviderRoute && r.routeVersion.Some? ==> r.routeVersion.value == w.implementation)
    ensures UnderLedger(lib, issued, r, w, a).result.failure == Some(code) <==> ResolverFails(lib, issued, r, w, code)
  {
  }

  lemma ResolverFailureIsBare(lib: Lib, issued: map<Ref, SnapshotMaterial>, r: Request, w: World, limit: Option<nat>,
                              code: FailureCode)
    requires ResolverFails(lib, issued, r, w, code)
    ensures AttemptAt(lib, issued, r, w, limit)
         == Attempt(FailureResult(r, PolicyBlock, code, Unavailable(w.now)), NOTHING)
  {
  }

  /** Two requests whose failures, at one time, cannot be told apart. */
  predicate Alike(a: Request, b: Request)
  {
    && a.id == b.id && a.sha == b.sha && a.artifactId == b.artifactId && a.attempt == b.attempt
    && a.snapshotRef == b.snapshotRef && a.route == b.route && a.routeId == b.routeId
  }

  lemma AlikeIffSameFailure(a: Request, b: Request, status: Status, code: FailureCode, t: Telemetry)
    ensures Alike(a, b) <==> FailureResult(a, status, code, t) == FailureResult(b, status, code, t)
  {
  }

  /** Entries of an earlier call are there before any later one. */
  lemma LaterWriter(lib: Lib, calls: seq<Call>, tier: Tier, k: string, i: nat) returns (j: nat)
    requires i < |calls| && Has(Run(lib, calls), tier, k)
    requires !Has(Step(lib, Before(lib, calls, i), calls[i]), tier, k)
    ensures i < j < |calls| && !Has(Before(lib, calls, j), tier, k)
    ensures Has(Step(lib, Before(lib, calls, j), calls[j]), tier, k)
    ensures CachesKept(Step(lib, Before(lib, calls, j), calls[j]), Run(lib, calls))
    ensures CachesKept(Step(lib, Before(lib, calls, i), calls[i]), Before(lib, calls, j))
  {
    j := Writer(lib, calls, tier, k);
    StepAt(lib, calls, i);
    StepAt(lib, calls, j);
    if j <= i {
      CachesAreWriteOnce(lib, calls, j + 1, i + 1);
    } else {
      CachesAreWriteOnce(lib, calls, i + 1, j);
    }
  }

  lemma KeptToTheEnd(lib: Lib, calls: seq<Call>, j: nat)
    requires j < |calls|
    ensures CachesKept(Step(lib, Before(lib, calls, j), calls[j]), Run(lib, calls))
  {
    StepAt(lib, calls, j);
    CachesAreWriteOnce(lib, calls, j + 1, |calls|);
    assert calls[..|calls|] == calls;
  }

  // --------------------------------------------------- resource over execution tier

  function Refused(r: Request, v: Verdict, w: World): Result
  {
    FailureResult(r, v.status, v.code, Unavailable(w.now))
  }

  /** What the resource tier leaves under a new key: a refusal alone, or the bounded
      result above the raw one. */
  ghost predicate ResourceWrite(lib: Lib, issued: map<Ref, SnapshotMaterial>, r: Request, g: ResourceGrant, w: World,
                                t: State, k: string)
  {
    && r.key == k && k in t.resources
    && var a := AttemptAt(lib, issued, r, w, Some(g.networkLimit));
       var refusal := Refusal(lib, r, g);
       if refusal.Some? then
         && k !in t.executions
         && t.resources[k] == ResourceEntry(r.sha, g.ref.objectSha256,
                                            Bounded(g.ref, Refused(r, refusal.value, w), NO_USAGE))
       else
         && k in t.executions && t.executions[k] == ExecutionEntry(r.sha, a.result)
         && t.resources[k] == ResourceEntry(r.sha, g.ref.objectSha256,
                                            Bound(r, g, a.result, UsageOf(r, w.output.size, a.result, a.seen)))
  }

  lemma ResourcePlanWrites(lib: Lib, s: State, r: Request, g: ResourceGrant, w: World)
    requires ExecuteWithResources(lib, s, r, g, w).resource.Some?
    ensures r.key !in s.resources && r.key !in s.executions
    ensures ResourceWrite(lib, s.issued, r, g, w, Commit(s, r.key, ExecuteWithResources(lib, s, r, g, w)), r.key)
  {
  }

  lemma ResourceStepWrites(lib: Lib, s: State, c: Call, k: string)
    requires k !in s.resources && k in Step(lib, s, c).resources
    ensures (c.ResourceCall? || c.ControlCall?) && k !in s.executions
    ensures ResourceWrite(lib, s.issued, c.r, c.g, c.w, Step(lib, s, c), k)
  {
    if c.ResourceCall? || c.ControlCall? {
      var a := AttemptAt(lib, s.issued, c.r, c.w, Some(c.g.networkLimit));
      if c.ControlCall? {
        ControlsPassEntriesOn(lib, s, c.r, c.g, c.d, c.mg, a, c.w);
      }
      ResourcePlanWrites(lib, s, c.r, c.g, c.w);
    }
  }

  /** The usage is within the grant, or the attempt had already failed on a limit. */
  predicate StaysAsItIs(r: Request, g: ResourceGrant, w: World, a: Attempt)
  {
    g.Admits(UsageOf(r, w.output.size, a.result, a.seen)) || a.result.failure == Some(ResourceLimitExceeded)
  }

  /** A bounded result is the raw one if and only if the usage is admitted, or the
      raw result had already failed on that limit. */
  lemma BoundKeepsIff(lib: Lib, issued: map<Ref, SnapshotMaterial>, r: Request, g: ResourceGrant, w: World)
    ensures
      var a := AttemptAt(lib, issued, r, w, Some(g.networkLimit));
      Bound(r, g, a.result, UsageOf(r, w.output.size, a.result, a.seen)).result == a.result
      <==> StaysAsItIs(r, g, w, a)
  {
    var a := AttemptAt(lib, issued, r, w, Some(g.networkLimit));
    if a.result.failure == Some(ResourceLimitExceeded) {
      LimitFailuresLookAlike(lib, issued, r, w, Some(g.networkLimit));
    }
  }

  lemma WorkersLimitFailuresLookAlike(lib: Lib, r: Request, w: World, limit: Option<nat>)
    requires Worker(lib, r, w, limit).result.failure == Some(ResourceLimitExceeded)
    ensures
      var result := Worker(lib, r, w, limit).result;
      result == FailureResult(r, PolicyBlock, ResourceLimitExceeded, result.telemetry)
  {
  }

  lemma LimitFailuresLookAlike(lib: Lib, issued: map<Ref, SnapshotMaterial>, r: Request, w: World, limit: Option<nat>)
    requires AttemptAt(lib, issued, r, w, limit).result.failure == Some(ResourceLimitExceeded)
    ensures
      var result := AttemptAt(lib, issued, r, w, limit).result;
      result == FailureResult(r, PolicyBlock, ResourceLimitExceeded, result.telemetry)
  {
    if Worker(lib, r, w, limit).result.failure == Some(ResourceLimitExceeded) {
      WorkersLimitFailuresLookAlike(lib, r, w, limit);
    }
  }

  /** The attempt will succeed (see `AttemptSucceedsIff`). */
  ghost predicate Delivers(lib: Lib, issued: map<Ref, SnapshotMaterial>, r: Request, g: ResourceGrant, w: World)
  {
    && SawLedger(lib, issued, r, w)
    && w.output.insideStaging && w.output.present
    && if r.route == ProviderRoute then ProviderDelivers(r, w) else RuntimeDelivers(lib, r, w, g.networkLimit)
  }

  /** Said of the world alone: a run over the network limit was recognised as such
      (its telemetry could be read and the ledger copy is intact); a run within it
      does not deliver more than the storage limit. */
  ghost predicate NotOverridden(lib: Lib, issued: map<Ref, SnapshotMaterial>, r: Request, g: ResourceGrant, w: World)
  {
    if StartsRuntime(lib, issued, r, w) && NetworkStarts(lib.fold, w.events) > g.networkLimit then
      && lib.telemetryOf(w.events[..Consumed(lib.fold, w.events, Some(g.networkLimit))]).Some?
      && lib.ledgerSha(w.ledgerAfter) == issued[r.snapshotRef].ledgerSha
    else Delivers(lib, issued, r, g, w) ==> w.output.size <= g.storageLimit
  }

  lemma OverrunStreamFailsOnLimitIff(lib: Lib, r: Request, w: World, limit: nat)
    requires NetworkStarts(lib.fold, w.events) > limit
    ensures
      var m := Metered(lib.fold, w.events, Some(limit));
      StreamResult(lib, r, w, m).failure == Some(ResourceLimitExceeded)
      <==> lib.telemetryOf(w.events[..Consumed(lib.fold, w.events, Some(limit))]).Some?
  {
    ConsumptionStopsAtFirstOverrun(lib.fold, w.events, limit);
  }

  lemma StaysAsItIsIff(lib: Lib, issued: map<Ref, SnapshotMaterial>, r: Request, g: ResourceGrant, w: World)
    requires Refusal(lib, r, g).None?
    ensures StaysAsItIs(r, g, w, AttemptAt(lib, issued, r, w, Some(g.networkLimit)))
       <==> NotOverridden(lib, issued, r, g, w)
  {
    AdmittedRunsPassOnlyTwoLimits(lib, issued, r, g, w);
    AttemptSucceedsIff(lib, issued, r, w, g.networkLimit);
    if StartsRuntime(lib, issued, r, w) && NetworkStarts(lib.fold, w.events) > g.networkLimit {
      OverrunStreamFailsOnLimitIff(lib, r, w, g.networkLimit);
    }
  }

  /** Call `j` executes, without metering, what call `i` was refused, and fails with
      the code of that very refusal because the resolver reports it. */
  ghost predicate FailsLikeRefusal(lib: Lib, calls: seq<Call>, i: nat, j: nat, refusal: Verdict)
    requires i < |calls| && (calls[i].ResourceCall? || calls[i].ControlCall?)
  {
    && i < j < |calls| && calls[j].ExecuteCall?
    && calls[j].r.genuine && calls[j].r.key == calls[i].r.key && Alike(calls[j].r, calls[i].r)
    && calls[j].r.key !in Before(lib, calls, j).executions
    && calls[j].w.now == calls[i].w.now && refusal.status == PolicyBlock
    && ResolverFails(lib, Before(lib, calls, j).issued, calls[j].r, calls[j].w, refusal.code)
  }

  /** A call that adds an execution where a resource entry is already cached is an
      unmetered one. */
  lemma UnmeteredWrite(lib: Lib, s: State, c: Call, k: string)
    requires k in s.resources && k !in s.executions && k in Step(lib, s, c).executions
    ensures c.ExecuteCall? && c.r.key == k && c.r.genuine
    ensures Step(lib, s, c).executions[k] == ExecutionEntry(c.r.sha, AttemptAt(lib, s.issued, c.r, c.w, None).result)
  {
  }

  lemma UnmeteredCallWrites(lib: Lib, s: State, r: Request, w: World)
    requires r.genuine && r.key !in s.executions
    ensures r.key in Step(lib, s, ExecuteCall(r, w)).executions
    ensures Step(lib, s, ExecuteCall(r, w)).executions[r.key]
         == ExecutionEntry(r.sha, AttemptAt(lib, s.issued, r, w, None).result)
  {
  }

  lemma RefusalsHaveControlCodes(lib: Lib, r: Request, g: ResourceGrant)
    requires Refusal(lib, r, g).Some?
    ensures IsControlCode(Refusal(lib, r, g).value.code) && Refusal(lib, r, g).value.code != ModelLimitExceeded
  {
  }

  lemma RefusedEntryAgreesOnlyIf(lib: Lib, calls: seq<Call>, i: nat, k: string) returns (j: nat)
    requires i < |calls| && (calls[i].ResourceCall? || calls[i].ControlCall?)
    requires Refusal(lib, calls[i].r, calls[i].g).Some?
    requires ResourceWrite(lib, Before(lib, calls, i).issued, calls[i].r, calls[i].g, calls[i].w,
                           Step(lib, Before(lib, calls, i), calls[i]), k)
    requires k in Run(lib, calls).resources && ResourceAgrees(Run(lib, calls), k)
    ensures FailsLikeRefusal(lib, calls, i, j, Refusal(lib, calls[i].r, calls[i].g).value)
  {
    var c, x := calls[i], Refusal(lib, calls[i].r, calls[i].g).value;
    j := LaterWriter(lib, calls, ExecutionTier, k, i);
    KeptToTheEnd(lib, calls, i);
    var s := Before(lib, calls, j);
    UnmeteredWrite(lib, s, calls[j], k);
    RefusalsHaveControlCodes(lib, c.r, c.g);
    ControlCodesComeFromResolver(lib, s.issued, calls[j].r, calls[j].w, None, x.code);
    ResolverFailureIsBare(lib, s.issued, calls[j].r, calls[j].w, None, x.code);
    AlikeIffSameFailure(calls[j].r, c.r, PolicyBlock, x.code, Unavailable(c.w.now));
  }

  lemma RefusedEntryAgreesIf(lib: Lib, calls: seq<Call>, i: nat, j: nat, k: string)
    requires i < |calls| && (calls[i].ResourceCall? || calls[i].ControlCall?)
    requires Refusal(lib, calls[i].r, calls[i].g).Some?
    requires ResourceWrite(lib, Before(lib, calls, i).issued, calls[i].r, calls[i].g, calls[i].w,
                           Step(lib, Before(lib, calls, i), calls[i]), k)
    requires FailsLikeRefusal(lib, calls, i, j, Refusal(lib, calls[i].r, calls[i].g).value)
    ensures k in Run(lib, calls).resources && ResourceAgrees(Run(lib, calls), k)
  {
    var c, d, x := calls[i], calls[j], Refusal(lib, calls[i].r, calls[i].g).value;
    KeptToTheEnd(lib, calls, i);
    KeptToTheEnd(lib, calls, j);
    UnmeteredCallWrites(lib, Before(lib, calls, j), d.r, d.w);
    RefusalsHaveControlCodes(lib, c.r, c.g);
    ResolverFailureIsBare(lib, Before(lib, calls, j).issued, d.r, d.w, None, x.code);
    AlikeIffSameFailure(d.r, c.r, PolicyBlock, x.code, Unavailable(c.w.now));
  }

  /** The exact condition, over every run and every key with a resource entry. If
      the call that wrote it was let through, the tiers agree if and only if its
      result was not overridden. If it was refused, they agree if and only if a later unmetered call fails just as the
      refusal does, which takes a resolver that reports the refusal's own code. */
  lemma ResourceTierAgreesIff(lib: Lib, calls: seq<Call>, k: string) returns (i: nat)
    requires k in Run(lib, calls).resources
    ensures i < |calls| && (calls[i].ResourceCall? || calls[i].ControlCall?) && calls[i].r.key == k
    ensures k !in Before(lib, calls, i).resources && k !in Before(lib, calls, i).executions
    ensures
      var c := calls[i];
      ResourceAgrees(Run(lib, calls), k) <==>
        if Refusal(lib, c.r, c.g).None? then NotOverridden(lib, Before(lib, calls, i).issued, c.r, c.g, c.w)
        else exists j: nat :: FailsLikeRefusal(lib, calls, i, j, Refusal(lib, c.r, c.g).value)
  {
    i := Writer(lib, calls, ResourceTier, k);
    var c, s := calls[i], Before(lib, calls, i);
    ResourceStepWrites(lib, s, c, k);
    if Refusal(lib, c.r, c.g).None? {
      AgreementIsKept(Step(lib, s, c), Run(lib, calls), k);
      BoundKeepsIff(lib, s.issued, c.r, c.g, c.w);
      StaysAsItIsIff(lib, s.issued, c.r, c.g, c.w);
    } else {
      if ResourceAgrees(Run(lib, calls), k) {
        var j := RefusedEntryAgreesOnlyIf(lib, calls, i, k);
      }
      if j: nat :| FailsLikeRefusal(lib, calls, i, j, Refusal(lib, c.r, c.g).value) {
        RefusedEntryAgreesIf(lib, calls, i, j, k);
      }
    }
  }

  // ------------------------------------------------------- model over resource tier

  /** The run behind a controlled call read a last usage report that is malformed or
      over the model grant. */
  ghost predicate Overcharges(lib: Lib, issued: map<Ref, SnapshotMaterial>, r: Request, g: ResourceGrant,
                              mg: ModelGrant, w: World)
  {
    && Refusal(lib, r, g).None? && StartsRuntime(lib, issued, r, w)
    && var last := LastUsage(w.events[..Consumed(lib.fold, w.events, Some(g.networkLimit))]);
       last.Some? && (Negative(last.value) || !mg.Admits(NormalizedUsage(last.value).value))
  }

  /** What the resource tier answers a controlled call, and what it saw. */
  function Answer(lib: Lib, issued: map<Ref, SnapshotMaterial>, r: Request, g: ResourceGrant, w: World)
    : (Bounded, Observation)
  {
    var refusal := Refusal(lib, r, g);
    if refusal.Some? then (Bounded(g.ref, Refused(r, refusal.value, w), NO_USAGE), NOTHING)
    else
      var a := AttemptAt(lib, issued, r, w, Some(g.networkLimit));
      (Bound(r, g, a.result, UsageOf(r, w.output.size, a.result, a.seen)), a.seen)
  }

  /** What the model tier leaves under a new key: a rejection alone, or the settled
      result above the bounded one. */
  ghost predicate ModelWrite(lib: Lib, issued: map<Ref, SnapshotMaterial>, c: Call, t: State, k: string)
    requires c.ControlCall?
  {
    && c.r.key == k && k in t.models
    && var invalid := InvalidBinding(c.r, c.d, c.mg);
       if invalid.Some? then
         && k !in t.resources
         && t.models[k] == EntryOf(c.r, c.g, c.mg, Reject(c.r, c.g, c.d, c.mg, invalid.value, c.w))
       else
         var (b, seen) := Answer(lib, issued, c.r, c.g, c.w);
         && k in t.resources && t.resources[k] == ResourceEntry(c.r.sha, c.g.ref.objectSha256, b)
         && t.models[k] == EntryOf(c.r, c.g, c.mg, Settle(c.r, c.d, c.mg, b, seen, c.w.now))
  }

  lemma ResourcePlanAnswers(lib: Lib, s: State, r: Request, g: ResourceGrant, w: World)
    requires r.key !in s.resources && ExecuteWithResources(lib, s, r, g, w).reply.Ok?
    ensures
      var p := ExecuteWithResources(lib, s, r, g, w);
      && (p.reply.value, p.seen) == Answer(lib, s.issued, r, g, w)
      && p.resource == Some(ResourceEntry(r.sha, g.ref.objectSha256, p.reply.value))
  {
  }

  lemma ControlPlanWrites(lib: Lib, s: State, c: Call)
    requires c.ControlCall? && ExecuteWithControls(lib, s, c.r, c.g, c.d, c.mg, c.w).model.Some?
    ensures ModelWrite(lib, s.issued, c,
                       Commit(s, c.r.key, ExecuteWithControls(lib, s, c.r, c.g, c.d, c.mg, c.w)), c.r.key)
  {
    if InvalidBinding(c.r, c.d, c.mg).None? {
      ResourcePlanAnswers(lib, s, c.r, c.g, c.w);
    }
  }

  lemma ModelStepWrites(lib: Lib, s: State, c: Call, k: string)
    requires k !in s.models && k in Step(lib, s, c).models
    ensures c.ControlCall? && ModelWrite(lib, s.issued, c, Step(lib, s, c), k)
  {
    if c.ControlCall? && ExecuteWithControls(lib, s, c.r, c.g, c.d, c.mg, c.w).model.Some? {
      ControlPlanWrites(lib, s, c);
    }
  }

  lemma SettleKeepsIff(r: Request, d: Descriptor, mg: ModelGrant, b: Bounded, seen: Observation, now: int)
    ensures Settle(r, d, mg, b, seen, now).bounded == b
       <==> || (!Malformed(seen) && mg.Admits(Charge(mg, seen)))
            || b.result == FailureResult(r, PolicyBlock, ModelLimitExceeded, b.result.telemetry)
  {
  }

  /** The resource tier never answers with the model tier's limit code after having
      read a usage report. */
  lemma ModelLimitMeansNothingSeen(lib: Lib, issued: map<Ref, SnapshotMaterial>, r: Request, g: ResourceGrant, w: World)
    requires Answer(lib, issued, r, g, w).0.result.failure == Some(ModelLimitExceeded)
    ensures Answer(lib, issued, r, g, w).1 == NOTHING
  {
    if Refusal(lib, r, g).Some? {
      RefusalsHaveControlCodes(lib, r, g);
    } else {
      ControlCodesComeFromResolver(lib, issued, r, w, Some(g.networkLimit), ModelLimitExceeded);
      ResolverFailureIsBare(lib, issued, r, w, Some(g.networkLimit), ModelLimitExceeded);
    }
  }

  lemma SettlesIffNotOvercharged(lib: Lib, issued: map<Ref, SnapshotMaterial>, r: Request, g: ResourceGrant,
                                 mg: ModelGrant, w: World)
    ensures
      var seen := Answer(lib, issued, r, g, w).1;
      !Malformed(seen) && mg.Admits(Charge(mg, seen)) <==> !Overcharges(lib, issued, r, g, mg, w)
  {
    AttemptObserves(lib, issued, r, w, g.networkLimit);
  }

  /** Call `j` makes, at the resource tier alone, what call `i` was rejected for, and
      fails with that rejection's code because the resolver reports it. */
  ghost predicate FailsLikeRejection(lib: Lib, calls: seq<Call>, i: nat, j: nat, code: FailureCode)
    requires i < |calls| && calls[i].ControlCall?
  {
    && i < j < |calls| && calls[j].ResourceCall?
    && var c, d := calls[i], calls[j];
       && d.r.genuine && d.g.genuine && d.r.key == c.r.key && Alike(d.r, c.r) && d.g.ref == c.g.ref
       && d.r.key !in Before(lib, calls, j).resources && d.r.key !in Before(lib, calls, j).executions
       && d.w.now == c.w.now && Refusal(lib, d.r, d.g).None? && d.r.mediaType !in RENDERER_MEDIA
       && ResolverFails(lib, Before(lib, calls, j).issued, d.r, d.w, code)
  }

  /** A call that adds a resource entry where a model entry is already cached was
      made at the resource tier. */
  lemma UncontrolledWrite(lib: Lib, s: State, c: Call, k: string)
    requires k in s.models && k !in s.resources && k in Step(lib, s, c).resources
    ensures c.ResourceCall? && c.g.genuine && k !in s.executions && (Refusal(lib, c.r, c.g).None? ==> c.r.genuine)
    ensures ResourceWrite(lib, s.issued, c.r, c.g, c.w, Step(lib, s, c), k)
  {
    ResourceStepWrites(lib, s, c, k);
  }

  lemma ResourceCallWrites(lib: Lib, s: State, r: Request, g: ResourceGrant, w: World)
    requires r.genuine && g.genuine && r.key !in s.resources && r.key !in s.executions
    ensures r.key in Step(lib, s, ResourceCall(r, g, w)).resources
    ensures ResourceWrite(lib, s.issued, r, g, w, Step(lib, s, ResourceCall(r, g, w)), r.key)
  {
    ResourceStepWrites(lib, s, ResourceCall(r, g, w), r.key);
  }

  /** A resource entry is a bare failure with a rejection's code if and only if the
      call was let through, renders nothing, and the resolver reports that code. */
  lemma BareFailureIff(lib: Lib, issued: map<Ref, SnapshotMaterial>, r: Request, g: ResourceGrant, w: World,
                       code: FailureCode)
    requires code == ModelGrantInvalid || code == ModelProfileMismatch
    ensures
      var b := Answer(lib, issued, r, g, w).0;
      (b.result.failure == Some(code) && b.usage == NO_USAGE) <==>
        Refusal(lib, r, g).None? && r.mediaType !in RENDERER_MEDIA && ResolverFails(lib, issued, r, w, code)
    ensures ResolverFails(lib, issued, r, w, code) && Refusal(lib, r, g).None? && r.mediaType !in RENDERER_MEDIA ==>
              Answer(lib, issued, r, g, w).0
              == Bounded(g.ref, FailureResult(r, PolicyBlock, code, Unavailable(w.now)), NO_USAGE)
  {
    ControlCodesComeFromResolver(lib, issued, r, w, Some(g.networkLimit), code);
    if ResolverFails(lib, issued, r, w, code) {
      ResolverFailureIsBare(lib, issued, r, w, Some(g.networkLimit), code);
    }
  }

  lemma RejectedEntryAgreesOnlyIf(lib: Lib, calls: seq<Call>, i: nat, k: string) returns (j: nat)
    requires i < |calls| && calls[i].ControlCall? && InvalidBinding(calls[i].r, calls[i].d, calls[i].mg).Some?
    requires ModelWrite(lib, Before(lib, calls, i).issued, calls[i], Step(lib, Before(lib, calls, i), calls[i]), k)
    requires k in Run(lib, calls).models && ModelAgrees(Run(lib, calls), k)
    ensures FailsLikeRejection(lib, calls, i, j, InvalidBinding(calls[i].r, calls[i].d, calls[i].mg).value)
  {
    var c, code := calls[i], InvalidBinding(calls[i].r, calls[i].d, calls[i].mg).value;
    j := LaterWriter(lib, calls, ResourceTier, k, i);
    KeptToTheEnd(lib, calls, i);
    var s, d := Before(lib, calls, j), calls[j];
    UncontrolledWrite(lib, s, d, k);
    BareFailureIff(lib, s.issued, d.r, d.g, d.w, code);
    AlikeIffSameFailure(d.r, c.r, PolicyBlock, code, Unavailable(c.w.now));
  }

  lemma RejectedEntryAgreesIf(lib: Lib, calls: seq<Call>, i: nat, j: nat, k: string)
    requires i < |calls| && calls[i].ControlCall? && InvalidBinding(calls[i].r, calls[i].d, calls[i].mg).Some?
    requires ModelWrite(lib, Before(lib, calls, i).issued, calls[i], Step(lib, Before(lib, calls, i), calls[i]), k)
    requires FailsLikeRejection(lib, calls, i, j, InvalidBinding(calls[i].r, calls[i].d, calls[i].mg).value)
    ensures k in Run(lib, calls).models && ModelAgrees(Run(lib, calls), k)
  {
    var c, d, code := calls[i], calls[j], InvalidBinding(calls[i].r, calls[i].d, calls[i].mg).value;
    KeptToTheEnd(lib, calls, i);
    KeptToTheEnd(lib, calls, j);
    ResourceCallWrites(lib, Before(lib, calls, j), d.r, d.g, d.w);
    BareFailureIff(lib, Before(lib, calls, j).issued, d.r, d.g, d.w, code);
    AlikeIffSameFailure(d.r, c.r, PolicyBlock, code, Unavailable(c.w.now));
  }

  lemma SettledEntryAgreesIff(lib: Lib, calls: seq<Call>, i: nat, k: string)
    requires i < |calls| && calls[i].ControlCall? && InvalidBinding(calls[i].r, calls[i].d, calls[i].mg).None?
    requires ModelWrite(lib, Before(lib, calls, i).issued, calls[i], Step(lib, Before(lib, calls, i), calls[i]), k)
    ensures k in Run(lib, calls).models
    ensures ModelAgrees(Run(lib, calls), k)
       <==> !Overcharges(lib, Before(lib, calls, i).issued, calls[i].r, calls[i].g, calls[i].mg, calls[i].w)
  {
    var c, issued := calls[i], Before(lib, calls, i).issued;
    KeptToTheEnd(lib, calls, i);
    var (b, seen) := Answer(lib, issued, c.r, c.g, c.w);
    SettleKeepsIff(c.r, c.d, c.mg, b, seen, c.w.now);
    SettlesIffNotOvercharged(lib, issued, c.r, c.g, c.mg, c.w);
    if b.result.failure == Some(ModelLimitExceeded) {
      ModelLimitMeansNothingSeen(lib, issued, c.r, c.g, c.w);
    }
  }

  /** The exact condition, over every run and every key with a model entry. If the
      call that wrote it was validly bound, the tiers agree if and only if no
      malformed or excessive usage report was the last it read. If it was rejected,
      they agree if and only if a later call at the resource tier fails just as the
      rejection does, which takes a resolver that reports the rejection's code. */
  lemma ModelTierAgreesIff(lib: Lib, calls: seq<Call>, k: string) returns (i: nat)
    requires k in Run(lib, calls).models
    ensures i < |calls| && calls[i].ControlCall? && calls[i].r.key == k && k !in Before(lib, calls, i).models
    ensures
      var c := calls[i];
      var invalid := InvalidBinding(c.r, c.d, c.mg);
      ModelAgrees(Run(lib, calls), k) <==>
        if invalid.None? then !Overcharges(lib, Before(lib, calls, i).issued, c.r, c.g, c.mg, c.w)
        else exists j: nat :: FailsLikeRejection(lib, calls, i, j, invalid.value)
  {
    i := Writer(lib, calls, ModelTier, k);
    var c := calls[i];
    ModelStepWrites(lib, Before(lib, calls, i), c, k);
    var invalid := InvalidBinding(c.r, c.d, c.mg);
    if invalid.None? {
      SettledEntryAgreesIff(lib, calls, i, k);
    } else {
      if ModelAgrees(Run(lib, calls), k) {
        var j := RejectedEntryAgreesOnlyIf(lib, calls, i, k);
      }
      if j: nat :| FailsLikeRejection(lib, calls, i, j, invalid.value) {
        RejectedEntryAgreesIf(lib, calls, i, j, k);
      }
    }
  }

  // ------------------------------------------------------ runs that split the tiers

  lemma RunOfTwo(lib: Lib, first: Call, second: Call)
    ensures Run(lib, [first, second]) == Step(lib, Step(lib, INITIAL, first), second)
  {
    assert [first, second][..1] == [first] && [first][..0] == [];
    assert Run(lib, [first]) == Step(lib, Run(lib, []), first);
  }

  /** Any refused request can be executed afterwards, unmetered and under the same
      key; here it fails for want of a snapshot, and the tiers disagree. */
  lemma RefusedThenExecutedSplits(lib: Lib, r: Request, g: ResourceGrant, w: World, w': World)
    requires r.genuine && g.genuine && Refusal(lib, r, g).Some?
    ensures
      var s := Run(lib, [ResourceCall(r, g, w), ExecuteCall(r, w')]);
      && r.key in s.resources && r.key in s.executions && !ResourceAgrees(s, r.key)
  {
    RunOfTwo(lib, ResourceCall(r, g, w), ExecuteCall(r, w'));
    RefusalsHaveControlCodes(lib, r, g);
  }

  /** A run starts with a snapshot of the ledger that `r` names and `w` still has. */
  ghost predicate Snapshotted(lib: Lib, sr: SnapshotRequest, ledgers: map<string, Ledger>, now: int, r: Request,
                              w: World)
  {
    && sr.genuine && TakeSnapshot(lib, sr, ledgers, now).Ok?
    && r.snapshotRef == lib.snapshotRef(TakeSnapshot(lib, sr, ledgers, now).value)
    && sr.ledgerRef.objectId in ledgers && w.ledgers == ledgers && w.ledgerAfter == ledgers[sr.ledgerRef.objectId]
  }

  lemma SnapshottedSeesLedger(lib: Lib, sr: SnapshotRequest, ledgers: map<string, Ledger>, now: int, r: Request,
                              w: World)
    requires Snapshotted(lib, sr, ledgers, now, r, w)
    ensures
      var s := Step(lib, INITIAL, SnapshotCall(sr, ledgers, now));
      && s.executions == map[] && s.resources == map[] && s.models == map[]
      && SawLedger(lib, s.issued, r, w)
  {
  }

  /** An output larger than the storage limit: cached as a success below and as a
      limit failure above. */
  lemma StorageOverrideSplits(lib: Lib, sr: SnapshotRequest, ledgers: map<string, Ledger>, now: int, r: Request,
                              g: ResourceGrant, w: World)
    requires Snapshotted(lib, sr, ledgers, now, r, w) && r.genuine && g.genuine && Refusal(lib, r, g).None?
    requires r.route == ProviderRoute && ProviderDelivers(r, w) && w.output.insideStaging && w.output.present
    requires w.output.size > g.storageLimit
    ensures
      var s := Run(lib, [SnapshotCall(sr, ledgers, now), ResourceCall(r, g, w)]);
      && r.key in s.resources && s.resources[r.key].bounded.result.failure == Some(ResourceLimitExceeded)
      && r.key in s.executions && s.executions[r.key].result.status == Success
      && !ResourceAgrees(s, r.key)
  {
    var s := Step(lib, INITIAL, SnapshotCall(sr, ledgers, now));
    RunOfTwo(lib, SnapshotCall(sr, ledgers, now), ResourceCall(r, g, w));
    SnapshottedSeesLedger(lib, sr, ledgers, now, r, w);
    AttemptSucceedsIff(lib, s.issued, r, w, g.networkLimit);
    ResourceCallWrites(lib, s, r, g, w);
  }

  /** A run that delivers within the resource grant but reports more than the model
      grant allows: a success in the two tiers below, a limit failure above. */
  lemma ChargeOverrideSplits(lib: Lib, sr: SnapshotRequest, ledgers: map<string, Ledger>, now: int, r: Request,
                             g: ResourceGrant, d: Descriptor, mg: ModelGrant, w: World)
    requires Snapshotted(lib, sr, ledgers, now, r, w) && r.genuine && g.genuine && d.genuine && mg.genuine
    requires InvalidBinding(r, d, mg).None? && Refusal(lib, r, g).None?
    requires RuntimeDelivers(lib, r, w, g.networkLimit) && w.output.insideStaging && w.output.present
    requires w.output.size <= g.storageLimit
    requires Overcharges(lib, Step(lib, INITIAL, SnapshotCall(sr, ledgers, now)).issued, r, g, mg, w)
    ensures
      var s := Run(lib, [SnapshotCall(sr, ledgers, now), ControlCall(r, g, d, mg, w)]);
      && r.key in s.models && s.models[r.key].bounded.result.failure == Some(ModelLimitExceeded)
      && r.key in s.resources && s.resources[r.key].bounded.result.status == Success
      && !ModelAgrees(s, r.key) && ResourceAgrees(s, r.key)
  {
    var c, s := ControlCall(r, g, d, mg, w), Step(lib, INITIAL, SnapshotCall(sr, ledgers, now));
    RunOfTwo(lib, SnapshotCall(sr, ledgers, now), c);
    SnapshottedSeesLedger(lib, sr, ledgers, now, r, w);
    OverchargedCallSplits(lib, s, c);
  }

  lemma OverchargedCallSplits(lib: Lib, s: State, c: Call)
    requires c.ControlCall? && c.r.genuine && c.g.genuine && c.d.genuine && c.mg.genuine
    requires InvalidBinding(c.r, c.d, c.mg).None? && Refusal(lib, c.r, c.g).None?
    requires c.r.key !in s.models && c.r.key !in s.resources && c.r.key !in s.executions
    requires SawLedger(lib, s.issued, c.r, c.w) && RuntimeDelivers(lib, c.r, c.w, c.g.networkLimit)
    requires c.w.output.insideStaging && c.w.output.present && c.w.output.size <= c.g.storageLimit
    requires Overcharges(lib, s.issued, c.r, c.g, c.mg, c.w)
    ensures
      var t := Step(lib, s, c);
      && c.r.key in t.models && t.models[c.r.key].bounded.result.failure == Some(ModelLimitExceeded)
      && c.r.key in t.resources && t.resources[c.r.key].bounded.result.status == Success
      && !ModelAgrees(t, c.r.key) && ResourceAgrees(t, c.r.key)
  {
    ControlCallWrites(lib, s, c);
    DeliveredIsAdmitted(lib, s.issued, c.r, c.g, c.w);
    SettlesIffNotOvercharged(lib, s.issued, c.r, c.g, c.mg, c.w);
  }

  lemma DeliveredIsAdmitted(lib: Lib, issued: map<Ref, SnapshotMaterial>, r: Request, g: ResourceGrant, w: World)
    requires r.route == RuntimeRoute && Refusal(lib, r, g).None?
    requires SawLedger(lib, issued, r, w) && RuntimeDelivers(lib, r, w, g.networkLimit)
    requires w.output.insideStaging && w.output.present && w.output.size <= g.storageLimit
    ensures
      var a := AttemptAt(lib, issued, r, w, Some(g.networkLimit));
      a.result.status == Success && g.Admits(UsageOf(r, w.output.size, a.result, a.seen))
  {
    AttemptSucceedsIff(lib, issued, r, w, g.networkLimit);
    AdmittedRunsPassOnlyTwoLimits(lib, issued, r, g, w);
  }

  /** A genuine, validly bound controlled call under a fresh key writes all three
      entries. */
  lemma ControlCallWrites(lib: Lib, s: State, c: Call)
    requires c.ControlCall? && c.r.genuine && c.g.genuine && c.d.genuine && c.mg.genuine
    requires InvalidBinding(c.r, c.d, c.mg).None?
    requires c.r.key !in s.models && c.r.key !in s.resources && c.r.key !in s.executions
    ensures c.r.key in Step(lib, s, c).models && ModelWrite(lib, s.issued, c, Step(lib, s, c), c.r.key)
    ensures c.r.key in Step(lib, s, c).resources
    ensures ResourceWrite(lib, s.issued, c.r, c.g, c.w, Step(lib, s, c), c.r.key)
  {
    ModelStepWrites(lib, s, c, c.r.key);
    ResourceStepWrites(lib, s, c, c.r.key);
  }
}
