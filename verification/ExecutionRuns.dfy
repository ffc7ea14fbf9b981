/** What every sequence of (non-overlapping) calls to the execution facade keeps.
    A run is a sequence of calls, each with the world it met; caches are compared
    between any two points of a run. */
module ExecutionRuns {
  import opened Prelude
  import opened ModelControlTypes
  import opened Metering
  import opened Execution

  datatype Call =
    | SnapshotCall(sr: SnapshotRequest, ledgers: map<string, Ledger>, now: int)
    | ExecuteCall(r: Request, w: World)
    | ResourceCall(r: Request, g: ResourceGrant, w: World)
    | ControlCall(r: Request, g: ResourceGrant, d: Descriptor, mg: ModelGrant, w: World)

  function Step(lib: Lib, s: State, c: Call): State
  {
    match c
    case SnapshotCall(sr, ledgers, now) => SnapshotWorld(lib, s, sr, ledgers, now).state
    case ExecuteCall(r, w) => Commit(s, r.key, Execute(lib, s, r, w, None))
    case ResourceCall(r, g, w) => Commit(s, r.key, ExecuteWithResources(lib, s, r, g, w))
    case ControlCall(r, g, d, mg, w) => Commit(s, r.key, ExecuteWithControls(lib, s, r, g, d, mg, w))
  }

  /** The state after a run that starts with a fresh facade. */
  function Run(lib: Lib, calls: seq<Call>): State
  {
    if calls == [] then INITIAL
    else Step(lib, Run(lib, calls[..|calls| - 1]), calls[|calls| - 1])
  }

  /** The state in which call number `i` is made. */
  function Before(lib: Lib, calls: seq<Call>, i: nat): State
    requires i <= |calls|
  {
    Run(lib, calls[..i])
  }

  lemma StepAt(lib: Lib, calls: seq<Call>, i: nat)
    requires i < |calls|
    ensures Before(lib, calls, i + 1) == Step(lib, Before(lib, calls, i), calls[i])
  {
    assert calls[..i + 1][..i] == calls[..i];
  }

  // --------------------------------------------------------------- write once

  ghost predicate Keeps<K(!new), V>(older: map<K, V>, newer: map<K, V>)
  {
    forall k :: k in older ==> k in newer && newer[k] == older[k]
  }

  ghost predicate CachesKept(older: State, newer: State)
  {
    && Keeps(older.snapshots, newer.snapshots)
    && Keeps(older.executions, newer.executions)
    && Keeps(older.resources, newer.resources)
    && Keeps(older.models, newer.models)
  }

  /** A plan adds entries only where its key has none. */
  ghost predicate AddsOnly<T>(s: State, key: string, p: Plan<T>)
  {
    && (p.execution.Some? ==> key !in s.executions)
    && (p.resource.Some? ==> key !in s.resources)
    && (p.model.Some? ==> key !in s.models)
  }

  lemma ExecuteAddsOnly(lib: Lib, s: State, r: Request, a: Attempt)
    ensures AddsOnly(s, r.key, ExecuteOn(lib, s, r, a))
  {
  }

  lemma ResourcesAddOnly(lib: Lib, s: State, r: Request, g: ResourceGrant, a: Attempt, w: World)
    ensures AddsOnly(s, r.key, ExecuteWithResourcesOn(lib, s, r, g, a, w))
  {
  }

  lemma ControlsAddOnly(lib: Lib, s: State, r: Request, g: ResourceGrant, d: Descriptor, mg: ModelGrant, a: Attempt,
                        w: World)
    ensures AddsOnly(s, r.key, ExecuteWithControlsOn(lib, s, r, g, d, mg, a, w))
  {
    ResourcesAddOnly(lib, s, r, g, a, w);
  }

  lemma CommitKeepsCaches<T>(s: State, key: string, p: Plan<T>)
    requires AddsOnly(s, key, p)
    ensures CachesKept(s, Commit(s, key, p))
  {
  }

  lemma SnapshotKeepsCaches(lib: Lib, s: State, r: SnapshotRequest, ledgers: map<string, Ledger>, now: int)
    ensures CachesKept(s, SnapshotWorld(lib, s, r, ledgers, now).state)
  {
  }

  lemma StepKeepsCaches(lib: Lib, s: State, c: Call)
    ensures CachesKept(s, Step(lib, s, c))
  {
    match c
    case SnapshotCall(r, ledgers, now) => SnapshotKeepsCaches(lib, s, r, ledgers, now);
    case ExecuteCall(r, w) =>
      ExecuteAddsOnly(lib, s, r, AttemptAt(lib, s.issued, r, w, None));
      CommitKeepsCaches(s, r.key, Execute(lib, s, r, w, None));
    case ResourceCall(r, g, w) =>
      ResourcesAddOnly(lib, s, r, g, AttemptAt(lib, s.issued, r, w, Some(g.networkLimit)), w);
      CommitKeepsCaches(s, r.key, ExecuteWithResources(lib, s, r, g, w));
    case ControlCall(r, g, d, mg, w) =>
      ControlsAddOnly(lib, s, r, g, d, mg, AttemptAt(lib, s.issued, r, w, Some(g.networkLimit)), w);
      CommitKeepsCaches(s, r.key, ExecuteWithControls(lib, s, r, g, d, mg, w));
  }

  /** Every cache is write-once: what a key maps to never changes again. */
  lemma {:induction false} CachesAreWriteOnce(lib: Lib, calls: seq<Call>, i: nat, j: nat)
    requires i <= j <= |calls|
    ensures CachesKept(Before(lib, calls, i), Before(lib, calls, j))
    decreases j - i
  {
    if i < j {
      CachesAreWriteOnce(lib, calls, i, j - 1);
      StepAt(lib, calls, j - 1);
      StepKeepsCaches(lib, Before(lib, calls, j - 1), calls[j - 1]);
    }
  }

  datatype Tier = ExecutionTier | ResourceTier | ModelTier

  predicate Has(s: State, tier: Tier, k: string)
  {
    match tier
    case ExecutionTier => k in s.executions
    case ResourceTier => k in s.resources
    case ModelTier => k in s.models
  }

  lemma {:induction false} FirstAppearance(lib: Lib, calls: seq<Call>, tier: Tier, k: string) returns (i: nat)
    requires Has(Run(lib, calls), tier, k)
    ensures i < |calls| && !Has(Before(lib, calls, i), tier, k) && Has(Before(lib, calls, i + 1), tier, k)
  {
    var n := |calls| - 1;
    assert calls[..n + 1] == calls;
    if Has(Before(lib, calls, n), tier, k) {
      i := FirstAppearance(lib, calls[..n], tier, k);
      assert calls[..n][..i] == calls[..i] && calls[..n][..i + 1] == calls[..i + 1];
    } else {
      i := n;
    }
  }

  /** Each entry has one call that wrote it, in a state without it; what that call
      left in the caches is there to the end. */
  lemma Writer(lib: Lib, calls: seq<Call>, tier: Tier, k: string) returns (i: nat)
    requires Has(Run(lib, calls), tier, k)
    ensures i < |calls| && !Has(Before(lib, calls, i), tier, k)
    ensures Has(Step(lib, Before(lib, calls, i), calls[i]), tier, k)
    ensures CachesKept(Step(lib, Before(lib, calls, i), calls[i]), Run(lib, calls))
  {
    i := FirstAppearance(lib, calls, tier, k);
    StepAt(lib, calls, i);
    CachesAreWriteOnce(lib, calls, i + 1, |calls|);
    assert calls[..|calls|] == calls;
  }

  // ----------------------------------------------------------- tier agreement

  ghost predicate ResourceAgrees(s: State, k: string)
    requires k in s.resources
  {
    && k in s.executions
    && s.executions[k].requestSha == s.resources[k].requestSha
    && s.executions[k].result == s.resources[k].bounded.result
  }

  ghost predicate ModelAgrees(s: State, k: string)
    requires k in s.models
  {
    && k in s.resources
    && s.resources[k].bounded == s.models[k].bounded
    && s.resources[k].requestSha == s.models[k].requestSha
    && s.resources[k].grantSha == s.models[k].grantSha
  }

  /** The model tier passes the entries of the tier below on unchanged. */
  lemma ControlsPassEntriesOn(lib: Lib, s: State, r: Request, g: ResourceGrant, d: Descriptor, mg: ModelGrant,
                              a: Attempt, w: World)
    ensures
      var p := ExecuteWithControlsOn(lib, s, r, g, d, mg, a, w);
      var q := ExecuteWithResourcesOn(lib, s, r, g, a, w);
      || (p.execution == q.execution && p.resource == q.resource)
      || (p.execution.None? && p.resource.None?)
  {
  }

  lemma ResourcePlanRanItself(lib: Lib, s: State, r: Request, g: ResourceGrant, a: Attempt, w: World)
    ensures
      var p := ExecuteWithResourcesOn(lib, s, r, g, a, w);
      && (p.execution.Some? ==> p.execution.value == ExecutionEntry(r.sha, a.result))
      && (p.resource.Some? && p.resource.value.bounded.result.status == Success ==>
            var e := p.resource.value;
            && r.key !in s.executions
            && p.execution == Some(ExecutionEntry(r.sha, a.result))
            && e.requestSha == r.sha && e.grantSha == g.ref.objectSha256
            && e.bounded == Bounded(g.ref, a.result, UsageOf(r, w.output.size, a.result, a.seen))
            && g.Admits(e.bounded.usage))
  {
  }

  /** The call that writes a successful resource entry runs the request itself,
      under its own grant: no execution was cached before it. */
  lemma ResourceWriteAgrees(lib: Lib, s: State, c: Call, k: string)
    requires k !in s.resources && k in Step(lib, s, c).resources
    requires Step(lib, s, c).resources[k].bounded.result.status == Success
    ensures c.ResourceCall? || c.ControlCall?
    ensures c.r.key == k && k !in s.executions
    ensures ResourceAgrees(Step(lib, s, c), k)
    ensures Step(lib, s, c).resources[k].grantSha == c.g.ref.objectSha256
    ensures c.g.Admits(Step(lib, s, c).resources[k].bounded.usage)
    ensures
      var a := AttemptAt(lib, s.issued, c.r, c.w, Some(c.g.networkLimit));
      && Step(lib, s, c).executions[k].result == a.result
      && Step(lib, s, c).resources[k].bounded.usage == UsageOf(c.r, c.w.output.size, a.result, a.seen)
  {
    if c.ResourceCall? || c.ControlCall? {
      var a := AttemptAt(lib, s.issued, c.r, c.w, Some(c.g.networkLimit));
      ResourcePlanRanItself(lib, s, c.r, c.g, a, c.w);
      if c.ControlCall? {
        ControlsPassEntriesOn(lib, s, c.r, c.g, c.d, c.mg, a, c.w);
      }
    }
  }

  lemma ModelPlanRanItself(lib: Lib, s: State, r: Request, g: ResourceGrant, d: Descriptor, mg: ModelGrant, a: Attempt,
                           w: World)
    ensures
      var p := ExecuteWithControlsOn(lib, s, r, g, d, mg, a, w);
      p.model.Some? && p.model.value.bounded.result.status == Success ==>
        var e := p.model.value;
        && r.key !in s.executions && r.key !in s.resources
        && p.execution == Some(ExecutionEntry(r.sha, a.result))
        && p.resource == Some(ResourceEntry(r.sha, g.ref.objectSha256, e.bounded))
        && e.bounded.result == a.result
        && e.requestSha == r.sha && e.grantSha == g.ref.objectSha256
        && e.receipt.usage == Charge(mg, a.seen) && mg.Admits(Charge(mg, a.seen)) && !Malformed(a.seen)
  {
    ResourcePlanRanItself(lib, s, r, g, a, w);
  }

  lemma ModelWriteAgrees(lib: Lib, s: State, c: Call, k: string)
    requires k !in s.models && k in Step(lib, s, c).models
    requires Step(lib, s, c).models[k].bounded.result.status == Success
    ensures c.ControlCall? && c.r.key == k && k !in s.executions && k !in s.resources
    ensures ModelAgrees(Step(lib, s, c), k) && ResourceAgrees(Step(lib, s, c), k)
    ensures
      var a := AttemptAt(lib, s.issued, c.r, c.w, Some(c.g.networkLimit));
      && Step(lib, s, c).models[k].receipt.usage == Charge(c.mg, a.seen)
      && c.mg.Admits(Charge(c.mg, a.seen))
      && !Malformed(a.seen)
  {
    if c.ControlCall? {
      var a := AttemptAt(lib, s.issued, c.r, c.w, Some(c.g.networkLimit));
      ModelPlanRanItself(lib, s, c.r, c.g, c.d, c.mg, a, c.w);
    }
  }

  lemma AgreementIsKept(older: State, newer: State, k: string)
    requires CachesKept(older, newer)
    ensures k in older.resources && ResourceAgrees(older, k) ==> k in newer.resources && ResourceAgrees(newer, k)
    ensures k in older.models && ModelAgrees(older, k) ==> k in newer.models && ModelAgrees(newer, k)
  {
  }

  lemma ResourceTierAgrees(lib: Lib, calls: seq<Call>, k: string)
    requires k in Run(lib, calls).resources && Run(lib, calls).resources[k].bounded.result.status == Success
    ensures ResourceAgrees(Run(lib, calls), k)
  {
    var i := Writer(lib, calls, ResourceTier, k);
    var s, final := Before(lib, calls, i), Run(lib, calls);
    AgreementIsKept(Step(lib, s, calls[i]), final, k);
    ResourceWriteAgrees(lib, s, calls[i], k);
  }

  lemma ModelTierAgrees(lib: Lib, calls: seq<Call>, k: string)
    requires k in Run(lib, calls).models && Run(lib, calls).models[k].bounded.result.status == Success
    ensures ModelAgrees(Run(lib, calls), k)
  {
    var i := Writer(lib, calls, ModelTier, k);
    var s, final := Before(lib, calls, i), Run(lib, calls);
    AgreementIsKept(Step(lib, s, calls[i]), final, k);
    ModelWriteAgrees(lib, s, calls[i], k);
  }

  /** Agreement downward from success, after any run: a SUCCEEDED model entry is
      the resource entry, and a SUCCEEDED resource entry carries the execution
      entry's result, each under the same request hash. */
  lemma TiersAgreeOnSuccess(lib: Lib, calls: seq<Call>, k: string)
    ensures
      var s := Run(lib, calls);
      && (k in s.models && s.models[k].bounded.result.status == Success ==> ModelAgrees(s, k))
      && (k in s.resources && s.resources[k].bounded.result.status == Success ==> ResourceAgrees(s, k))
  {
    var s := Run(lib, calls);
    if k in s.models && s.models[k].bounded.result.status == Success { ModelTierAgrees(lib, calls, k); }
    if k in s.resources && s.resources[k].bounded.result.status == Success { ResourceTierAgrees(lib, calls, k); }
  }

  /** No metered success comes from an unmetered run: the call that wrote the
      successful entry also ran the attempt, with its own grant's network limit,
      and its usage is within all four limits of that grant. */
  ghost predicate MeteredRun(lib: Lib, calls: seq<Call>, i: nat, k: string)
  {
    && i < |calls|
    && (calls[i].ResourceCall? || calls[i].ControlCall?)
    && calls[i].r.key == k
    && k !in Before(lib, calls, i).executions
    && k in Run(lib, calls).executions && k in Run(lib, calls).resources
    && var g := calls[i].g;
       var a := AttemptAt(lib, Before(lib, calls, i).issued, calls[i].r, calls[i].w, Some(g.networkLimit));
       && Run(lib, calls).executions[k].result == a.result
       && Run(lib, calls).resources[k].bounded.usage == UsageOf(calls[i].r, calls[i].w.output.size, a.result, a.seen)
       && g.Admits(Run(lib, calls).resources[k].bounded.usage)
  }

  lemma ResourceSuccessWasMetered(lib: Lib, calls: seq<Call>, k: string)
    requires k in Run(lib, calls).resources
    requires Run(lib, calls).resources[k].bounded.result.status == Success
    ensures exists i: nat :: MeteredRun(lib, calls, i, k)
  {
    var i := Writer(lib, calls, ResourceTier, k);
    ResourceWriteAgrees(lib, Before(lib, calls, i), calls[i], k);
    assert MeteredRun(lib, calls, i, k);
  }

  /** The same for the model tier, which is in addition charged for exactly the
      attempt that produced the result, within the model grant. */
  lemma ModelSuccessWasMetered(lib: Lib, calls: seq<Call>, k: string) returns (i: nat)
    requires k in Run(lib, calls).models
    requires Run(lib, calls).models[k].bounded.result.status == Success
    ensures MeteredRun(lib, calls, i, k) && calls[i].ControlCall?
    ensures
      var a := AttemptAt(lib, Before(lib, calls, i).issued, calls[i].r, calls[i].w, Some(calls[i].g.networkLimit));
      var usage := Run(lib, calls).models[k].receipt.usage;
      && usage == Charge(calls[i].mg, a.seen)
      && calls[i].mg.Admits(usage)
  {
    i := Writer(lib, calls, ModelTier, k);
    ModelWriteAgrees(lib, Before(lib, calls, i), calls[i], k);
    ResourceWriteAgrees(lib, Before(lib, calls, i), calls[i], k);
  }

  /** An answered call leaves an entry that answers its repeats. */
  lemma AnsweredCallIsRemembered(lib: Lib, s: State, r: Request, g: ResourceGrant, d: Descriptor, mg: ModelGrant,
                                 w: World, later: State)
    requires ExecuteWithControls(lib, s, r, g, d, mg, w).reply.Ok?
    requires Keeps(Commit(s, r.key, ExecuteWithControls(lib, s, r, g, d, mg, w)).models, later.models)
    ensures r.key in later.models
    ensures
      var e, c := later.models[r.key], ExecuteWithControls(lib, s, r, g, d, mg, w).reply.value;
      && e.requestSha == r.sha && e.grantSha == g.ref.objectSha256 && e.modelSha == mg.ref.objectSha256
      && e.bounded == c.bounded && e.receipt == c.receipt
  {
  }

  /** A repeated call is answered from the cache, whatever the world now does. */
  lemma ControlledCallReplays(lib: Lib, calls: seq<Call>, i: nat, j: nat)
    requires i < j < |calls| && calls[i].ControlCall? && calls[j].ControlCall?
    requires calls[j].r == calls[i].r && calls[j].g == calls[i].g
    requires calls[j].d == calls[i].d && calls[j].mg == calls[i].mg
    ensures
      var first := ExecuteWithControls(lib, Before(lib, calls, i), calls[i].r, calls[i].g, calls[i].d, calls[i].mg,
                                       calls[i].w);
      var second := ExecuteWithControls(lib, Before(lib, calls, j), calls[j].r, calls[j].g, calls[j].d, calls[j].mg,
                                        calls[j].w);
      first.reply.Ok? ==> second == Only(first.reply)
  {
    var c, s, later := calls[i], Before(lib, calls, i), Before(lib, calls, j);
    if ExecuteWithControls(lib, s, c.r, c.g, c.d, c.mg, c.w).reply.Ok? {
      StepAt(lib, calls, i);
      CachesAreWriteOnce(lib, calls, i + 1, j);
      AnsweredCallIsRemembered(lib, s, c.r, c.g, c.d, c.mg, c.w, later);
    }
  }

  // ---------------------------------------------------------- limits, charges

  /** Whatever a stream does, an attempt starts at most one process and passes
      the network limit by at most one request. */
  lemma AttemptIsBounded(lib: Lib, issued: map<Ref, SnapshotMaterial>, r: Request, w: World, limit: nat)
    ensures
      var a := AttemptAt(lib, issued, r, w, Some(limit));
      && a.seen.processStarts <= 1
      && a.seen.networkRequests <= limit + 1
      && (a.seen.networkRequests > limit ==> a.result.status != Success)
  {
    ConsumptionStopsAtFirstOverrun(lib.fold, w.events, limit);
  }

  /** What the checks before a run are for: once admitted, a run can pass only the
      network and the storage limit. */
  lemma AdmittedRunsPassOnlyTwoLimits(lib: Lib, issued: map<Ref, SnapshotMaterial>, r: Request, g: ResourceGrant,
                                      w: World)
    requires Refusal(lib, r, g).None?
    ensures g.operationRef == RequestRef(r)
    ensures
      var a := AttemptAt(lib, issued, r, w, Some(g.networkLimit));
      var usage := UsageOf(r, w.output.size, a.result, a.seen);
      g.Admits(usage) <==>
        && (StartsRuntime(lib, issued, r, w) ==> NetworkStarts(lib.fold, w.events) <= g.networkLimit)
        && (a.result.status == Success ==> w.output.size <= g.storageLimit)
  {
    AttemptObserves(lib, issued, r, w, g.networkLimit);
    ConsumptionStopsAtFirstOverrun(lib.fold, w.events, g.networkLimit);
  }

  /** Charged exactly the usage report `u`, with at least one request. */
  ghost predicate ChargesReport(usage: ModelUsage, u: Option<RuntimeUsage>)
  {
    && u.Some?
    && NormalizedUsage(u.value) == Some(usage)
    && usage.requests >= 1 && usage.requests >= u.value.turns
    && usage.inputTokens == u.value.inputTokens && usage.outputTokens == u.value.outputTokens
    && usage.chargedTokens == u.value.inputTokens + u.value.outputTokens
         + u.value.cacheCreationTokens + u.value.cacheReadTokens
  }

  /** A receipt that is honest about a grant: it has a result exactly when it
      succeeded, and then stays within the grant. */
  ghost predicate HonestReceipt(c: Controlled, mg: ModelGrant)
  {
    && (c.receipt.outcome == Succeeded <==> c.receipt.resultOf.Some?)
    && (c.receipt.outcome == Succeeded <==> c.bounded.result.status == Success)
    && (c.receipt.outcome == Succeeded ==> mg.Admits(c.receipt.usage) && c.receipt.resultOf == Some(c.bounded.result))
  }

  /** The charge for an observation: the last usage report when there is one and
      no count in it is negative, the full allowance otherwise. */
  ghost predicate ChargedFor(usage: ModelUsage, mg: ModelGrant, lastUsage: Option<RuntimeUsage>)
  {
    if lastUsage.Some? && !Negative(lastUsage.value) then ChargesReport(usage, lastUsage)
    else usage == mg.FullAllowance()
  }

  predicate Negative(u: RuntimeUsage)
  {
    u.inputTokens < 0 || u.outputTokens < 0 || u.cacheCreationTokens < 0 || u.cacheReadTokens < 0
  }

  lemma SettleIsHonest(r: Request, d: Descriptor, mg: ModelGrant, b: Bounded, seen: Observation, now: int)
    ensures HonestReceipt(Settle(r, d, mg, b, seen, now), mg)
    ensures ChargedFor(Settle(r, d, mg, b, seen, now).receipt.usage, mg, seen.lastUsage)
  {
  }

  /** The attempt gets as far as starting the runtime. */
  ghost predicate StartsRuntime(lib: Lib, issued: map<Ref, SnapshotMaterial>, r: Request, w: World)
  {
    && r.route == RuntimeRoute && w.known
    && w.material.Resolved? && w.material.artifactId == r.artifactId
    && r.snapshotRef in issued
    && var material := issued[r.snapshotRef];
       && material.ledgerRef.objectId in w.ledgers
       && lib.ledgerSha(w.ledgers[material.ledgerRef.objectId]) == material.ledgerSha
  }

  /** An attempt observes what it read of the stream, and nothing if it never
      started the runtime: also when the stream raises, when it is cut at the
      limit, and when the result is replaced because the ledger copy changed. */
  lemma AttemptObserves(lib: Lib, issued: map<Ref, SnapshotMaterial>, r: Request, w: World, limit: nat)
    ensures
      var read := w.events[..Consumed(lib.fold, w.events, Some(limit))];
      AttemptAt(lib, issued, r, w, Some(limit)).seen
      == if StartsRuntime(lib, issued, r, w) then Observation(1, NetworkStarts(lib.fold, read), LastUsage(read))
         else NOTHING
  {
  }

  lemma ControlPlanIsHonest(lib: Lib, s: State, r: Request, g: ResourceGrant, d: Descriptor, mg: ModelGrant, a: Attempt,
                            w: World)
    requires r.key !in s.models && ExecuteWithControlsOn(lib, s, r, g, d, mg, a, w).reply.Ok?
    ensures
      var p := ExecuteWithControlsOn(lib, s, r, g, d, mg, a, w);
      var c := p.reply.value;
      && p.model == Some(EntryOf(r, g, mg, c))
      && HonestReceipt(c, mg)
      && (InvalidBinding(r, d, mg).Some? ==> c.receipt.usage == ZERO_USAGE && c.receipt.outcome == BlockedPolicy)
      && (InvalidBinding(r, d, mg).None? ==>
            ChargedFor(c.receipt.usage, mg, if Refusal(lib, r, g).None? then a.seen.lastUsage else None))
  {
    var run := ExecuteWithResourcesOn(lib, s, r, g, a, w);
    if InvalidBinding(r, d, mg).None? {
      SettleIsHonest(r, d, mg, run.reply.value, run.seen, w.now);
    }
  }

  /** The account of one receipt, issued by call `c` in a state where `issued`
      are the snapshots. Not validly bound: nothing is charged. Otherwise, if the
      runtime was started and the last usage report read is well formed, that
      report is charged; in every other case the full allowance. */
  ghost predicate Accounted(lib: Lib, issued: map<Ref, SnapshotMaterial>, c: Call, e: ModelEntry)
  {
    && c.ControlCall?
    && HonestReceipt(Controlled(e.bounded, e.receipt), c.mg)
    && var read := c.w.events[..Consumed(lib.fold, c.w.events, Some(c.g.networkLimit))];
       if InvalidBinding(c.r, c.d, c.mg).Some? then e.receipt.usage == ZERO_USAGE
       else if Refusal(lib, c.r, c.g).None? && StartsRuntime(lib, issued, c.r, c.w) then
         ChargedFor(e.receipt.usage, c.mg, LastUsage(read))
       else e.receipt.usage == c.mg.FullAllowance()
  }

  lemma ModelWriteIsAccounted(lib: Lib, s: State, c: Call, k: string)
    requires k !in s.models && k in Step(lib, s, c).models
    ensures c.ControlCall? && c.r.key == k
    ensures Accounted(lib, s.issued, c, Step(lib, s, c).models[k])
  {
    if c.ControlCall? {
      var a := AttemptAt(lib, s.issued, c.r, c.w, Some(c.g.networkLimit));
      var p := ExecuteWithControlsOn(lib, s, c.r, c.g, c.d, c.mg, a, c.w);
      assert Step(lib, s, c).models == Put(s.models, c.r.key, p.model);
      ControlPlanIsHonest(lib, s, c.r, c.g, c.d, c.mg, a, c.w);
      AttemptObserves(lib, s.issued, c.r, c.w, c.g.networkLimit);
    }
  }

  /** After any run, every receipt goes back to the one controlled call that
      issued it and is accounted for by it; it carries a result exactly when it
      succeeded, and a success is within the limits of its model grant. */
  lemma EveryReceiptIsAccounted(lib: Lib, calls: seq<Call>, k: string) returns (i: nat)
    requires k in Run(lib, calls).models
    ensures i < |calls| && calls[i].ControlCall? && calls[i].r.key == k
    ensures Accounted(lib, Before(lib, calls, i).issued, calls[i], Run(lib, calls).models[k])
  {
    i := Writer(lib, calls, ModelTier, k);
    ModelWriteIsAccounted(lib, Before(lib, calls, i), calls[i], k);
  }

  /** When a controlled call on a fresh key succeeds: exactly when it is validly
      bound and admitted, the attempt succeeds, and both the measured resources
      and the charge (of a well-formed report) fit their grants. */
  lemma ControlledSuccessIff(lib: Lib, s: State, r: Request, g: ResourceGrant, d: Descriptor, mg: ModelGrant, w: World)
    requires r.key !in s.models && r.key !in s.resources && r.key !in s.executions
    requires ExecuteWithControls(lib, s, r, g, d, mg, w).reply.Ok?
    ensures
      var a := AttemptAt(lib, s.issued, r, w, Some(g.networkLimit));
      var read := w.events[..Consumed(lib.fold, w.events, Some(g.networkLimit))];
      ExecuteWithControls(lib, s, r, g, d, mg, w).reply.value.receipt.outcome == Succeeded
      <==>
      && InvalidBinding(r, d, mg).None? && Refusal(lib, r, g).None?
      && a.result.status == Success
      && g.Admits(UsageOf(r, w.output.size, a.result, a.seen))
      && (LastUsage(read).Some? ==>
            !Negative(LastUsage(read).value) && mg.Admits(NormalizedUsage(LastUsage(read).value).value))
  {
    AttemptObserves(lib, s.issued, r, w, g.networkLimit);
  }

  // ---------------------------------------------------------------- snapshots

  /** Which ledger fact a canonical id stands for. */
  ghost predicate FactAt(lib: Lib, facts: seq<Fact>, id: string, j: nat)
  {
    j < |facts| && lib.factId(facts[j].key) == Some(id)
  }

  lemma {:induction false} IndexedFactsExist(lib: Lib, facts: seq<Fact>, id: string) returns (j: nat)
    requires FactIndex(lib, facts).Some? && id in FactIndex(lib, facts).value
    ensures FactAt(lib, facts, id, j)
  {
    var n := |facts| - 1;
    j := n;
    if id in FactIndex(lib, facts[..n]).value {
      j := IndexedFactsExist(lib, facts[..n], id);
    }
  }

  lemma {:induction false} FactsAreIndexed(lib: Lib, facts: seq<Fact>, id: string, j: nat)
    requires FactIndex(lib, facts).Some? && FactAt(lib, facts, id, j)
    ensures id in FactIndex(lib, facts).value && FactIndex(lib, facts).value[id] == facts[j].value
  {
    if j < |facts| - 1 {
      FactsAreIndexed(lib, facts[..|facts| - 1], id, j);
    }
  }

  lemma {:induction false} FactIdsAreUnique(lib: Lib, facts: seq<Fact>, id: string, i: nat, j: nat)
    requires FactIndex(lib, facts).Some? && FactAt(lib, facts, id, i) && FactAt(lib, facts, id, j)
    ensures i == j
  {
    var n := |facts| - 1;
    if i < n && j < n {
      FactIdsAreUnique(lib, facts[..n], id, i, j);
    } else if i < n {
      FactsAreIndexed(lib, facts[..n], id, i);
    } else if j < n {
      FactsAreIndexed(lib, facts[..n], id, j);
    }
  }

  /** The index maps each canonical id to the one fact that has it. */
  lemma FactIndexIsExact(lib: Lib, facts: seq<Fact>)
    requires FactIndex(lib, facts).Some?
    ensures
      var index := FactIndex(lib, facts).value;
      && (forall id :: id in index ==> exists j: nat :: FactAt(lib, facts, id, j))
      && (forall id, j: nat :: FactAt(lib, facts, id, j) ==> id in index && index[id] == facts[j].value)
      && (forall id, i: nat, j: nat :: FactAt(lib, facts, id, i) && FactAt(lib, facts, id, j) ==> i == j)
  {
    var index := FactIndex(lib, facts).value;
    forall id | id in index ensures exists j: nat :: FactAt(lib, facts, id, j) {
      var j := IndexedFactsExist(lib, facts, id);
    }
    forall id, j: nat | FactAt(lib, facts, id, j) ensures id in index && index[id] == facts[j].value {
      FactsAreIndexed(lib, facts, id, j);
    }
    forall id, i: nat, j: nat | FactAt(lib, facts, id, i) && FactAt(lib, facts, id, j) ensures i == j {
      FactIdsAreUnique(lib, facts, id, i, j);
    }
  }

  lemma {:induction false} LocksAreExact(lib: Lib, index: map<string, string>, required: seq<string>)
    ensures Locks(lib, index, required).Some? <==> forall i :: 0 <= i < |required| ==> required[i] in index
    ensures Locks(lib, index, required).Some? ==>
              var locks := Locks(lib, index, required).value;
              && |locks| == |required|
              && forall i :: 0 <= i < |required| ==>
                   locks[i] == Lock(required[i], lib.valueSha(index[required[i]]))
  {
    if required != [] {
      LocksAreExact(lib, index, required[..|required| - 1]);
    }
  }

  /** A snapshot locks exactly the required facts, in order, each at the value
      of the one ledger fact with that canonical id. */
  lemma SnapshotLocksRequiredFacts(lib: Lib, r: SnapshotRequest, ledgers: map<string, Ledger>, now: int)
    requires TakeSnapshot(lib, r, ledgers, now).Ok?
    ensures
      var shot := TakeSnapshot(lib, r, ledgers, now).value;
      && r.ledgerRef.objectId in ledgers
      && var ledger := ledgers[r.ledgerRef.objectId];
         && !ledger.allowsConflicts
         && shot.ledgerSha == lib.ledgerSha(ledger) == r.ledgerRef.objectSha256
         && |shot.locks| == |r.requiredFactIds|
         && forall i :: 0 <= i < |shot.locks| ==>
              && shot.locks[i].factId == r.requiredFactIds[i]
              && exists j: nat :: FactAt(lib, ledger.facts, shot.locks[i].factId, j)
                          && shot.locks[i].valueSha == lib.valueSha(ledger.facts[j].value)
                          && forall k: nat :: FactAt(lib, ledger.facts, shot.locks[i].factId, k) ==> k == j
  {
    var ledger := ledgers[r.ledgerRef.objectId];
    var index := FactIndex(lib, ledger.facts).value;
    FactIndexIsExact(lib, ledger.facts);
    LocksAreExact(lib, index, r.requiredFactIds);
    var shot := TakeSnapshot(lib, r, ledgers, now).value;
    forall i | 0 <= i < |shot.locks|
      ensures exists j: nat :: FactAt(lib, ledger.facts, shot.locks[i].factId, j)
                       && shot.locks[i].valueSha == lib.valueSha(ledger.facts[j].value)
                       && forall k: nat :: FactAt(lib, ledger.facts, shot.locks[i].factId, k) ==> k == j
    {
      var j: nat :| FactAt(lib, ledger.facts, shot.locks[i].factId, j);
    }
  }

  /** Call `i` of a run issued the snapshot that `ref` names. */
  ghost predicate IssuedAt(lib: Lib, calls: seq<Call>, i: nat, ref: Ref, material: SnapshotMaterial)
  {
    && i < |calls| && calls[i].SnapshotCall?
    && var taken := TakeSnapshot(lib, calls[i].sr, calls[i].ledgers, calls[i].now);
       && taken.Ok?
       && lib.snapshotRef(taken.value) == ref
       && material == SnapshotMaterial(taken.value.ledgerRef, taken.value.ledgerSha)
  }

  lemma {:induction false} IssuedSnapshotHasCall(lib: Lib, calls: seq<Call>, ref: Ref) returns (i: nat)
    requires ref in Run(lib, calls).issued
    ensures IssuedAt(lib, calls, i, ref, Run(lib, calls).issued[ref])
  {
    var n := |calls| - 1;
    var s := Run(lib, calls[..n]);
    if ref in s.issued && Run(lib, calls).issued[ref] == s.issued[ref] {
      i := IssuedSnapshotHasCall(lib, calls[..n], ref);
      assert calls[..n][i] == calls[i];
    } else {
      i := n;
    }
  }

  lemma ExecutionWriteRan(lib: Lib, s: State, c: Call, k: string)
    requires k !in s.executions && k in Step(lib, s, c).executions
    ensures !c.SnapshotCall? && c.r.key == k
    ensures exists limit :: Step(lib, s, c).executions[k]
                         == ExecutionEntry(c.r.sha, AttemptAt(lib, s.issued, c.r, c.w, limit).result)
  {
    if c.ExecuteCall? {
      assert Step(lib, s, c).executions[k] == ExecutionEntry(c.r.sha, AttemptAt(lib, s.issued, c.r, c.w, None).result);
    } else if !c.SnapshotCall? {
      var a := AttemptAt(lib, s.issued, c.r, c.w, Some(c.g.networkLimit));
      ResourcePlanRanItself(lib, s, c.r, c.g, a, c.w);
      if c.ControlCall? {
        ControlsPassEntriesOn(lib, s, c.r, c.g, c.d, c.mg, a, c.w);
      }
      assert Step(lib, s, c).executions[k]
          == ExecutionEntry(c.r.sha, AttemptAt(lib, s.issued, c.r, c.w, Some(c.g.networkLimit)).result);
    }
  }

  lemma SuccessfulAttemptSawLedger(lib: Lib, issued: map<Ref, SnapshotMaterial>, r: Request, w: World,
                                   limit: Option<nat>)
    requires AttemptAt(lib, issued, r, w, limit).result.status == Success
    ensures SawLedger(lib, issued, r, w)
  {
  }

  /** The ledger still hashed to its snapshot-time value, before and after. */
  ghost predicate SawLedger(lib: Lib, issued: map<Ref, SnapshotMaterial>, r: Request, w: World)
  {
    && r.snapshotRef in issued
    && var material := issued[r.snapshotRef];
       && material.ledgerRef.objectId in w.ledgers
       && lib.ledgerSha(w.ledgers[material.ledgerRef.objectId]) == material.ledgerSha == lib.ledgerSha(w.ledgerAfter)
  }

  lemma ExecutionWriteSawLedger(lib: Lib, s: State, c: Call, k: string)
    requires k !in s.executions && k in Step(lib, s, c).executions
    requires Step(lib, s, c).executions[k].result.status == Success
    ensures !c.SnapshotCall? && c.r.key == k && Step(lib, s, c).executions[k].requestSha == c.r.sha
    ensures SawLedger(lib, s.issued, c.r, c.w)
  {
    ExecutionWriteRan(lib, s, c, k);
    var limit :| Step(lib, s, c).executions[k]
              == ExecutionEntry(c.r.sha, AttemptAt(lib, s.issued, c.r, c.w, limit).result);
    SuccessfulAttemptSawLedger(lib, s.issued, c.r, c.w, limit);
  }

  ghost predicate ProviderDelivers(r: Request, w: World)
  {
    && w.known && (r.routeVersion.Some? ==> r.routeVersion.value == w.implementation)
    && w.material == Resolved(r.artifactId, r.relativePath)
    && w.provider == ProviderReturns(r.artifactId, true)
  }

  /** The whole stream stays within the network limit and ends in a finish. */
  ghost predicate RuntimeDelivers(lib: Lib, r: Request, w: World, limit: nat)
  {
    && w.known && w.material.Resolved? && w.material.artifactId == r.artifactId
    && !w.raises && NetworkStarts(lib.fold, w.events) <= limit
    && lib.telemetryOf(w.events).Some?
    && w.events != [] && w.events[|w.events| - 1].eventType == RuntimeFinished
  }

  /** A result for this request: the output found in the world, or a failure. */
  ghost predicate WellMade(r: Request, w: World, result: Result)
  {
    && result.requestRef == RequestRef(r) && result.snapshotRef == r.snapshotRef
    && (result.retryable <==> result.status == RetryableFailure)
    && (if result.status == Success then result.outputSha == Some(w.output.digest) && result.failure.None?
        else result.outputSha.None? && result.failure.Some?)
  }

  lemma ProviderSucceedsIff(r: Request, w: World)
    ensures ProviderAttempt(r, w).status == Success
       <==> ProviderDelivers(r, w) && w.output.insideStaging && w.output.present
    ensures WellMade(r, w, ProviderAttempt(r, w))
  {
  }

  lemma StreamResultIsWellMade(lib: Lib, r: Request, w: World, m: Meter)
    requires m.consumed <= |w.events|
    ensures WellMade(r, w, StreamResult(lib, r, w, m))
  {
  }

  lemma StreamSucceedsIff(lib: Lib, r: Request, w: World, limit: nat)
    ensures StreamResult(lib, r, w, Metered(lib.fold, w.events, Some(limit))).status == Success
       <==> && !w.raises && NetworkStarts(lib.fold, w.events) <= limit
            && lib.telemetryOf(w.events).Some?
            && w.events != [] && w.events[|w.events| - 1].eventType == RuntimeFinished
            && w.output.insideStaging && w.output.present
  {
    ConsumptionStopsAtFirstOverrun(lib.fold, w.events, limit);
    var n := Consumed(lib.fold, w.events, Some(limit));
    if n == |w.events| { assert w.events[..n] == w.events; }
  }

  lemma RuntimeSucceedsIff(lib: Lib, r: Request, w: World, limit: nat)
    ensures RuntimeAttempt(lib, r, w, Some(limit)).result.status == Success
       <==> RuntimeDelivers(lib, r, w, limit) && w.output.insideStaging && w.output.present
    ensures WellMade(r, w, RuntimeAttempt(lib, r, w, Some(limit)).result)
  {
    StreamResultIsWellMade(lib, r, w, Metered(lib.fold, w.events, Some(limit)));
    StreamSucceedsIff(lib, r, w, limit);
  }

  /** When a metered attempt succeeds, said of the world alone; and then its result
      names the output found there, for this request. */
  lemma AttemptSucceedsIff(lib: Lib, issued: map<Ref, SnapshotMaterial>, r: Request, w: World, limit: nat)
    ensures AttemptAt(lib, issued, r, w, Some(limit)).result.status == Success
       <==> && SawLedger(lib, issued, r, w)
            && w.output.insideStaging && w.output.present
            && if r.route == ProviderRoute then ProviderDelivers(r, w) else RuntimeDelivers(lib, r, w, limit)
    ensures WellMade(r, w, AttemptAt(lib, issued, r, w, Some(limit)).result)
  {
    ProviderSucceedsIff(r, w);
    RuntimeSucceedsIff(lib, r, w, limit);
    var a := if r.route == ProviderRoute then Attempt(ProviderAttempt(r, w), NOTHING)
             else RuntimeAttempt(lib, r, w, Some(limit));
    assert WellMade(r, w, a.result);
  }

  /** A cached success was produced by some call against a snapshot that an
      earlier call of this run issued, with the ledger at the value the snapshot
      saw and the worker's copy left as it was. */
  lemma SuccessHadCurrentSnapshot(lib: Lib, calls: seq<Call>, k: string) returns (i: nat, j: nat)
    requires k in Run(lib, calls).executions && Run(lib, calls).executions[k].result.status == Success
    requires forall a, b :: lib.ledgerSha(a) == lib.ledgerSha(b) ==> a == b
    ensures i < j < |calls| && calls[i].SnapshotCall? && !calls[j].SnapshotCall?
    ensures calls[j].r.key == k && Run(lib, calls).executions[k].requestSha == calls[j].r.sha
    ensures
      var taken := TakeSnapshot(lib, calls[i].sr, calls[i].ledgers, calls[i].now);
      && taken.Ok? && lib.snapshotRef(taken.value) == calls[j].r.snapshotRef
      && var id := calls[i].sr.ledgerRef.objectId;
         && id in calls[i].ledgers && id in calls[j].w.ledgers
         && calls[j].w.ledgers[id] == calls[i].ledgers[id]
         && calls[j].w.ledgerAfter == calls[j].w.ledgers[id]
  {
    j := Writer(lib, calls, ExecutionTier, k);
    ExecutionWriteSawLedger(lib, Before(lib, calls, j), calls[j], k);
    i := IssuedSnapshotHasCall(lib, calls[..j], calls[j].r.snapshotRef);
    assert calls[..j][i] == calls[i];
  }
}
