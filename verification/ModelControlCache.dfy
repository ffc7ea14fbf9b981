/** The answers the model-control facade remembers, over every interleaving of its
    coroutines: where each receipt comes from, and when it is final. */
module ModelControlCache {
  import opened Prelude
  import opened ModelControlTypes
  import opened ModelControl
  import opened ModelControlProtocol

  // ------------------------------------------------------ where receipts come from

  /** The frame of a call that is let through. */
  function FrameOf(step: Step): Frame
    requires step.Generate?
  {
    Frame(step.d.idempotencyKey,
          RequestKey(step.d.ref.objectSha256, step.g.ref.objectSha256, step.resultRef), step.d.ref, step.g)
  }

  /** Some call of the run, bound to its descriptor, had this frame. */
  ghost predicate Requested(steps: seq<Step>, f: Frame)
  {
    exists i :: 0 <= i < |steps| && steps[i].Generate? && steps[i].g.Binds(steps[i].d) && FrameOf(steps[i]) == f
  }

  function Unavailable(f: Frame, now: int): CacheEntry
  {
    CacheEntry(f.requestKey, None,
               Receipt(f.descriptorRef, f.grant.ref, BlockedCapability, None, ZERO_USAGE, "MODEL_PROFILE_UNAVAILABLE",
                       now))
  }

  ghost predicate Concludes(f: Frame, e: CacheEntry)
  {
    var now := e.receipt.completedAt;
    e == Unavailable(f, now) || exists ending :: Conclude(f, ending, now) == Some(e)
  }

  ghost predicate Explained(steps: seq<Step>, k: string, e: CacheEntry)
  {
    exists f :: Requested(steps, f) && f.idempotencyKey == k && Concludes(f, e)
  }

  ghost predicate AllExplained(steps: seq<Step>, calls: map<nat, Frame>, cache: map<string, CacheEntry>)
  {
    && (forall t :: t in calls ==> Requested(steps, calls[t]))
    && (forall k :: k in cache ==> Explained(steps, k, cache[k]))
  }

  lemma RequestedInPrefix(steps: seq<Step>, n: nat, f: Frame)
    requires n <= |steps| && Requested(steps[..n], f)
    ensures Requested(steps, f)
  {
    var i :| 0 <= i < n && steps[..n][i].Generate? && steps[..n][i].g.Binds(steps[..n][i].d)
          && FrameOf(steps[..n][i]) == f;
    assert steps[i] == steps[..n][i];
  }

  lemma ExplainedInPrefix(steps: seq<Step>, n: nat, calls: map<nat, Frame>, cache: map<string, CacheEntry>)
    requires n <= |steps| && AllExplained(steps[..n], calls, cache)
    ensures AllExplained(steps, calls, cache)
  {
    forall t | t in calls ensures Requested(steps, calls[t]) { RequestedInPrefix(steps, n, calls[t]); }
    forall k | k in cache ensures Explained(steps, k, cache[k]) {
      var f :| Requested(steps[..n], f) && f.idempotencyKey == k && Concludes(f, cache[k]);
      RequestedInPrefix(steps, n, f);
    }
  }

  lemma CallStaysExplained(steps: seq<Step>, calls: map<nat, Frame>, cache: map<string, CacheEntry>, f: Frame,
                           task: nat)
    requires AllExplained(steps, calls, cache) && Requested(steps, f)
    ensures AllExplained(steps, calls[task := f], cache)
  {
  }

  lemma EntryStaysExplained(steps: seq<Step>, calls: map<nat, Frame>, cache: map<string, CacheEntry>, f: Frame,
                            e: CacheEntry)
    requires AllExplained(steps, calls, cache) && Requested(steps, f) && Concludes(f, e)
    ensures AllExplained(steps, calls, cache[f.idempotencyKey := e])
  {
    assert Explained(steps, f.idempotencyKey, e);
  }

  /** What making a call does to the waiting calls and the cache. */
  lemma GenerateEffect(s: State, step: Step)
    requires step.Generate?
    ensures
      var t, f, k := Next(s, step), FrameOf(step), step.d.idempotencyKey;
      || (t.calls == s.calls && t.registry.cache == s.registry.cache)
      || (&& step.g.Binds(step.d) && k !in s.registry.cache
          && t.calls == s.calls && t.registry.cache == s.registry.cache[k := Unavailable(f, step.now)])
      || (&& step.g.Binds(step.d) && k !in s.registry.cache
          && t.calls == s.calls[step.task := f] && t.registry.cache == s.registry.cache)
  {
  }

  /** And what the end of its task does. */
  lemma ResumeEffect(s: State, task: nat, now: int)
    ensures
      var t := Next(s, GenerateResumes(task, now));
      || (t.calls == s.calls && t.registry.cache == s.registry.cache)
      || (&& task in s.calls && task in s.tasks && s.tasks[task].Some? && t.calls == s.calls - {task}
          && var f, entry := s.calls[task], Conclude(s.calls[task], s.tasks[task].value, now);
             t.registry.cache == if entry.Some? then s.registry.cache[f.idempotencyKey := entry.value]
                                 else s.registry.cache)
  {
  }

  lemma OtherStepsEffect(s: State, step: Step)
    requires !step.Generate? && !step.GenerateResumes?
    ensures Next(s, step).calls == s.calls && Next(s, step).registry.cache == s.registry.cache
  {
  }

  lemma GenerateStaysExplained(steps: seq<Step>, s: State)
    requires steps != [] && steps[|steps| - 1].Generate? && AllExplained(steps, s.calls, s.registry.cache)
    ensures
      var t := Next(s, steps[|steps| - 1]);
      AllExplained(steps, t.calls, t.registry.cache)
  {
    var step := steps[|steps| - 1];
    GenerateEffect(s, step);
    if step.g.Binds(step.d) {
      assert Requested(steps, FrameOf(step));
      CallStaysExplained(steps, s.calls, s.registry.cache, FrameOf(step), step.task);
      EntryStaysExplained(steps, s.calls, s.registry.cache, FrameOf(step), Unavailable(FrameOf(step), step.now));
    }
  }

  lemma ResumeStaysExplained(steps: seq<Step>, s: State, task: nat, now: int)
    requires AllExplained(steps, s.calls, s.registry.cache)
    ensures
      var t := Next(s, GenerateResumes(task, now));
      AllExplained(steps, t.calls, t.registry.cache)
  {
    ResumeEffect(s, task, now);
    if task in s.calls && task in s.tasks && s.tasks[task].Some? {
      var entry := Conclude(s.calls[task], s.tasks[task].value, now);
      if entry.Some? {
        EntryStaysExplained(steps, s.calls - {task}, s.registry.cache, s.calls[task], entry.value);
      }
    }
  }

  lemma StepStaysExplained(steps: seq<Step>, s: State)
    requires steps != [] && AllExplained(steps, s.calls, s.registry.cache)
    ensures
      var t := Next(s, steps[|steps| - 1]);
      AllExplained(steps, t.calls, t.registry.cache)
  {
    var step := steps[|steps| - 1];
    if step.Generate? {
      GenerateStaysExplained(steps, s);
    } else if step.GenerateResumes? {
      ResumeStaysExplained(steps, s, step.task, step.now);
    } else {
      OtherStepsEffect(s, step);
    }
  }

  lemma {:induction false} EveryReceiptIsExplained(steps: seq<Step>)
    ensures AllExplained(steps, Run(steps).calls, Run(steps).registry.cache)
  {
    if steps != [] {
      var n := |steps| - 1;
      var s := Run(steps[..n]);
      EveryReceiptIsExplained(steps[..n]);
      ExplainedInPrefix(steps, n, s.calls, s.registry.cache);
      StepStaysExplained(steps, s);
    }
  }

  ghost predicate WithinLimits(g: ModelGrant, u: ModelUsage)
  {
    u.requests <= g.requestAllowance && u.chargedTokens <= g.tokenAllowance && u.outputTokens <= g.outputTokenLimit
  }

  /** What a remembered answer says of the call behind it. */
  ghost predicate HonestAnswer(f: Frame, e: CacheEntry)
  {
    var r := e.receipt;
    && e.requestKey == f.requestKey && r.descriptorRef == f.descriptorRef && r.grantRef == f.grant.ref
    && (e.output.Some? <==> r.outcome == Succeeded)
    && (r.resultRef == if r.outcome == Succeeded then Some(f.requestKey.resultRef) else None)
    && (r.outcome == Succeeded ==> r.usage.requests == 1 && WithinLimits(f.grant, r.usage))
    && (!WithinLimits(f.grant, r.usage) ==> r.outcome == BlockedPolicy)
    && (r.outcome == Failed ==> FailedEntry(f, e))
    && (r.outcome in {Backpressured, BlockedCapability} ==> r.usage == ZERO_USAGE)
  }

  lemma ConclusionsAreHonest(f: Frame, e: CacheEntry)
    requires Concludes(f, e)
    ensures HonestAnswer(f, e)
  {
    var now := e.receipt.completedAt;
    if e != Unavailable(f, now) {
      var ending :| Conclude(f, ending, now) == Some(e);
      DirectReceiptIsHonest(f, ending, now);
      EndedCallLeaves(f, ending, now);
    }
  }

  /** In every interleaving, a remembered receipt goes back to a call under the
      same key and names its descriptor and grant; it comes with an output and a
      result reference exactly when it succeeded, and then its one request is
      within that grant; usage over any limit is a policy block; a failed call is
      charged the full allowance. */
  lemma EveryDirectReceiptIsHonest(steps: seq<Step>, k: string) returns (f: Frame)
    requires k in Run(steps).registry.cache
    ensures Requested(steps, f) && f.idempotencyKey == k
    ensures HonestAnswer(f, Run(steps).registry.cache[k])
  {
    EveryReceiptIsExplained(steps);
    f :| Requested(steps, f) && f.idempotencyKey == k && Concludes(f, Run(steps).registry.cache[k]);
    ConclusionsAreHonest(f, Run(steps).registry.cache[k]);
  }

  // ---------------------------------------------------------- when they are final

  /** No call is made under a key while another call under it still waits. */
  ghost predicate CallsDoNotOverlap(steps: seq<Step>)
  {
    forall n, t :: 0 <= n < |steps| && steps[n].Generate? && t in Run(steps[..n]).calls ==>
      Run(steps[..n]).calls[t].idempotencyKey != steps[n].d.idempotencyKey
  }

  /** Nobody waits under an answered key, or twice under one key. */
  ghost predicate CallsUnanswered(calls: map<nat, Frame>, cache: map<string, CacheEntry>)
  {
    && (forall t :: t in calls ==> calls[t].idempotencyKey !in cache)
    && (forall t, u :: t in calls && u in calls && t != u ==> calls[t].idempotencyKey != calls[u].idempotencyKey)
  }

  ghost predicate CacheKept(older: map<string, CacheEntry>, newer: map<string, CacheEntry>)
  {
    forall k :: k in older ==> k in newer && newer[k] == older[k]
  }

  lemma StepKeepsCache(s: State, step: Step)
    requires CallsUnanswered(s.calls, s.registry.cache)
    requires step.Generate? ==>
               forall t :: t in s.calls ==> s.calls[t].idempotencyKey != step.d.idempotencyKey
    ensures CallsUnanswered(Next(s, step).calls, Next(s, step).registry.cache)
    ensures CacheKept(s.registry.cache, Next(s, step).registry.cache)
  {
    if step.Generate? {
      GenerateEffect(s, step);
    } else if step.GenerateResumes? {
      ResumeEffect(s, step.task, step.now);
      if step.task in s.calls { CallLeaves(s.calls, s.registry.cache, step.task); }
    } else {
      OtherStepsEffect(s, step);
    }
  }

  lemma CallLeaves(calls: map<nat, Frame>, cache: map<string, CacheEntry>, task: nat)
    requires CallsUnanswered(calls, cache) && task in calls
    ensures CallsUnanswered(calls - {task}, cache)
    ensures forall t :: t in calls - {task} ==> calls[t].idempotencyKey != calls[task].idempotencyKey
  {
  }

  lemma {:induction false} CallsStayUnanswered(steps: seq<Step>)
    requires CallsDoNotOverlap(steps)
    ensures CallsUnanswered(Run(steps).calls, Run(steps).registry.cache)
  {
    if steps != [] {
      var n := |steps| - 1;
      var front := steps[..n];
      assert forall m :: 0 <= m < n ==> front[..m] == steps[..m] && front[m] == steps[m];
      CallsStayUnanswered(front);
      StepKeepsCache(Run(front), steps[n]);
    }
  }

  /** Without overlap a remembered answer never changes. */
  lemma {:induction false} CacheIsWriteOnce(steps: seq<Step>, n: nat)
    requires CallsDoNotOverlap(steps) && n <= |steps|
    ensures CacheKept(Run(steps[..n]).registry.cache, Run(steps).registry.cache)
    decreases |steps|
  {
    if n < |steps| {
      var last := |steps| - 1;
      var front := steps[..last];
      assert forall m :: 0 <= m <= last ==> front[..m] == steps[..m];
      assert forall m :: 0 <= m < last ==> front[m] == steps[m];
      CacheIsWriteOnce(front, n);
      CallsStayUnanswered(front);
      StepKeepsCache(Run(front), steps[last]);
    } else {
      assert steps[..n] == steps;
    }
  }

  /** The checks a call has to pass before the cache is asked. */
  predicate Admissible(d: Descriptor, g: ModelGrant)
  {
    d.genuine && g.genuine && g.Binds(d) && d.mode == DirectRequest
  }

  /** A repeated call is answered with the first output and receipt, without a
      task; a different call under the same key is refused. */
  lemma RepeatedCallReplays(steps: seq<Step>, n: nat, again: Step)
    requires CallsDoNotOverlap(steps) && n <= |steps| && again.Generate?
    requires again.d.idempotencyKey in Run(steps[..n]).registry.cache
    ensures
      var first := Run(steps[..n]).registry.cache[again.d.idempotencyKey];
      BeginGenerate(Run(steps).registry, again.d, again.g, again.resultRef, again.clientKnown, again.task,
                    again.now)
      == BeginStep(Run(steps).registry,
                   if Admissible(again.d, again.g) && FrameOf(again).requestKey == first.requestKey
                   then Answered(first.output, first.receipt) else Refused)
  {
    CacheIsWriteOnce(steps, n);
  }

  // ------------------------------------------------------------- with overlapping calls

  /** A call under an answered key resumes with another entry than the cached one. */
  predicate Replaces(s: State, step: Step, k: string)
  {
    && step.GenerateResumes? && step.task in s.calls && step.task in s.tasks && s.tasks[step.task].Some?
    && s.calls[step.task].idempotencyKey == k && k in s.registry.cache
    && var entry := Conclude(s.calls[step.task], s.tasks[step.task].value, step.now);
       entry.Some? && entry.value != s.registry.cache[k]
  }

  /** The exact step at which a remembered answer changes. */
  lemma CachedAnswerChangesIff(s: State, step: Step, k: string)
    requires k in s.registry.cache
    ensures
      var t := Next(s, step);
      && k in t.registry.cache
      && (t.registry.cache[k] != s.registry.cache[k] <==> Replaces(s, step, k))
  {
    if step.Generate? {
      GenerateEffect(s, step);
    } else if !step.GenerateResumes? {
      OtherStepsEffect(s, step);
    }
  }

  ghost predicate KeepsCacheAt(steps: seq<Step>, n: nat)
    requires n < |steps|
  {
    CacheKept(Run(steps[..n]).registry.cache, Run(steps[..n + 1]).registry.cache)
  }

  ghost predicate ReplacesAt(steps: seq<Step>, n: nat)
    requires n < |steps|
  {
    exists k :: Replaces(Run(steps[..n]), steps[n], k)
  }

  lemma CacheStep(steps: seq<Step>, n: nat)
    requires n < |steps|
    ensures KeepsCacheAt(steps, n) <==> !ReplacesAt(steps, n)
  {
    assert steps[..n + 1][..n] == steps[..n];
    var s, step := Run(steps[..n]), steps[n];
    forall k | k in s.registry.cache
      ensures k in Next(s, step).registry.cache
      ensures Next(s, step).registry.cache[k] != s.registry.cache[k] <==> Replaces(s, step, k)
    {
      CachedAnswerChangesIff(s, step, k);
    }
    if ReplacesAt(steps, n) {
      var k :| Replaces(s, step, k);
      assert k in s.registry.cache;
    }
  }

  lemma {:induction false} CacheKeptFrom(steps: seq<Step>, m: nat, n: nat)
    requires m <= n <= |steps| && forall k :: 0 <= k < |steps| ==> KeepsCacheAt(steps, k)
    ensures CacheKept(Run(steps[..m]).registry.cache, Run(steps[..n]).registry.cache)
    decreases n - m
  {
    if m < n {
      CacheKeptFrom(steps, m, n - 1);
      assert KeepsCacheAt(steps, n - 1);
    }
  }

  ghost predicate CacheFinal(steps: seq<Step>)
  {
    forall m, n :: 0 <= m <= n <= |steps| ==> CacheKept(Run(steps[..m]).registry.cache, Run(steps[..n]).registry.cache)
  }

  /** Over every run: remembered answers are final if and only if no resuming call
      replaces one. */
  lemma CacheFinalIff(steps: seq<Step>)
    ensures CacheFinal(steps) <==> forall n :: 0 <= n < |steps| ==> !ReplacesAt(steps, n)
  {
    forall n | 0 <= n < |steps| ensures KeepsCacheAt(steps, n) <==> !ReplacesAt(steps, n) {
      CacheStep(steps, n);
    }
    if forall n :: 0 <= n < |steps| ==> !ReplacesAt(steps, n) {
      forall m, n | 0 <= m <= n <= |steps|
        ensures CacheKept(Run(steps[..m]).registry.cache, Run(steps[..n]).registry.cache)
      {
        CacheKeptFrom(steps, m, n);
      }
    } else {
      var n :| 0 <= n < |steps| && ReplacesAt(steps, n);
      assert !KeepsCacheAt(steps, n);
    }
  }

  /** Two calls under one key, both waiting for their tasks. */
  function TwoCalls(d: Descriptor, g: ModelGrant, ref: Ref, now: int): seq<Step>
  {
    [Generate(d, g, ref, true, 0, now)] + [Generate(d, g, ref, true, 1, now)]
  }

  lemma TwoCallsWait(d: Descriptor, g: ModelGrant, ref: Ref, now: int)
    requires Admissible(d, g)
    ensures
      var s, f := Run(TwoCalls(d, g, ref, now)), FrameOf(Generate(d, g, ref, true, 0, now));
      s.calls == map[0 := f, 1 := f] && s.tasks == map[0 := None, 1 := None] && s.registry.cache == map[]
  {
    RunOneMore([], Generate(d, g, ref, true, 0, now));
    assert [] + [Generate(d, g, ref, true, 0, now)] == [Generate(d, g, ref, true, 0, now)];
    RunOneMore([Generate(d, g, ref, true, 0, now)], Generate(d, g, ref, true, 1, now));
  }

  lemma EmptyUsageIsFree()
    ensures NormalizeUsage(map[]) == Some(ModelUsage(1, 0, 0, 0, 0, 0, Reported))
  {
  }

  /** The first of the two has been answered with its output. */
  function FirstAnswered(d: Descriptor, g: ModelGrant, ref: Ref, output: string, now: int): seq<Step>
  {
    TwoCalls(d, g, ref, now) + [TaskEnds(0, Returned(output, map[]))] + [GenerateResumes(0, now)]
  }

  lemma FirstIsAnswered(d: Descriptor, g: ModelGrant, ref: Ref, output: string, now: int)
    requires Admissible(d, g) && g.Admits(ModelUsage(1, 0, 0, 0, 0, 0, Reported))
    ensures
      var s, k := Run(FirstAnswered(d, g, ref, output, now)), d.idempotencyKey;
      && s.calls == map[1 := FrameOf(Generate(d, g, ref, true, 0, now))] && 1 in s.tasks && s.tasks[1] == None
      && k in s.registry.cache && s.registry.cache[k].receipt.outcome == Succeeded
  {
    var two, b := TwoCalls(d, g, ref, now), TaskEnds(0, Returned(output, map[]));
    TwoCallsWait(d, g, ref, now);
    EmptyUsageIsFree();
    RunOneMore(two, b);
    RunOneMore(two + [b], GenerateResumes(0, now));
  }

  /** A run that does it: of two overlapping calls the first is answered with its
      output, and then the second fails. */
  lemma OverlappingCallsReplaceAnswer(d: Descriptor, g: ModelGrant, ref: Ref, output: string, now: int)
    requires Admissible(d, g) && g.Admits(ModelUsage(1, 0, 0, 0, 0, 0, Reported))
    ensures
      var before, k := FirstAnswered(d, g, ref, output, now) + [TaskEnds(1, RaisedError)], d.idempotencyKey;
      && k in Run(before).registry.cache && Run(before).registry.cache[k].receipt.outcome == Succeeded
      && k in Run(before + [GenerateResumes(1, now)]).registry.cache
      && Run(before + [GenerateResumes(1, now)]).registry.cache[k].receipt.outcome == Failed
  {
    var first := FirstAnswered(d, g, ref, output, now);
    FirstIsAnswered(d, g, ref, output, now);
    RunOneMore(first, TaskEnds(1, RaisedError));
    RunOneMore(first + [TaskEnds(1, RaisedError)], GenerateResumes(1, now));
  }
}
