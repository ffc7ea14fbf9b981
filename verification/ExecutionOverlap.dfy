/** Calls of the execution facade that overlap. A call is cut where it waits for its
    worker: before that it reads the caches and decides what it will write, after that
    it writes, whatever the caches hold by then. */
module ExecutionOverlap {
  import opened Prelude
  import opened ModelControlTypes
  import opened Metering
  import opened Execution
  import opened ExecutionRuns

  /** The entries a call adds under its key. */
  datatype Entries = Entries(
    execution: Option<ExecutionEntry>, resource: Option<ResourceEntry>, model: Option<ModelEntry>)

  function EntriesOf<T>(p: Plan<T>): Entries { Entries(p.execution, p.resource, p.model) }

  function Writes(lib: Lib, s: State, c: Call): Entries
    requires !c.SnapshotCall?
  {
    match c
    case ExecuteCall(r, w) => EntriesOf(Execute(lib, s, r, w, None))
    case ResourceCall(r, g, w) => EntriesOf(ExecuteWithResources(lib, s, r, g, w))
    case ControlCall(r, g, d, mg, w) => EntriesOf(ExecuteWithControls(lib, s, r, g, d, mg, w))
  }

  function Write(s: State, key: string, e: Entries): State
  {
    s.(executions := Put(s.executions, key, e.execution),
       resources := Put(s.resources, key, e.resource),
       models := Put(s.models, key, e.model))
  }

  /** The worker is started, and the call waits for it. */
  predicate Starts(lib: Lib, issued: map<Ref, SnapshotMaterial>, r: Request, w: World)
  {
    && r.snapshotRef in issued
    && var material := issued[r.snapshotRef];
       && material.ledgerRef.objectId in w.ledgers
       && lib.ledgerSha(w.ledgers[material.ledgerRef.objectId]) == material.ledgerSha
       && w.known && w.material.Resolved? && w.material.artifactId == r.artifactId
       && (r.route == ProviderRoute ==>
             && w.material.relativePath == r.relativePath
             && (r.routeVersion.Some? ==> r.routeVersion.value == w.implementation))
  }

  predicate Suspends(lib: Lib, s: State, c: Call)
  {
    !c.SnapshotCall? && Writes(lib, s, c).execution.Some? && Starts(lib, s.issued, c.r, c.w)
  }

  datatype Waiting = Waiting(key: string, writes: Entries)

  /** The caches, and the calls that wait for their workers. */
  datatype Live = Live(caches: State, waiting: map<nat, Waiting>)

  datatype Move = Begin(id: nat, call: Call) | Resume(id: nat)

  function Next(lib: Lib, s: Live, m: Move): Live
  {
    match m
    case Begin(id, c) =>
      if id in s.waiting then s
      else if Suspends(lib, s.caches, c) then
        s.(waiting := s.waiting[id := Waiting(c.r.key, Writes(lib, s.caches, c))])
      else s.(caches := Step(lib, s.caches, c))
    case Resume(id) =>
      if id !in s.waiting then s
      else Live(Write(s.caches, s.waiting[id].key, s.waiting[id].writes), s.waiting - {id})
  }

  function Play(lib: Lib, s: Live, moves: seq<Move>): Live
  {
    if moves == [] then s else Next(lib, Play(lib, s, moves[..|moves| - 1]), moves[|moves| - 1])
  }

  function After(lib: Lib, moves: seq<Move>): Live { Play(lib, Live(INITIAL, map[]), moves) }

  // ----------------------------------------------------------- overwritten entries

  /** A call resumes with an entry other than the one its key has got meanwhile. */
  predicate Overwrites(s: Live, m: Move)
  {
    && m.Resume? && m.id in s.waiting
    && var k, e := s.waiting[m.id].key, s.waiting[m.id].writes;
       || (e.execution.Some? && k in s.caches.executions && s.caches.executions[k] != e.execution.value)
       || (e.resource.Some? && k in s.caches.resources && s.caches.resources[k] != e.resource.value)
       || (e.model.Some? && k in s.caches.models && s.caches.models[k] != e.model.value)
  }

  lemma PutKeepsIff<V>(cache: map<string, V>, k: string, e: Option<V>)
    ensures Keeps(cache, Put(cache, k, e)) <==> !(e.Some? && k in cache && cache[k] != e.value)
  {
  }

  /** The exact move at which a cached entry changes. */
  lemma MoveKeepsCachesIff(lib: Lib, s: Live, m: Move)
    ensures CachesKept(s.caches, Next(lib, s, m).caches) <==> !Overwrites(s, m)
  {
    match m
    case Begin(id, c) =>
      StepKeepsCaches(lib, s.caches, c);
    case Resume(id) =>
      if id in s.waiting {
        var k, e := s.waiting[id].key, s.waiting[id].writes;
        PutKeepsIff(s.caches.executions, k, e.execution);
        PutKeepsIff(s.caches.resources, k, e.resource);
        PutKeepsIff(s.caches.models, k, e.model);
      }
  }

  ghost predicate KeepsAt(lib: Lib, moves: seq<Move>, n: nat)
    requires n < |moves|
  {
    CachesKept(After(lib, moves[..n]).caches, After(lib, moves[..n + 1]).caches)
  }

  ghost predicate OverwritesAt(lib: Lib, moves: seq<Move>, n: nat)
    requires n < |moves|
  {
    Overwrites(After(lib, moves[..n]), moves[n])
  }

  lemma KeepsAtIff(lib: Lib, moves: seq<Move>, n: nat)
    requires n < |moves|
    ensures KeepsAt(lib, moves, n) <==> !OverwritesAt(lib, moves, n)
  {
    assert moves[..n + 1][..n] == moves[..n];
    MoveKeepsCachesIff(lib, After(lib, moves[..n]), moves[n]);
  }

  lemma {:induction false} KeptFrom(lib: Lib, moves: seq<Move>, m: nat, n: nat)
    requires m <= n <= |moves| && forall k :: 0 <= k < |moves| ==> KeepsAt(lib, moves, k)
    ensures CachesKept(After(lib, moves[..m]).caches, After(lib, moves[..n]).caches)
    decreases n - m
  {
    if m < n {
      KeptFrom(lib, moves, m, n - 1);
      assert KeepsAt(lib, moves, n - 1);
    }
  }

  /** Cached entries are final at every point of a run. */
  ghost predicate CachesFinal(lib: Lib, moves: seq<Move>)
  {
    forall m, n :: 0 <= m <= n <= |moves| ==> CachesKept(After(lib, moves[..m]).caches, After(lib, moves[..n]).caches)
  }

  /** Over every interleaving: the caches are write-once if and only if no resuming
      call overwrites an entry. */
  lemma CachesFinalIff(lib: Lib, moves: seq<Move>)
    ensures CachesFinal(lib, moves) <==> forall n :: 0 <= n < |moves| ==> !OverwritesAt(lib, moves, n)
  {
    forall n | 0 <= n < |moves| ensures KeepsAt(lib, moves, n) <==> !OverwritesAt(lib, moves, n) {
      KeepsAtIff(lib, moves, n);
    }
    if forall n :: 0 <= n < |moves| ==> !OverwritesAt(lib, moves, n) {
      forall m, n | 0 <= m <= n <= |moves|
        ensures CachesKept(After(lib, moves[..m]).caches, After(lib, moves[..n]).caches)
      {
        KeptFrom(lib, moves, m, n);
      }
    } else {
      var n :| 0 <= n < |moves| && OverwritesAt(lib, moves, n);
      assert !KeepsAt(lib, moves, n);
    }
  }

  // --------------------------------------------- without overlap: one call at a time

  ghost predicate Awaited(waiting: map<nat, Waiting>, k: string)
  {
    exists i :: i in waiting && waiting[i].key == k
  }

  /** No call begins under a key for which another call still waits. */
  ghost predicate NonOverlapping(lib: Lib, moves: seq<Move>)
  {
    forall n :: 0 <= n < |moves| && moves[n].Begin? && !moves[n].call.SnapshotCall? ==>
      !Awaited(After(lib, moves[..n]).waiting, moves[n].call.r.key)
  }

  /** The calls that were begun, in order. */
  function Started(lib: Lib, moves: seq<Move>): seq<Call>
  {
    if moves == [] then []
    else
      var front, m := moves[..|moves| - 1], moves[|moves| - 1];
      Started(lib, front) + if m.Begin? && m.id !in After(lib, front).waiting then [m.call] else []
  }

  function At<V>(cache: map<string, V>, k: string): Option<V> { if k in cache then Some(cache[k]) else None }

  /** At key `k`, `q` is what `s` will be once the entries are written. */
  ghost predicate Becomes(s: State, q: State, k: string, e: Entries)
  {
    && At(q.executions, k) == (if e.execution.Some? then e.execution else At(s.executions, k))
    && At(q.resources, k) == (if e.resource.Some? then e.resource else At(s.resources, k))
    && At(q.models, k) == (if e.model.Some? then e.model else At(s.models, k))
  }

  const NO_ENTRIES := Entries(None, None, None)

  /** Entries that are still to be written have no predecessor. */
  ghost predicate Vacant(s: State, k: string, e: Entries)
  {
    && (e.execution.Some? ==> k !in s.executions)
    && (e.resource.Some? ==> k !in s.resources)
    && (e.model.Some? ==> k !in s.models)
  }

  /** The live facade is the sequential one, except that some entries are still to be
      written, each under a key of its own. */
  ghost predicate Ahead(s: Live, q: State)
  {
    && q.snapshots == s.caches.snapshots && q.issued == s.caches.issued
    && (forall i, j :: i in s.waiting && j in s.waiting && i != j ==> s.waiting[i].key != s.waiting[j].key)
    && (forall i :: i in s.waiting ==>
          && Becomes(s.caches, q, s.waiting[i].key, s.waiting[i].writes)
          && Vacant(s.caches, s.waiting[i].key, s.waiting[i].writes))
    && (forall k :: !Awaited(s.waiting, k) ==> Becomes(s.caches, q, k, NO_ENTRIES))
  }

  /** What a call writes depends on the caches only at its own key. */
  lemma WritesAreLocal(lib: Lib, s: State, q: State, c: Call)
    requires !c.SnapshotCall? && q.issued == s.issued && Becomes(s, q, c.r.key, NO_ENTRIES)
    ensures Writes(lib, q, c) == Writes(lib, s, c)
  {
    var k := c.r.key;
    assert (k in q.executions <==> k in s.executions) && (k in q.executions ==> q.executions[k] == s.executions[k]);
    assert (k in q.resources <==> k in s.resources) && (k in q.resources ==> q.resources[k] == s.resources[k]);
    assert (k in q.models <==> k in s.models) && (k in q.models ==> q.models[k] == s.models[k]);
  }

  lemma StepWrites(lib: Lib, s: State, c: Call)
    requires !c.SnapshotCall?
    ensures Step(lib, s, c) == Write(s, c.r.key, Writes(lib, s, c))
    ensures Vacant(s, c.r.key, Writes(lib, s, c))
  {
    match c
    case ExecuteCall(r, w) =>
    case ResourceCall(r, g, w) =>
      ResourcesAddOnly(lib, s, r, g, AttemptAt(lib, s.issued, r, w, Some(g.networkLimit)), w);
    case ControlCall(r, g, d, mg, w) =>
      ControlsAddOnly(lib, s, r, g, d, mg, AttemptAt(lib, s.issued, r, w, Some(g.networkLimit)), w);
  }

  lemma PutAt<V>(cache: map<string, V>, k: string, e: Option<V>)
    ensures At(Put(cache, k, e), k) == if e.Some? then e else At(cache, k)
    ensures forall k' :: k' != k ==> At(Put(cache, k, e), k') == At(cache, k')
  {
  }

  lemma WriteAt(s: State, k: string, e: Entries)
    ensures Becomes(s, Write(s, k, e), k, e)
    ensures forall k' :: k' != k ==> Becomes(s, Write(s, k, e), k', NO_ENTRIES)
  {
    PutAt(s.executions, k, e.execution);
    PutAt(s.resources, k, e.resource);
    PutAt(s.models, k, e.model);
  }

  lemma WriteBecomes(s: State, q: State, k: string, e: Entries)
    requires Becomes(s, q, k, NO_ENTRIES)
    ensures Becomes(s, Write(q, k, e), k, e)
    ensures Becomes(Write(s, k, e), Write(q, k, e), k, NO_ENTRIES)
  {
    WriteAt(s, k, e);
    WriteAt(q, k, e);
  }

  lemma WriteIsLocal(s: State, q: State, k: string, e: Entries, k': string, e': Entries)
    requires k != k' && Becomes(s, q, k', e')
    ensures Becomes(s, Write(q, k, e), k', e') && Becomes(Write(s, k, e), q, k', e')
    ensures Becomes(Write(s, k, e), Write(q, k, e), k', e')
    ensures Vacant(s, k', e') ==> Vacant(Write(s, k, e), k', e')
  {
  }

  lemma WrittenBecomes(s: State, q: State, k: string, e: Entries)
    requires Becomes(s, q, k, e)
    ensures Becomes(Write(s, k, e), q, k, NO_ENTRIES)
  {
  }

  /** One more call waits, under a key for which none waited. */
  lemma WaitingStaysAhead(s: Live, q: State, id: nat, k: string, e: Entries)
    requires Ahead(s, q) && id !in s.waiting && !Awaited(s.waiting, k) && Vacant(s.caches, k, e)
    ensures Ahead(Live(s.caches, s.waiting[id := Waiting(k, e)]), Write(q, k, e))
  {
    var t := Live(s.caches, s.waiting[id := Waiting(k, e)]);
    WriteBecomes(s.caches, q, k, e);
    assert forall i :: i in s.waiting ==> s.waiting[i].key != k && i in t.waiting && t.waiting[i] == s.waiting[i];
    assert id in t.waiting && t.waiting[id].key == k;
    forall i | i in s.waiting ensures Becomes(s.caches, Write(q, k, e), s.waiting[i].key, s.waiting[i].writes) {
      WriteIsLocal(s.caches, q, k, e, s.waiting[i].key, s.waiting[i].writes);
    }
    forall k' | !Awaited(t.waiting, k') ensures Becomes(t.caches, Write(q, k, e), k', NO_ENTRIES) {
      WriteIsLocal(s.caches, q, k, e, k', NO_ENTRIES);
    }
  }

  lemma SuspendStaysAhead(lib: Lib, s: Live, q: State, id: nat, c: Call)
    requires Ahead(s, q) && id !in s.waiting && Suspends(lib, s.caches, c) && !Awaited(s.waiting, c.r.key)
    ensures Ahead(Next(lib, s, Begin(id, c)), Step(lib, q, c))
  {
    WritesAreLocal(lib, s.caches, q, c);
    StepWrites(lib, q, c);
    StepWrites(lib, s.caches, c);
    WaitingStaysAhead(s, q, id, c.r.key, Writes(lib, s.caches, c));
  }

  lemma AtOnceStaysAhead(lib: Lib, s: Live, q: State, id: nat, c: Call)
    requires Ahead(s, q) && id !in s.waiting && !c.SnapshotCall? && !Suspends(lib, s.caches, c)
    requires !Awaited(s.waiting, c.r.key)
    ensures Ahead(Next(lib, s, Begin(id, c)), Step(lib, q, c))
  {
    var k, e := c.r.key, Writes(lib, s.caches, c);
    WritesAreLocal(lib, s.caches, q, c);
    StepWrites(lib, q, c);
    StepWrites(lib, s.caches, c);
    WriteBecomes(s.caches, q, k, e);
    forall i | i in s.waiting
      ensures Becomes(Write(s.caches, k, e), Write(q, k, e), s.waiting[i].key, s.waiting[i].writes)
      ensures Vacant(Write(s.caches, k, e), s.waiting[i].key, s.waiting[i].writes)
    {
      WriteIsLocal(s.caches, q, k, e, s.waiting[i].key, s.waiting[i].writes);
    }
    forall k' | !Awaited(s.waiting, k') ensures Becomes(Write(s.caches, k, e), Write(q, k, e), k', NO_ENTRIES) {
      if k' != k { WriteIsLocal(s.caches, q, k, e, k', NO_ENTRIES); }
    }
  }

  /** Two states with the same snapshots in place of those they had. */
  lemma SnapshotsDoNotMatter(s: Live, q: State, snapshots: map<string, SnapshotEntry>,
                             issued: map<Ref, SnapshotMaterial>)
    requires Ahead(s, q)
    ensures Ahead(s.(caches := s.caches.(snapshots := snapshots, issued := issued)),
                  q.(snapshots := snapshots, issued := issued))
  {
    var t, p := s.caches.(snapshots := snapshots, issued := issued), q.(snapshots := snapshots, issued := issued);
    forall i | i in s.waiting
      ensures Becomes(t, p, s.waiting[i].key, s.waiting[i].writes) && Vacant(t, s.waiting[i].key, s.waiting[i].writes)
    {
      assert Becomes(s.caches, q, s.waiting[i].key, s.waiting[i].writes);
    }
    forall k | !Awaited(s.waiting, k) ensures Becomes(t, p, k, NO_ENTRIES) {
      assert Becomes(s.caches, q, k, NO_ENTRIES);
    }
  }

  lemma SnapshotsAlone(lib: Lib, s: State, q: State, c: Call)
    requires c.SnapshotCall? && q.snapshots == s.snapshots && q.issued == s.issued
    ensures
      var t := Step(lib, s, c);
      && t == s.(snapshots := t.snapshots, issued := t.issued)
      && Step(lib, q, c) == q.(snapshots := t.snapshots, issued := t.issued)
  {
  }

  lemma SnapshotStaysAhead(lib: Lib, s: Live, q: State, id: nat, c: Call)
    requires Ahead(s, q) && c.SnapshotCall? && id !in s.waiting
    ensures Ahead(Next(lib, s, Begin(id, c)), Step(lib, q, c))
  {
    SnapshotsAlone(lib, s.caches, q, c);
    var t := Step(lib, s.caches, c);
    SnapshotsDoNotMatter(s, q, t.snapshots, t.issued);
  }

  lemma ResumeStaysAhead(lib: Lib, s: Live, q: State, id: nat)
    requires Ahead(s, q) && id in s.waiting
    ensures Ahead(Next(lib, s, Resume(id)), q)
  {
    var k, e := s.waiting[id].key, s.waiting[id].writes;
    var t := Next(lib, s, Resume(id));
    WrittenBecomes(s.caches, q, k, e);
    forall i | i in t.waiting
      ensures Becomes(t.caches, q, t.waiting[i].key, t.waiting[i].writes)
      ensures Vacant(t.caches, t.waiting[i].key, t.waiting[i].writes)
    {
      WriteIsLocal(s.caches, q, k, e, s.waiting[i].key, s.waiting[i].writes);
    }
    forall k' | !Awaited(t.waiting, k') ensures Becomes(t.caches, q, k', NO_ENTRIES) {
      if k' != k {
        assert forall i :: i in s.waiting && i != id ==> i in t.waiting && t.waiting[i] == s.waiting[i];
        WriteIsLocal(s.caches, q, k, e, k', NO_ENTRIES);
      }
    }
  }

  lemma MoveStaysAhead(lib: Lib, s: Live, q: State, m: Move)
    requires Ahead(s, q)
    requires m.Begin? && !m.call.SnapshotCall? ==> !Awaited(s.waiting, m.call.r.key)
    ensures Ahead(Next(lib, s, m), if m.Begin? && m.id !in s.waiting then Step(lib, q, m.call) else q)
  {
    if m.Resume? {
      if m.id in s.waiting { ResumeStaysAhead(lib, s, q, m.id); }
    } else if m.id !in s.waiting {
      if m.call.SnapshotCall? {
        SnapshotStaysAhead(lib, s, q, m.id, m.call);
      } else if Suspends(lib, s.caches, m.call) {
        SuspendStaysAhead(lib, s, q, m.id, m.call);
      } else {
        AtOnceStaysAhead(lib, s, q, m.id, m.call);
      }
    }
  }

  lemma RunOneMore(lib: Lib, calls: seq<Call>, c: Call)
    ensures Run(lib, calls + [c]) == Step(lib, Run(lib, calls), c)
  {
    assert (calls + [c])[..|calls|] == calls;
  }

  /** Without overlap under one key, every interleaving is the sequential run of the
      same calls in the order in which they began, up to entries still to be written. */
  lemma {:induction false} InterleavingIsSequential(lib: Lib, moves: seq<Move>)
    requires NonOverlapping(lib, moves)
    ensures Ahead(After(lib, moves), Run(lib, Started(lib, moves)))
  {
    if moves != [] {
      var n := |moves| - 1;
      var front, m := moves[..n], moves[n];
      assert forall k :: 0 <= k < n ==> front[..k] == moves[..k] && front[k] == moves[k];
      InterleavingIsSequential(lib, front);
      MoveStaysAhead(lib, After(lib, front), Run(lib, Started(lib, front)), m);
      if m.Begin? && m.id !in After(lib, front).waiting {
        RunOneMore(lib, Started(lib, front), m.call);
      } else {
        assert Started(lib, moves) == Started(lib, front);
      }
    }
  }

  lemma SameEverywhere<V>(a: map<string, V>, b: map<string, V>)
    requires forall k :: At(a, k) == At(b, k)
    ensures a == b
  {
    forall k ensures k in a <==> k in b { assert At(a, k) == At(b, k); }
    forall k | k in a ensures a[k] == b[k] { assert At(a, k) == At(b, k); }
  }

  lemma NothingToWrite(s: State, q: State)
    requires q.snapshots == s.snapshots && q.issued == s.issued && forall k :: Becomes(s, q, k, NO_ENTRIES)
    ensures s == q
  {
    forall k ensures At(q.executions, k) == At(s.executions, k) { assert Becomes(s, q, k, NO_ENTRIES); }
    forall k ensures At(q.resources, k) == At(s.resources, k) { assert Becomes(s, q, k, NO_ENTRIES); }
    forall k ensures At(q.models, k) == At(s.models, k) { assert Becomes(s, q, k, NO_ENTRIES); }
    SameEverywhere(q.executions, s.executions);
    SameEverywhere(q.resources, s.resources);
    SameEverywhere(q.models, s.models);
  }

  /** Once nothing waits any more, the caches are exactly those of that sequential
      run, so everything proved of runs of whole calls holds of them. */
  lemma QuietInterleavingIsRun(lib: Lib, moves: seq<Move>)
    requires NonOverlapping(lib, moves) && After(lib, moves).waiting == map[]
    ensures After(lib, moves).caches == Run(lib, Started(lib, moves))
  {
    InterleavingIsSequential(lib, moves);
    var s, q := After(lib, moves), Run(lib, Started(lib, moves));
    forall k ensures Becomes(s.caches, q, k, NO_ENTRIES) { assert !Awaited(s.waiting, k); }
    NothingToWrite(s.caches, q);
  }

  /** And without overlap the caches are write-once at every point. */
  lemma NonOverlappingCachesAreFinal(lib: Lib, moves: seq<Move>)
    requires NonOverlapping(lib, moves)
    ensures CachesFinal(lib, moves)
  {
    forall n | 0 <= n < |moves| ensures !OverwritesAt(lib, moves, n) {
      assert NonOverlapping(lib, moves[..n]) by {
        assert forall k :: 0 <= k < n ==> moves[..n][..k] == moves[..k] && moves[..n][k] == moves[k];
      }
      InterleavingIsSequential(lib, moves[..n]);
    }
    CachesFinalIff(lib, moves);
  }

  // -------------------------------------------------------------- with overlap

  lemma PlayOneMore(lib: Lib, s: Live, moves: seq<Move>, m: Move)
    ensures Play(lib, s, moves + [m]) == Next(lib, Play(lib, s, moves), m)
  {
    assert (moves + [m])[..|moves|] == moves;
  }

  /** A metered call that succeeds and an unmetered call overlap under one key, in any
      state without entries for it; the unmetered one resumes last. Its result replaces
      the metered one in the execution cache, below the metered success. */
  lemma OverlapReplacesMeteredResult(lib: Lib, s: Live, r: Request, g: ResourceGrant, w: World, w': World)
    requires 0 !in s.waiting && 1 !in s.waiting && r.genuine && g.genuine && Refusal(lib, r, g).None?
    requires r.key !in s.caches.executions && r.key !in s.caches.resources
    requires Starts(lib, s.caches.issued, r, w) && Starts(lib, s.caches.issued, r, w')
    requires
      var a := AttemptAt(lib, s.caches.issued, r, w, Some(g.networkLimit));
      && a.result.status == Success && g.Admits(UsageOf(r, w.output.size, a.result, a.seen))
      && AttemptAt(lib, s.caches.issued, r, w', None).result != a.result
    ensures
      var before := [Begin(0, ResourceCall(r, g, w))] + [Begin(1, ExecuteCall(r, w'))] + [Resume(0)];
      var t, u := Play(lib, s, before).caches, Play(lib, s, before + [Resume(1)]).caches;
      && r.key in t.resources && t.resources[r.key].bounded.result.status == Success && ResourceAgrees(t, r.key)
      && r.key in u.resources && u.resources[r.key] == t.resources[r.key] && !ResourceAgrees(u, r.key)
  {
    var a, b := Begin(0, ResourceCall(r, g, w)), Begin(1, ExecuteCall(r, w'));
    PlayOneMore(lib, s, [], a);
    assert [] + [a] == [a];
    PlayOneMore(lib, s, [a], b);
    var two := Play(lib, s, [a] + [b]);
    MeteredWrites(lib, s.caches, r, g, w);
    assert two.caches == s.caches && 0 in two.waiting && 1 in two.waiting;
    assert two.waiting[0] == Waiting(r.key, Writes(lib, s.caches, ResourceCall(r, g, w)));
    assert two.waiting[1] == Waiting(r.key, Writes(lib, s.caches, ExecuteCall(r, w')));
    PlayOneMore(lib, s, [a] + [b], Resume(0));
    PlayOneMore(lib, s, [a] + [b] + [Resume(0)], Resume(1));
  }

  lemma MeteredWrites(lib: Lib, s: State, r: Request, g: ResourceGrant, w: World)
    requires r.genuine && g.genuine && Refusal(lib, r, g).None? && r.key !in s.executions && r.key !in s.resources
    ensures
      var a := AttemptAt(lib, s.issued, r, w, Some(g.networkLimit));
      var b := Bound(r, g, a.result, UsageOf(r, w.output.size, a.result, a.seen));
      Writes(lib, s, ResourceCall(r, g, w))
      == Entries(Some(ExecutionEntry(r.sha, a.result)), Some(ResourceEntry(r.sha, g.ref.objectSha256, b)), None)
  {
  }
}
