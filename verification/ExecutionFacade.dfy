/** The execution facade as an object: five dictionaries updated in place. Each
    method computes the plan that module Execution defines for it, and writes
    exactly the entries of that plan. */
module ExecutionFacade {
  import opened Prelude
  import opened ModelControlTypes
  import opened Metering
  import E = Execution
  import opened ExecutionRuns

  class AttachmentExecutionFacade {
    const lib: E.Lib
    var snapshots: map<string, E.SnapshotEntry>
    var issued: map<Ref, E.SnapshotMaterial>
    var executions: map<string, E.ExecutionEntry>
    var resources: map<string, E.ResourceEntry>
    var models: map<string, E.ModelEntry>

    ghost function View(): E.State
      reads this
    {
      E.State(snapshots, issued, executions, resources, models)
    }

    constructor (lib: E.Lib)
      ensures this.lib == lib && View() == E.INITIAL
    {
      this.lib := lib;
      snapshots, issued, executions, resources, models := map[], map[], map[], map[], map[];
    }

    /** Builds `facts_by_id`, giving up at a blank or repeated canonical key. */
    method IndexFacts(facts: seq<E.Fact>) returns (index: Option<map<string, string>>)
      ensures index == E.FactIndex(lib, facts)
    {
      var byId: map<string, string> := map[];
      for i := 0 to |facts|
        invariant E.FactIndex(lib, facts[..i]) == Some(byId)
      {
        assert facts[..i + 1][..i] == facts[..i];
        var id := lib.factId(facts[i].key);
        if id.None? || id.value in byId {
          FactIndexFails(lib, facts, i + 1);
          return None;
        }
        byId := byId[id.value := facts[i].value];
      }
      assert facts[..|facts|] == facts;
      index := Some(byId);
    }

    method LockFacts(index: map<string, string>, required: seq<string>) returns (locks: Option<seq<E.Lock>>)
      ensures locks == E.Locks(lib, index, required)
    {
      var held: seq<E.Lock> := [];
      for i := 0 to |required|
        invariant E.Locks(lib, index, required[..i]) == Some(held)
      {
        assert required[..i + 1][..i] == required[..i];
        if required[i] !in index {
          LocksAreExact(lib, index, required);
          return None;
        }
        held := held + [E.Lock(required[i], lib.valueSha(index[required[i]]))];
      }
      assert required[..|required|] == required;
      locks := Some(held);
    }

    method SnapshotWorld(r: E.SnapshotRequest, ledgers: map<string, E.Ledger>, now: int)
      returns (reply: E.Reply<E.Snapshot>)
      modifies this
      ensures View() == E.SnapshotWorld(lib, old(View()), r, ledgers, now).state
      ensures reply == E.SnapshotWorld(lib, old(View()), r, ledgers, now).reply
    {
      if !r.genuine { return E.Raised(E.StaleIdentity); }
      if r.key in snapshots {
        if snapshots[r.key].requestSha != r.ref.objectSha256 { return E.Raised(E.IdempotencyConflict); }
        return E.Ok(snapshots[r.key].snapshot);
      }
      if r.ledgerRef.objectId !in ledgers { return E.Raised(E.LedgerMissing); }
      var ledger := ledgers[r.ledgerRef.objectId];
      if ledger.allowsConflicts { return E.Raised(E.LedgerConflictsAllowed); }
      if r.ledgerRef.objectSha256 != lib.ledgerSha(ledger) { return E.Raised(E.LedgerMismatch); }
      var index := IndexFacts(ledger.facts);
      if index.None? { return E.Raised(E.FactKeyInvalid); }
      var locks := LockFacts(index.value, r.requiredFactIds);
      if locks.None? { return E.Raised(E.FactMissing); }
      var shot := E.Snapshot(r.ref, r.ledgerRef, locks.value, lib.ledgerSha(ledger), now);
      snapshots := snapshots[r.key := E.SnapshotEntry(r.ref.objectSha256, shot)];
      issued := issued[lib.snapshotRef(shot) := E.SnapshotMaterial(shot.ledgerRef, shot.ledgerSha)];
      reply := E.Ok(shot);
    }

    method AttemptRuntime(r: E.Request, w: E.World, limit: Option<nat>) returns (a: E.Attempt)
      ensures a == E.RuntimeAttempt(lib, r, w, limit)
    {
      if !w.known {
        return E.Attempt(E.FailureResult(r, E.CapabilityBlock, E.ImplementationMissing, E.Unavailable(w.now)),
                         E.NOTHING);
      }
      if w.material.Unresolved? {
        return E.Attempt(E.FailureResult(r, E.PolicyBlock, w.material.code, E.Unavailable(w.now)), E.NOTHING);
      }
      if w.material.artifactId != r.artifactId {
        return E.Attempt(E.FailureResult(r, E.PolicyBlock, E.MaterialMismatch, E.Unavailable(w.now)), E.NOTHING);
      }
      var m := ReadStream(lib.fold, w.events, limit);
      a := E.Attempt(E.StreamResult(lib, r, w, m), E.Observation(1, m.networkRequests, m.lastUsage));
    }

    method Attempt(r: E.Request, w: E.World, limit: Option<nat>) returns (a: E.Attempt)
      ensures a == E.AttemptAt(lib, issued, r, w, limit)
    {
      a := E.Attempt(E.FailureResult(r, E.PolicyBlock, E.WorldLedgerStale, E.Unavailable(w.now)), E.NOTHING);
      if r.snapshotRef !in issued { return; }
      var material := issued[r.snapshotRef];
      if material.ledgerRef.objectId !in w.ledgers {
        return E.Attempt(E.FailureResult(r, E.PolicyBlock, w.missingLedger, E.Unavailable(w.now)), E.NOTHING);
      }
      var ledger := w.ledgers[material.ledgerRef.objectId];
      if lib.ledgerSha(ledger) != material.ledgerSha { return; }
      if r.route == E.ProviderRoute {
        a := E.Attempt(E.ProviderAttempt(r, w), E.NOTHING);
      } else {
        a := AttemptRuntime(r, w, limit);
      }
      if lib.ledgerSha(w.ledgerAfter) != lib.ledgerSha(ledger) {
        a := a.(result := E.FailureResult(r, E.PolicyBlock, E.WorldLedgerMutationAttempt, E.Unavailable(w.now)));
      }
    }

    /** `_execute`, shared by all three entry points. */
    method ExecuteMetered(r: E.Request, w: E.World, limit: Option<nat>)
      returns (reply: E.Reply<E.Result>, seen: E.Observation)
      modifies this`executions
      ensures
        var p := E.Execute(lib, old(View()), r, w, limit);
        View() == E.Commit(old(View()), r.key, p) && reply == p.reply && seen == p.seen
    {
      seen := E.NOTHING;
      if !r.genuine { return E.Raised(E.StaleIdentity), seen; }
      if r.key in executions {
        if executions[r.key].requestSha != r.sha { return E.Raised(E.IdempotencyConflict), seen; }
        return E.Ok(executions[r.key].result), seen;
      }
      var a := Attempt(r, w, limit);
      executions := executions[r.key := E.ExecutionEntry(r.sha, a.result)];
      reply, seen := E.Ok(a.result), a.seen;
    }

    method Execute(r: E.Request, w: E.World) returns (reply: E.Reply<E.Result>)
      modifies this
      ensures View() == Step(lib, old(View()), ExecuteCall(r, w))
      ensures reply == E.Execute(lib, old(View()), r, w, None).reply
    {
      var seen;
      reply, seen := ExecuteMetered(r, w, None);
    }

    /** `_execute_with_resources`, shared by the two metered entry points. */
    method ExecuteBounded(r: E.Request, g: E.ResourceGrant, w: E.World)
      returns (reply: E.Reply<E.Bounded>, seen: E.Observation)
      modifies this`executions, this`resources
      ensures
        var p := E.ExecuteWithResources(lib, old(View()), r, g, w);
        View() == E.Commit(old(View()), r.key, p) && reply == p.reply && seen == p.seen
    {
      seen := E.NOTHING;
      if !g.genuine { return E.Raised(E.StaleIdentity), seen; }
      if r.key in resources {
        var e := resources[r.key];
        if e.requestSha != r.sha || e.grantSha != g.ref.objectSha256 { return E.Raised(E.IdempotencyConflict), seen; }
        return E.Ok(e.bounded), seen;
      }
      if r.key in executions { return E.Raised(E.UnmeteredResult), seen; }
      var refusal := E.Refusal(lib, r, g);
      var b;
      if refusal.Some? {
        var v := refusal.value;
        b := E.Bounded(g.ref, E.FailureResult(r, v.status, v.code, E.Unavailable(w.now)), E.NO_USAGE);
      } else {
        var raw;
        raw, seen := ExecuteMetered(r, w, Some(g.networkLimit));
        if raw.Raised? { return E.Raised(raw.error), seen; }
        b := E.Bound(r, g, raw.value, E.UsageOf(r, w.output.size, raw.value, seen));
      }
      resources := resources[r.key := E.ResourceEntry(r.sha, g.ref.objectSha256, b)];
      reply := E.Ok(b);
    }

    method ExecuteWithResources(r: E.Request, g: E.ResourceGrant, w: E.World) returns (reply: E.Reply<E.Bounded>)
      modifies this
      ensures View() == Step(lib, old(View()), ResourceCall(r, g, w))
      ensures reply == E.ExecuteWithResources(lib, old(View()), r, g, w).reply
    {
      var seen;
      reply, seen := ExecuteBounded(r, g, w);
    }

    method ExecuteWithControls(r: E.Request, g: E.ResourceGrant, d: Descriptor, mg: ModelGrant, w: E.World)
      returns (reply: E.Reply<E.Controlled>)
      modifies this
      ensures View() == Step(lib, old(View()), ControlCall(r, g, d, mg, w))
      ensures reply == E.ExecuteWithControls(lib, old(View()), r, g, d, mg, w).reply
    {
      if !r.genuine || !d.genuine || !mg.genuine {
        return E.Raised(E.StaleIdentity);
      }
      if r.key in models {
        var e := models[r.key];
        if e.requestSha != r.sha || e.grantSha != g.ref.objectSha256 || e.modelSha != mg.ref.objectSha256 {
          return E.Raised(E.IdempotencyConflict);
        }
        return E.Ok(E.Controlled(e.bounded, e.receipt));
      }
      if r.key in resources { return E.Raised(E.ResourceOnlyResult); }
      var invalid := E.InvalidBinding(r, d, mg);
      var c;
      if invalid.Some? {
        if !g.genuine { return E.Raised(E.StaleIdentity); }
        c := E.Reject(r, g, d, mg, invalid.value, w);
      } else {
        var raw, seen := ExecuteBounded(r, g, w);
        if raw.Raised? { return E.Raised(raw.error); }
        c := E.Settle(r, d, mg, raw.value, seen, w.now);
      }
      models := models[r.key := E.EntryOf(r, g, mg, c)];
      reply := E.Ok(c);
    }
  }

  /** A prefix that cannot be indexed spoils the whole ledger. */
  lemma {:induction false} FactIndexFails(lib: E.Lib, facts: seq<E.Fact>, n: nat)
    requires n <= |facts| && E.FactIndex(lib, facts[..n]).None?
    ensures E.FactIndex(lib, facts).None?
    decreases |facts| - n
  {
    if n == |facts| {
      assert facts[..n] == facts;
    } else {
      assert facts[..n + 1][..n] == facts[..n];
      FactIndexFails(lib, facts, n + 1);
    }
  }
}
