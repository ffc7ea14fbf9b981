/** What one uninterrupted run of the runtime does to a handle registry: its steps
    follow from the event stream, the network limit, and how stream, telemetry and
    cancellation end. */
module HandleRuns {
  import opened Prelude
  import M = Metering
  import opened HandleRegistry

  /** The run handle that was registered last in a stretch of events, or "". */
  function LastHandle(events: seq<M.Event>): string
  {
    if events == [] then ""
    else
      var e := events[|events| - 1];
      if e.runHandle != "" then e.runHandle else LastHandle(events[..|events| - 1])
  }

  function Emits(run: nat, events: seq<M.Event>): seq<Step>
  {
    if events == [] then []
    else Emits(run, events[..|events| - 1]) + [Emit(run, events[|events| - 1].runHandle)]
  }

  /** How a metered run meets its world: the stream, whether it raises at its end,
      whether telemetry can be made of what was read, and whether the runtime lets
      itself be cancelled. */
  datatype Stream = Stream(
    fold: string -> string, events: seq<M.Event>, limit: nat, raises: bool, telemetry: bool, cancels: bool)
  {
    function Read(): (n: nat)
      ensures n <= |events|
    {
      M.Consumed(fold, events, Some(limit))
    }

    ghost predicate Overruns() { M.NetworkStarts(fold, events) > limit }
  }

  /** The last steps of a run. Only the regular end cleans up: neither a raising
      stream nor unreadable telemetry gets there, and after an overrun the handle is
      left to the cancellation, which needs an event that names the runtime run. */
  function Ending(run: nat, x: Stream): seq<Step>
  {
    var n := x.Read();
    if n > 0 && M.Overran(x.fold, x.events[..n], Some(x.limit)) then
      OverrunSteps(run, x.events[n - 1].runHandle, x.cancels)
    else if x.raises || !x.telemetry then [Abort(run)]
    else [Finish(run)]
  }

  /** The steps of a whole run. */
  function Trace(run: nat, g: Grant, x: Stream): seq<Step>
  {
    var n := x.Read();
    var over := n > 0 && M.Overran(x.fold, x.events[..n], Some(x.limit));
    [Begin(run, g)] + Emits(run, x.events[..if over then n - 1 else n]) + Ending(run, x)
  }

  // -------------------------------------------------------------- playing the steps

  lemma {:induction false} PlayConcat(s: State, a: seq<Step>, b: seq<Step>)
    ensures Play(s, a + b) == Play(Play(s, a), b)
    decreases |b|
  {
    if b == [] {
      assert a + b == a;
    } else {
      var front, last := b[..|b| - 1], b[|b| - 1];
      PlayConcat(s, a, front);
      assert (a + b)[..|a + b| - 1] == a + front;
    }
  }

  lemma PlaySingle(s: State, step: Step)
    ensures Play(s, [step]) == Next(s, step)
  {
    assert [step][..0] == [];
  }

  function With(active: map<string, Entry>, g: Grant, runHandle: string): map<string, Entry>
  {
    if runHandle == "" then active else active[g.handleId := Entry(runHandle, g.reservationId, g.fencingToken)]
  }

  /** The registry after a run has read some events: its handle is registered with
      the last run handle read, and nothing else has changed. */
  ghost predicate HasRead(s: State, t: State, run: nat, g: Grant, events: seq<M.Event>)
  {
    var h := LastHandle(events);
    && t.active == With(s.active, g, h)
    && t.stopped == s.stopped && t.stops == s.stops
    && t.runs == s.runs[run := Run(g, h != "", false)]
  }

  lemma LastHandleAppend(events: seq<M.Event>)
    requires events != []
    ensures
      var e := events[|events| - 1];
      LastHandle(events) == if e.runHandle != "" then e.runHandle else LastHandle(events[..|events| - 1])
  {
  }

  lemma EmitReads(s: State, b: State, run: nat, g: Grant, events: seq<M.Event>)
    requires events != [] && HasRead(s, b, run, g, events[..|events| - 1])
    ensures HasRead(s, Next(b, Emit(run, events[|events| - 1].runHandle)), run, g, events)
  {
    var e := events[|events| - 1];
    LastHandleAppend(events);
    assert Reading(b, run) && b.runs[run].grant == g;
    if e.runHandle != "" {
      var earlier := LastHandle(events[..|events| - 1]);
      assert With(With(s.active, g, earlier), g, e.runHandle) == With(s.active, g, e.runHandle);
    }
  }

  lemma {:induction false} EmitsRead(s: State, b: State, run: nat, g: Grant, events: seq<M.Event>)
    requires HasRead(s, b, run, g, [])
    ensures HasRead(s, Play(b, Emits(run, events)), run, g, events)
  {
    if events != [] {
      var front, e := events[..|events| - 1], events[|events| - 1];
      EmitsRead(s, b, run, g, front);
      PlayOneMore(b, Emits(run, front), Emit(run, e.runHandle));
      EmitReads(s, Play(b, Emits(run, front)), run, g, events);
    }
  }

  // ------------------------------------------------------------- the exact condition

  /** The run ends without giving its handle up. */
  ghost predicate KeepsHandle(x: Stream)
  {
    if x.Overruns() then x.Read() > 0 && (x.events[x.Read() - 1].runHandle == "" || !x.cancels)
    else x.raises || !x.telemetry
  }

  /** Other handles are as they were; the run's own, last registered for `last`, is
      still there, if it ever was, exactly when the run keeps it. */
  ghost predicate LeavesEntry(before: map<string, Entry>, after: map<string, Entry>, g: Grant, last: string,
                              keeps: bool)
  {
    var h := g.handleId;
    && after - {h} == before - {h}
    && (last != "" ==> (h in after <==> keeps))
    && (last != "" && h in after ==> after[h] == Entry(last, g.reservationId, g.fencingToken))
    && (last == "" ==> (h in after <==> keeps && h in before))
  }

  /** What a run leaves of a registry in which it starts; its handle counts as
      stopped exactly when it was registered and given up. */
  ghost predicate LeavesHandle(s: State, t: State, g: Grant, x: Stream)
  {
    Leaves(s, t, g, LastHandle(x.events[..x.Read()]), KeepsHandle(x))
  }

  ghost predicate Leaves(s: State, t: State, g: Grant, last: string, keeps: bool)
  {
    && LeavesEntry(s.active, t.active, g, last, keeps)
    && t.stopped == (if last != "" && !keeps then s.stopped + {g.handleId} else s.stopped)
    && t.stops == s.stops && t.runs == s.runs
  }

  lemma OverrunIsNoticed(x: Stream)
    ensures x.Overruns() <==> x.Read() > 0 && M.Overran(x.fold, x.events[..x.Read()], Some(x.limit))
  {
    M.ConsumptionStopsAtFirstOverrun(x.fold, x.events, x.limit);
  }

  function AfterOverrun(active: map<string, Entry>, g: Grant, h: string, cancels: bool): map<string, Entry>
  {
    if h != "" && cancels then active - {g.handleId} else With(active, g, h)
  }

  lemma OverrunLeavesEntry(before: map<string, Entry>, g: Grant, earlier: string, h: string, cancels: bool)
    ensures LeavesEntry(before, AfterOverrun(With(before, g, earlier), g, h, cancels), g,
                        if h != "" then h else earlier, h == "" || !cancels)
  {
  }

  function OverrunSteps(run: nat, h: string, cancels: bool): seq<Step>
  {
    [Overrun(run, h)] + if h != "" then [OverrunResumes(run, cancels)] else []
  }

  /** The overrun steps, on a registry in which the run is reading. */
  lemma OverrunPlays(b: State, run: nat, h: string, cancels: bool)
    requires Reading(b, run)
    ensures
      var t, g := Play(b, OverrunSteps(run, h, cancels)), b.runs[run].grant;
      && t.stops == b.stops && t.runs == b.runs - {run}
      && t.active == AfterOverrun(b.active, g, h, cancels)
      && t.stopped == if h != "" && cancels then b.stopped + {g.handleId} else b.stopped
  {
    PlaySingle(b, Overrun(run, h));
    if h != "" {
      PlayOneMore(b, [Overrun(run, h)], OverrunResumes(run, cancels));
      var g := b.runs[run].grant;
      assert With(b.active, g, h) - {g.handleId} == b.active - {g.handleId};
    } else {
      assert [Overrun(run, h)] + [] == [Overrun(run, h)];
    }
  }

  lemma OverrunLeaves(s: State, b: State, run: nat, g: Grant, events: seq<M.Event>, h: string, cancels: bool)
    requires run !in s.runs && HasRead(s, b, run, g, events)
    ensures
      var t := Play(b, OverrunSteps(run, h, cancels));
      Leaves(s, t, g, if h != "" then h else LastHandle(events), h == "" || !cancels)
  {
    OverrunPlays(b, run, h, cancels);
    OverrunLeavesEntry(s.active, g, LastHandle(events), h, cancels);
    assert b.runs - {run} == s.runs;
  }

  lemma OverrunLeavesHandle(s: State, b: State, run: nat, g: Grant, x: Stream)
    requires run !in s.runs && x.Overruns() && x.Read() > 0 && HasRead(s, b, run, g, x.events[..x.Read() - 1])
    ensures LeavesHandle(s, Play(b, Ending(run, x)), g, x)
  {
    OverrunIsNoticed(x);
    var n := x.Read();
    var read, h := x.events[..n], x.events[n - 1].runHandle;
    assert read[..n - 1] == x.events[..n - 1];
    LastHandleAppend(read);
    OverrunLeaves(s, b, run, g, x.events[..n - 1], h, x.cancels);
    assert Ending(run, x) == OverrunSteps(run, h, x.cancels);
  }

  lemma EndingLeavesHandle(s: State, b: State, run: nat, g: Grant, x: Stream)
    requires run !in s.runs && !x.Overruns() && HasRead(s, b, run, g, x.events[..x.Read()])
    ensures LeavesHandle(s, Play(b, Ending(run, x)), g, x)
  {
    OverrunIsNoticed(x);
    PlaySingle(b, if x.raises || !x.telemetry then Abort(run) else Finish(run));
    assert b.runs - {run} == s.runs;
  }

  /** From any registry, after any uninterrupted run that registered its handle, the
      handle is still registered if and only if the stream raised or its telemetry
      was unreadable without an overrun, or it overran on an event without a run
      handle, or with a runtime that could not be cancelled. */
  lemma RunKeepsHandleIff(s: State, run: nat, g: Grant, x: Stream)
    requires run !in s.runs
    ensures LeavesHandle(s, Play(s, Trace(run, g, x)), g, x)
  {
    OverrunIsNoticed(x);
    var n := x.Read();
    var events := x.events[..if x.Read() > 0 && x.Overruns() then n - 1 else n];
    PlayConcat(s, [Begin(run, g)] + Emits(run, events), Ending(run, x));
    PlayConcat(s, [Begin(run, g)], Emits(run, events));
    PlaySingle(s, Begin(run, g));
    var b := Next(s, Begin(run, g));
    assert HasRead(s, b, run, g, []);
    EmitsRead(s, b, run, g, events);
    if x.Overruns() {
      OverrunLeavesHandle(s, Play(b, Emits(run, events)), run, g, x);
    } else {
      EndingLeavesHandle(s, Play(b, Emits(run, events)), run, g, x);
    }
  }

  /** For instance a run whose stream raises after one event that names its run: the
      ended run is still registered in a new registry. */
  lemma RaisingRunKeepsHandle(remembers: bool, g: Grant, fold: string -> string, e: M.Event, limit: nat)
    requires e.runHandle != "" && !M.IsNetworkStart(fold, e)
    ensures
      var s := After(remembers, Trace(0, g, Stream(fold, [e], limit, true, true, true)));
      s.active == map[g.handleId := Entry(e.runHandle, g.reservationId, g.fencingToken)] && s.runs == map[]
  {
    var x := Stream(fold, [e], limit, true, true, true);
    assert [e][..0] == [] && [e][..1] == [e];
    assert M.NetworkStarts(fold, []) == 0 && M.NetworkStarts(fold, [e]) == 0;
    assert M.Consumed(fold, [], Some(limit)) == 0;
    assert x.Read() == 1;
    assert LastHandle([e]) == e.runHandle;
    RunKeepsHandleIff(Initial(remembers), 0, g, x);
    var s := After(remembers, Trace(0, g, x));
    assert forall k :: k in s.active && k != g.handleId ==> k in s.active - {g.handleId};
  }
}
