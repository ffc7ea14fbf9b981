/** What a stop request takes out of a handle registry when it resumes after its
    cancellation, over every interleaving. */
module HandleStops {
  import opened Prelude
  import opened HandleRegistry

  predicate Touches(e: Event, handleId: string)
  {
    (e.Registered? && e.handleId == handleId) || (e.Released? && e.handleId == handleId)
  }

  /** The last registration or release of a handle from position `start` on. */
  function LastTouch(log: seq<Event>, start: nat, handleId: string): Option<Event>
  {
    if |log| <= start then None
    else if Touches(log[|log| - 1], handleId) then Some(log[|log| - 1])
    else LastTouch(log[..|log| - 1], start, handleId)
  }

  lemma {:induction false} LastRegisteredSince(log: seq<Event>, start: nat, h: string)
    requires start <= |log|
    ensures
      var last := LastTouch(log, start, h);
      if last.None? then LastRegistered(log, h) == LastRegistered(log[..start], h)
      else Touches(last.value, h) && LastRegistered(log, h) == if last.value.Registered? then {last.value.entry} else {}
    decreases |log|
  {
    if |log| == start {
      assert log[..start] == log;
    } else if !Touches(log[|log| - 1], h) {
      var front := log[..|log| - 1];
      LastRegisteredSince(front, start, h);
      assert front[..start] == log[..start];
    }
  }

  /** What a stop request that resumes after a successful cancellation takes out of
      the registry. */
  datatype Taken = OwnRun | AnotherRun | Nothing

  function TakenBy(s: State, stop: nat): Taken
    requires stop in s.stops
  {
    var p := s.stops[stop];
    if p.request.handleId !in s.active then Nothing
    else if s.active[p.request.handleId] == p.entry then OwnRun
    else AnotherRun
  }

  /** What the history since the cancellation was sent says about that. */
  ghost predicate TakenAsTouched(s: State, stop: nat)
    requires stop in s.stops
  {
    var p := s.stops[stop];
    var h, last := p.request.handleId, LastTouch(s.log, p.sentAt, p.request.handleId);
    && (TakenBy(s, stop) == OwnRun <==> last.None? || last.value == Registered(h, p.entry))
    && (TakenBy(s, stop) == AnotherRun <==> last.Some? && last.value.Registered? && last.value.entry != p.entry)
    && (TakenBy(s, stop) == Nothing <==> last.Some? && last.value.Released?)
  }

  lemma StopTakesAsTouched(s: State, stop: nat)
    requires Inv(s) && stop in s.stops
    ensures TakenAsTouched(s, stop)
  {
    var p := s.stops[stop];
    var h := p.request.handleId;
    assert WasSent(p, s.log) && Justified(s.log[..p.sentAt], s.log[p.sentAt]);
    LastRegisteredSince(s.log, p.sentAt, h);
    var now := LastRegistered(s.log, h);
    assert now == if h in s.active then {s.active[h]} else {};
    assert h in s.active ==> s.active[h] in now;
    var last := LastTouch(s.log, p.sentAt, h);
    if last.None? {
      assert p.entry in now;
    } else if last.value.Registered? {
      assert last.value.entry in now;
    }
  }

  /** Over every run: a resuming stop takes exactly its handle out of the registry.
      It takes the run it cancelled if and only if, since its cancellation was sent,
      the handle was not touched or was last registered by that run; it takes
      another run if and only if another run was the last to register the handle;
      and nothing if and only if the handle was released last. */
  lemma StopTakesOwnRunIff(remembers: bool, steps: seq<Step>, stop: nat, now: int)
    requires stop in After(remembers, steps).stops
    ensures TakenAsTouched(After(remembers, steps), stop)
    ensures
      var s := After(remembers, steps);
      Next(s, StopResumes(stop, true, now)).active == s.active - {s.stops[stop].request.handleId}
  {
    RegistryFollowsHistory(remembers, steps);
    StopTakesAsTouched(After(remembers, steps), stop);
  }

  /** The run a stop was sent to has finished, and another has begun and registered
      under the same handle. */
  function AnotherBegun(g: Grant, g': Grant, first: string, second: string): seq<Step>
  {
    StopSent(g, first) + [Finish(0)] + [Begin(1, g')] + [Emit(1, second)]
  }

  lemma AnotherBegunState(remembers: bool, g: Grant, g': Grant, first: string, second: string)
    requires g.handleId == g'.handleId && first != "" && second != ""
    ensures
      var s := After(remembers, AnotherBegun(g, g', first, second));
      && s.stops == map[0 := Pending(StopFor(g), Entry(first, g.reservationId, g.fencingToken), 1)]
      && s.runs == map[1 := Run(g', true, false)] && s.answers == map[]
      && s.active == map[g'.handleId := Entry(second, g'.reservationId, g'.fencingToken)]
  {
    var start, sent := Initial(remembers), StopSent(g, first);
    StopSentState(remembers, g, first);
    PlayOneMore(start, sent, Finish(0));
    PlayOneMore(start, sent + [Finish(0)], Begin(1, g'));
    PlayOneMore(start, sent + [Finish(0)] + [Begin(1, g')], Emit(1, second));
  }

  /** A run in which a stop takes another run than it was sent to. Asking to stop that
      other run is then answered ALREADY_STOPPED while it still reads its events. */
  lemma LateStopTakesAnotherRun(remembers: bool, g: Grant, g': Grant, first: string, second: string,
                                again: StopRequest)
    requires g.handleId == g'.handleId && first != "" && second != "" && first != second
    requires again.genuine && again.handleId == g'.handleId && again.requestId != StopFor(g).requestId
    ensures
      var s := After(remembers, AnotherBegun(g, g', first, second));
      && 0 in s.stops && TakenBy(s, 0) == AnotherRun && Reading(s, 1)
      && var t := Next(s, StopResumes(0, true, 0));
         Reading(t, 1) && Next(t, Stop(1, again, 0)) == Reply(t, StopAnswer(again, AlreadyStopped, 0))
  {
    AnotherBegunState(remembers, g, g', first, second);
  }

  /** Nor is it enough to look for any release in between: a second stop may release
      the handle and the first run register it again, and then the first stop still
      takes the run it cancelled. */
  lemma ReleasedAndBackIsStillOwnRun(g: Grant, runHandle: string)
    requires runHandle != ""
    ensures
      var s := After(false, StopSent(g, runHandle) + [Stop(1, StopFor(g), 0)] + [StopResumes(1, true, 0)]
                            + [Emit(0, runHandle)]);
      && 0 in s.stops && s.stops[0].sentAt < 3 < |s.log| && s.log[3] == Released(g.handleId, true)
      && TakenBy(s, 0) == OwnRun
  {
    var start, sent := Initial(false), StopSent(g, runHandle);
    StopSentState(false, g, runHandle);
    PlayOneMore(start, sent, Stop(1, StopFor(g), 0));
    var t := Play(start, sent + [Stop(1, StopFor(g), 0)]);
    assert t.runs == Play(start, sent).runs && t.stops[0] == Play(start, sent).stops[0] && |t.log| == 3;
    assert 1 in t.stops && t.stops[1].request == StopFor(g);
    PlayOneMore(start, sent + [Stop(1, StopFor(g), 0)], StopResumes(1, true, 0));
    var u := Play(start, sent + [Stop(1, StopFor(g), 0)] + [StopResumes(1, true, 0)]);
    assert u.runs == t.runs && 0 in u.stops && u.stops[0] == t.stops[0] && |u.log| == 5;
    assert u.log[3] == Released(g.handleId, true);
    PlayOneMore(start, sent + [Stop(1, StopFor(g), 0)] + [StopResumes(1, true, 0)], Emit(0, runHandle));
  }
}
