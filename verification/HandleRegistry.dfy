/** The handle registries of the execution facade. Runs register the handle of
    their grant with every event that names a runtime run; stop requests arrive in
    between, and both kinds of coroutine are suspended while they wait for the
    runtime to cancel. The resource and the model registry follow the same code,
    except that the model registry remembers its answers by request id; both are
    modelled, under every interleaving. */
module HandleRegistry {
  datatype Grant = Grant(handleId: string, reservationId: string, fencingToken: nat)

  datatype Entry = Entry(runHandle: string, reservationId: string, fencingToken: nat)

  /** `genuine`: the identity check accepts the request. */
  datatype StopRequest = StopRequest(
    genuine: bool, requestId: string, handleId: string, reservationId: string, fencingToken: nat)

  datatype StopOutcome = Stopped | AlreadyStopped | StopFailed

  /** The answer to a stop request, as the model registry remembers it. */
  datatype StopAnswer = StopAnswer(request: StopRequest, outcome: StopOutcome, completedAt: int)

  datatype Event =
    | Registered(handleId: string, entry: Entry)
    | Released(handleId: string, stops: bool)
    | CancelSent(runHandle: string, request: StopRequest)
    | Answered(answer: StopAnswer)
    | Replayed(request: StopRequest, answer: StopAnswer)

  /** A run in progress: whether it has registered a handle yet, and whether it
      has passed its limit and waits for the runtime to cancel. */
  datatype Run = Run(grant: Grant, registered: bool, cancelling: bool)

  /** A stop request that waits for the runtime to cancel: the entry it read, and
      where in the history its cancellation was sent. */
  datatype Pending = Pending(request: StopRequest, entry: Entry, sentAt: nat)

  datatype State = State(
    remembers: bool, active: map<string, Entry>, stopped: set<string>, runs: map<nat, Run>, stops: map<nat, Pending>,
    answers: map<string, StopAnswer>, log: seq<Event>)

  function Initial(remembers: bool): State { State(remembers, map[], {}, map[], map[], map[], []) }

  datatype Step =
    | Begin(run: nat, grant: Grant)
    | Emit(run: nat, runHandle: string)
    | Overrun(run: nat, runHandle: string)
    | OverrunResumes(run: nat, cancelled: bool)
    | Finish(run: nat)
    | Abort(run: nat)
    | Stop(stop: nat, request: StopRequest, now: int)
    | StopResumes(stop: nat, cancelled: bool, now: int)

  // One function per piece of code between two awaits; a step that is not
  // possible now changes nothing.

  function Register(s: State, run: nat, runHandle: string): State
    requires run in s.runs
  {
    var r := s.runs[run];
    var entry := Entry(runHandle, r.grant.reservationId, r.grant.fencingToken);
    if runHandle == "" then s
    else s.(active := s.active[r.grant.handleId := entry], runs := s.runs[run := r.(registered := true)],
            log := s.log + [Registered(r.grant.handleId, entry)])
  }

  function Release(s: State, handleId: string, stops: bool): State
  {
    s.(active := s.active - {handleId}, stopped := if stops then s.stopped + {handleId} else s.stopped,
       log := s.log + [Released(handleId, stops)])
  }

  function Leave(s: State, run: nat): State { s.(runs := s.runs - {run}) }

  /** Reading its events: neither ended nor waiting for a cancellation. */
  predicate Reading(s: State, run: nat) { run in s.runs && !s.runs[run].cancelling }

  /** An event over the network limit is registered like any other; then the run
      ends, after trying to cancel the runtime if the event names it. */
  function Overruns(s: State, run: nat, runHandle: string): State
    requires run in s.runs
  {
    var t := Register(s, run, runHandle);
    if runHandle == "" then Leave(t, run) else t.(runs := t.runs[run := t.runs[run].(cancelling := true)])
  }

  /** The handle is given up only if the runtime could be cancelled. */
  function ResumesOverrun(s: State, run: nat, cancelled: bool): State
    requires run in s.runs
  {
    Leave(if cancelled then Release(s, s.runs[run].grant.handleId, true) else s, run)
  }

  predicate Admitted(active: map<string, Entry>, r: StopRequest)
  {
    && r.handleId in active
    && active[r.handleId].reservationId == r.reservationId
    && active[r.handleId].fencingToken == r.fencingToken
  }

  function Reply(s: State, a: StopAnswer): State
  {
    s.(answers := if s.remembers then s.answers[a.request.requestId := a] else s.answers,
       log := s.log + [Answered(a)])
  }

  /** A stop request up to `await runtime.cancel`, or to its answer. */
  function Stops(s: State, stop: nat, r: StopRequest, now: int): State
  {
    if r.requestId in s.answers then s.(log := s.log + [Replayed(r, s.answers[r.requestId])])
    else if Admitted(s.active, r) then
      var entry := s.active[r.handleId];
      s.(stops := s.stops[stop := Pending(r, entry, |s.log|)], log := s.log + [CancelSent(entry.runHandle, r)])
    else
      var outcome := if r.handleId !in s.active && r.handleId in s.stopped then AlreadyStopped else StopFailed;
      Reply(s, StopAnswer(r, outcome, now))
  }

  function ResumesStop(s: State, stop: nat, cancelled: bool, now: int): State
    requires stop in s.stops
  {
    var r := s.stops[stop].request;
    var t := s.(stops := s.stops - {stop});
    if cancelled then Reply(Release(t, r.handleId, true), StopAnswer(r, Stopped, now))
    else Reply(t, StopAnswer(r, StopFailed, now))
  }

  function Next(s: State, step: Step): State
  {
    match step
    case Begin(run, grant) => if run in s.runs then s else s.(runs := s.runs[run := Run(grant, false, false)])
    case Emit(run, runHandle) => if Reading(s, run) then Register(s, run, runHandle) else s
    case Overrun(run, runHandle) => if Reading(s, run) then Overruns(s, run, runHandle) else s
    case OverrunResumes(run, cancelled) =>
      if run in s.runs && s.runs[run].cancelling then ResumesOverrun(s, run, cancelled) else s
    case Finish(run) =>
      if Reading(s, run) then Leave(Release(s, s.runs[run].grant.handleId, s.runs[run].registered), run) else s
    case Abort(run) => Leave(s, run)
    case Stop(stop, r, now) => if stop in s.stops || !r.genuine then s else Stops(s, stop, r, now)
    case StopResumes(stop, cancelled, now) => if stop in s.stops then ResumesStop(s, stop, cancelled, now) else s
  }

  function Play(s: State, steps: seq<Step>): State
  {
    if steps == [] then s else Next(Play(s, steps[..|steps| - 1]), steps[|steps| - 1])
  }

  /** The state after some steps of a new registry. */
  function After(remembers: bool, steps: seq<Step>): State { Play(Initial(remembers), steps) }

  // --------------------------------------------------------- facts about history

  /** The entry last registered for a handle and not released since, if any. */
  function LastRegistered(log: seq<Event>, handleId: string): set<Entry>
  {
    if log == [] then {}
    else
      var e := log[|log| - 1];
      if e.Registered? && e.handleId == handleId then {e.entry}
      else if e.Released? && e.handleId == handleId then {}
      else LastRegistered(log[..|log| - 1], handleId)
  }

  ghost predicate CancelWasSent(past: seq<Event>, r: StopRequest)
  {
    exists e :: e in past && e.CancelSent? && e.request == r
  }

  ghost predicate WasAnswered(past: seq<Event>, id: string, a: StopAnswer)
  {
    a.request.requestId == id && Answered(a) in past
  }

  ghost predicate Justified(past: seq<Event>, e: Event)
  {
    match e
    case CancelSent(runHandle, r) =>
      // only the run registered last under the handle, with its reservation and fence
      LastRegistered(past, r.handleId) == {Entry(runHandle, r.reservationId, r.fencingToken)}
    case Answered(StopAnswer(r, Stopped, _)) =>
      CancelWasSent(past, r) && past != [] && past[|past| - 1] == Released(r.handleId, true)
    case Answered(StopAnswer(r, AlreadyStopped, _)) =>
      Released(r.handleId, true) in past && LastRegistered(past, r.handleId) == {}
    case Answered(StopAnswer(r, StopFailed, _)) =>
      // the runtime would not cancel, or no run with this reservation and fence is registered
      || CancelWasSent(past, r)
      || (&& (LastRegistered(past, r.handleId) == {} ==> Released(r.handleId, true) !in past)
          && forall x :: x in LastRegistered(past, r.handleId) ==>
               x.reservationId != r.reservationId || x.fencingToken != r.fencingToken)
    case Replayed(r, a) => WasAnswered(past, r.requestId, a)
    case _ => true
  }

  ghost predicate JustHistory(log: seq<Event>)
  {
    forall i :: 0 <= i < |log| ==> Justified(log[..i], log[i])
  }

  /** The registry holds exactly what was registered and not released since. */
  ghost predicate Faithful(active: map<string, Entry>, stopped: set<string>, log: seq<Event>)
  {
    && (forall h :: LastRegistered(log, h) == if h in active then {active[h]} else {})
    && (forall h :: h in stopped <==> Released(h, true) in log)
  }

  /** What the history says of a suspended stop request. */
  ghost predicate WasSent(p: Pending, log: seq<Event>)
  {
    && p.sentAt < |log| && log[p.sentAt] == CancelSent(p.entry.runHandle, p.request)
    && p.entry.reservationId == p.request.reservationId && p.entry.fencingToken == p.request.fencingToken
  }

  ghost predicate Recorded(stops: map<nat, Pending>, answers: map<string, StopAnswer>, log: seq<Event>)
  {
    && (forall i :: i in stops ==> WasSent(stops[i], log))
    && (forall id :: id in answers ==> WasAnswered(log, id, answers[id]))
  }

  ghost predicate Inv(s: State)
  {
    JustHistory(s.log) && Faithful(s.active, s.stopped, s.log) && Recorded(s.stops, s.answers, s.log)
  }

  lemma LastRegisteredAppend(log: seq<Event>, e: Event, h: string)
    ensures LastRegistered(log + [e], h)
         == if e.Registered? && e.handleId == h then {e.entry}
            else if e.Released? && e.handleId == h then {}
            else LastRegistered(log, h)
  {
    assert (log + [e])[..|log|] == log;
  }

  lemma HistoryAppend(log: seq<Event>, e: Event)
    requires JustHistory(log) && Justified(log, e)
    ensures JustHistory(log + [e])
  {
    forall i | 0 <= i < |log + [e]| ensures Justified((log + [e])[..i], (log + [e])[i]) {
      assert (log + [e])[..i] == log[..i];
      assert i == |log| ==> log[..i] == log;
    }
  }

  /** How the registry follows one more event. */
  lemma FaithfulAppend(active: map<string, Entry>, stopped: set<string>, log: seq<Event>, e: Event)
    requires Faithful(active, stopped, log)
    ensures
      match e
      case Registered(h, entry) => Faithful(active[h := entry], stopped, log + [e])
      case Released(h, stops) => Faithful(active - {h}, if stops then stopped + {h} else stopped, log + [e])
      case _ => Faithful(active, stopped, log + [e])
  {
    forall h { LastRegisteredAppend(log, e, h); }
    assert forall x :: x in log + [e] <==> x in log || x == e;
  }

  lemma RecordedAppend(stops: map<nat, Pending>, answers: map<string, StopAnswer>, log: seq<Event>, e: Event)
    requires Recorded(stops, answers, log)
    ensures Recorded(stops, answers, log + [e])
    ensures e.Answered? ==> Recorded(stops, answers[e.answer.request.requestId := e.answer], log + [e])
  {
    assert forall x :: x in log ==> x in log + [e];
    assert e in log + [e];
  }

  lemma RegisterKeepsInv(s: State, run: nat, runHandle: string)
    requires Inv(s) && run in s.runs
    ensures Inv(Register(s, run, runHandle))
  {
    if runHandle != "" {
      var g := s.runs[run].grant;
      var e := Registered(g.handleId, Entry(runHandle, g.reservationId, g.fencingToken));
      HistoryAppend(s.log, e);
      FaithfulAppend(s.active, s.stopped, s.log, e);
      RecordedAppend(s.stops, s.answers, s.log, e);
    }
  }

  lemma ReleaseKeepsInv(s: State, handleId: string, stops: bool)
    requires Inv(s)
    ensures Inv(Release(s, handleId, stops))
  {
    var e := Released(handleId, stops);
    HistoryAppend(s.log, e);
    FaithfulAppend(s.active, s.stopped, s.log, e);
    RecordedAppend(s.stops, s.answers, s.log, e);
  }

  /** An event that touches no registration. */
  lemma NoteKeepsInv(s: State, e: Event)
    requires Inv(s) && Justified(s.log, e) && !e.Registered? && !e.Released?
    ensures Inv(s.(log := s.log + [e]))
    ensures e.Answered? ==> Inv(Reply(s, e.answer))
  {
    HistoryAppend(s.log, e);
    FaithfulAppend(s.active, s.stopped, s.log, e);
    RecordedAppend(s.stops, s.answers, s.log, e);
  }

  lemma StopsKeepsInv(s: State, stop: nat, r: StopRequest, now: int)
    requires Inv(s)
    ensures Inv(Stops(s, stop, r, now))
  {
    assert LastRegistered(s.log, r.handleId) == if r.handleId in s.active then {s.active[r.handleId]} else {};
    if r.requestId in s.answers {
      NoteKeepsInv(s, Replayed(r, s.answers[r.requestId]));
    } else if Admitted(s.active, r) {
      NoteKeepsInv(s, CancelSent(s.active[r.handleId].runHandle, r));
    } else {
      var outcome := if r.handleId !in s.active && r.handleId in s.stopped then AlreadyStopped else StopFailed;
      NoteKeepsInv(s, Answered(StopAnswer(r, outcome, now)));
    }
  }

  lemma ResumesStopKeepsInv(s: State, stop: nat, cancelled: bool, now: int)
    requires Inv(s) && stop in s.stops
    ensures Inv(ResumesStop(s, stop, cancelled, now))
  {
    var p, t := s.stops[stop], s.(stops := s.stops - {stop});
    assert s.log[p.sentAt] in s.log && CancelWasSent(s.log, p.request);
    if cancelled {
      ReleaseKeepsInv(t, p.request.handleId, true);
      var u := Release(t, p.request.handleId, true);
      assert u.log[p.sentAt] in u.log && CancelWasSent(u.log, p.request);
      NoteKeepsInv(u, Answered(StopAnswer(p.request, Stopped, now)));
    } else {
      NoteKeepsInv(t, Answered(StopAnswer(p.request, StopFailed, now)));
    }
  }

  /** The runs in progress are not part of the invariant. */
  lemma RunsDoNotMatter(s: State, runs: map<nat, Run>)
    requires Inv(s)
    ensures Inv(s.(runs := runs))
  {
  }

  lemma RunStepKeepsInv(s: State, step: Step)
    requires Inv(s) && !step.Stop? && !step.StopResumes?
    ensures Inv(Next(s, step))
  {
    if step.Emit? || step.Overrun? {
      if Reading(s, step.run) {
        var t := Register(s, step.run, step.runHandle);
        RegisterKeepsInv(s, step.run, step.runHandle);
        RunsDoNotMatter(t, Next(s, step).runs);
      }
    } else if step.Finish? || step.OverrunResumes? {
      if step.run in s.runs {
        var stops := step.OverrunResumes? || s.runs[step.run].registered;
        var t := Release(s, s.runs[step.run].grant.handleId, stops);
        ReleaseKeepsInv(s, s.runs[step.run].grant.handleId, stops);
        RunsDoNotMatter(t, Next(s, step).runs);
        RunsDoNotMatter(s, Next(s, step).runs);
      }
    } else {
      RunsDoNotMatter(s, Next(s, step).runs);
    }
  }

  lemma StepKeepsInv(s: State, step: Step)
    requires Inv(s)
    ensures Inv(Next(s, step))
  {
    if step.Stop? {
      StopsKeepsInv(s, step.stop, step.request, step.now);
    } else if step.StopResumes? {
      if step.stop in s.stops { ResumesStopKeepsInv(s, step.stop, step.cancelled, step.now); }
    } else {
      RunStepKeepsInv(s, step);
    }
  }

  /** In every interleaving: a runtime run is cancelled for a request only if it is
      the run last registered under that handle, with the request's reservation
      and fence; ALREADY_STOPPED is answered only for a handle that was stopped and
      not registered again; a failure only if no matching run was registered (and the
      handle not stopped), or the runtime would not cancel; a replay repeats an answer given before for
      that request id; and a handle is in the registry exactly when it was
      registered and not released since. */
  lemma {:induction false} RegistryFollowsHistory(remembers: bool, steps: seq<Step>)
    ensures Inv(After(remembers, steps))
  {
    if steps != [] {
      RegistryFollowsHistory(remembers, steps[..|steps| - 1]);
      StepKeepsInv(After(remembers, steps[..|steps| - 1]), steps[|steps| - 1]);
    }
  }

  // ------------------------------------------------- registered and stopped at once

  ghost predicate Apart(s: State) { s.active.Keys !! s.stopped }

  /** The step registers a handle that has been stopped. */
  predicate RegistersStopped(s: State, step: Step)
  {
    && (step.Emit? || step.Overrun?)
    && Reading(s, step.run) && step.runHandle != ""
    && s.runs[step.run].grant.handleId in s.stopped
  }

  lemma RegisterKeepsApartIff(s: State, run: nat, runHandle: string)
    requires Apart(s) && run in s.runs && runHandle != ""
    ensures Apart(Register(s, run, runHandle)) <==> s.runs[run].grant.handleId !in s.stopped
  {
    var t, h := Register(s, run, runHandle), s.runs[run].grant.handleId;
    assert t.active.Keys == s.active.Keys + {h};
    assert h in t.active.Keys;
  }

  /** From a state in which no handle is both, a step leads to one in which some
      handle is if and only if it registers a stopped handle. */
  lemma StepKeepsApartIff(s: State, step: Step)
    requires Apart(s)
    ensures Apart(Next(s, step)) <==> !RegistersStopped(s, step)
  {
    if (step.Emit? || step.Overrun?) && Reading(s, step.run) && step.runHandle != "" {
      RegisterKeepsApartIff(s, step.run, step.runHandle);
    }
  }

  ghost predicate ApartAt(remembers: bool, steps: seq<Step>, n: nat)
    requires n <= |steps|
  {
    Apart(After(remembers, steps[..n]))
  }

  ghost predicate RegistersStoppedAt(remembers: bool, steps: seq<Step>, n: nat)
    requires n < |steps|
  {
    RegistersStopped(After(remembers, steps[..n]), steps[n])
  }

  lemma ApartStep(remembers: bool, steps: seq<Step>, n: nat)
    requires n < |steps| && ApartAt(remembers, steps, n)
    ensures ApartAt(remembers, steps, n + 1) <==> !RegistersStoppedAt(remembers, steps, n)
  {
    assert steps[..n + 1][..n] == steps[..n];
    StepKeepsApartIff(After(remembers, steps[..n]), steps[n]);
  }

  lemma {:induction false} ApartUpTo(remembers: bool, steps: seq<Step>, n: nat)
    requires n <= |steps| && forall m :: 0 <= m < |steps| ==> !RegistersStoppedAt(remembers, steps, m)
    ensures ApartAt(remembers, steps, n)
  {
    if n > 0 {
      ApartUpTo(remembers, steps, n - 1);
      ApartStep(remembers, steps, n - 1);
    }
  }

  /** Over every run: no handle is ever registered and stopped at once if and only
      if no step registers a stopped handle. */
  lemma AlwaysApartIff(remembers: bool, steps: seq<Step>)
    ensures (forall n :: 0 <= n <= |steps| ==> ApartAt(remembers, steps, n)) <==>
            (forall n :: 0 <= n < |steps| ==> !RegistersStoppedAt(remembers, steps, n))
  {
    if forall n :: 0 <= n <= |steps| ==> ApartAt(remembers, steps, n) {
      forall n | 0 <= n < |steps| ensures !RegistersStoppedAt(remembers, steps, n) { ApartStep(remembers, steps, n); }
    } else if forall n :: 0 <= n < |steps| ==> !RegistersStoppedAt(remembers, steps, n) {
      forall n | 0 <= n <= |steps| ensures ApartAt(remembers, steps, n) { ApartUpTo(remembers, steps, n); }
    }
  }

  function StopFor(g: Grant): StopRequest { StopRequest(true, "", g.handleId, g.reservationId, g.fencingToken) }

  lemma PlayOneMore(s: State, steps: seq<Step>, step: Step)
    ensures Play(s, steps + [step]) == Next(Play(s, steps), step)
  {
    assert (steps + [step])[..|steps|] == steps;
  }

  /** The steps of a run that registers, and a stop request for it. */
  function StopSent(g: Grant, runHandle: string): seq<Step>
  {
    [Begin(0, g)] + [Emit(0, runHandle)] + [Stop(0, StopFor(g), 0)]
  }

  lemma StopSentState(remembers: bool, g: Grant, runHandle: string)
    requires runHandle != ""
    ensures
      var s, entry := After(remembers, StopSent(g, runHandle)), Entry(runHandle, g.reservationId, g.fencingToken);
      && s.remembers == remembers && s.active == map[g.handleId := entry] && s.stopped == {} && s.answers == map[]
      && s.runs == map[0 := Run(g, true, false)] && s.stops == map[0 := Pending(StopFor(g), entry, 1)] && |s.log| == 2
  {
    var a, b, c, start := Begin(0, g), Emit(0, runHandle), Stop(0, StopFor(g), 0), Initial(remembers);
    PlayOneMore(start, [], a);
    assert [] + [a] == [a];
    PlayOneMore(start, [a], b);
    PlayOneMore(start, [a] + [b], c);
  }

  /** A run that does register a stopped handle: stopped between two events. */
  lemma StoppedHandleComesBack(remembers: bool, g: Grant, runHandle: string)
    requires runHandle != ""
    ensures
      var s := After(remembers, StopSent(g, runHandle) + [StopResumes(0, true, 0)] + [Emit(0, runHandle)]);
      g.handleId in s.active && g.handleId in s.stopped
  {
    StopSentState(remembers, g, runHandle);
    PlayOneMore(Initial(remembers), StopSent(g, runHandle), StopResumes(0, true, 0));
    var t := After(remembers, StopSent(g, runHandle) + [StopResumes(0, true, 0)]);
    assert t.stopped == {g.handleId} && Reading(t, 0) && t.runs[0].grant == g;
    PlayOneMore(Initial(remembers), StopSent(g, runHandle) + [StopResumes(0, true, 0)], Emit(0, runHandle));
  }
}
