/** Every interleaving of the model-control facade's coroutines. */
module ModelControlProtocol {
  import opened Prelude
  import opened ModelControlTypes
  import opened ModelControl

  /** What an observer of the facade sees, in order. */
  datatype Event =
    | Started(task: nat, handleId: string, reservationId: string, fencingToken: nat)
    | Ended(task: nat, handleId: string)
    | CancelSent(task: nat, request: CancellationRequest)
    | Fresh(answer: CancellationAnswer)
    | Replayed(request: CancellationRequest, answer: CancellationAnswer)

  datatype Waiter = Waiter(request: CancellationRequest, task: nat)

  /** The facade's fields, the suspended coroutines, the tasks (None while
      running) and the history so far. */
  datatype State = State(
    registry: Registry,
    calls: map<nat, Frame>,
    waiters: map<nat, Waiter>,
    tasks: map<nat, Option<Ending>>,
    log: seq<Event>)

  const INITIAL := State(Registry(map[], {}, map[], map[]), map[], map[], map[], [])

  datatype Step =
    | Generate(d: Descriptor, g: ModelGrant, resultRef: Ref, clientKnown: bool, task: nat, now: int)
    | TaskEnds(task: nat, ending: Ending)
    | GenerateResumes(task: nat, now: int)
    | Cancel(request: CancellationRequest, waiter: nat, now: int)
    | CancelResumes(waiter: nat, now: int)

  // One function per atomic step; a step that is not possible now changes nothing.

  function Generates(s: State, d: Descriptor, g: ModelGrant, resultRef: Ref, clientKnown: bool, task: nat, now: int)
    : State
  {
    if task in s.tasks then s
    else
      var b := BeginGenerate(s.registry, d, g, resultRef, clientKnown, task, now);
      if b.begun.Waiting? then
        s.(registry := b.registry, calls := s.calls[task := b.begun.frame], tasks := s.tasks[task := None],
           log := s.log + [Started(task, g.handleId, g.reservationId, g.fencingToken)])
      else s.(registry := b.registry)
  }

  function EndsTask(s: State, task: nat, ending: Ending): State
  {
    if task in s.tasks && s.tasks[task].None? then s.(tasks := s.tasks[task := Some(ending)]) else s
  }

  function ResumesGenerate(s: State, task: nat, now: int): State
  {
    if task in s.calls && task in s.tasks && s.tasks[task].Some? then
      s.(registry := FinishGenerate(s.registry, s.calls[task], s.tasks[task].value, now),
         calls := s.calls - {task},
         log := s.log + [Ended(task, s.calls[task].grant.handleId)])
    else s
  }

  function Cancels(s: State, r: CancellationRequest, waiter: nat, now: int): State
  {
    if waiter in s.waiters then s
    else match BeginCancel(s.registry, r, now)
      case NotGenuine => s
      case Replay(answer) => s.(log := s.log + [Replayed(r, answer)])
      case Answer(answer) => s.(registry := Record(s.registry, answer), log := s.log + [Fresh(answer)])
      case Await(task) =>
        s.(waiters := s.waiters[waiter := Waiter(r, task)], log := s.log + [CancelSent(task, r)])
  }

  function ResumesCancel(s: State, waiter: nat, now: int): State
  {
    if waiter in s.waiters && s.waiters[waiter].task in s.tasks && s.tasks[s.waiters[waiter].task].Some? then
      var w := s.waiters[waiter];
      var e := s.tasks[w.task].value;
      var resumed := s.(waiters := s.waiters - {waiter});
      if e.Returned? || e.CancelledTask? then
        var answer := CancellationAnswer(w.request, Cancelled, now);
        resumed.(registry := Record(s.registry, answer), log := s.log + [Fresh(answer)])
      else resumed
    else s
  }

  function Next(s: State, step: Step): State
  {
    match step
    case Generate(d, g, resultRef, clientKnown, task, now) => Generates(s, d, g, resultRef, clientKnown, task, now)
    case TaskEnds(task, ending) => EndsTask(s, task, ending)
    case GenerateResumes(task, now) => ResumesGenerate(s, task, now)
    case Cancel(r, waiter, now) => Cancels(s, r, waiter, now)
    case CancelResumes(waiter, now) => ResumesCancel(s, waiter, now)
  }

  function Run(steps: seq<Step>): State
  {
    if steps == [] then INITIAL else Next(Run(steps[..|steps| - 1]), steps[|steps| - 1])
  }

  // -------------------------------------------------- facts about every history

  ghost predicate HandleStarted(past: seq<Event>, handleId: string)
  {
    exists e :: e in past && e.Started? && e.handleId == handleId
  }

  ghost predicate HandleEnded(past: seq<Event>, handleId: string)
  {
    exists e :: e in past && e.Ended? && e.handleId == handleId
  }

  ghost predicate FirstAnswered(past: seq<Event>, id: string, answer: CancellationAnswer)
  {
    answer.request.requestId == id && Fresh(answer) in past
  }

  /** What must have happened before an event for it to be right. */
  ghost predicate Justified(past: seq<Event>, e: Event)
  {
    match e
    case CancelSent(task, r) =>
      // a task is cancelled only by a request with its own reservation and fence
      Started(task, r.handleId, r.reservationId, r.fencingToken) in past
    case Fresh(CancellationAnswer(r, outcome, _)) =>
      && (outcome == AlreadyFinished ==> HandleStarted(past, r.handleId) && HandleEnded(past, r.handleId))
      && (outcome == Cancelled ==> exists t :: CancelSent(t, r) in past)
    case Replayed(r, answer) => FirstAnswered(past, r.requestId, answer)
    case Ended(_, handleId) => HandleStarted(past, handleId)
    case Started(_, _, _, _) => true
  }

  ghost predicate JustHistory(log: seq<Event>)
  {
    forall i :: 0 <= i < |log| ==> Justified(log[..i], log[i])
  }

  ghost predicate HandlesRecorded(active: map<string, Active>, stopped: set<string>, calls: map<nat, Frame>,
                                  log: seq<Event>)
  {
    && (forall h :: h in active ==>
          Started(active[h].task, h, active[h].reservationId, active[h].fencingToken) in log)
    && (forall t :: t in calls ==> HandleStarted(log, calls[t].grant.handleId))
    && (forall h :: h in stopped ==> HandleStarted(log, h) && HandleEnded(log, h))
  }

  ghost predicate CancellationsRecorded(answers: map<string, CancellationAnswer>, waiters: map<nat, Waiter>,
                                        log: seq<Event>)
  {
    && (forall w :: w in waiters ==> CancelSent(waiters[w].task, waiters[w].request) in log)
    && (forall id :: id in answers ==> FirstAnswered(log, id, answers[id]))
  }

  /** The history is right and the fields agree with it. */
  ghost predicate Inv(s: State)
  {
    && JustHistory(s.log)
    && s.calls.Keys <= s.tasks.Keys
    && HandlesRecorded(s.registry.active, s.registry.stopped, s.calls, s.log)
    && CancellationsRecorded(s.registry.cancellations, s.waiters, s.log)
  }

  lemma JustHistoryGrows(log: seq<Event>, e: Event)
    requires JustHistory(log) && Justified(log, e)
    ensures JustHistory(log + [e])
  {
    forall i | 0 <= i < |log + [e]| ensures Justified((log + [e])[..i], (log + [e])[i]) {
      assert (log + [e])[..i] == log[..i];
      assert i == |log| ==> log[..i] == log;
    }
  }

  /** A longer history shows everything a shorter one does. */
  lemma HistoryGrows(log: seq<Event>, e: Event)
    ensures forall h :: HandleStarted(log, h) ==> HandleStarted(log + [e], h)
    ensures forall h :: HandleEnded(log, h) ==> HandleEnded(log + [e], h)
    ensures forall id, o :: FirstAnswered(log, id, o) ==> FirstAnswered(log + [e], id, o)
  {
    forall h | HandleStarted(log, h) ensures HandleStarted(log + [e], h) {
      var x :| x in log && x.Started? && x.handleId == h;
      assert x in log + [e];
    }
    forall h | HandleEnded(log, h) ensures HandleEnded(log + [e], h) {
      var x :| x in log && x.Ended? && x.handleId == h;
      assert x in log + [e];
    }
    assert forall x :: x in log ==> x in log + [e];
  }

  lemma HandlesRecordGrows(active: map<string, Active>, stopped: set<string>, calls: map<nat, Frame>, log: seq<Event>,
                           e: Event)
    requires HandlesRecorded(active, stopped, calls, log)
    ensures HandlesRecorded(active, stopped, calls, log + [e])
  {
    HistoryGrows(log, e);
  }

  lemma CancellationsRecordGrows(answers: map<string, CancellationAnswer>, waiters: map<nat, Waiter>, log: seq<Event>,
                                 e: Event)
    requires CancellationsRecorded(answers, waiters, log)
    ensures CancellationsRecorded(answers, waiters, log + [e])
    ensures e.Fresh? ==> CancellationsRecorded(answers[e.answer.request.requestId := e.answer], waiters, log + [e])
  {
    HistoryGrows(log, e);
    assert e in log + [e];
  }

  lemma GeneratesKeepsInv(s: State, d: Descriptor, g: ModelGrant, resultRef: Ref, clientKnown: bool, task: nat,
                          now: int)
    requires Inv(s)
    ensures Inv(Generates(s, d, g, resultRef, clientKnown, task, now))
  {
    var t := Generates(s, d, g, resultRef, clientKnown, task, now);
    if t.log != s.log {
      var e := Started(task, g.handleId, g.reservationId, g.fencingToken);
      JustHistoryGrows(s.log, e);
      HandlesRecordGrows(s.registry.active, s.registry.stopped, s.calls, s.log, e);
      CancellationsRecordGrows(s.registry.cancellations, s.waiters, s.log, e);
      assert e in t.log;
    }
  }

  lemma ResumesGenerateKeepsInv(s: State, task: nat, now: int)
    requires Inv(s)
    ensures Inv(ResumesGenerate(s, task, now))
  {
    var t := ResumesGenerate(s, task, now);
    if t.log != s.log {
      var e := Ended(task, s.calls[task].grant.handleId);
      JustHistoryGrows(s.log, e);
      HandlesRecordGrows(s.registry.active, s.registry.stopped, s.calls, s.log, e);
      CancellationsRecordGrows(s.registry.cancellations, s.waiters, s.log, e);
      assert e in t.log;
    }
  }

  /** Whatever a cancellation request meets, the event it causes is right. */
  lemma CancelEventIsJustified(s: State, r: CancellationRequest, now: int)
    requires Inv(s)
    ensures
      match BeginCancel(s.registry, r, now)
      case NotGenuine => true
      case Replay(answer) => Justified(s.log, Replayed(r, answer))
      case Answer(answer) => Justified(s.log, Fresh(answer))
      case Await(task) => Justified(s.log, CancelSent(task, r))
  {
  }

  /** One more event that is right keeps the invariant, with what it records. */
  lemma CancelEventKeepsInv(s: State, e: Event, waiter: nat)
    requires Inv(s) && Justified(s.log, e) && (e.CancelSent? || e.Fresh? || e.Replayed?)
    ensures e.Replayed? ==> Inv(s.(log := s.log + [e]))
    ensures e.Fresh? ==> Inv(s.(registry := Record(s.registry, e.answer), log := s.log + [e]))
    ensures e.CancelSent? ==>
              Inv(s.(waiters := s.waiters[waiter := Waiter(e.request, e.task)], log := s.log + [e]))
  {
    JustHistoryGrows(s.log, e);
    HandlesRecordGrows(s.registry.active, s.registry.stopped, s.calls, s.log, e);
    CancellationsRecordGrows(s.registry.cancellations, s.waiters, s.log, e);
    assert e in s.log + [e];
  }

  lemma CancelsKeepsInv(s: State, r: CancellationRequest, waiter: nat, now: int)
    requires Inv(s)
    ensures Inv(Cancels(s, r, waiter, now))
  {
    CancelEventIsJustified(s, r, now);
    match BeginCancel(s.registry, r, now)
    case NotGenuine =>
    case Replay(answer) => CancelEventKeepsInv(s, Replayed(r, answer), waiter);
    case Answer(answer) => CancelEventKeepsInv(s, Fresh(answer), waiter);
    case Await(task) => CancelEventKeepsInv(s, CancelSent(task, r), waiter);
  }

  lemma ResumesCancelKeepsInv(s: State, waiter: nat, now: int)
    requires Inv(s)
    ensures Inv(ResumesCancel(s, waiter, now))
  {
    var t := ResumesCancel(s, waiter, now);
    assert CancellationsRecorded(s.registry.cancellations, s.waiters - {waiter}, s.log);
    if t.log != s.log {
      var e := Fresh(CancellationAnswer(s.waiters[waiter].request, Cancelled, now));
      JustHistoryGrows(s.log, e);
      HandlesRecordGrows(s.registry.active, s.registry.stopped, s.calls, s.log, e);
      CancellationsRecordGrows(s.registry.cancellations, s.waiters - {waiter}, s.log, e);
    }
  }

  lemma StepKeepsInv(s: State, step: Step)
    requires Inv(s)
    ensures Inv(Next(s, step))
  {
    match step
    case Generate(d, g, resultRef, clientKnown, task, now) =>
      GeneratesKeepsInv(s, d, g, resultRef, clientKnown, task, now);
    case TaskEnds(_, _) =>
    case GenerateResumes(task, now) => ResumesGenerateKeepsInv(s, task, now);
    case Cancel(r, waiter, now) => CancelsKeepsInv(s, r, waiter, now);
    case CancelResumes(waiter, now) => ResumesCancelKeepsInv(s, waiter, now);
  }

  /** In every interleaving: a task is cancelled only by a request carrying the
      reservation and fence it was started with; ALREADY_FINISHED is answered
      only for a handle that ran and ended, CANCELLED only after a cancellation
      was sent; and a replay repeats an answer given before for that id. */
  lemma {:induction false} EveryHistoryIsJustified(steps: seq<Step>)
    ensures Inv(Run(steps))
  {
    if steps != [] {
      EveryHistoryIsJustified(steps[..|steps| - 1]);
      StepKeepsInv(Run(steps[..|steps| - 1]), steps[|steps| - 1]);
    }
  }

  /** Only the end of a call adds to the stopped handles, and only starts and
      ends change the active ones. */
  lemma StartsAndEndsTouchHandles(s: State, step: Step)
    ensures !step.GenerateResumes? ==> Next(s, step).registry.stopped == s.registry.stopped
    ensures !step.GenerateResumes? && !step.Generate? ==> Next(s, step).registry.active == s.registry.active
  {
    match step
    case Generate(d, g, resultRef, clientKnown, task, now) =>
    case TaskEnds(_, _) =>
    case GenerateResumes(_, _) =>
    case Cancel(r, waiter, now) =>
    case CancelResumes(waiter, now) =>
  }

  lemma LogGrows(s: State, step: Step)
    ensures s.log <= Next(s, step).log
  {
    match step
    case Generate(d, g, resultRef, clientKnown, task, now) =>
    case TaskEnds(_, _) =>
    case GenerateResumes(task, now) =>
    case Cancel(r, waiter, now) =>
    case CancelResumes(waiter, now) =>
  }

  lemma StepKeepsStopped(s: State, step: Step)
    ensures s.registry.stopped <= Next(s, step).registry.stopped
  {
    StartsAndEndsTouchHandles(s, step);
  }

  /** A stopped handle stays stopped, whatever happens next. */
  lemma {:induction false} StoppedIsPermanent(steps: seq<Step>, n: nat)
    requires n <= |steps|
    ensures Run(steps[..n]).registry.stopped <= Run(steps).registry.stopped
    decreases |steps|
  {
    if n < |steps| {
      var front := steps[..|steps| - 1];
      StoppedIsPermanent(front, n);
      assert front[..n] == steps[..n];
      StepKeepsStopped(Run(front), steps[|steps| - 1]);
    } else {
      assert steps[..n] == steps;
    }
  }

  // -------------------------------------------- handles started at most once

  ghost predicate StartsOnce(log: seq<Event>)
  {
    forall i, j :: 0 <= i < j < |log| && log[i].Started? && log[j].Started? ==> log[i].handleId != log[j].handleId
  }

  /** The registered handles are exactly those of the calls in flight, and none
      of them is stopped. */
  ghost predicate Apart(active: map<string, Active>, stopped: set<string>, calls: map<nat, Frame>)
  {
    && (forall t :: t in calls ==> calls[t].grant.handleId in active && active[calls[t].grant.handleId].task == t)
    && (forall h :: h in active ==> active[h].task in calls && calls[active[h].task].grant.handleId == h)
    && active.Keys !! stopped
  }

  ghost predicate Registered(s: State)
  {
    Apart(s.registry.active, s.registry.stopped, s.calls)
  }

  lemma FreshHandle(log: seq<Event>, e: Event)
    requires e.Started? && StartsOnce(log + [e])
    ensures !HandleStarted(log, e.handleId)
  {
    var all := log + [e];
    forall j | 0 <= j < |log| && log[j].Started? ensures log[j].handleId != e.handleId {
      assert all[j] == log[j] && all[|log|] == e;
    }
  }

  lemma StartStaysApart(active: map<string, Active>, stopped: set<string>, calls: map<nat, Frame>, a: Active, f: Frame)
    requires Apart(active, stopped, calls)
    requires f.grant.handleId !in active && f.grant.handleId !in stopped && a.task !in calls
    ensures Apart(active[f.grant.handleId := a], stopped, calls[a.task := f])
  {
  }

  lemma EndStaysApart(active: map<string, Active>, stopped: set<string>, calls: map<nat, Frame>, task: nat)
    requires Apart(active, stopped, calls) && task in calls
    ensures
      var h := calls[task].grant.handleId;
      Apart(active - {h}, stopped + {h}, calls - {task})
  {
  }

  lemma GeneratesStaysRegistered(s: State, d: Descriptor, g: ModelGrant, resultRef: Ref, clientKnown: bool, task: nat,
                                 now: int)
    requires Inv(s) && Registered(s)
    requires !HandleStarted(s.log, g.handleId)
    ensures Registered(Generates(s, d, g, resultRef, clientKnown, task, now))
  {
    if task !in s.tasks {
      var b := BeginGenerate(s.registry, d, g, resultRef, clientKnown, task, now);
      if b.begun.Waiting? {
        StartStaysApart(s.registry.active, s.registry.stopped, s.calls,
                        Active(task, g.reservationId, g.fencingToken), b.begun.frame);
      }
    }
  }

  lemma StepStaysRegistered(s: State, step: Step)
    requires Registered(s) && !step.Generate?
    ensures Registered(Next(s, step))
  {
    if step.GenerateResumes? && step.task in s.calls {
      EndStaysApart(s.registry.active, s.registry.stopped, s.calls, step.task);
    }
  }

  lemma UnstartedStaysRegistered(s: State, step: Step)
    requires Registered(s) && step.Generate? && Next(s, step).log == s.log
    ensures Registered(Next(s, step))
  {
  }

  /** As long as each handle is started at most once, no handle is both active
      and stopped, and the active handles are those of the calls in flight. */
  lemma {:induction false} ActiveHandlesAreNotStopped(steps: seq<Step>)
    requires StartsOnce(Run(steps).log)
    ensures Registered(Run(steps))
  {
    if steps != [] {
      var front := steps[..|steps| - 1];
      var s, step := Run(front), steps[|steps| - 1];
      LogGrows(s, step);
      assert forall i :: 0 <= i < |s.log| ==> s.log[i] == Run(steps).log[i];
      ActiveHandlesAreNotStopped(front);
      if !step.Generate? {
        StepStaysRegistered(s, step);
      } else if Next(s, step).log == s.log {
        UnstartedStaysRegistered(s, step);
      } else {
        EveryHistoryIsJustified(front);
        FreshHandle(s.log, Started(step.task, step.g.handleId, step.g.reservationId, step.g.fencingToken));
        GeneratesStaysRegistered(s, step.d, step.g, step.resultRef, step.clientKnown, step.task, step.now);
      }
    }
  }

  ghost predicate HandlesApart(s: State) { s.registry.active.Keys !! s.registry.stopped }

  /** The step starts a task for a handle that has been stopped. */
  predicate RestartsStopped(s: State, step: Step)
  {
    && step.Generate? && step.task !in s.tasks
    && BeginGenerate(s.registry, step.d, step.g, step.resultRef, step.clientKnown, step.task, step.now).begun.Waiting?
    && step.g.handleId in s.registry.stopped
  }

  lemma StartKeepsApartIff(s: State, step: Step)
    requires HandlesApart(s) && step.Generate?
    ensures HandlesApart(Next(s, step)) <==> !RestartsStopped(s, step)
  {
    var t := Next(s, step);
    var b := BeginGenerate(s.registry, step.d, step.g, step.resultRef, step.clientKnown, step.task, step.now);
    if step.task !in s.tasks && b.begun.Waiting? {
      assert t.registry.active.Keys == s.registry.active.Keys + {step.g.handleId};
      assert step.g.handleId in t.registry.active.Keys;
    }
  }

  /** The exact condition, which a caller can check before starting: a step leads
      from a state without handles that are both active and stopped to one with such
      a handle if and only if it starts a stopped handle. */
  lemma StepKeepsApartIff(s: State, step: Step)
    requires HandlesApart(s)
    ensures HandlesApart(Next(s, step)) <==> !RestartsStopped(s, step)
  {
    if step.Generate? {
      StartKeepsApartIff(s, step);
    } else {
      StartsAndEndsTouchHandles(s, step);
    }
  }

  ghost predicate ApartAt(steps: seq<Step>, n: nat)
    requires n <= |steps|
  {
    HandlesApart(Run(steps[..n]))
  }

  ghost predicate RestartsAt(steps: seq<Step>, n: nat)
    requires n < |steps|
  {
    RestartsStopped(Run(steps[..n]), steps[n])
  }

  lemma ApartStep(steps: seq<Step>, n: nat)
    requires n < |steps| && ApartAt(steps, n)
    ensures ApartAt(steps, n + 1) <==> !RestartsAt(steps, n)
  {
    assert steps[..n + 1][..n] == steps[..n];
    StepKeepsApartIff(Run(steps[..n]), steps[n]);
  }

  lemma {:induction false} ApartUpTo(steps: seq<Step>, n: nat)
    requires n <= |steps| && forall m :: 0 <= m < |steps| ==> !RestartsAt(steps, m)
    ensures ApartAt(steps, n)
  {
    if n > 0 {
      ApartUpTo(steps, n - 1);
      ApartStep(steps, n - 1);
    }
  }

  /** Over every run: no handle is ever both if and only if no stopped handle is
      started. */
  lemma AlwaysApartIff(steps: seq<Step>)
    ensures (forall n :: 0 <= n <= |steps| ==> ApartAt(steps, n)) <==>
            (forall n :: 0 <= n < |steps| ==> !RestartsAt(steps, n))
  {
    if forall n :: 0 <= n <= |steps| ==> ApartAt(steps, n) {
      forall n | 0 <= n < |steps| ensures !RestartsAt(steps, n) { ApartStep(steps, n); }
    } else if forall n :: 0 <= n < |steps| ==> !RestartsAt(steps, n) {
      forall n | 0 <= n <= |steps| ensures ApartAt(steps, n) { ApartUpTo(steps, n); }
    }
  }

  /** Restarting a finished handle is possible and breaks it. */
  lemma RestartedHandleIsActiveAndStopped(d: Descriptor, d': Descriptor, g: ModelGrant, g': ModelGrant, ref: Ref,
                                          now: int)
    requires d.genuine && d'.genuine && g.genuine && g'.genuine && g.Binds(d) && g'.Binds(d')
    requires d.mode == d'.mode == DirectRequest
    requires g.handleId == g'.handleId && d.idempotencyKey != d'.idempotencyKey
    ensures
      var s := Run([Generate(d, g, ref, true, 0, now), TaskEnds(0, RaisedError), GenerateResumes(0, now),
                    Generate(d', g', ref, true, 1, now)]);
      g.handleId in s.registry.active && g.handleId in s.registry.stopped
  {
    var a, b, c, e := Generate(d, g, ref, true, 0, now), TaskEnds(0, RaisedError), GenerateResumes(0, now),
                      Generate(d', g', ref, true, 1, now);
    var steps := [a, b, c, e];
    assert steps[..3] == [a, b, c] && [a, b, c][..2] == [a, b] && [a, b][..1] == [a] && [a][..0] == [];
    assert Run([a]) == Next(INITIAL, a);
    assert Run([a, b]) == Next(Run([a]), b);
    assert Run([a, b, c]) == Next(Run([a, b]), c);
    assert Run(steps) == Next(Run([a, b, c]), e);
  }

  // ---------------------------------------------------- repeated cancellations

  /** No cancellation is requested again while one with its id still waits. */
  ghost predicate NonOverlapping(steps: seq<Step>)
  {
    forall n, w :: 0 <= n < |steps| && steps[n].Cancel? && w in Run(steps[..n]).waiters ==>
      Run(steps[..n]).waiters[w].request.requestId != steps[n].request.requestId
  }

  /** Nobody waits under an id that has been answered, or twice under one id. */
  ghost predicate WaitersUnanswered(s: State)
  {
    && (forall w :: w in s.waiters ==> s.waiters[w].request.requestId !in s.registry.cancellations)
    && (forall w, w' :: w in s.waiters && w' in s.waiters && w != w' ==>
          s.waiters[w].request.requestId != s.waiters[w'].request.requestId)
  }

  ghost predicate AnswersKept(older: Registry, newer: Registry)
  {
    forall id :: id in older.cancellations ==>
      id in newer.cancellations && newer.cancellations[id] == older.cancellations[id]
  }

  lemma OnlyCancelsTouchAnswers(s: State, step: Step)
    requires !step.Cancel? && !step.CancelResumes?
    ensures Next(s, step).waiters == s.waiters
    ensures Next(s, step).registry.cancellations == s.registry.cancellations
  {
    match step
    case Generate(d, g, resultRef, clientKnown, task, now) =>
    case TaskEnds(_, _) =>
    case GenerateResumes(task, now) =>
  }

  lemma StepKeepsAnswers(s: State, step: Step)
    requires WaitersUnanswered(s)
    requires step.Cancel? ==> forall w :: w in s.waiters ==> s.waiters[w].request.requestId != step.request.requestId
    ensures WaitersUnanswered(Next(s, step))
    ensures AnswersKept(s.registry, Next(s, step).registry)
  {
    if step.Cancel? {
      CancelsKeepsAnswers(s, step.request, step.waiter, step.now);
    } else if !step.CancelResumes? {
      OnlyCancelsTouchAnswers(s, step);
    }
  }

  lemma CancelsKeepsAnswers(s: State, r: CancellationRequest, waiter: nat, now: int)
    requires WaitersUnanswered(s)
    requires forall w :: w in s.waiters ==> s.waiters[w].request.requestId != r.requestId
    ensures WaitersUnanswered(Cancels(s, r, waiter, now))
    ensures AnswersKept(s.registry, Cancels(s, r, waiter, now).registry)
  {
  }

  lemma {:induction false} WaitersStayUnanswered(steps: seq<Step>)
    requires NonOverlapping(steps)
    ensures WaitersUnanswered(Run(steps))
  {
    if steps != [] {
      var n := |steps| - 1;
      var front := steps[..n];
      assert forall m :: 0 <= m < n ==> front[..m] == steps[..m] && front[m] == steps[m];
      WaitersStayUnanswered(front);
      StepKeepsAnswers(Run(front), steps[n]);
    }
  }

  /** Without overlap the first answer to a cancellation id is final. */
  lemma {:induction false} AnswersAreFinal(steps: seq<Step>, n: nat)
    requires NonOverlapping(steps) && n <= |steps|
    ensures AnswersKept(Run(steps[..n]).registry, Run(steps).registry)
    decreases |steps|
  {
    if n < |steps| {
      var last := |steps| - 1;
      var front := steps[..last];
      assert forall m :: 0 <= m <= last ==> front[..m] == steps[..m];
      assert forall m :: 0 <= m < last ==> front[m] == steps[m];
      AnswersAreFinal(front, n);
      WaitersStayUnanswered(front);
      StepKeepsAnswers(Run(front), steps[last]);
    } else {
      assert steps[..n] == steps;
    }
  }

  /** A later request with an answered id is a replay of that first answer. */
  lemma RepeatedCancellationReplays(steps: seq<Step>, n: nat, r: CancellationRequest, now: int)
    requires NonOverlapping(steps) && n <= |steps|
    requires r.requestId in Run(steps[..n]).registry.cancellations
    ensures BeginCancel(Run(steps).registry, r, now)
         == if r.genuine then Replay(Run(steps[..n]).registry.cancellations[r.requestId]) else NotGenuine
  {
    AnswersAreFinal(steps, n);
  }

  /** A waiter under an answered id resumes after its task ended without an error of
      its own, with an answer other than the recorded one. */
  predicate Overwrites(s: State, step: Step, id: string)
  {
    && step.CancelResumes? && step.waiter in s.waiters && id in s.registry.cancellations
    && var w := s.waiters[step.waiter];
       && w.request.requestId == id
       && w.task in s.tasks && s.tasks[w.task].Some?
       && (s.tasks[w.task].value.Returned? || s.tasks[w.task].value.CancelledTask?)
       && s.registry.cancellations[id] != CancellationAnswer(w.request, Cancelled, step.now)
  }

  /** With overlap it is not: the exact step at which a recorded answer changes. */
  lemma AnswerChangesIff(s: State, step: Step, id: string)
    requires id in s.registry.cancellations
    ensures
      var t := Next(s, step);
      && id in t.registry.cancellations
      && (t.registry.cancellations[id] != s.registry.cancellations[id] <==> Overwrites(s, step, id))
  {
    if !step.Cancel? && !step.CancelResumes? {
      OnlyCancelsTouchAnswers(s, step);
    }
  }

  ghost predicate KeepsAnswersAt(steps: seq<Step>, n: nat)
    requires n < |steps|
  {
    AnswersKept(Run(steps[..n]).registry, Run(steps[..n + 1]).registry)
  }

  ghost predicate OverwritesAt(steps: seq<Step>, n: nat)
    requires n < |steps|
  {
    exists id :: Overwrites(Run(steps[..n]), steps[n], id)
  }

  lemma AnswersStep(steps: seq<Step>, n: nat)
    requires n < |steps|
    ensures KeepsAnswersAt(steps, n) <==> !OverwritesAt(steps, n)
  {
    assert steps[..n + 1][..n] == steps[..n];
    var s, step := Run(steps[..n]), steps[n];
    forall id | id in s.registry.cancellations
      ensures id in Next(s, step).registry.cancellations
      ensures Next(s, step).registry.cancellations[id] != s.registry.cancellations[id] <==> Overwrites(s, step, id)
    {
      AnswerChangesIff(s, step, id);
    }
    if OverwritesAt(steps, n) {
      var id :| Overwrites(s, step, id);
      assert id in s.registry.cancellations;
    }
  }

  lemma {:induction false} AnswersKeptFrom(steps: seq<Step>, m: nat, n: nat)
    requires m <= n <= |steps| && forall k :: 0 <= k < |steps| ==> KeepsAnswersAt(steps, k)
    ensures AnswersKept(Run(steps[..m]).registry, Run(steps[..n]).registry)
    decreases n - m
  {
    if m < n {
      AnswersKeptFrom(steps, m, n - 1);
      assert KeepsAnswersAt(steps, n - 1);
    }
  }

  /** Recorded answers are final at every point of a run. */
  ghost predicate AnswersFinal(steps: seq<Step>)
  {
    forall m, n :: 0 <= m <= n <= |steps| ==> AnswersKept(Run(steps[..m]).registry, Run(steps[..n]).registry)
  }

  /** Over every run: recorded answers are final if and only if no step overwrites
      one. */
  lemma AnswersFinalIff(steps: seq<Step>)
    ensures AnswersFinal(steps) <==> forall n :: 0 <= n < |steps| ==> !OverwritesAt(steps, n)
  {
    forall n | 0 <= n < |steps| ensures KeepsAnswersAt(steps, n) <==> !OverwritesAt(steps, n) {
      AnswersStep(steps, n);
    }
    if forall n :: 0 <= n < |steps| ==> !OverwritesAt(steps, n) {
      forall m, n | 0 <= m <= n <= |steps| ensures AnswersKept(Run(steps[..m]).registry, Run(steps[..n]).registry) {
        AnswersKeptFrom(steps, m, n);
      }
    } else {
      var n :| 0 <= n < |steps| && OverwritesAt(steps, n);
      assert !KeepsAnswersAt(steps, n);
    }
  }

  /** A run that does it: while a cancellation waits for its task, a second request
      under its id but with another fence is answered FAILED; when the first resumes,
      that answer becomes CANCELLED. */
  lemma OverlappingCancellationsChangeAnswer(d: Descriptor, g: ModelGrant, ref: Ref, r: CancellationRequest,
                                             r': CancellationRequest, now: int, later: int)
    requires d.genuine && g.genuine && g.Binds(d) && d.mode == DirectRequest
    requires r.genuine && r.handleId == g.handleId && r.reservationId == g.reservationId
    requires r.fencingToken == g.fencingToken
    requires r'.genuine && r'.requestId == r.requestId && r'.handleId == r.handleId && r'.fencingToken != r.fencingToken
    ensures
      var before := [Generate(d, g, ref, true, 0, now)] + [Cancel(r, 0, now)] + [Cancel(r', 1, now)]
                    + [TaskEnds(0, CancelledTask)];
      var after := before + [CancelResumes(0, later)];
      && r.requestId in Run(before).registry.cancellations
      && Run(before).registry.cancellations[r.requestId] == CancellationAnswer(r', CancellationFailed, now)
      && r.requestId in Run(after).registry.cancellations
      && Run(after).registry.cancellations[r.requestId] == CancellationAnswer(r, Cancelled, later)
  {
    var a, b, c, e := Generate(d, g, ref, true, 0, now), Cancel(r, 0, now), Cancel(r', 1, now),
                      TaskEnds(0, CancelledTask);
    RunOneMore([], a);
    assert [] + [a] == [a];
    RunOneMore([a], b);
    RunOneMore([a] + [b], c);
    RunOneMore([a] + [b] + [c], e);
    RunOneMore([a] + [b] + [c] + [e], CancelResumes(0, later));
  }

  lemma RunOneMore(steps: seq<Step>, step: Step)
    ensures Run(steps + [step]) == Next(Run(steps), step)
  {
    assert (steps + [step])[..|steps|] == steps;
  }
}
