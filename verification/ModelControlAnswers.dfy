/** Which answer a cancellation request gets, exactly, in every interleaving of the
    model-control facade: read off the starts and ends that came before it. */
module ModelControlAnswers {
  import opened Prelude
  import opened ModelControlTypes
  import opened ModelControl
  import opened ModelControlProtocol

  /** The invocation that was started last under a handle and has not ended since. */
  function InCharge(log: seq<Event>, handleId: string): set<Active>
  {
    if log == [] then {}
    else
      var e := log[|log| - 1];
      if e.Started? && e.handleId == handleId then {Active(e.task, e.reservationId, e.fencingToken)}
      else if e.Ended? && e.handleId == handleId then {}
      else InCharge(log[..|log| - 1], handleId)
  }

  /** The decision on a request is the one its history calls for: the task in charge
      is cancelled if reservation and fence are its own; ALREADY_FINISHED if nothing is
      in charge and something has ended; FAILED in all other cases. */
  ghost predicate Decided(past: seq<Event>, e: Event)
  {
    match e
    case CancelSent(task, r) => InCharge(past, r.handleId) == {Active(task, r.reservationId, r.fencingToken)}
    case Fresh(CancellationAnswer(r, AlreadyFinished, _)) =>
      InCharge(past, r.handleId) == {} && HandleEnded(past, r.handleId)
    case Fresh(CancellationAnswer(r, CancellationFailed, _)) =>
      && (InCharge(past, r.handleId) == {} ==> !HandleEnded(past, r.handleId))
      && (forall a :: a in InCharge(past, r.handleId) ==>
            a.reservationId != r.reservationId || a.fencingToken != r.fencingToken)
    case _ => true
  }

  ghost predicate AllDecided(log: seq<Event>)
  {
    forall i :: 0 <= i < |log| ==> Decided(log[..i], log[i])
  }

  /** Active handles are those with an invocation in charge, stopped ones those under
      which something has ended. */
  ghost predicate Exact(active: map<string, Active>, stopped: set<string>, log: seq<Event>)
  {
    && (forall h :: InCharge(log, h) == if h in active then {active[h]} else {})
    && (forall h :: h in stopped <==> HandleEnded(log, h))
  }

  ghost predicate Settled(s: State)
  {
    AllDecided(s.log) && Exact(s.registry.active, s.registry.stopped, s.log)
  }

  lemma DecidedAppend(log: seq<Event>, e: Event)
    requires AllDecided(log) && Decided(log, e)
    ensures AllDecided(log + [e])
  {
    forall i | 0 <= i < |log + [e]| ensures Decided((log + [e])[..i], (log + [e])[i]) {
      assert (log + [e])[..i] == log[..i];
      assert i == |log| ==> log[..i] == log;
    }
  }

  lemma InChargeAppend(log: seq<Event>, e: Event, h: string)
    ensures InCharge(log + [e], h)
         == if e.Started? && e.handleId == h then {Active(e.task, e.reservationId, e.fencingToken)}
            else if e.Ended? && e.handleId == h then {}
            else InCharge(log, h)
    ensures HandleEnded(log + [e], h) <==> HandleEnded(log, h) || (e.Ended? && e.handleId == h)
  {
    assert (log + [e])[..|log|] == log;
    assert forall x :: x in log + [e] <==> x in log || x == e;
  }

  lemma ExactAppend(active: map<string, Active>, stopped: set<string>, log: seq<Event>, e: Event)
    requires Exact(active, stopped, log)
    ensures
      match e
      case Started(task, h, reservationId, fencingToken) =>
        Exact(active[h := Active(task, reservationId, fencingToken)], stopped, log + [e])
      case Ended(_, h) => Exact(active - {h}, stopped + {h}, log + [e])
      case _ => Exact(active, stopped, log + [e])
  {
    forall h { InChargeAppend(log, e, h); }
  }

  lemma GeneratesStaysSettled(s: State, step: Step)
    requires Settled(s) && step.Generate?
    ensures Settled(Next(s, step))
  {
    var t := Next(s, step);
    if t.log != s.log {
      var e := Started(step.task, step.g.handleId, step.g.reservationId, step.g.fencingToken);
      DecidedAppend(s.log, e);
      ExactAppend(s.registry.active, s.registry.stopped, s.log, e);
    }
  }

  lemma ResumesStaysSettled(s: State, task: nat, now: int)
    requires Settled(s)
    ensures Settled(ResumesGenerate(s, task, now))
  {
    var t := ResumesGenerate(s, task, now);
    if t.log != s.log {
      var e := Ended(task, s.calls[task].grant.handleId);
      DecidedAppend(s.log, e);
      ExactAppend(s.registry.active, s.registry.stopped, s.log, e);
    }
  }

  /** An event that starts and ends nothing. */
  lemma NoteStaysSettled(log: seq<Event>, active: map<string, Active>, stopped: set<string>, e: Event)
    requires AllDecided(log) && Exact(active, stopped, log) && Decided(log, e) && !e.Started? && !e.Ended?
    ensures AllDecided(log + [e]) && Exact(active, stopped, log + [e])
  {
    DecidedAppend(log, e);
    ExactAppend(active, stopped, log, e);
  }

  lemma CancelIsDecided(s: State, r: CancellationRequest, now: int)
    requires Settled(s)
    ensures
      match BeginCancel(s.registry, r, now)
      case Answer(answer) => Decided(s.log, Fresh(answer))
      case Await(task) => Decided(s.log, CancelSent(task, r))
      case _ => true
  {
    var h := r.handleId;
    assert InCharge(s.log, h) == if h in s.registry.active then {s.registry.active[h]} else {};
    assert h in s.registry.stopped <==> HandleEnded(s.log, h);
  }

  lemma CancelsStaysSettled(s: State, r: CancellationRequest, waiter: nat, now: int)
    requires Settled(s)
    ensures Settled(Cancels(s, r, waiter, now))
  {
    CancelIsDecided(s, r, now);
    match BeginCancel(s.registry, r, now)
    case NotGenuine =>
    case Replay(answer) => NoteStaysSettled(s.log, s.registry.active, s.registry.stopped, Replayed(r, answer));
    case Answer(answer) => NoteStaysSettled(s.log, s.registry.active, s.registry.stopped, Fresh(answer));
    case Await(task) => NoteStaysSettled(s.log, s.registry.active, s.registry.stopped, CancelSent(task, r));
  }

  lemma ResumesCancelStaysSettled(s: State, waiter: nat, now: int)
    requires Settled(s)
    ensures Settled(ResumesCancel(s, waiter, now))
  {
    var t := ResumesCancel(s, waiter, now);
    if t.log != s.log {
      var e := Fresh(CancellationAnswer(s.waiters[waiter].request, Cancelled, now));
      NoteStaysSettled(s.log, s.registry.active, s.registry.stopped, e);
    }
  }

  lemma StepStaysSettled(s: State, step: Step)
    requires Settled(s)
    ensures Settled(Next(s, step))
  {
    match step
    case Generate(_, _, _, _, _, _) => GeneratesStaysSettled(s, step);
    case TaskEnds(_, _) =>
    case GenerateResumes(task, now) => ResumesStaysSettled(s, task, now);
    case Cancel(r, waiter, now) => CancelsStaysSettled(s, r, waiter, now);
    case CancelResumes(waiter, now) => ResumesCancelStaysSettled(s, waiter, now);
  }

  /** In every interleaving each new decision on a cancellation request is exactly the
      one its history calls for, and the facade's fields are what the history says. */
  lemma {:induction false} EveryCancellationIsDecided(steps: seq<Step>)
    ensures Settled(Run(steps))
  {
    if steps != [] {
      EveryCancellationIsDecided(steps[..|steps| - 1]);
      StepStaysSettled(Run(steps[..|steps| - 1]), steps[|steps| - 1]);
    }
  }

  /** What a genuine call does before it waits, said of its fields: it is let through
      only with a grant made for it, answered from its key if it can be, and otherwise
      registered with its reservation and fence. */
  lemma CallBeginsIff(s: Registry, d: Descriptor, g: ModelGrant, ref: Ref, clientKnown: bool, task: nat, now: int)
    ensures
      var b := BeginGenerate(s, d, g, ref, clientKnown, task, now);
      var bound := d.genuine && g.genuine && d.mode == DirectRequest && g.descriptorRef == d.ref
                   && g.modelProfileRef == d.modelProfileRef && g.requestAllowance == d.requestAllowance
                   && g.tokenAllowance == d.tokenAllowance && g.outputTokenLimit == d.outputTokenAllowance;
      && (b.begun.Waiting? <==> bound && d.idempotencyKey !in s.cache && clientKnown)
      && (b.begun.Waiting? ==>
            && b.registry.active == s.active[g.handleId := Active(task, g.reservationId, g.fencingToken)]
            && b.begun.frame.grant == g && b.begun.frame.idempotencyKey == d.idempotencyKey)
      && (!b.begun.Waiting? ==> b.registry.active == s.active)
      && (b.begun.Refused? <==>
            || !bound
            || (d.idempotencyKey in s.cache &&
                s.cache[d.idempotencyKey].requestKey != RequestKey(d.ref.objectSha256, g.ref.objectSha256, ref)))
      && b.registry.stopped == s.stopped
  {
  }
}
