/** The answers to stop requests that the model registry remembers: when they change,
    and when they are final. */
module HandleAnswers {
  import opened HandleRegistry

  ghost predicate AnswersKept(older: map<string, StopAnswer>, newer: map<string, StopAnswer>)
  {
    forall id :: id in older ==> id in newer && newer[id] == older[id]
  }

  /** A stop under an answered id resumes with an answer other than the recorded one. */
  predicate Overwrites(s: State, step: Step, id: string)
  {
    && step.StopResumes? && step.stop in s.stops && s.remembers && id in s.answers
    && var r := s.stops[step.stop].request;
       r.requestId == id
       && s.answers[id] != StopAnswer(r, if step.cancelled then Stopped else StopFailed, step.now)
  }

  lemma OnlyStopsTouchAnswers(s: State, step: Step)
    requires !step.Stop? && !step.StopResumes?
    ensures Next(s, step).answers == s.answers && Next(s, step).stops == s.stops
  {
  }

  /** The exact step at which a remembered answer changes. */
  lemma AnswerChangesIff(s: State, step: Step, id: string)
    requires id in s.answers
    ensures id in Next(s, step).answers
    ensures Next(s, step).answers[id] != s.answers[id] <==> Overwrites(s, step, id)
  {
    if !step.Stop? && !step.StopResumes? {
      OnlyStopsTouchAnswers(s, step);
    }
  }

  ghost predicate KeepsAnswersAt(remembers: bool, steps: seq<Step>, n: nat)
    requires n < |steps|
  {
    AnswersKept(After(remembers, steps[..n]).answers, After(remembers, steps[..n + 1]).answers)
  }

  ghost predicate OverwritesAt(remembers: bool, steps: seq<Step>, n: nat)
    requires n < |steps|
  {
    exists id :: Overwrites(After(remembers, steps[..n]), steps[n], id)
  }

  lemma AnswersStep(remembers: bool, steps: seq<Step>, n: nat)
    requires n < |steps|
    ensures KeepsAnswersAt(remembers, steps, n) <==> !OverwritesAt(remembers, steps, n)
  {
    assert steps[..n + 1][..n] == steps[..n];
    var s, step := After(remembers, steps[..n]), steps[n];
    forall id | id in s.answers
      ensures id in Next(s, step).answers
      ensures Next(s, step).answers[id] != s.answers[id] <==> Overwrites(s, step, id)
    {
      AnswerChangesIff(s, step, id);
    }
    if OverwritesAt(remembers, steps, n) {
      var id :| Overwrites(s, step, id);
      assert id in s.answers;
    }
  }

  lemma {:induction false} AnswersKeptFrom(remembers: bool, steps: seq<Step>, m: nat, n: nat)
    requires m <= n <= |steps| && forall k :: 0 <= k < |steps| ==> KeepsAnswersAt(remembers, steps, k)
    ensures AnswersKept(After(remembers, steps[..m]).answers, After(remembers, steps[..n]).answers)
    decreases n - m
  {
    if m < n {
      AnswersKeptFrom(remembers, steps, m, n - 1);
      assert KeepsAnswersAt(remembers, steps, n - 1);
    }
  }

  /** Remembered answers are final at every point of a run. */
  ghost predicate AnswersFinal(remembers: bool, steps: seq<Step>)
  {
    forall m, n :: 0 <= m <= n <= |steps| ==>
      AnswersKept(After(remembers, steps[..m]).answers, After(remembers, steps[..n]).answers)
  }

  /** Over every run: remembered answers are final if and only if no step overwrites
      one. */
  lemma AnswersFinalIff(remembers: bool, steps: seq<Step>)
    ensures AnswersFinal(remembers, steps) <==> forall n :: 0 <= n < |steps| ==> !OverwritesAt(remembers, steps, n)
  {
    forall n | 0 <= n < |steps| ensures KeepsAnswersAt(remembers, steps, n) <==> !OverwritesAt(remembers, steps, n) {
      AnswersStep(remembers, steps, n);
    }
    if forall n :: 0 <= n < |steps| ==> !OverwritesAt(remembers, steps, n) {
      forall m, n | 0 <= m <= n <= |steps|
        ensures AnswersKept(After(remembers, steps[..m]).answers, After(remembers, steps[..n]).answers)
      {
        AnswersKeptFrom(remembers, steps, m, n);
      }
    } else {
      var n :| 0 <= n < |steps| && OverwritesAt(remembers, steps, n);
      assert !KeepsAnswersAt(remembers, steps, n);
    }
  }

  /** No stop is requested again while one with its id still waits. */
  ghost predicate NonOverlapping(remembers: bool, steps: seq<Step>)
  {
    forall n :: 0 <= n < |steps| && steps[n].Stop? ==>
      !Awaited(After(remembers, steps[..n]).stops, steps[n].request.requestId)
  }

  ghost predicate Awaited(stops: map<nat, Pending>, id: string)
  {
    exists i :: i in stops && stops[i].request.requestId == id
  }

  /** Nobody waits under an answered id, or twice under one id. */
  ghost predicate Unanswered(stops: map<nat, Pending>, answers: map<string, StopAnswer>)
  {
    && (forall i :: i in stops ==> stops[i].request.requestId !in answers)
    && (forall i, j :: i in stops && j in stops && i != j ==> stops[i].request.requestId != stops[j].request.requestId)
  }

  lemma PendingLeaves(stops: map<nat, Pending>, answers: map<string, StopAnswer>, i: nat, a: StopAnswer)
    requires Unanswered(stops, answers) && i in stops && a.request == stops[i].request
    ensures Unanswered(stops - {i}, answers)
    ensures Unanswered(stops - {i}, answers[a.request.requestId := a])
  {
  }

  lemma PendingComes(stops: map<nat, Pending>, answers: map<string, StopAnswer>, i: nat, p: Pending, a: StopAnswer)
    requires Unanswered(stops, answers) && !Awaited(stops, p.request.requestId) && a.request == p.request
    ensures p.request.requestId !in answers ==> Unanswered(stops[i := p], answers)
    ensures Unanswered(stops, answers[a.request.requestId := a])
  {
    assert forall j :: j in stops ==> stops[j].request.requestId != p.request.requestId;
  }

  lemma StepStaysUnanswered(s: State, step: Step)
    requires Unanswered(s.stops, s.answers) && (step.Stop? ==> !Awaited(s.stops, step.request.requestId))
    ensures Unanswered(Next(s, step).stops, Next(s, step).answers)
  {
    if step.Stop? {
      var r := step.request;
      var entry := if r.handleId in s.active then s.active[r.handleId] else Entry("", "", 0);
      var outcome := if r.handleId !in s.active && r.handleId in s.stopped then AlreadyStopped else StopFailed;
      PendingComes(s.stops, s.answers, step.stop, Pending(r, entry, |s.log|), StopAnswer(r, outcome, step.now));
    } else if step.StopResumes? {
      if step.stop in s.stops {
        var outcome := if step.cancelled then Stopped else StopFailed;
        PendingLeaves(s.stops, s.answers, step.stop, StopAnswer(s.stops[step.stop].request, outcome, step.now));
      }
    } else {
      OnlyStopsTouchAnswers(s, step);
    }
  }

  lemma {:induction false} StaysUnanswered(remembers: bool, steps: seq<Step>, n: nat)
    requires NonOverlapping(remembers, steps) && n <= |steps|
    ensures Unanswered(After(remembers, steps[..n]).stops, After(remembers, steps[..n]).answers)
  {
    if n > 0 {
      StaysUnanswered(remembers, steps, n - 1);
      assert steps[..n][..n - 1] == steps[..n - 1];
      StepStaysUnanswered(After(remembers, steps[..n - 1]), steps[n - 1]);
    }
  }

  /** Without overlap a remembered answer never changes. */
  lemma AnswersAreFinal(remembers: bool, steps: seq<Step>)
    requires NonOverlapping(remembers, steps)
    ensures AnswersFinal(remembers, steps)
  {
    forall n | 0 <= n < |steps| ensures !OverwritesAt(remembers, steps, n) {
      StaysUnanswered(remembers, steps, n);
    }
    AnswersFinalIff(remembers, steps);
  }

  /** A run with overlap in which one does: a second request under the same id but
      with another fence is answered FAILED, and then the first one resumes. */
  lemma OverlappingStopsChangeAnswer(g: Grant, runHandle: string, r: StopRequest)
    requires runHandle != "" && r.genuine && r.requestId == StopFor(g).requestId && r.handleId == g.handleId
    requires r.fencingToken != g.fencingToken
    ensures
      var before := StopSent(g, runHandle) + [Stop(1, r, 0)];
      var after := before + [StopResumes(0, true, 0)];
      && r.requestId in After(true, before).answers
      && After(true, before).answers[r.requestId].outcome == StopFailed
      && r.requestId in After(true, after).answers
      && After(true, after).answers[r.requestId].outcome == Stopped
  {
    StopSentState(true, g, runHandle);
    PlayOneMore(Initial(true), StopSent(g, runHandle), Stop(1, r, 0));
    PlayOneMore(Initial(true), StopSent(g, runHandle) + [Stop(1, r, 0)], StopResumes(0, true, 0));
  }
}
