/** What the runtime stream adapter demands and yields, said of the legacy runtime's
    own event types, counts and error codes. */
module RuntimeReport {
  import opened Prelude
  import M = Metering
  import opened RuntimeStream

  // --------------------------------------------------------------- what is yielded

  /** Which unified kind a source event is reported as. */
  ghost predicate SameKind(t: M.EventType, k: Kind)
  {
    && (k == RunStarted <==> t == M.RuntimeStarted) && (k == RunCompleted <==> t == M.RuntimeFinished)
    && (k == RunFailed <==> t == M.RuntimeFailed) && (k == UsageReported <==> t == M.UsageReport)
    && (k == ToolCallStarted <==> t == M.ToolStarted) && (k == ToolCallProgress <==> t == M.ToolProgress)
    && (k == ToolCallCompleted <==> t == M.ToolFinished) && (k == ModelOutputDelta <==> t == M.MessageDelta)
    && (k == ArtifactChanged <==> t == M.ArtifactWritten) && (k == WarningRaised <==> t == M.Warning)
  }

  ghost predicate IsToolEvent(t: M.EventType) { t in {M.ToolStarted, M.ToolProgress, M.ToolFinished} }

  /** Which failure code an error code is reported as. */
  ghost predicate SameFailure(e: Option<M.ErrorCode>, f: FailureCode)
  {
    && (f == UnknownFailure <==> e == None)
    && (f == Timeout <==> e == Some(M.Timeout)) && (f == Cancelled <==> e == Some(M.CancelledRun))
    && (f == AuthenticationFailed <==> e == Some(M.AuthUnavailable))
    && (f == ModelUnavailable <==> e == Some(M.ModelUnavailable))
    && (f == ToolDenied <==> e in {Some(M.ToolDenied), Some(M.PathEscape)})
    && (f == InvalidRequest <==> e == Some(M.BudgetExceeded))
    && (f == ProtocolError <==> e == Some(M.ProtocolError))
    && (f == TransportFailed <==> e == Some(M.ProcessError))
  }

  /** The unified event says what the source event says, and no more. */
  ghost predicate Reports(c: Context, s: Source, u: Unified)
  {
    && u.runId == s.runId == c.runId && u.workId == s.artifactId == c.artifactId
    && u.runtimeId == s.runtime == c.runtimeId && u.sequence == s.sequence
    && SameKind(s.eventType, u.kind)
    && u.toolCall == (if IsToolEvent(s.eventType) then Some(s.toolCallId) else None)
    && (if s.eventType == M.UsageReport then
          && s.usage.Some? && u.usage.Some? && u.usage.value.reported == s.usage.value
          && u.usage.value.modelRequests in {1, s.usage.value.turns}
          && u.usage.value.modelRequests >= 1 && u.usage.value.modelRequests >= s.usage.value.turns
        else u.usage.None?)
    && (if s.eventType == M.RuntimeFailed then u.failure.Some? && SameFailure(s.errorCode, u.failure.value)
        else u.failure.None?)
  }

  lemma KindIs(t: M.EventType)
    ensures SameKind(t, KindOf(t))
  {
  }

  lemma FailureIs(e: Option<M.ErrorCode>)
    ensures SameFailure(e, FailureOf(e))
  {
  }

  lemma NormalizeReports(c: Context, items: seq<Item>, i: nat)
    requires i < |items| && EventOk(c, items, i)
    ensures Reports(c, items[i].source, Normalize(c, items[i].source))
  {
    KindIs(items[i].source.eventType);
    FailureIs(items[i].source.errorCode);
  }

  /** What has been yielded met the protocol. */
  lemma {:induction false} YieldedMetProtocol(c: Context, items: seq<Item>, j: nat)
    requires j < |After(c, items).yielded|
    ensures j < |items| && EventOk(c, items, j)
  {
    LoopMirrorsStream(c, items);
    var front := items[..|items| - 1];
    if j < |After(c, front).yielded| {
      YieldedMetProtocol(c, front, j);
      EventOkInPrefix(c, items, |front|, j);
    } else {
      TurnShape(c, After(c, front), items[|items| - 1]);
      AcceptsExactlyTheProtocol(c, items);
    }
  }

  /** Whatever the source does, every yielded event reports the source event at its
      place: its kind, its tool call, its usage and its failure. */
  lemma YieldsReportSources(c: Context, items: seq<Item>, j: nat)
    requires j < |After(c, items).yielded|
    ensures j < |items| && Reports(c, items[j].source, After(c, items).yielded[j])
  {
    YieldedMetProtocol(c, items, j);
    LoopMirrorsStream(c, items);
    NormalizeReports(c, items, j);
  }

  // -------------------------------------------------------------- what is demanded

  const MILLIONS := 10_000_000
  const BILLIONS := 10_000_000_000

  ghost predicate CountsOk(u: Usage)
  {
    && 0 <= u.turns <= MILLIONS && 0 <= u.toolCalls <= MILLIONS
    && 0 <= u.inputTokens <= BILLIONS && 0 <= u.outputTokens <= BILLIONS
    && 0 <= u.cacheCreationTokens <= BILLIONS && 0 <= u.cacheReadTokens <= BILLIONS
  }

  ghost predicate Ends(s: Source) { s.eventType in {M.RuntimeFinished, M.RuntimeFailed} }

  /** The protocol for event `i`, in the source's own terms. */
  ghost predicate SourceOk(c: Context, items: seq<Item>, i: nat)
    requires i < |items|
  {
    var s := items[i].source;
    && s.sequence == i + 1 <= MILLIONS
    && s.runId == c.runId && s.artifactId == c.artifactId && s.runtime == c.runtimeId && s.contractOk
    && (s.eventType == M.RuntimeStarted <==> i == 0)
    && (forall j :: 0 <= j < i ==> !Ends(items[j].source))
    && (Ends(s) ==> exists j :: 0 <= j < i && items[j].source.eventType == M.UsageReport)
    && (IsToolEvent(s.eventType) ==> s.toolCallId != "")
    && (s.eventType == M.UsageReport ==> s.usage.Some? && CountsOk(s.usage.value))
    && items[i].sink == SinkStores(true)
  }

  lemma SourceOkIff(c: Context, items: seq<Item>, i: nat)
    requires i < |items|
    ensures SourceOk(c, items, i) <==> EventOk(c, items, i)
  {
    KindIs(items[i].source.eventType);
    forall j | 0 <= j < |items|
      ensures IsTerminal(KindOf(items[j].source.eventType)) <==> Ends(items[j].source)
      ensures KindOf(items[j].source.eventType) == UsageReported <==> items[j].source.eventType == M.UsageReport
    {
      KindIs(items[j].source.eventType);
    }
  }

  ghost predicate SourceConforms(c: Context, items: seq<Item>)
  {
    && (forall i :: 0 <= i < |items| ==> SourceOk(c, items, i))
    && items != [] && Ends(items[|items| - 1].source)
  }

  /** The adapter completes if and only if the source does not raise and its stream
      meets the protocol in its own terms; and then the last event it yields is
      RUN_COMPLETED if and only if the source's last event is a finish. */
  lemma CompletesIffSourceConforms(c: Context, items: seq<Item>, sourceRaises: bool)
    ensures Close(After(c, items), sourceRaises).error.None? <==> !sourceRaises && SourceConforms(c, items)
    ensures Close(After(c, items), sourceRaises).error.None? ==>
              var yielded := After(c, items).yielded;
              && |yielded| == |items| && items != []
              && (yielded[|items| - 1].kind == RunCompleted <==>
                    items[|items| - 1].source.eventType == M.RuntimeFinished)
              && (yielded[|items| - 1].kind == RunFailed <==>
                    items[|items| - 1].source.eventType == M.RuntimeFailed)
  {
    CompletesIffConforms(c, items, sourceRaises);
    forall i | 0 <= i < |items| ensures SourceOk(c, items, i) <==> EventOk(c, items, i) {
      SourceOkIff(c, items, i);
    }
    if items != [] { KindIs(items[|items| - 1].source.eventType); }
    LoopMirrorsStream(c, items);
    if Close(After(c, items), sourceRaises).error.None? {
      YieldsReportSources(c, items, |items| - 1);
    }
  }
}
