/** The adapter that turns a legacy runtime's event stream into unified events,
    checking the stream protocol on the way. */
module RuntimeStream {
  import opened Prelude
  import M = Metering

  datatype Kind =
    | RunStarted | ModelOutputDelta | ToolCallStarted | ToolCallProgress | ToolCallCompleted
    | ArtifactChanged | WarningRaised | UsageReported | RunCompleted | RunFailed

  datatype FailureCode =
    | Timeout | Cancelled | AuthenticationFailed | ModelUnavailable | ToolDenied
    | InvalidRequest | ProtocolError | TransportFailed | UnknownFailure

  datatype Usage = Usage(
    turns: int, inputTokens: int, outputTokens: int, cacheCreationTokens: int, cacheReadTokens: int, toolCalls: int)

  /** An event of the legacy runtime. `contractOk` stands for the remaining field
      constraints of the unified event (identifiers, timestamps, durations, cost). */
  datatype Source = Source(
    sequence: nat,
    runId: string,
    artifactId: string,
    runtime: string,
    eventType: M.EventType,
    toolCallId: string,
    usage: Option<Usage>,
    errorCode: Option<M.ErrorCode>,
    contractOk: bool)

  datatype UnifiedUsage = UnifiedUsage(modelRequests: int, reported: Usage)

  datatype Unified = Unified(
    runId: string, workId: string, runtimeId: string, sequence: nat, kind: Kind,
    toolCall: Option<string>, usage: Option<UnifiedUsage>, failure: Option<FailureCode>)

  /** What the private sink answers when it is given an event. */
  datatype SinkReply = SinkRaises | SinkStores(validRef: bool)

  datatype Item = Item(source: Source, sink: SinkReply)

  datatype Context = Context(runId: string, artifactId: string, runtimeId: string)

  function KindOf(t: M.EventType): Kind
  {
    match t
    case RuntimeStarted => RunStarted
    case MessageDelta => ModelOutputDelta
    case ToolStarted => ToolCallStarted
    case ToolProgress => ToolCallProgress
    case ToolFinished => ToolCallCompleted
    case ArtifactWritten => ArtifactChanged
    case Warning => WarningRaised
    case UsageReport => UsageReported
    case RuntimeFinished => RunCompleted
    case RuntimeFailed => RunFailed
  }

  function FailureOf(code: Option<M.ErrorCode>): FailureCode
  {
    if code.None? then UnknownFailure
    else match code.value
      case Timeout => Timeout
      case CancelledRun => Cancelled
      case AuthUnavailable => AuthenticationFailed
      case ModelUnavailable => ModelUnavailable
      case ToolDenied => ToolDenied
      case PathEscape => ToolDenied
      case BudgetExceeded => InvalidRequest
      case ProtocolError => ProtocolError
      case ProcessError => TransportFailed
  }

  predicate IsTool(k: Kind) { k == ToolCallStarted || k == ToolCallProgress || k == ToolCallCompleted }

  predicate IsTerminal(k: Kind) { k == RunCompleted || k == RunFailed }

  const MAX_COUNT := 10_000_000
  const MAX_TOKENS := 10_000_000_000

  predicate UsageInRange(u: Usage)
  {
    && u.turns <= MAX_COUNT && 0 <= u.turns
    && 0 <= u.inputTokens <= MAX_TOKENS && 0 <= u.outputTokens <= MAX_TOKENS
    && 0 <= u.cacheCreationTokens <= MAX_TOKENS && 0 <= u.cacheReadTokens <= MAX_TOKENS
    && 0 <= u.toolCalls <= MAX_COUNT
  }

  /** `_normalize_event` does not raise. */
  predicate Normalizes(e: Source)
  {
    var k := KindOf(e.eventType);
    && (IsTool(k) ==> e.toolCallId != "")
    && (k == UsageReported ==> e.usage.Some? && UsageInRange(e.usage.value))
    && 1 <= e.sequence <= MAX_COUNT && e.contractOk
  }

  function Normalize(c: Context, e: Source): Unified
  {
    var k := KindOf(e.eventType);
    Unified(e.runId, e.artifactId, c.runtimeId, e.sequence, k,
            if IsTool(k) then Some(e.toolCallId) else None,
            if k == UsageReported && e.usage.Some?
            then Some(UnifiedUsage(if e.usage.value.turns > 1 then e.usage.value.turns else 1, e.usage.value))
            else None,
            if k == RunFailed then Some(FailureOf(e.errorCode)) else None)
  }

  datatype Error =
    | AfterTerminal | SequenceGap | IdentityMismatch | StartMissing | StartRepeated | UsageMissing
    | SinkFailed | SinkReference | NotNormalizable | SourceRaised | Incomplete

  /** The generator's locals, what it has yielded and stored, and its error. */
  datatype Loop = Loop(
    expected: nat, started: bool, usageSeen: bool, terminalSeen: bool,
    yielded: seq<Unified>, stored: seq<Source>, error: Option<Error>)

  const IDLE := Loop(1, false, false, false, [], [], None)

  /** The protocol checks made before the event is stored. */
  function Violation(c: Context, l: Loop, e: Source): Option<Error>
  {
    var k := KindOf(e.eventType);
    if l.terminalSeen then Some(AfterTerminal)
    else if e.sequence != l.expected then Some(SequenceGap)
    else if e.runId != c.runId || e.artifactId != c.artifactId || e.runtime != c.runtimeId then Some(IdentityMismatch)
    else if l.expected == 1 && k != RunStarted then Some(StartMissing)
    else if k == RunStarted && l.started then Some(StartRepeated)
    else if IsTerminal(k) && !l.usageSeen then Some(UsageMissing)
    else None
  }

  /** One turn of the loop; after an error the generator is dead. */
  function Feed(c: Context, l: Loop, i: Item): Loop
  {
    if l.error.Some? then l
    else
      var e, k := i.source, KindOf(i.source.eventType);
      var violation := Violation(c, l, e);
      if violation.Some? then l.(error := violation)
      else if i.sink.SinkRaises? then l.(error := Some(SinkFailed))
      else
        var stored := l.stored + [e];
        if !i.sink.validRef then l.(stored := stored, error := Some(SinkReference))
        else if !Normalizes(e) then l.(stored := stored, error := Some(NotNormalizable))
        else Loop(l.expected + 1, l.started || k == RunStarted, l.usageSeen || k == UsageReported,
                  l.terminalSeen || IsTerminal(k), l.yielded + [Normalize(c, e)], stored, None)
  }

  /** The loop after the given items have been offered to it. */
  function After(c: Context, items: seq<Item>): Loop
  {
    if items == [] then IDLE else Feed(c, After(c, items[..|items| - 1]), items[|items| - 1])
  }

  /** The end of the stream, which may itself be an exception. */
  function Close(l: Loop, sourceRaises: bool): Loop
  {
    if l.error.Some? then l
    else if sourceRaises then l.(error := Some(SourceRaised))
    else if !l.started || !l.terminalSeen then l.(error := Some(Incomplete))
    else l
  }

  /** `run` as it is written: one loop over the source, four locals. */
  method Run(c: Context, items: seq<Item>, sourceRaises: bool)
    returns (yielded: seq<Unified>, stored: seq<Source>, error: Option<Error>)
    ensures
      var l := Close(After(c, items), sourceRaises);
      yielded == l.yielded && stored == l.stored && error == l.error
  {
    yielded, stored, error := [], [], None;
    var expected, started, usageSeen, terminalSeen := 1, false, false, false;
    for i := 0 to |items|
      invariant error.None?
      invariant After(c, items[..i]) == Loop(expected, started, usageSeen, terminalSeen, yielded, stored, None)
    {
      ghost var now := After(c, items[..i]);
      assert items[..i + 1][..i] == items[..i];
      var e, k := items[i].source, KindOf(items[i].source.eventType);
      if terminalSeen {
        error := Some(AfterTerminal);
      } else if e.sequence != expected {
        error := Some(SequenceGap);
      } else if e.runId != c.runId || e.artifactId != c.artifactId || e.runtime != c.runtimeId {
        error := Some(IdentityMismatch);
      } else if expected == 1 && k != RunStarted {
        error := Some(StartMissing);
      } else if k == RunStarted && started {
        error := Some(StartRepeated);
      } else if IsTerminal(k) && !usageSeen {
        error := Some(UsageMissing);
      } else if items[i].sink.SinkRaises? {
        error := Some(SinkFailed);
      } else {
        started := started || k == RunStarted;
        usageSeen := usageSeen || k == UsageReported;
        terminalSeen := terminalSeen || IsTerminal(k);
        stored := stored + [e];
        if !items[i].sink.validRef {
          error := Some(SinkReference);
        } else if !Normalizes(e) {
          error := Some(NotNormalizable);
        } else {
          yielded := yielded + [Normalize(c, e)];
          expected := expected + 1;
        }
      }
      if error.Some? {
        ErrorIsFinal(c, items, i + 1);
        return;
      }
    }
    assert items[..|items|] == items;
    if sourceRaises {
      error := Some(SourceRaised);
    } else if !started || !terminalSeen {
      error := Some(Incomplete);
    }
  }

  lemma {:induction false} ErrorIsFinal(c: Context, items: seq<Item>, n: nat)
    requires n <= |items| && After(c, items[..n]).error.Some?
    ensures After(c, items) == After(c, items[..n])
    decreases |items| - n
  {
    if n == |items| {
      assert items[..n] == items;
    } else {
      assert items[..n + 1][..n] == items[..n];
      ErrorIsFinal(c, items, n + 1);
    }
  }

  // ------------------------------------------------------------- the protocol

  /** What the adapter demands of event `i`, said of the stream alone. */
  ghost predicate EventOk(c: Context, items: seq<Item>, i: nat)
    requires i < |items|
  {
    var e := items[i].source;
    var k := KindOf(e.eventType);
    && e.sequence == i + 1
    && e.runId == c.runId && e.artifactId == c.artifactId && e.runtime == c.runtimeId
    && (k == RunStarted <==> i == 0)
    && (forall j :: 0 <= j < i ==> !IsTerminal(KindOf(items[j].source.eventType)))
    && (IsTerminal(k) ==> exists j :: 0 <= j < i && KindOf(items[j].source.eventType) == UsageReported)
    && items[i].sink == SinkStores(true)
    && Normalizes(e)
  }

  ghost predicate PrefixOk(c: Context, items: seq<Item>)
  {
    forall i :: 0 <= i < |items| ==> EventOk(c, items, i)
  }

  /** A complete, well-formed stream: one start first, one terminal event last. */
  ghost predicate Conforms(c: Context, items: seq<Item>)
  {
    PrefixOk(c, items) && items != [] && IsTerminal(KindOf(items[|items| - 1].source.eventType))
  }

  /** The locals summarise what has been read without error. */
  ghost predicate Summarizes(c: Context, items: seq<Item>, l: Loop)
  {
    && l.expected == |items| + 1
    && l.started == (items != [])
    && (l.usageSeen <==> exists j :: 0 <= j < |items| && KindOf(items[j].source.eventType) == UsageReported)
    && (l.terminalSeen <==> exists j :: 0 <= j < |items| && IsTerminal(KindOf(items[j].source.eventType)))
    && |l.yielded| == |items| && |l.stored| == |items|
    && forall j :: 0 <= j < |items| ==>
         l.yielded[j] == Normalize(c, items[j].source) && l.stored[j] == items[j].source
  }

  lemma EventOkInPrefix(c: Context, items: seq<Item>, n: nat, i: nat)
    requires i < n <= |items|
    ensures EventOk(c, items[..n], i) <==> EventOk(c, items, i)
  {
    var front := items[..n];
    assert forall j :: 0 <= j < n ==> front[j] == items[j];
    if exists j :: 0 <= j < i && KindOf(items[j].source.eventType) == UsageReported {
      var j :| 0 <= j < i && KindOf(items[j].source.eventType) == UsageReported;
      assert KindOf(front[j].source.eventType) == UsageReported;
    }
    if exists j :: 0 <= j < i && KindOf(front[j].source.eventType) == UsageReported {
      var j :| 0 <= j < i && KindOf(front[j].source.eventType) == UsageReported;
      assert KindOf(items[j].source.eventType) == UsageReported;
    }
  }

  lemma FeedAccepts(c: Context, items: seq<Item>, l: Loop)
    requires items != []
    requires Summarizes(c, items[..|items| - 1], l) && l.error.None?
    ensures Feed(c, l, items[|items| - 1]).error.None? <==> EventOk(c, items, |items| - 1)
  {
    var front, last := items[..|items| - 1], items[|items| - 1];
    assert forall j :: 0 <= j < |front| ==> front[j] == items[j];
    if l.usageSeen {
      var j :| 0 <= j < |front| && KindOf(front[j].source.eventType) == UsageReported;
      assert KindOf(items[j].source.eventType) == UsageReported;
    }
    if l.terminalSeen {
      var j :| 0 <= j < |front| && IsTerminal(KindOf(front[j].source.eventType));
      assert IsTerminal(KindOf(items[j].source.eventType));
    }
    if EventOk(c, items, |front|) && IsTerminal(KindOf(last.source.eventType)) {
      var j :| 0 <= j < |front| && KindOf(items[j].source.eventType) == UsageReported;
      assert KindOf(front[j].source.eventType) == UsageReported;
    }
  }

  lemma FeedSummarizes(c: Context, items: seq<Item>, l: Loop)
    requires items != []
    requires Summarizes(c, items[..|items| - 1], l) && l.error.None?
    requires Feed(c, l, items[|items| - 1]).error.None?
    ensures Summarizes(c, items, Feed(c, l, items[|items| - 1]))
  {
    var front, last := items[..|items| - 1], items[|items| - 1];
    var next := Feed(c, l, last);
    assert forall j :: 0 <= j < |front| ==> front[j] == items[j];
    if l.usageSeen {
      var j :| 0 <= j < |front| && KindOf(front[j].source.eventType) == UsageReported;
      assert KindOf(items[j].source.eventType) == UsageReported;
    }
  }

  /** The adapter has no error exactly as long as the events so far keep to the
      protocol, and then it has yielded and stored them all, in order. */
  lemma {:induction false} AcceptsExactlyTheProtocol(c: Context, items: seq<Item>)
    ensures After(c, items).error.None? <==> PrefixOk(c, items)
    ensures After(c, items).error.None? ==> Summarizes(c, items, After(c, items))
  {
    if items != [] {
      var front := items[..|items| - 1];
      AcceptsExactlyTheProtocol(c, front);
      forall i | 0 <= i < |front| ensures EventOk(c, front, i) <==> EventOk(c, items, i) {
        EventOkInPrefix(c, items, |front|, i);
      }
      if After(c, front).error.None? {
        FeedAccepts(c, items, After(c, front));
        if After(c, items).error.None? {
          FeedSummarizes(c, items, After(c, front));
        }
      }
    }
  }

  /** The adapter completes without error if and only if the source does not
      raise and the whole stream conforms. */
  lemma CompletesIffConforms(c: Context, items: seq<Item>, sourceRaises: bool)
    ensures Close(After(c, items), sourceRaises).error.None? <==> !sourceRaises && Conforms(c, items)
  {
    AcceptsExactlyTheProtocol(c, items);
    if PrefixOk(c, items) && exists j :: 0 <= j < |items| && IsTerminal(KindOf(items[j].source.eventType)) {
      var j :| 0 <= j < |items| && IsTerminal(KindOf(items[j].source.eventType));
      if j < |items| - 1 {
        assert EventOk(c, items, |items| - 1);
      }
    }
  }

  /** A unified event of this run carries the payload its kind calls for, and no
      other; a usage report counts at least one model request. */
  ghost predicate WellTagged(c: Context, u: Unified)
  {
    && u.runId == c.runId && u.workId == c.artifactId && u.runtimeId == c.runtimeId
    && (u.toolCall.Some? <==> IsTool(u.kind)) && (u.toolCall.Some? ==> u.toolCall.value != "")
    && (u.usage.Some? <==> u.kind == UsageReported)
    && (u.usage.Some? ==>
          u.usage.value.modelRequests >= 1 && u.usage.value.modelRequests >= u.usage.value.reported.turns)
    && (u.failure.Some? <==> u.kind == RunFailed)
  }

  /** A well-formed beginning of a unified stream. */
  ghost predicate WellFormed(c: Context, yielded: seq<Unified>)
  {
    && (forall i :: 0 <= i < |yielded| ==> WellTagged(c, yielded[i]))
    && (forall i :: 0 <= i < |yielded| ==> yielded[i].sequence == i + 1)
    && (forall i :: 0 <= i < |yielded| ==> (yielded[i].kind == RunStarted <==> i == 0))
    && (forall i :: 0 <= i < |yielded| - 1 ==> !IsTerminal(yielded[i].kind))
    && (forall i :: 0 <= i < |yielded| && IsTerminal(yielded[i].kind) ==>
          exists j :: 0 <= j < i && yielded[j].kind == UsageReported)
  }

  /** Yielded and stored events are those of prefixes of the stream. */
  ghost predicate Mirrors(c: Context, items: seq<Item>, l: Loop)
  {
    && |l.yielded| <= |l.stored| <= |l.yielded| + 1 && |l.stored| <= |items|
    && (forall j :: 0 <= j < |l.yielded| ==> l.yielded[j] == Normalize(c, items[j].source))
    && (forall j :: 0 <= j < |l.stored| ==> l.stored[j] == items[j].source)
  }

  /** A turn stores and yields its event, only stores it, or does neither. */
  lemma TurnShape(c: Context, l: Loop, i: Item)
    ensures
      var next := Feed(c, l, i);
      || (next.error.Some? && next.yielded == l.yielded && next.stored == l.stored)
      || (next.error.Some? && l.error.None? && next.yielded == l.yielded && next.stored == l.stored + [i.source])
      || (next.error.None? && l.error.None? && next.yielded == l.yielded + [Normalize(c, i.source)]
          && next.stored == l.stored + [i.source])
  {
  }

  /** Feeding one more item keeps the mirror. */
  lemma FeedMirrors(c: Context, items: seq<Item>, l: Loop, i: Item)
    requires Mirrors(c, items, l) && (l.error.None? ==> |l.stored| == |l.yielded| == |items|)
    ensures Mirrors(c, items + [i], Feed(c, l, i))
    ensures Feed(c, l, i).error.None? ==> |Feed(c, l, i).stored| == |Feed(c, l, i).yielded| == |items| + 1
  {
    TurnShape(c, l, i);
    assert forall j :: 0 <= j < |items| ==> (items + [i])[j] == items[j];
  }

  lemma {:induction false} LoopMirrorsStream(c: Context, items: seq<Item>)
    ensures Mirrors(c, items, After(c, items))
    ensures After(c, items).error.None? ==> |After(c, items).stored| == |After(c, items).yielded| == |items|
  {
    if items != [] {
      var front, last := items[..|items| - 1], items[|items| - 1];
      LoopMirrorsStream(c, front);
      FeedMirrors(c, front, After(c, front), last);
      assert items == front + [last];
    }
  }

  /** Whatever the source does, at every moment: the yielded events are the
      normalised events of a prefix of the stream, numbered from one, starting
      with the only RUN_STARTED, with a terminal event only last and after usage;
      the private sink holds that prefix and at most one event more. */
  lemma {:induction false} YieldsAreWellFormed(c: Context, items: seq<Item>)
    ensures Mirrors(c, items, After(c, items))
    ensures WellFormed(c, After(c, items).yielded)
  {
    LoopMirrorsStream(c, items);
    if items != [] {
      var front := items[..|items| - 1];
      YieldsAreWellFormed(c, front);
      AcceptsExactlyTheProtocol(c, items);
      if After(c, items).error.None? {
        AcceptedIsWellFormed(c, items);
      } else {
        TurnShape(c, After(c, front), items[|items| - 1]);
      }
    }
  }

  lemma AcceptedIsWellFormed(c: Context, items: seq<Item>)
    requires PrefixOk(c, items) && Summarizes(c, items, After(c, items))
    ensures WellFormed(c, After(c, items).yielded)
  {
    var y := After(c, items).yielded;
    forall i | 0 <= i < |y|
      ensures WellTagged(c, y[i]) && y[i].sequence == i + 1 && (y[i].kind == RunStarted <==> i == 0)
      ensures IsTerminal(y[i].kind) ==> exists j :: 0 <= j < i && y[j].kind == UsageReported
    {
      assert EventOk(c, items, i);
      assert y[i] == Normalize(c, items[i].source);
      if IsTerminal(y[i].kind) {
        var j :| 0 <= j < i && KindOf(items[j].source.eventType) == UsageReported;
        assert y[j] == Normalize(c, items[j].source);
        assert y[j].kind == UsageReported;
      }
    }
    forall i | 0 <= i < |y| - 1 ensures !IsTerminal(y[i].kind) {
      assert EventOk(c, items, |y| - 1);
      assert y[i] == Normalize(c, items[i].source);
    }
  }
}
