/** The runtime event loop of the execution facade: how far it reads an event
    stream, and what it charges for the part it read. */
module Metering {
  import opened Prelude
  import opened ModelControlTypes

  datatype EventType =
    | RuntimeStarted | MessageDelta | ToolStarted | ToolProgress | ToolFinished
    | ArtifactWritten | Warning | UsageReport | RuntimeFinished | RuntimeFailed

  datatype ErrorCode =
    | Timeout | CancelledRun | AuthUnavailable | ModelUnavailable | ToolDenied
    | PathEscape | BudgetExceeded | ProtocolError | ProcessError

  /** What a runtime reports; nothing stops it from reporting negative numbers. */
  datatype RuntimeUsage = RuntimeUsage(
    turns: int,
    inputTokens: int,
    outputTokens: int,
    cacheCreationTokens: int,
    cacheReadTokens: int)

  datatype Event = Event(
    eventType: EventType,
    toolName: string,
    usage: Option<RuntimeUsage>,
    errorCode: Option<ErrorCode>,
    runHandle: string)

  const NETWORK_TOOLS: set<string> := {"webfetch", "websearch", "fetch", "search"}

  predicate IsNetworkStart(fold: string -> string, e: Event)
  {
    e.eventType == ToolStarted && fold(e.toolName) in NETWORK_TOOLS
  }

  /** Number of network tool starts in a stretch of events. */
  function NetworkStarts(fold: string -> string, events: seq<Event>): nat
  {
    if events == [] then 0
    else NetworkStarts(fold, events[..|events| - 1]) + if IsNetworkStart(fold, events[|events| - 1]) then 1 else 0
  }

  /** The usage payload of the last usage event in a stretch of events. */
  function LastUsage(events: seq<Event>): Option<RuntimeUsage>
  {
    if events == [] then None
    else
      var e := events[|events| - 1];
      if e.eventType == UsageReport && e.usage.Some? then e.usage else LastUsage(events[..|events| - 1])
  }

  /** How many events are taken from the stream under a network limit: all of
      them, or up to and including the first that exceeds the limit. Without a
      grant (`None`) nothing is counted and everything is read. */
  function Consumed(fold: string -> string, events: seq<Event>, limit: Option<nat>): (n: nat)
    ensures n <= |events|
  {
    if events == [] then 0
    else
      var before := Consumed(fold, events[..|events| - 1], limit);
      if before < |events| - 1 || Overran(fold, events[..before], limit) then before else |events|
  }

  predicate Overran(fold: string -> string, prefix: seq<Event>, limit: Option<nat>)
  {
    limit.Some? && NetworkStarts(fold, prefix) > limit.value
  }

  /** What the loop leaves behind when it stops, whether at the end of the
      stream, at a limit, or because the stream raised. */
  datatype Meter = Meter(consumed: nat, networkRequests: nat, lastUsage: Option<RuntimeUsage>, overrun: bool)

  function Metered(fold: string -> string, events: seq<Event>, limit: Option<nat>): Meter
  {
    var n := Consumed(fold, events, limit);
    Meter(n,
          if limit.Some? then NetworkStarts(fold, events[..n]) else 0,
          LastUsage(events[..n]),
          Overran(fold, events[..n], limit))
  }

  lemma {:induction false} NetworkStartsMonotone(fold: string -> string, events: seq<Event>, n: nat)
    requires n <= |events|
    ensures NetworkStarts(fold, events[..n]) <= NetworkStarts(fold, events)
    decreases |events|
  {
    if n < |events| {
      NetworkStartsMonotone(fold, events[..|events| - 1], n);
      assert events[..|events| - 1][..n] == events[..n];
    } else {
      assert events[..n] == events;
    }
  }

  /** Reading stops at the first event over the limit and nowhere else: the
      counter never passes the limit by more than one, every shorter prefix is
      within the limit, and a stream that stays within it is read to its end. */
  lemma {:induction false} ConsumptionStopsAtFirstOverrun(fold: string -> string, events: seq<Event>, limit: nat)
    ensures
      var n := Consumed(fold, events, Some(limit));
      && NetworkStarts(fold, events[..n]) <= limit + 1
      && (forall k :: 0 <= k < n ==> NetworkStarts(fold, events[..k]) <= limit)
      && (Overran(fold, events[..n], Some(limit)) <==> NetworkStarts(fold, events) > limit)
      && (n < |events| ==> NetworkStarts(fold, events[..n]) == limit + 1 && IsNetworkStart(fold, events[n - 1]))
  {
    if events != [] {
      var front := events[..|events| - 1];
      var n0 := Consumed(fold, front, Some(limit));
      ConsumptionStopsAtFirstOverrun(fold, front, limit);
      assert forall k :: 0 <= k <= |front| ==> front[..k] == events[..k];
      var n := Consumed(fold, events, Some(limit));
      if n == |events| {
        assert events[..n] == events && front[..n0] == front;
        forall k | 0 <= k < n ensures NetworkStarts(fold, events[..k]) <= limit {
          NetworkStartsMonotone(fold, front, k);
        }
      } else {
        assert Overran(fold, events[..n0], Some(limit));
        NetworkStartsMonotone(fold, events, n0);
        if n0 == |front| {
          assert front[..n0] == front;
          assert events[..n0] == front;
          if n0 > 0 {
            assert front[..n0 - 1] == events[..n0 - 1];
            assert NetworkStarts(fold, events[..n0 - 1]) <= limit;
          }
        }
      }
    }
  }

  lemma {:induction false} UnmeteredReadsEverything(fold: string -> string, events: seq<Event>)
    ensures Consumed(fold, events, None) == |events|
  {
    if events != [] {
      UnmeteredReadsEverything(fold, events[..|events| - 1]);
    }
  }

  lemma {:induction false} ConsumedPrefixIsStable(fold: string -> string, events: seq<Event>, limit: Option<nat>,
                                                  k: nat)
    requires k <= |events|
    requires forall j :: 0 <= j < k ==> !Overran(fold, events[..j], limit)
    ensures Consumed(fold, events[..k], limit) == k
    ensures k == |events| || Overran(fold, events[..k], limit) ==> Consumed(fold, events, limit) == k
    decreases |events|
  {
    if events != [] {
      var front := events[..|events| - 1];
      if k < |events| {
        assert forall j :: 0 <= j <= k ==> front[..j] == events[..j];
        ConsumedPrefixIsStable(fold, front, limit, k);
      } else {
        assert events[..k] == events;
        assert forall j :: 0 <= j < k ==> front[..j] == events[..j];
        ConsumedPrefixIsStable(fold, front, limit, k - 1);
        assert front[..k - 1] == front;
        assert events[..k - 1] == front;
      }
    }
  }

  /** The loop itself: one pass, a mutable counter and a mutable observation. */
  method ReadStream(fold: string -> string, events: seq<Event>, limit: Option<nat>) returns (m: Meter)
    ensures m == Metered(fold, events, limit)
  {
    var i := 0;
    var network := 0;
    var last: Option<RuntimeUsage> := None;
    var overrun := false;
    while i < |events| && !overrun
      invariant 0 <= i <= |events|
      invariant network == if limit.Some? then NetworkStarts(fold, events[..i]) else 0
      invariant last == LastUsage(events[..i])
      invariant overrun == Overran(fold, events[..i], limit)
      invariant forall j :: 0 <= j < i ==> !Overran(fold, events[..j], limit)
    {
      var e := events[i];
      assert events[..i + 1][..i] == events[..i];
      if e.eventType == UsageReport && e.usage.Some? {
        last := e.usage;
      }
      if limit.Some? && IsNetworkStart(fold, e) {
        network := network + 1;
        if network > limit.value {
          overrun := true;
        }
      }
      i := i + 1;
    }
    ConsumedPrefixIsStable(fold, events, limit, i);
    m := Meter(i, network, last, overrun);
  }

  /** `_model_usage_from_observation`: None when a count is negative. */
  function NormalizedUsage(u: RuntimeUsage): Option<ModelUsage>
  {
    if u.inputTokens < 0 || u.outputTokens < 0 || u.cacheCreationTokens < 0 || u.cacheReadTokens < 0 then None
    else Some(ModelUsage(
                if u.turns > 1 then u.turns else 1,
                u.inputTokens, u.outputTokens, u.cacheCreationTokens, u.cacheReadTokens,
                u.inputTokens + u.outputTokens + u.cacheCreationTokens + u.cacheReadTokens,
                Reported))
  }
}
