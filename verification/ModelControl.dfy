/** The direct model-control facade. Its coroutines are cut at their `await`s;
    each piece between two awaits is one atomic step on the facade's fields. */
module ModelControl {
  import opened Prelude
  import opened ModelControlTypes

  // ------------------------------------------------------------------ charges

  /** A value in the usage dictionary a model client returns. */
  datatype RawValue =
    | BoolValue(b: bool)
    | IntValue(i: int)
    | TextValue(parsed: Option<int>)
    | FloatValue(whole: Option<int>)
    | OtherValue

  type RawUsage = map<string, RawValue>

  function NonNegativeInt(v: RawValue): Option<nat>
  {
    var parsed := match v
      case BoolValue(_) => None
      case IntValue(i) => Some(i)
      case TextValue(p) => p
      case FloatValue(p) => p
      case OtherValue => None;
    if parsed.Some? && parsed.value >= 0 then Some(parsed.value) else None
  }

  function Lookup(raw: RawUsage, name: string, fallback: RawValue): RawValue
  {
    if name in raw then raw[name] else fallback
  }

  /** `_normalize_usage`: None where the code raises. */
  function NormalizeUsage(raw: RawUsage): Option<ModelUsage>
  {
    var input := NonNegativeInt(Lookup(raw, "input_tokens", Lookup(raw, "prompt_tokens", IntValue(0))));
    var output := NonNegativeInt(Lookup(raw, "output_tokens", Lookup(raw, "completion_tokens", IntValue(0))));
    var creation := NonNegativeInt(Lookup(raw, "cache_creation_input_tokens", IntValue(0)));
    var read := NonNegativeInt(Lookup(raw, "cache_read_input_tokens", IntValue(0)));
    if input.None? || output.None? || creation.None? || read.None? then None
    else Some(ModelUsage(1, input.value, output.value, creation.value, read.value,
                         input.value + output.value + creation.value + read.value, Reported))
  }

  /** How the task that calls the model client ends. */
  datatype Ending =
    | Returned(output: string, raw: RawUsage)
    | Backpressure
    | RaisedError
    | CancelledTask

  datatype Receipt = Receipt(
    descriptorRef: Ref,
    grantRef: Ref,
    outcome: ReceiptOutcome,
    resultRef: Option<Ref>,
    usage: ModelUsage,
    failure: string,
    completedAt: int)

  datatype RequestKey = RequestKey(descriptorSha: string, grantSha: string, resultRef: Ref)

  /** The locals of a `generate` coroutine that waits for its task. */
  datatype Frame = Frame(idempotencyKey: string, requestKey: RequestKey, descriptorRef: Ref, grant: ModelGrant)

  datatype CacheEntry = CacheEntry(requestKey: RequestKey, output: Option<string>, receipt: Receipt)

  /** What an ended invocation leaves in the cache; a cancelled one leaves nothing. */
  function Conclude(f: Frame, e: Ending, now: int): Option<CacheEntry>
  {
    var g := f.grant;
    match e
    case CancelledTask => None
    case Backpressure =>
      Some(CacheEntry(f.requestKey, None, Receipt(f.descriptorRef, g.ref, Backpressured, None, ZERO_USAGE, "", now)))
    case RaisedError => Some(Failure(f, now))
    case Returned(output, raw) =>
      var usage := NormalizeUsage(raw);
      if usage.None? then Some(Failure(f, now))
      else if !g.Admits(usage.value) then
        Some(CacheEntry(f.requestKey, None,
                        Receipt(f.descriptorRef, g.ref, BlockedPolicy, None, usage.value, "MODEL_USAGE_OVERRUN", now)))
      else
        Some(CacheEntry(f.requestKey, Some(output),
                        Receipt(f.descriptorRef, g.ref, Succeeded, Some(f.requestKey.resultRef), usage.value, "", now)))
  }

  function Failure(f: Frame, now: int): CacheEntry
  {
    CacheEntry(f.requestKey, None,
               Receipt(f.descriptorRef, f.grant.ref, Failed, None, f.grant.FullAllowance(), "MODEL_CALL_FAILED", now))
  }

  /** Output, result reference and success come together, only within the grant;
      what is charged is the reported usage, the full allowance, or nothing at
      all (and nothing only for backpressure). */
  lemma DirectReceiptIsHonest(f: Frame, e: Ending, now: int)
    requires Conclude(f, e, now).Some?
    ensures
      var entry := Conclude(f, e, now).value;
      var receipt := entry.receipt;
      && (entry.output.Some? <==> receipt.outcome == Succeeded)
      && (receipt.resultRef.Some? <==> receipt.outcome == Succeeded)
      && (receipt.outcome == Succeeded ==> f.grant.Admits(receipt.usage) && receipt.usage.requests == 1)
      && (e.Returned? && NormalizeUsage(e.raw).Some? ==>
            && NormalizeUsage(e.raw).value == receipt.usage
            && (receipt.outcome == Succeeded <==> f.grant.Admits(receipt.usage)))
      && (!(e.Returned? && NormalizeUsage(e.raw).Some?) ==>
            receipt.usage == if e.Backpressure? then ZERO_USAGE else f.grant.FullAllowance())
  {
  }

  // ------------------------------------------- receipts, said of what was returned

  /** The value a client gives for a count: under the first name, else under the
      second, else zero. */
  function Given(raw: RawUsage, name: string, alias: string): RawValue
  {
    if name in raw then raw[name] else if alias in raw then raw[alias] else IntValue(0)
  }

  /** The value is the whole number `n`: an integer, or a text or float that is one. */
  ghost predicate Denotes(v: RawValue, n: int)
  {
    v == IntValue(n) || v == TextValue(Some(n)) || v == FloatValue(Some(n))
  }

  /** A value that is boolean, not whole, or negative. */
  ghost predicate Unusable(v: RawValue)
  {
    forall n: nat :: !Denotes(v, n)
  }

  lemma UsableIff(v: RawValue)
    ensures NonNegativeInt(v).None? <==> Unusable(v)
    ensures NonNegativeInt(v).Some? ==> Denotes(v, NonNegativeInt(v).value)
  {
    if NonNegativeInt(v).Some? {
      assert Denotes(v, NonNegativeInt(v).value);
    }
  }

  /** Each count is the value under its own name or alias, they are charged together,
      and the call is one request. */
  ghost predicate ChargedAsGiven(u: ModelUsage, raw: RawUsage)
  {
    && Denotes(Given(raw, "input_tokens", "prompt_tokens"), u.inputTokens)
    && Denotes(Given(raw, "output_tokens", "completion_tokens"), u.outputTokens)
    && Denotes(Given(raw, "cache_creation_input_tokens", "cache_creation_input_tokens"), u.cacheCreationTokens)
    && Denotes(Given(raw, "cache_read_input_tokens", "cache_read_input_tokens"), u.cacheReadTokens)
    && u.chargedTokens - u.inputTokens - u.outputTokens == u.cacheCreationTokens + u.cacheReadTokens
    && u.requests == 1 && u.source == Reported
  }

  ghost predicate SomeCountUnusable(raw: RawUsage)
  {
    || Unusable(Given(raw, "input_tokens", "prompt_tokens"))
    || Unusable(Given(raw, "output_tokens", "completion_tokens"))
    || Unusable(Given(raw, "cache_creation_input_tokens", "cache_creation_input_tokens"))
    || Unusable(Given(raw, "cache_read_input_tokens", "cache_read_input_tokens"))
  }

  lemma GivenIsCharged(raw: RawUsage)
    ensures NormalizeUsage(raw).None? <==> SomeCountUnusable(raw)
    ensures NormalizeUsage(raw).Some? ==> ChargedAsGiven(NormalizeUsage(raw).value, raw)
  {
    UsableIff(Given(raw, "input_tokens", "prompt_tokens"));
    UsableIff(Given(raw, "output_tokens", "completion_tokens"));
    UsableIff(Given(raw, "cache_creation_input_tokens", "cache_creation_input_tokens"));
    UsableIff(Given(raw, "cache_read_input_tokens", "cache_read_input_tokens"));
  }

  /** The entry of a call that failed: charged the whole allowance. */
  ghost predicate FailedEntry(f: Frame, x: CacheEntry)
  {
    && x.output.None? && x.receipt.resultRef.None? && x.receipt.outcome == Failed
    && x.receipt.failure == "MODEL_CALL_FAILED"
    && x.receipt.usage == ModelUsage(f.grant.requestAllowance, f.grant.tokenAllowance, 0, 0, 0,
                                     f.grant.tokenAllowance, ConservativeAllowance)
  }

  /** The entry of a call whose report is usable: a success with its output if one
      request, the whole charge and the output count are within the grant, and
      otherwise a policy block without them. */
  ghost predicate ReportedEntry(f: Frame, output: string, raw: RawUsage, x: CacheEntry)
  {
    var u, g := x.receipt.usage, f.grant;
    && ChargedAsGiven(u, raw)
    && if g.requestAllowance >= 1 && u.chargedTokens <= g.tokenAllowance && u.outputTokens <= g.outputTokenLimit then
         && x.output == Some(output) && x.receipt.outcome == Succeeded && x.receipt.failure == ""
         && x.receipt.resultRef == Some(f.requestKey.resultRef)
       else
         && x.output.None? && x.receipt.outcome == BlockedPolicy && x.receipt.failure == "MODEL_USAGE_OVERRUN"
         && x.receipt.resultRef.None?
  }

  /** What every ended call leaves behind, said of how it ended and of the dictionary
      its client returned. */
  lemma EndedCallLeaves(f: Frame, e: Ending, now: int)
    ensures Conclude(f, e, now).None? <==> e.CancelledTask?
    ensures Conclude(f, e, now).Some? ==>
              var x := Conclude(f, e, now).value;
              && x.requestKey == f.requestKey && x.receipt.completedAt == now
              && x.receipt.descriptorRef == f.descriptorRef && x.receipt.grantRef == f.grant.ref
              && match e
                 case Returned(output, raw) =>
                   if SomeCountUnusable(raw) then FailedEntry(f, x) else ReportedEntry(f, output, raw, x)
                 case RaisedError => FailedEntry(f, x)
                 case Backpressure =>
                   && x.output.None? && x.receipt.resultRef.None? && x.receipt.outcome == Backpressured
                   && x.receipt.failure == "" && x.receipt.usage == ModelUsage(0, 0, 0, 0, 0, 0, Reported)
                 case CancelledTask => false
  {
    if e.Returned? {
      GivenIsCharged(e.raw);
    }
  }

  // --------------------------------------------------------- the atomic steps

  datatype Active = Active(task: nat, reservationId: string, fencingToken: nat)

  /** The facade's own fields. */
  datatype Registry = Registry(
    active: map<string, Active>,
    stopped: set<string>,
    cache: map<string, CacheEntry>,
    cancellations: map<string, CancellationAnswer>)

  datatype Begun =
    | Refused
    | Answered(output: Option<string>, receipt: Receipt)
    | Waiting(frame: Frame)

  datatype BeginStep = BeginStep(registry: Registry, begun: Begun)

  /** `generate_json_with_model_control` up to `await task`. */
  function BeginGenerate(s: Registry, d: Descriptor, g: ModelGrant, resultRef: Ref, clientKnown: bool, task: nat,
                         now: int)
    : BeginStep
  {
    var requestKey := RequestKey(d.ref.objectSha256, g.ref.objectSha256, resultRef);
    if !d.genuine || !g.genuine || !g.Binds(d) || d.mode != DirectRequest then BeginStep(s, Refused)
    else if d.idempotencyKey in s.cache then
      var e := s.cache[d.idempotencyKey];
      if e.requestKey != requestKey then BeginStep(s, Refused) else BeginStep(s, Answered(e.output, e.receipt))
    else if !clientKnown then
      var receipt := Receipt(d.ref, g.ref, BlockedCapability, None, ZERO_USAGE, "MODEL_PROFILE_UNAVAILABLE", now);
      BeginStep(s.(cache := s.cache[d.idempotencyKey := CacheEntry(requestKey, None, receipt)]),
                Answered(None, receipt))
    else
      BeginStep(s.(active := s.active[g.handleId := Active(task, g.reservationId, g.fencingToken)]),
                Waiting(Frame(d.idempotencyKey, requestKey, d.ref, g)))
  }

  /** The rest of it, once the task has ended. */
  function FinishGenerate(s: Registry, f: Frame, e: Ending, now: int): Registry
  {
    var entry := Conclude(f, e, now);
    s.(active := s.active - {f.grant.handleId},
       stopped := s.stopped + {f.grant.handleId},
       cache := if entry.Some? then s.cache[f.idempotencyKey := entry.value] else s.cache)
  }

  datatype CancelBegun =
    | NotGenuine
    | Replay(answer: CancellationAnswer)
    | Answer(answer: CancellationAnswer)
    | Await(task: nat)

  /** `cancel_model_invocation` up to `await task`; Await means the task was cancelled. */
  function BeginCancel(s: Registry, r: CancellationRequest, now: int): CancelBegun
  {
    if !r.genuine then NotGenuine
    else if r.requestId in s.cancellations then Replay(s.cancellations[r.requestId])
    else if r.handleId !in s.active then
      Answer(CancellationAnswer(r, if r.handleId in s.stopped then AlreadyFinished else CancellationFailed, now))
    else
      var a := s.active[r.handleId];
      if a.reservationId != r.reservationId || a.fencingToken != r.fencingToken then
        Answer(CancellationAnswer(r, CancellationFailed, now))
      else Await(a.task)
  }

  function Record(s: Registry, a: CancellationAnswer): Registry
  {
    s.(cancellations := s.cancellations[a.request.requestId := a])
  }

  /** The facade as an object; a method per atomic step. */
  class ModelControlFacade {
    var active: map<string, Active>
    var stopped: set<string>
    var cache: map<string, CacheEntry>
    var cancellations: map<string, CancellationAnswer>

    ghost function View(): Registry
      reads this
    {
      Registry(active, stopped, cache, cancellations)
    }

    constructor ()
      ensures View() == Registry(map[], {}, map[], map[])
    {
      active, stopped, cache, cancellations := map[], {}, map[], map[];
    }

    method Generate(d: Descriptor, g: ModelGrant, resultRef: Ref, clientKnown: bool, task: nat, now: int)
      returns (begun: Begun)
      modifies this`active, this`cache
      ensures BeginGenerate(old(View()), d, g, resultRef, clientKnown, task, now) == BeginStep(View(), begun)
    {
      var requestKey := RequestKey(d.ref.objectSha256, g.ref.objectSha256, resultRef);
      if !d.genuine || !g.genuine || !g.Binds(d) || d.mode != DirectRequest { return Refused; }
      if d.idempotencyKey in cache {
        var e := cache[d.idempotencyKey];
        if e.requestKey != requestKey { return Refused; }
        return Answered(e.output, e.receipt);
      }
      if !clientKnown {
        var receipt := Receipt(d.ref, g.ref, BlockedCapability, None, ZERO_USAGE, "MODEL_PROFILE_UNAVAILABLE", now);
        cache := cache[d.idempotencyKey := CacheEntry(requestKey, None, receipt)];
        return Answered(None, receipt);
      }
      active := active[g.handleId := Active(task, g.reservationId, g.fencingToken)];
      begun := Waiting(Frame(d.idempotencyKey, requestKey, d.ref, g));
    }

    method GenerateResumes(f: Frame, e: Ending, now: int) returns (entry: Option<CacheEntry>)
      modifies this`active, this`stopped, this`cache
      ensures View() == FinishGenerate(old(View()), f, e, now)
      ensures entry == Conclude(f, e, now)
    {
      entry := Conclude(f, e, now);
      active := active - {f.grant.handleId};
      stopped := stopped + {f.grant.handleId};
      if entry.Some? {
        cache := cache[f.idempotencyKey := entry.value];
      }
    }

    method Cancel(r: CancellationRequest, now: int) returns (begun: CancelBegun)
      modifies this`cancellations
      ensures begun == BeginCancel(old(View()), r, now)
      ensures View() == if begun.Answer? then Record(old(View()), begun.answer) else old(View())
    {
      if !r.genuine { return NotGenuine; }
      if r.requestId in cancellations { return Replay(cancellations[r.requestId]); }
      var outcome := CancellationFailed;
      if r.handleId in active {
        var a := active[r.handleId];
        if a.reservationId == r.reservationId && a.fencingToken == r.fencingToken { return Await(a.task); }
      } else if r.handleId in stopped {
        outcome := AlreadyFinished;
      }
      var answer := CancellationAnswer(r, outcome, now);
      cancellations := cancellations[r.requestId := answer];
      begun := Answer(answer);
    }

    /** The awaited task has ended. An error of its own passes through the
        cancelling coroutine too, and then nothing is recorded. */
    method CancelResumes(r: CancellationRequest, e: Ending, now: int) returns (answer: Option<CancellationAnswer>)
      modifies this`cancellations
      ensures answer == if e.Returned? || e.CancelledTask? then Some(CancellationAnswer(r, Cancelled, now)) else None
      ensures View() == if answer.Some? then Record(old(View()), answer.value) else old(View())
    {
      answer := None;
      if e.Returned? || e.CancelledTask? {
        answer := Some(CancellationAnswer(r, Cancelled, now));
        cancellations := cancellations[r.requestId := answer.value];
      }
    }
  }
}
