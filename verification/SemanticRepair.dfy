/** The repair half of the semantic review facade: whatever a repair backend and the
    registrar of repaired outputs do, a success is a new output, registered as it is
    named, for findings that may be repaired. */
module SemanticRepair {
  import opened Prelude
  import R = SemanticReview

  type Bytes = seq<nat>

  datatype Source = Deterministic | CoverageRound | RealismRound

  /** A finding code of a semantic round, or any other text. */
  datatype TargetCode = Semantic(code: R.FindingCode) | OtherCode(text: string)

  datatype Request = Request(
    genuine: bool,
    ref: Ref,
    key: string,
    source: Source,
    candidateRef: Ref,
    artifactId: string,
    versionRef: Ref,
    outputRef: Ref,
    outputSha: string,
    targets: seq<Ref>,
    codes: seq<TargetCode>,
    attempt: int,
    prior: Option<Ref>)

  /** What validating a request has already established. */
  ghost predicate Valid(r: Request)
  {
    && r.outputRef.objectSha256 == r.outputSha
    && r.targets != [] && |r.targets| == |r.codes|
    && (r.source != Deterministic ==>
          forall c :: c in r.codes ==> c.Semantic? && R.PolicyOf(c.code).repairAllowed)
    && (r.attempt == 1 ==> r.prior.None?) && (r.attempt > 1 ==> r.prior.Some?)
  }

  datatype Outcome = Succeeded | BlockedCapability | BlockedPolicy | RetryableFailure | TerminalFailure

  datatype FailureCode =
    | BackendUnavailable | MaterialMissing | MaterialMismatch | NotAuthorized | BackendFailed
    | OutputUnchanged | OutputInvalid | RegistrationUnavailable | RegistrationFailed

  datatype Material = Material(outputRef: Ref, bytes: Bytes)

  datatype Decision = Decision(
    outcome: Outcome, output: Option<Bytes>, workerVersion: Option<string>, failure: Option<FailureCode>)

  datatype Backend = NoBackend | BackendRaises | Decides(decision: Decision)

  datatype Registrar = NoRegistrar | Registers(accepts: bool)

  datatype Result = Result(
    requestRef: Ref, candidateRef: Ref, artifactId: string, sourceVersion: Ref, sourceOutput: Ref, targets: seq<Ref>,
    attempt: int, outcome: Outcome, workerVersion: Option<string>, outputRef: Option<Ref>, outputSha: Option<string>,
    retryable: bool, failure: Option<FailureCode>)

  /** What was handed to the registrar. */
  datatype Registration = Registration(outputRef: Ref, bytes: Bytes)

  datatype Repaired = Repaired(result: Result, registered: Option<Registration>)

  function OutputRef(digest: string): Ref
  {
    Ref("attachment-output", "attachment-output://sha256/" + digest, "v2", digest)
  }

  function Failure(r: Request, outcome: Outcome, code: FailureCode): Result
  {
    Result(r.ref, r.candidateRef, r.artifactId, r.versionRef, r.outputRef, r.targets, r.attempt, outcome,
           None, None, None, outcome == RetryableFailure, Some(code))
  }

  function Success(r: Request, ref: Ref, version: string): Result
  {
    Result(r.ref, r.candidateRef, r.artifactId, r.versionRef, r.outputRef, r.targets, r.attempt, Succeeded,
           Some(version), Some(ref), Some(ref.objectSha256), false, None)
  }

  /** What is made of a successful decision. */
  function Accept(hash: Bytes -> string, r: Request, d: Decision, registrar: Registrar): Repaired
  {
    if d.output.None? || d.workerVersion.None? then Repaired(Failure(r, BlockedPolicy, OutputInvalid), None)
    else
      var digest := hash(d.output.value);
      if digest == r.outputSha then Repaired(Failure(r, BlockedPolicy, OutputUnchanged), None)
      else if registrar.NoRegistrar? then Repaired(Failure(r, BlockedCapability, RegistrationUnavailable), None)
      else
        var ref := OutputRef(digest);
        var handed := Some(Registration(ref, d.output.value));
        if registrar.accepts then Repaired(Success(r, ref, d.workerVersion.value), handed)
        else Repaired(Failure(r, BlockedPolicy, RegistrationFailed), handed)
  }

  /** `repair` past its cache. */
  function Repair(hash: Bytes -> string, r: Request, m: Option<Material>, b: Backend, registrar: Registrar): Repaired
  {
    if m.None? then Repaired(Failure(r, BlockedPolicy, MaterialMissing), None)
    else if m.value.outputRef != r.outputRef || hash(m.value.bytes) != r.outputSha then
      Repaired(Failure(r, BlockedPolicy, MaterialMismatch), None)
    else match b
      case NoBackend => Repaired(Failure(r, BlockedCapability, BackendUnavailable), None)
      case BackendRaises => Repaired(Failure(r, RetryableFailure, BackendFailed), None)
      case Decides(d) =>
        if d.outcome == Succeeded then Accept(hash, r, d, registrar)
        else Repaired(Failure(r, d.outcome, if d.failure.Some? then d.failure.value else BackendFailed), None)
  }

  // -------------------------------------------------------------------- closure

  /** The result validator does not raise. */
  ghost predicate ResultAgrees(x: Result)
  {
    if x.outcome == Succeeded then
      && x.outputRef.Some? && x.outputSha == Some(x.outputRef.value.objectSha256)
      && x.outputRef.value.objectSha256 != x.sourceOutput.objectSha256
      && x.workerVersion.Some? && x.failure.None? && !x.retryable
    else
      && x.outputRef.None? && x.outputSha.None? && x.failure.Some? && x.workerVersion.None?
      && (x.retryable <==> x.outcome == RetryableFailure)
  }

  /** Whatever the backend decides, the validator of the result never refuses it: no
      decision makes a repair of a valid request raise. */
  lemma RepairNeverRaises(hash: Bytes -> string, r: Request, m: Option<Material>, b: Backend, registrar: Registrar)
    requires Valid(r)
    ensures ResultAgrees(Repair(hash, r, m, b, registrar).result)
  {
  }

  /** The material is the requested output. */
  ghost predicate IsRequested(hash: Bytes -> string, r: Request, m: Option<Material>)
  {
    m.Some? && m.value.outputRef == r.outputRef && hash(m.value.bytes) == r.outputSha
  }

  /** Why a repair fails whose backend did not itself give a failure. */
  lemma FailedRepairSaysWhy(hash: Bytes -> string, r: Request, m: Option<Material>, b: Backend, registrar: Registrar)
    requires b.Decides? ==> b.decision.outcome == Succeeded
    ensures
      var x := Repair(hash, r, m, b, registrar).result;
      var delivered := b.Decides? && b.decision.output.Some? && b.decision.workerVersion.Some?;
      var changed := delivered && hash(b.decision.output.value) != r.outputSha;
      && (x.failure == Some(MaterialMissing) <==> m.None?)
      && (x.failure == Some(MaterialMismatch) <==> m.Some? && !IsRequested(hash, r, m))
      && (x.failure == Some(BackendUnavailable) <==> IsRequested(hash, r, m) && b.NoBackend?)
      && (x.failure == Some(BackendFailed) <==> IsRequested(hash, r, m) && b.BackendRaises?)
      && (x.failure == Some(OutputInvalid) <==> IsRequested(hash, r, m) && b.Decides? && !delivered)
      && (x.failure == Some(OutputUnchanged) <==> IsRequested(hash, r, m) && delivered && !changed)
      && (x.failure == Some(RegistrationUnavailable) <==> IsRequested(hash, r, m) && changed && registrar.NoRegistrar?)
      && (x.failure == Some(RegistrationFailed) <==>
            IsRequested(hash, r, m) && changed && registrar == Registers(false))
      && (x.retryable <==> x.failure == Some(BackendFailed))
      && (x.outcome == BlockedCapability <==> x.failure in {Some(BackendUnavailable), Some(RegistrationUnavailable)})
  {
  }

  /** The exact condition of a success. */
  ghost predicate Repairs(hash: Bytes -> string, r: Request, m: Option<Material>, b: Backend, registrar: Registrar)
  {
    && m.Some? && m.value.outputRef == r.outputRef && hash(m.value.bytes) == r.outputSha
    && b.Decides? && b.decision.outcome == Succeeded
    && b.decision.output.Some? && b.decision.workerVersion.Some?
    && hash(b.decision.output.value) != hash(m.value.bytes)
    && registrar == Registers(true)
  }

  /** A repair succeeds if and only if the material is the requested output, the
      backend delivers something else, and the registrar takes it. Then the registered
      bytes are the delivered ones, they differ from the source, and the result names
      exactly them, by content, for the targets of the request. */
  lemma RepairSucceedsIff(hash: Bytes -> string, r: Request, m: Option<Material>, b: Backend, registrar: Registrar)
    ensures
      var x := Repair(hash, r, m, b, registrar);
      && (x.result.outcome == Succeeded <==> Repairs(hash, r, m, b, registrar))
      && (x.result.outcome == Succeeded ==>
            && x.registered == Some(Registration(x.result.outputRef.value, b.decision.output.value))
            && x.registered.value.bytes != m.value.bytes
            && x.result.outputSha == Some(hash(x.registered.value.bytes))
            && x.result.targets == r.targets && x.result.sourceOutput == m.value.outputRef)
  {
  }

  /** Nothing is registered that is not named by its own hash, and nothing at all
      unless the backend delivered a changed output. */
  lemma RegisteredIsNamedByContent(hash: Bytes -> string, r: Request, m: Option<Material>, b: Backend,
                                   registrar: Registrar)
    requires Repair(hash, r, m, b, registrar).registered.Some?
    ensures
      var x := Repair(hash, r, m, b, registrar).registered.value;
      && x.outputRef == OutputRef(hash(x.bytes)) && hash(x.bytes) != r.outputSha
      && m.Some? && x.bytes != m.value.bytes
  {
  }

  lemma RepairableIsWaivable(code: R.FindingCode)
    ensures R.PolicyOf(code).repairAllowed ==>
              !R.PolicyOf(code).nonWaivable && R.PolicyOf(code).scope == R.ArtifactScope
  {
  }

  /** The two halves fit: the finding that makes a review reject an item can never be
      the target of a valid repair from a semantic round, so a rejection is final. */
  lemma RejectionsCannotBeRepaired(refOf: R.Finding -> Ref, review: R.Request, m: Option<R.Material>, b: R.Backend,
                                   r: Request)
    returns (f: R.Finding)
    requires R.Review(refOf, review, m, b).outcome == R.Rejected
    requires Valid(r) && r.source != Deterministic
    ensures f in R.Review(refOf, review, m, b).findings && f.policy.nonWaivable
    ensures Semantic(f.code) !in r.codes
  {
    f := R.RejectionHasReason(refOf, review, m, b);
    R.FindingsBelongToRound(refOf, review, m, b, f);
    RepairableIsWaivable(f.code);
  }

  // --------------------------------------------------------------------- facade

  datatype Reply = Answered(result: Result) | IdempotencyConflict | StaleIdentity

  class RepairFacade {
    const hash: Bytes -> string
    var cache: map<string, (string, Result)>
    var registered: seq<Registration>

    /** Everything handed to the registrar so far is named by its content. */
    ghost predicate Valid()
      reads this
    {
      forall x :: x in registered ==> x.outputRef == OutputRef(hash(x.bytes))
    }

    constructor (hash: Bytes -> string)
      ensures this.hash == hash && cache == map[] && registered == [] && Valid()
    {
      this.hash := hash;
      cache, registered := map[], [];
    }

    /** One answer per key; a repeat registers nothing. */
    method RepairOnce(r: Request, m: Option<Material>, b: Backend, registrar: Registrar) returns (reply: Reply)
      requires Valid()
      modifies this
      ensures Valid()
      ensures reply == StaleIdentity <==> !r.genuine
      ensures !r.genuine || r.key in old(cache) ==> cache == old(cache) && registered == old(registered)
      ensures r.genuine && r.key in old(cache) ==>
                reply == if old(cache)[r.key].0 == r.ref.objectSha256
                         then Answered(old(cache)[r.key].1) else IdempotencyConflict
      ensures r.genuine && r.key !in old(cache) ==>
                var x := Repair(hash, r, m, b, registrar);
                && reply == Answered(x.result)
                && cache == old(cache)[r.key := (r.ref.objectSha256, x.result)]
                && registered == old(registered) + if x.registered.Some? then [x.registered.value] else []
    {
      if !r.genuine { return StaleIdentity; }
      if r.key in cache {
        var (sha, known) := cache[r.key];
        return if sha == r.ref.objectSha256 then Answered(known) else IdempotencyConflict;
      }
      var x := Repair(hash, r, m, b, registrar);
      if x.registered.Some? {
        RegisteredIsNamedByContent(hash, r, m, b, registrar);
        registered := registered + [x.registered.value];
      }
      cache := cache[r.key := (r.ref.objectSha256, x.result)];
      reply := Answered(x.result);
    }
  }
}
