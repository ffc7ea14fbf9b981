/** The semantic review facade: whatever a reviewer backend decides, a review that
    is not BLOCKED is closed over its request and material. */
module SemanticReview {
  import opened Prelude

  datatype Round = CoverageSolvability | RealismConsistency | LeakageExecutability

  datatype Severity = P0 | P1 | P2 | P3

  datatype Scope = ItemScope | ArtifactScope

  datatype FindingCode =
    | RequiredCoverageMissing | DependencyNotSolvable | PublicRubricUnreachable | SafeEvidenceInsufficient
    | CapabilityContractMismatch | WorldFactInconsistent | SourceEvidenceInconsistent | ArtifactContentUnrealistic
    | CrossArtifactInconsistent | ArtifactMetadataInconsistent | AnswerBearingContent | CompletedDeliverableExposed
    | PrivateReferenceDerivation | GraderRuleDisclosure | HiddenPassConditionDisclosure
    | OriginalFinalOutputDerivation | ExecutabilityFailure | EvaluatorContractMismatch | ToolPolicyMismatch

  datatype Policy = Policy(round: Round, severity: Severity, scope: Scope, nonWaivable: bool, repairAllowed: bool)

  function PolicyOf(code: FindingCode): Policy
  {
    match code
    case RequiredCoverageMissing => Policy(CoverageSolvability, P1, ArtifactScope, false, true)
    case DependencyNotSolvable => Policy(CoverageSolvability, P1, ItemScope, false, false)
    case PublicRubricUnreachable => Policy(CoverageSolvability, P1, ItemScope, false, false)
    case SafeEvidenceInsufficient => Policy(CoverageSolvability, P1, ItemScope, false, false)
    case CapabilityContractMismatch => Policy(CoverageSolvability, P1, ItemScope, false, false)
    case WorldFactInconsistent => Policy(RealismConsistency, P1, ArtifactScope, false, true)
    case SourceEvidenceInconsistent => Policy(RealismConsistency, P1, ArtifactScope, false, true)
    case ArtifactContentUnrealistic => Policy(RealismConsistency, P1, ArtifactScope, false, true)
    case CrossArtifactInconsistent => Policy(RealismConsistency, P1, ArtifactScope, false, true)
    case ArtifactMetadataInconsistent => Policy(RealismConsistency, P2, ArtifactScope, false, true)
    case ExecutabilityFailure => Policy(LeakageExecutability, P1, ArtifactScope, false, true)
    case EvaluatorContractMismatch => Policy(LeakageExecutability, P1, ItemScope, false, false)
    case ToolPolicyMismatch => Policy(LeakageExecutability, P1, ItemScope, false, false)
    case _ => Policy(LeakageExecutability, P0, ItemScope, true, false)
  }

  datatype Outcome = Accepted | RequiresRepair | Rejected | Abstained | BlockedReview

  datatype FailureCode =
    | InsufficientEvidence | ModelUnavailable | ContextMissing | ContextMismatch | BackendFailed
    | BackendOutputInvalid | OutputHashMismatch

  datatype Disposition = ConfirmedResolved | Persists

  /** `genuine`: the identity check accepts the request. */
  datatype Request = Request(
    genuine: bool,
    ref: Ref,
    key: string,
    round: Round,
    candidateRef: Ref,
    validationRef: Ref,
    contextRef: Ref,
    currentVersions: seq<Ref>,
    currentOutputs: seq<Ref>,
    priorFindings: seq<Ref>,
    requiredFindings: seq<Ref>,
    priorResolutions: seq<Ref>,
    priorPlans: seq<Ref>,
    priorResults: seq<Ref>)

  datatype Material = Material(
    contextRef: Ref, inventory: seq<Ref>, deniedFamilies: seq<string>, allowedEvidence: set<string>)

  // ---------------------------------------------------------- backend decisions

  datatype FindingDecision = FindingDecision(
    code: FindingCode, subjects: seq<Ref>, artifactIds: seq<string>, evidence: seq<string>, predecessor: Option<Ref>)

  datatype ResolutionDecision = ResolutionDecision(
    prior: Ref, oldSubjects: seq<Ref>, currentSubjects: seq<Ref>, plan: Ref, results: seq<Ref>,
    disposition: Disposition, successor: Option<Ref>, evidence: seq<string>)

  datatype Decision = Decision(
    outcome: Outcome, findings: seq<FindingDecision>, resolutions: seq<ResolutionDecision>,
    failure: Option<FailureCode>)

  /** A backend decides, raises a type or value error, or fails otherwise. */
  datatype Backend = NoBackend | Decides(decision: Decision) | RaisesValueError | RaisesOther

  // -------------------------------------------------------------------- results

  datatype Finding = Finding(
    requestRef: Ref, round: Round, candidateRef: Ref, code: FindingCode, subjects: seq<Ref>,
    artifactIds: seq<string>, evidence: seq<string>, predecessor: Option<Ref>, policy: Policy)

  datatype Resolution = Resolution(
    requestRef: Ref, prior: Ref, oldSubjects: seq<Ref>, currentSubjects: seq<Ref>, plan: Ref, results: seq<Ref>,
    validationRef: Ref, disposition: Disposition, successor: Option<Ref>, evidence: seq<string>)

  datatype Result = Result(
    outcome: Outcome, findings: seq<Finding>, resolutions: seq<Resolution>, failure: Option<FailureCode>)

  function Blocked(code: FailureCode): Result { Result(BlockedReview, [], [], Some(code)) }

  predicate NoDuplicates(s: seq<string>) { |set x | x in s| == |s| }

  /** A finding with its validator; None is the ValueError. */
  function MakeFinding(r: Request, d: FindingDecision): Option<Finding>
  {
    var policy := PolicyOf(d.code);
    var f := Finding(r.ref, r.round, r.candidateRef, d.code, SortedRefs(d.subjects), Sort(d.artifactIds, TextKey),
                     Sort(d.evidence, TextKey), d.predecessor, policy);
    if policy.round != r.round || !NoDuplicates(f.artifactIds) || !NoDuplicates(f.evidence)
       || (policy.scope == ArtifactScope) != (f.artifactIds != [])
    then None else Some(f)
  }

  const FINDING_TYPE := "attachment-semantic-review-finding"

  function MakeResolution(r: Request, d: ResolutionDecision): Option<Resolution>
  {
    var x := Resolution(r.ref, d.prior, SortedRefs(d.oldSubjects), SortedRefs(d.currentSubjects), d.plan,
                        SortedRefs(d.results), r.validationRef, d.disposition, d.successor, Sort(d.evidence, TextKey));
    if x.prior.objectType != FINDING_TYPE || x.plan.objectType != "targeted-repair-plan" || !NoDuplicates(x.evidence)
       || x.oldSubjects == [] || x.currentSubjects == [] || x.oldSubjects == x.currentSubjects || x.results == []
       || (x.disposition == ConfirmedResolved) != x.successor.None?
       || (x.successor.Some? && x.successor.value.objectType != FINDING_TYPE)
    then None else Some(x)
  }

  /** Every element made, or none at all if one of them raises. */
  function MakeAll<A, B>(make: A -> Option<B>, ds: seq<A>): Option<seq<B>>
  {
    if ds == [] then Some([])
    else
      var rest, last := MakeAll(make, ds[..|ds| - 1]), make(ds[|ds| - 1]);
      if rest.None? || last.None? then None else Some(rest.value + [last.value])
  }

  function MakeFindings(r: Request, ds: seq<FindingDecision>): Option<seq<Finding>>
  {
    MakeAll(d => MakeFinding(r, d), ds)
  }

  function MakeResolutions(r: Request, ds: seq<ResolutionDecision>): Option<seq<Resolution>>
  {
    MakeAll(d => MakeResolution(r, d), ds)
  }

  // ----------------------------------------------------------------- validators

  predicate EvidenceAuthorized(d: Decision, m: Material)
  {
    && (forall f :: f in d.findings ==> forall e :: e in f.evidence ==> e in m.allowedEvidence)
    && (forall x :: x in d.resolutions ==> forall e :: e in x.evidence ==> e in m.allowedEvidence)
  }

  function RefSet(refs: seq<Ref>): set<Ref> { set ref | ref in refs }

  function PriorsOf(resolutions: seq<Resolution>): set<Ref> { set x | x in resolutions :: x.prior }

  function CurrentSubjects(r: Request): set<Ref>
  {
    {r.candidateRef} + RefSet(r.currentVersions) + RefSet(r.currentOutputs)
  }

  predicate LineageMatches(r: Request, x: Resolution)
  {
    && x.requestRef == r.ref
    && x.plan in r.priorPlans
    && (forall s :: s in x.results ==> s in r.priorResults)
    && x.validationRef == r.validationRef
    && (forall s :: s in x.currentSubjects ==> s in CurrentSubjects(r))
    && r.candidateRef in x.currentSubjects
  }

  /** `_validate_resolution_decisions` does not raise. */
  predicate ResolutionsValid(refOf: Finding -> Ref, r: Request, findings: seq<Finding>, resolutions: seq<Resolution>)
  {
    && (if r.priorPlans != [] then PriorsOf(resolutions) == RefSet(r.requiredFindings)
        else resolutions == [])
    && (forall x :: x in resolutions ==>
          && LineageMatches(r, x)
          && (x.successor.Some? ==> exists f :: f in findings && refOf(f) == x.successor.value))
  }

  predicate IsBlocker(f: Finding)
  {
    f.policy.severity == P0 || f.policy.severity == P1 || f.policy.nonWaivable
  }

  /** The result validator: does the outcome agree with the findings? */
  predicate OutcomeAgrees(x: Result)
  {
    match x.outcome
    case Accepted => (forall f :: f in x.findings ==> !IsBlocker(f)) && x.failure.None?
    case RequiresRepair =>
      && (exists f :: f in x.findings && IsBlocker(f))
      && (forall f :: f in x.findings && IsBlocker(f) ==> !f.policy.nonWaivable)
      && x.failure.None?
    case Rejected => (exists f :: f in x.findings && f.policy.nonWaivable) && x.failure.None?
    case _ => x.failure.Some? && x.findings == [] && x.resolutions == []
  }

  const DENIED_FAMILIES := ["BUILD_TRANSCRIPT", "HIDDEN_REASONING", "RAW_PRIVATE_REFERENCE", "RAW_TRACE"]

  function CitedRefs(r: Request): seq<Ref>
  {
    r.currentVersions + r.currentOutputs + r.priorFindings + r.priorResolutions + r.priorPlans + r.priorResults
  }

  predicate MaterialMatches(r: Request, m: Material)
  {
    && m.contextRef == r.contextRef
    && |set x | x in m.inventory| == |m.inventory|
    && (forall x :: x in {r.candidateRef, r.validationRef, r.contextRef} ==> x in m.inventory)
    && (forall x :: x in CitedRefs(r) ==> x in m.inventory)
    && Sort(m.deniedFamilies, TextKey) == DENIED_FAMILIES
  }

  /** What is made of a decision: a validated result, or BACKEND_OUTPUT_INVALID. */
  function Judge(refOf: Finding -> Ref, r: Request, m: Material, d: Decision): Result
  {
    if !EvidenceAuthorized(d, m) then Blocked(BackendOutputInvalid)
    else
      var findings, resolutions := MakeFindings(r, d.findings), MakeResolutions(r, d.resolutions);
      if findings.None? || resolutions.None? || !ResolutionsValid(refOf, r, findings.value, resolutions.value) then
        Blocked(BackendOutputInvalid)
      else
        var result := Result(d.outcome, findings.value, resolutions.value, d.failure);
        if OutcomeAgrees(result) then result else Blocked(BackendOutputInvalid)
  }

  /** `review` past its cache. */
  function Review(refOf: Finding -> Ref, r: Request, m: Option<Material>, b: Backend): Result
  {
    if m.None? then Blocked(ContextMissing)
    else if !MaterialMatches(r, m.value) then Blocked(ContextMismatch)
    else match b
      case NoBackend => Blocked(ModelUnavailable)
      case RaisesValueError => Blocked(BackendOutputInvalid)
      case RaisesOther => Blocked(BackendFailed)
      case Decides(d) => Judge(refOf, r, m.value, d)
  }

  // -------------------------------------------------------------------- closure

  lemma {:induction false} MadeFromSomething<A, B>(make: A -> Option<B>, ds: seq<A>, x: B)
    requires MakeAll(make, ds).Some? && x in MakeAll(make, ds).value
    ensures exists d :: d in ds && make(d) == Some(x)
  {
    var front, last := ds[..|ds| - 1], ds[|ds| - 1];
    assert ds == front + [last];
    if x in MakeAll(make, front).value {
      MadeFromSomething(make, front, x);
    } else {
      assert make(last) == Some(x);
    }
  }

  lemma FindingsComeFromDecisions(r: Request, ds: seq<FindingDecision>, f: Finding)
    requires MakeFindings(r, ds).Some? && f in MakeFindings(r, ds).value
    ensures exists d :: d in ds && MakeFinding(r, d) == Some(f)
  {
    MadeFromSomething(d => MakeFinding(r, d), ds, f);
  }

  lemma ResolutionsComeFromDecisions(r: Request, ds: seq<ResolutionDecision>, x: Resolution)
    requires MakeResolutions(r, ds).Some? && x in MakeResolutions(r, ds).value
    ensures exists d :: d in ds && MakeResolution(r, d) == Some(x)
  {
    MadeFromSomething(d => MakeResolution(r, d), ds, x);
  }

  /** Every cited evidence id is authorised by the material. */
  lemma ReviewCitesAuthorizedEvidence(refOf: Finding -> Ref, r: Request, m: Option<Material>, b: Backend)
    requires Review(refOf, r, m, b).outcome != BlockedReview
    ensures m.Some?
    ensures
      var x := Review(refOf, r, m, b);
      && (forall f, e :: f in x.findings && e in f.evidence ==> e in m.value.allowedEvidence)
      && (forall s, e :: s in x.resolutions && e in s.evidence ==> e in m.value.allowedEvidence)
  {
    var x, d := Review(refOf, r, m, b), b.decision;
    forall f, e | f in x.findings && e in f.evidence ensures e in m.value.allowedEvidence {
      FindingsComeFromDecisions(r, d.findings, f);
      var source :| source in d.findings && MakeFinding(r, source) == Some(f);
      SortedTextsSameElements(source.evidence, e);
    }
    forall s, e | s in x.resolutions && e in s.evidence ensures e in m.value.allowedEvidence {
      ResolutionsComeFromDecisions(r, d.resolutions, s);
      var source :| source in d.resolutions && MakeResolution(r, source) == Some(s);
      SortedTextsSameElements(source.evidence, e);
    }
  }

  /** A resolved finding has no successor; a persisting one has a current finding
      for successor, which under ACCEPTED is not a blocker. */
  ghost predicate SuccessorAgrees(refOf: Finding -> Ref, x: Result, s: Resolution)
  {
    && (s.disposition == ConfirmedResolved ==> s.successor.None?)
    && (s.disposition == Persists ==>
          && s.successor.Some?
          && exists f :: f in x.findings && refOf(f) == s.successor.value && (x.outcome == Accepted ==> !IsBlocker(f)))
  }

  /** Exactly the required prior findings are resolved where there is repair
      lineage, and none otherwise; each resolution stays inside that lineage and
      changes its subjects; one that persists names a current finding; and under
      ACCEPTED that finding is not a blocker. */
  lemma ReviewResolvesExactly(refOf: Finding -> Ref, r: Request, m: Option<Material>, b: Backend)
    requires Review(refOf, r, m, b).outcome != BlockedReview
    ensures
      var x := Review(refOf, r, m, b);
      && (r.priorPlans != [] ==> PriorsOf(x.resolutions) == RefSet(r.requiredFindings))
      && (r.priorPlans == [] ==> x.resolutions == [])
      && (forall s :: s in x.resolutions ==> LineageMatches(r, s) && s.oldSubjects != s.currentSubjects)
      && (forall s :: s in x.resolutions ==> SuccessorAgrees(refOf, x, s))
  {
    var x, d := Review(refOf, r, m, b), b.decision;
    forall s | s in x.resolutions
      ensures s.oldSubjects != s.currentSubjects && SuccessorAgrees(refOf, x, s)
    {
      ResolutionsComeFromDecisions(r, d.resolutions, s);
    }
  }

  /** Abstaining says nothing, so it is possible only where nothing is required. */
  lemma AbstentionLeavesNothingRequired(refOf: Finding -> Ref, r: Request, m: Option<Material>, b: Backend)
    requires Review(refOf, r, m, b).outcome == Abstained
    ensures
      var x := Review(refOf, r, m, b);
      x.findings == [] && x.resolutions == [] && x.failure.Some? && (r.priorPlans != [] ==> r.requiredFindings == [])
  {
    ReviewResolvesExactly(refOf, r, m, b);
    assert r.requiredFindings != [] ==> r.requiredFindings[0] in RefSet(r.requiredFindings);
  }

  /** The backend does not choose freely: whenever it neither abstains nor is
      blocked, the outcome follows from the findings. */
  lemma OutcomeFollowsFindings(refOf: Finding -> Ref, r: Request, m: Option<Material>, b: Backend)
    requires Review(refOf, r, m, b).outcome !in {BlockedReview, Abstained}
    ensures
      var x := Review(refOf, r, m, b);
      && (x.outcome == Accepted <==> forall f :: f in x.findings ==> !IsBlocker(f))
      && (x.outcome == Rejected <==> exists f :: f in x.findings && f.policy.nonWaivable)
      && (x.outcome == RequiresRepair <==>
            && (exists f :: f in x.findings && IsBlocker(f))
            && (forall f :: f in x.findings ==> !f.policy.nonWaivable))
  {
    var x := Review(refOf, r, m, b);
    assert OutcomeAgrees(x);
    OutcomesExclude(x);
  }

  lemma OutcomesExclude(x: Result)
    requires OutcomeAgrees(x) && x.outcome in {Accepted, RequiresRepair, Rejected}
    ensures x.outcome == Accepted <==> forall f :: f in x.findings ==> !IsBlocker(f)
    ensures x.outcome == Rejected <==> exists f :: f in x.findings && f.policy.nonWaivable
    ensures x.outcome == RequiresRepair <==>
              && (exists f :: f in x.findings && IsBlocker(f))
              && (forall f :: f in x.findings ==> !f.policy.nonWaivable)
  {
    if f :| f in x.findings && f.policy.nonWaivable {
      assert IsBlocker(f);
    }
  }

  lemma FindingKeepsPolicy(r: Request, ds: seq<FindingDecision>, f: Finding)
    requires MakeFindings(r, ds).Some? && f in MakeFindings(r, ds).value
    ensures f.policy == PolicyOf(f.code) && f.policy.round == r.round
  {
    FindingsComeFromDecisions(r, ds, f);
  }

  /** A finding always belongs to the round of its review. */
  lemma FindingsBelongToRound(refOf: Finding -> Ref, r: Request, m: Option<Material>, b: Backend, f: Finding)
    requires f in Review(refOf, r, m, b).findings
    ensures f.policy == PolicyOf(f.code) && f.policy.round == r.round
  {
    FindingKeepsPolicy(r, b.decision.findings, f);
  }

  lemma NonWaivableIsLeakage(code: FindingCode)
    ensures PolicyOf(code).nonWaivable ==> PolicyOf(code).round == LeakageExecutability
  {
  }

  lemma RejectionHasReason(refOf: Finding -> Ref, r: Request, m: Option<Material>, b: Backend) returns (f: Finding)
    requires Review(refOf, r, m, b).outcome == Rejected
    ensures f in Review(refOf, r, m, b).findings && f.policy.nonWaivable
  {
    var x := Review(refOf, r, m, b);
    assert OutcomeAgrees(x);
    f :| f in x.findings && f.policy.nonWaivable;
  }

  /** Non-waivable findings exist only in the leakage round, so only that round
      can reject an item. */
  lemma OnlyLeakageRoundRejects(refOf: Finding -> Ref, r: Request, m: Option<Material>, b: Backend)
    requires Review(refOf, r, m, b).outcome == Rejected
    ensures r.round == LeakageExecutability
  {
    var f := RejectionHasReason(refOf, r, m, b);
    FindingsBelongToRound(refOf, r, m, b, f);
    NonWaivableIsLeakage(f.code);
  }

  // --------------------------------------------------------------------- facade

  datatype Reply = Answered(result: Result) | IdempotencyConflict | StaleIdentity

  class ReviewFacade {
    const refOf: Finding -> Ref
    var cache: map<string, (string, Result)>

    constructor (refOf: Finding -> Ref)
      ensures this.refOf == refOf && cache == map[]
    {
      this.refOf := refOf;
      cache := map[];
    }

    /** One answer per key, whatever the backend would say later. */
    method ReviewOnce(r: Request, m: Option<Material>, b: Backend) returns (reply: Reply)
      modifies this
      ensures reply == StaleIdentity <==> !r.genuine
      ensures !r.genuine || r.key in old(cache) ==> cache == old(cache)
      ensures r.genuine && r.key in old(cache) ==>
                reply == if old(cache)[r.key].0 == r.ref.objectSha256
                         then Answered(old(cache)[r.key].1) else IdempotencyConflict
      ensures r.genuine && r.key !in old(cache) ==>
                && reply == Answered(Review(refOf, r, m, b))
                && cache == old(cache)[r.key := (r.ref.objectSha256, Review(refOf, r, m, b))]
    {
      if !r.genuine { return StaleIdentity; }
      if r.key in cache {
        var (sha, known) := cache[r.key];
        return if sha == r.ref.objectSha256 then Answered(known) else IdempotencyConflict;
      }
      var result := Review(refOf, r, m, b);
      cache := cache[r.key := (r.ref.objectSha256, result)];
      reply := Answered(result);
    }
  }
}
