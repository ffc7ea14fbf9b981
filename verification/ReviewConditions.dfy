/** When a semantic review stands, said of the backend's decision, the request and the
    material themselves, down to the finding codes. */
module ReviewConditions {
  import opened Prelude
  import opened SemanticReview

  // --------------------------------------------------------------------- the codes

  /** The codes that can never be waived: answers, hidden rules or private references
      have leaked. */
  const LEAKS: set<FindingCode> := {
    AnswerBearingContent, CompletedDeliverableExposed, PrivateReferenceDerivation, GraderRuleDisclosure,
    HiddenPassConditionDisclosure, OriginalFinalOutputDerivation}

  const COVERAGE: set<FindingCode> := {
    RequiredCoverageMissing, DependencyNotSolvable, PublicRubricUnreachable, SafeEvidenceInsufficient,
    CapabilityContractMismatch}

  const REALISM: set<FindingCode> := {
    WorldFactInconsistent, SourceEvidenceInconsistent, ArtifactContentUnrealistic, CrossArtifactInconsistent,
    ArtifactMetadataInconsistent}

  /** The codes about single artifacts, which a targeted repair may take on. */
  const ARTIFACTS: set<FindingCode> := REALISM + {RequiredCoverageMissing, ExecutabilityFailure}

  lemma PolicyIs(code: FindingCode)
    ensures
      var p := PolicyOf(code);
      && (p.round == CoverageSolvability <==> code in COVERAGE)
      && (p.round == RealismConsistency <==> code in REALISM)
      && (p.severity == P0 <==> code in LEAKS) && (p.nonWaivable <==> code in LEAKS)
      && (p.severity == P2 <==> code == ArtifactMetadataInconsistent) && p.severity != P3
      && (p.scope == ArtifactScope <==> code in ARTIFACTS) && (p.repairAllowed <==> code in ARTIFACTS)
  {
  }

  lemma BlockerIs(f: Finding)
    requires f.policy == PolicyOf(f.code)
    ensures IsBlocker(f) <==> f.policy.severity == P0 || f.policy.severity == P1
    ensures IsBlocker(f) <==> f.code != ArtifactMetadataInconsistent
  {
    PolicyIs(f.code);
  }

  /** Outcome and findings fit together, code by code: only inconsistent metadata may
      stand in an accepted review, a leak rejects, and anything else asks for repair. */
  ghost predicate OutcomeFits(outcome: Outcome, codes: set<FindingCode>)
  {
    && (outcome == Accepted <==> codes <= {ArtifactMetadataInconsistent})
    && (outcome == Rejected <==> codes * LEAKS != {})
    && (outcome == RequiresRepair <==> codes * LEAKS == {} && !(codes <= {ArtifactMetadataInconsistent}))
  }

  function CodesOf(findings: seq<Finding>): set<FindingCode> { set f | f in findings :: f.code }

  lemma BlockersIff(findings: seq<Finding>)
    requires forall f :: f in findings ==> f.policy == PolicyOf(f.code)
    ensures CodesOf(findings) <= {ArtifactMetadataInconsistent} <==> forall f :: f in findings ==> !IsBlocker(f)
  {
    forall f | f in findings
      ensures f.code in CodesOf(findings)
      ensures IsBlocker(f) <==> f.code != ArtifactMetadataInconsistent
    {
      BlockerIs(f);
    }
  }

  lemma LeaksIff(findings: seq<Finding>)
    requires forall f :: f in findings ==> f.policy == PolicyOf(f.code)
    ensures CodesOf(findings) * LEAKS == {} <==> forall f :: f in findings ==> !f.policy.nonWaivable
  {
    var codes := CodesOf(findings);
    forall f | f in findings
      ensures f.code in codes
      ensures f.policy.nonWaivable <==> f.code in LEAKS
    {
      PolicyIs(f.code);
    }
    if codes * LEAKS != {} {
      var code :| code in codes * LEAKS;
      var f :| f in findings && f.code == code;
    }
    if f :| f in findings && f.policy.nonWaivable {
      assert f.code in codes * LEAKS;
    }
  }

  lemma OutcomeFitsIff(x: Result)
    requires forall f :: f in x.findings ==> f.policy == PolicyOf(f.code)
    requires x.outcome in {Accepted, RequiresRepair, Rejected}
    ensures OutcomeAgrees(x) <==> x.failure.None? && OutcomeFits(x.outcome, CodesOf(x.findings))
  {
    BlockersIff(x.findings);
    LeaksIff(x.findings);
    forall f | f in x.findings && f.policy.nonWaivable ensures IsBlocker(f) {
      BlockerIs(f);
      PolicyIs(f.code);
    }
  }

  /** Whenever the backend neither abstains nor is blocked, the outcome follows from
      the severities of the findings, and so from their codes. */
  lemma OutcomeFollowsCodes(refOf: Finding -> Ref, r: Request, m: Option<Material>, b: Backend)
    requires Review(refOf, r, m, b).outcome !in {BlockedReview, Abstained}
    ensures
      var x := Review(refOf, r, m, b);
      && OutcomeFits(x.outcome, CodesOf(x.findings))
      && (x.outcome == Accepted <==>
            forall f :: f in x.findings ==> f.policy.severity in {P2, P3} && !f.policy.nonWaivable)
      && (x.outcome == Rejected <==> exists f :: f in x.findings && f.policy.nonWaivable)
      && (x.outcome == RequiresRepair <==>
            && (exists f :: f in x.findings && f.policy.severity in {P0, P1})
            && (forall f :: f in x.findings ==> !f.policy.nonWaivable))
  {
    var x := Review(refOf, r, m, b);
    forall f | f in x.findings
      ensures f.policy == PolicyOf(f.code) && (IsBlocker(f) <==> f.policy.severity in {P0, P1})
      ensures f.policy.severity in {P2, P3} ==> !f.policy.nonWaivable
    {
      FindingsBelongToRound(refOf, r, m, b, f);
      BlockerIs(f);
      PolicyIs(f.code);
    }
    OutcomeFollowsFindings(refOf, r, m, b);
    OutcomeFitsIff(x);
  }

  // ------------------------------------------------------------- sorted and distinct

  lemma {:induction false} DeduplicatedOnce(refs: seq<Ref>, x: Ref)
    ensures multiset(Deduplicated(refs))[x] == if x in refs then 1 else 0
  {
    if refs != [] {
      var front, last := refs[..|refs| - 1], refs[|refs| - 1];
      assert refs == front + [last];
      DeduplicatedOnce(front, x);
      DeduplicatedSameElements(front, last);
    }
  }

  lemma RefKeyIsInjective(a: Ref, b: Ref)
    ensures RefKey(a) == RefKey(b) ==> a == b
  {
    var x, y := RefKey(a), RefKey(b);
    if x == y {
      assert x[0] == y[0] && x[1] == y[1] && x[2] == y[2] && x[3] == y[3];
    }
  }

  lemma TwicePresent(s: seq<Ref>, i: nat, j: nat)
    requires i < j < |s| && s[i] == s[j]
    ensures multiset(s)[s[i]] >= 2
  {
    assert s == s[..j] + s[j..];
    assert s[..j][i] == s[i] && s[j..][0] == s[i];
    assert multiset(s) == multiset(s[..j]) + multiset(s[j..]);
    assert s[i] in multiset(s[..j]) && s[i] in multiset(s[j..]);
  }

  lemma OnceMeansDistinct(s: seq<Ref>)
    requires forall x :: multiset(s)[x] <= 1
    ensures DistinctKeys(s, RefKey)
  {
    forall i, j | 0 <= i < j < |s| ensures RefKey(s[i]) != RefKey(s[j]) {
      RefKeyIsInjective(s[i], s[j]);
      if s[i] == s[j] { TwicePresent(s, i, j); }
    }
  }

  /** Sorted references compare as sets. */
  lemma SortedRefsEqualIff(a: seq<Ref>, b: seq<Ref>)
    ensures SortedRefs(a) == SortedRefs(b) <==> RefSet(a) == RefSet(b)
  {
    forall x ensures x in SortedRefs(a) <==> x in RefSet(a) { SortedRefsSameElements(a, x); }
    forall x ensures x in SortedRefs(b) <==> x in RefSet(b) { SortedRefsSameElements(b, x); }
    if RefSet(a) == RefSet(b) {
      forall x ensures multiset(Deduplicated(a))[x] == multiset(Deduplicated(b))[x] {
        DeduplicatedOnce(a, x);
        DeduplicatedOnce(b, x);
        assert x in RefSet(a) <==> x in RefSet(b);
      }
      assert multiset(Deduplicated(a)) == multiset(Deduplicated(b));
      SortSorts(Deduplicated(a), RefKey);
      SortSorts(Deduplicated(b), RefKey);
      forall x ensures multiset(SortedRefs(a))[x] <= 1 { DeduplicatedOnce(a, x); }
      OnceMeansDistinct(SortedRefs(a));
      SortedArrangementUnique(SortedRefs(a), SortedRefs(b), RefKey);
    } else if SortedRefs(a) == SortedRefs(b) {
      assert forall x :: x in RefSet(a) <==> x in RefSet(b);
    }
  }

  lemma {:induction false} NoDuplicatesIff(s: seq<string>)
    ensures |set x | x in s| <= |s|
    ensures NoDuplicates(s) <==> Distinct(s)
  {
    if s != [] {
      var front, last := s[..|s| - 1], s[|s| - 1];
      NoDuplicatesIff(front);
      DistinctExtends(front, last);
      assert s == front + [last];
      assert (set x | x in s) == (set x | x in front) + {last};
    }
  }

  lemma SortedNoDuplicatesIff(s: seq<string>)
    ensures NoDuplicates(Sort(s, TextKey)) <==> Distinct(s)
  {
    NoDuplicatesIff(s);
    SortSorts(s, TextKey);
    var t := Sort(s, TextKey);
    assert |t| == |multiset(t)| == |multiset(s)| == |s|;
    forall x ensures x in t <==> x in s { SortedTextsSameElements(s, x); }
    assert (set x | x in t) == set x | x in s;
  }

  // ------------------------------------------------------------ when a review stands

  /** The material is the one the request was made for. */
  ghost predicate MaterialFits(r: Request, m: Material)
  {
    && m.contextRef == r.contextRef
    && (forall i, j :: 0 <= i < j < |m.inventory| ==> m.inventory[i] != m.inventory[j])
    && r.candidateRef in m.inventory && r.validationRef in m.inventory && r.contextRef in m.inventory
    && (forall x :: x in r.currentVersions || x in r.currentOutputs || x in r.priorFindings ==> x in m.inventory)
    && (forall x :: x in r.priorResolutions || x in r.priorPlans || x in r.priorResults ==> x in m.inventory)
    && multiset(m.deniedFamilies)
       == multiset{"BUILD_TRANSCRIPT", "HIDDEN_REASONING", "RAW_PRIVATE_REFERENCE", "RAW_TRACE"}
  }

  ghost predicate FindingStands(r: Request, m: Material, d: FindingDecision)
  {
    && (d.code in COVERAGE <==> r.round == CoverageSolvability)
    && (d.code in REALISM <==> r.round == RealismConsistency)
    && Distinct(d.artifactIds) && (d.artifactIds != [] <==> d.code in ARTIFACTS)
    && Distinct(d.evidence) && (forall e :: e in d.evidence ==> e in m.allowedEvidence)
  }

  /** A resolution inside the request's repair lineage that changes its subjects. */
  ghost predicate ResolutionStands(r: Request, m: Material, d: ResolutionDecision)
  {
    && d.prior.objectType == "attachment-semantic-review-finding" && d.plan.objectType == "targeted-repair-plan"
    && d.plan in r.priorPlans
    && d.results != [] && (forall x :: x in d.results ==> x in r.priorResults)
    && d.oldSubjects != [] && RefSet(d.oldSubjects) != RefSet(d.currentSubjects)
    && r.candidateRef in d.currentSubjects
    && (forall x :: x in d.currentSubjects ==> x == r.candidateRef || x in r.currentVersions || x in r.currentOutputs)
    && Distinct(d.evidence) && (forall e :: e in d.evidence ==> e in m.allowedEvidence)
    && (d.disposition == ConfirmedResolved <==> d.successor.None?)
    && (d.successor.Some? ==> d.successor.value.objectType == "attachment-semantic-review-finding")
  }

  lemma {:induction false} MadeIff<A, B>(make: A -> Option<B>, ds: seq<A>)
    ensures MakeAll(make, ds).Some? <==> forall d :: d in ds ==> make(d).Some?
    ensures MakeAll(make, ds).Some? ==>
              && |MakeAll(make, ds).value| == |ds|
              && forall i :: 0 <= i < |ds| ==> make(ds[i]) == Some(MakeAll(make, ds).value[i])
  {
    if ds != [] {
      var front, last := ds[..|ds| - 1], ds[|ds| - 1];
      MadeIff(make, front);
      assert ds == front + [last];
    }
  }

  lemma FindingIsMadeIff(r: Request, d: FindingDecision)
    ensures MakeFinding(r, d).Some? <==>
              && (d.code in COVERAGE <==> r.round == CoverageSolvability)
              && (d.code in REALISM <==> r.round == RealismConsistency)
              && Distinct(d.artifactIds) && Distinct(d.evidence) && (d.artifactIds != [] <==> d.code in ARTIFACTS)
    ensures MakeFinding(r, d).Some? ==> MakeFinding(r, d).value.code == d.code
  {
    PolicyIs(d.code);
    SortedNoDuplicatesIff(d.artifactIds);
    SortedNoDuplicatesIff(d.evidence);
    SortSorts(d.artifactIds, TextKey);
    assert |multiset(Sort(d.artifactIds, TextKey))| == |multiset(d.artifactIds)|;
  }

  lemma NonEmptyWhenSorted(refs: seq<Ref>)
    ensures SortedRefs(refs) == [] <==> refs == []
  {
    if refs != [] { SortedRefsSameElements(refs, refs[0]); }
  }

  /** The resolution can be made, and stays in the lineage. */
  ghost predicate MadeInLineage(r: Request, d: ResolutionDecision)
  {
    MakeResolution(r, d).Some? && LineageMatches(r, MakeResolution(r, d).value)
  }

  lemma ResolutionIsMadeIff(r: Request, m: Material, d: ResolutionDecision)
    ensures MadeInLineage(r, d) && (forall e :: e in d.evidence ==> e in m.allowedEvidence)
       <==> ResolutionStands(r, m, d)
  {
    SortedNoDuplicatesIff(d.evidence);
    SortedRefsEqualIff(d.oldSubjects, d.currentSubjects);
    NonEmptyWhenSorted(d.oldSubjects);
    NonEmptyWhenSorted(d.currentSubjects);
    NonEmptyWhenSorted(d.results);
    forall x ensures x in SortedRefs(d.results) <==> x in d.results { SortedRefsSameElements(d.results, x); }
    forall x ensures x in SortedRefs(d.currentSubjects) <==> x in d.currentSubjects {
      SortedRefsSameElements(d.currentSubjects, x);
    }
  }

  lemma MaterialFitsIff(r: Request, m: Material)
    ensures MaterialMatches(r, m) <==> MaterialFits(r, m)
  {
    InventoryIsDistinctIff(m.inventory);
    SortedFamiliesIff(m.deniedFamilies);
  }

  lemma {:induction false} InventoryIsDistinctIff(s: seq<Ref>)
    ensures |set x | x in s| <= |s|
    ensures |set x | x in s| == |s| <==> forall i, j :: 0 <= i < j < |s| ==> s[i] != s[j]
  {
    if s != [] {
      var front, last := s[..|s| - 1], s[|s| - 1];
      InventoryIsDistinctIff(front);
      DistinctExtends(front, last);
      assert Distinct(s) <==> forall i, j :: 0 <= i < j < |s| ==> s[i] != s[j];
      assert Distinct(front) <==> forall i, j :: 0 <= i < j < |front| ==> front[i] != front[j];
      assert s == front + [last];
      assert (set x | x in s) == (set x | x in front) + {last};
    }
  }

  lemma {:induction false} AfterPrefix(a: string, b: string, n: nat)
    requires n < |a| && n < |b| && a[..n] == b[..n] && a[n] < b[n]
    ensures TextLeq(a, b) && a != b
  {
    if n > 0 {
      assert a[0] == a[..n][0] == b[..n][0] == b[0];
      assert a[1..][..n - 1] == a[..n][1..] && b[1..][..n - 1] == b[..n][1..];
      AfterPrefix(a[1..], b[1..], n - 1);
    }
  }

  lemma KeyAfterPrefix(a: string, b: string, n: nat)
    requires n < |a| && n < |b| && a[..n] == b[..n] && a[n] < b[n]
    ensures KeyLeq(TextKey(a), TextKey(b)) && TextKey(a) != TextKey(b)
  {
    AfterPrefix(a, b, n);
    assert TextKey(a)[0] == a && TextKey(b)[0] == b;
  }

  lemma FourSorted(a: string, b: string, c: string, d: string)
    requires KeyLeq(TextKey(a), TextKey(b)) && KeyLeq(TextKey(a), TextKey(c)) && KeyLeq(TextKey(a), TextKey(d))
    requires KeyLeq(TextKey(b), TextKey(c)) && KeyLeq(TextKey(b), TextKey(d)) && KeyLeq(TextKey(c), TextKey(d))
    ensures SortedBy([a, b, c, d], TextKey)
  {
  }

  lemma FamiliesAreSorted()
    ensures SortedBy(DENIED_FAMILIES, TextKey) && DistinctKeys(DENIED_FAMILIES, TextKey)
  {
    var f := DENIED_FAMILIES;
    KeyAfterPrefix(f[0], f[1], 0);
    KeyAfterPrefix(f[0], f[2], 0);
    KeyAfterPrefix(f[0], f[3], 0);
    KeyAfterPrefix(f[1], f[2], 0);
    KeyAfterPrefix(f[1], f[3], 0);
    KeyAfterPrefix(f[2], f[3], 4);
    FourSorted(f[0], f[1], f[2], f[3]);
  }

  lemma SortedFamiliesIff(families: seq<string>)
    ensures Sort(families, TextKey) == DENIED_FAMILIES
       <==> multiset(families) == multiset{"BUILD_TRANSCRIPT", "HIDDEN_REASONING", "RAW_PRIVATE_REFERENCE", "RAW_TRACE"}
  {
    var f := DENIED_FAMILIES;
    assert multiset(f) == multiset{"BUILD_TRANSCRIPT", "HIDDEN_REASONING", "RAW_PRIVATE_REFERENCE", "RAW_TRACE"};
    SortSorts(families, TextKey);
    FamiliesAreSorted();
    if multiset(families) == multiset(f) {
      SortedArrangementUnique(f, Sort(families, TextKey), TextKey);
    }
  }

  /** Some decided finding becomes the finding that `ref` names. */
  ghost predicate IsDecidedFinding(refOf: Finding -> Ref, r: Request, ds: seq<FindingDecision>, ref: Ref)
  {
    exists d :: d in ds && MakeFinding(r, d).Some? && refOf(MakeFinding(r, d).value) == ref
  }

  /** Every finding and resolution stands, the required findings are resolved exactly,
      and persisting ones have a successor among the decided findings. */
  ghost predicate PartsStand(refOf: Finding -> Ref, r: Request, m: Material, d: Decision)
  {
    && (forall f :: f in d.findings ==> FindingStands(r, m, f))
    && (forall x :: x in d.resolutions ==> ResolutionStands(r, m, x))
    && (if r.priorPlans != [] then (set x | x in d.resolutions :: x.prior) == RefSet(r.requiredFindings)
        else d.resolutions == [])
    && (forall x :: x in d.resolutions && x.successor.Some? ==>
          IsDecidedFinding(refOf, r, d.findings, x.successor.value))
  }

  /** The outcome is the one the decided codes call for; abstaining says nothing and
      gives a reason. */
  ghost predicate OutcomeStands(d: Decision)
  {
    if d.outcome in {Accepted, RequiresRepair, Rejected} then
      d.failure.None? && OutcomeFits(d.outcome, set f | f in d.findings :: f.code)
    else d.outcome == Abstained && d.failure.Some? && d.findings == [] && d.resolutions == []
  }

  /** What the validators establish of a decision. */
  ghost predicate Validated(refOf: Finding -> Ref, r: Request, m: Material, d: Decision)
  {
    && EvidenceAuthorized(d, m)
    && MakeFindings(r, d.findings).Some? && MakeResolutions(r, d.resolutions).Some?
    && ResolutionsValid(refOf, r, MakeFindings(r, d.findings).value, MakeResolutions(r, d.resolutions).value)
  }

  lemma MadePartsAre(r: Request, d: Decision)
    ensures MakeFindings(r, d.findings).Some? <==> forall f :: f in d.findings ==> MakeFinding(r, f).Some?
    ensures MakeResolutions(r, d.resolutions).Some? <==> forall x :: x in d.resolutions ==> MakeResolution(r, x).Some?
    ensures MakeFindings(r, d.findings).Some? ==>
              && |MakeFindings(r, d.findings).value| == |d.findings|
              && forall i :: 0 <= i < |d.findings| ==>
                   MakeFinding(r, d.findings[i]) == Some(MakeFindings(r, d.findings).value[i])
    ensures MakeResolutions(r, d.resolutions).Some? ==>
              && |MakeResolutions(r, d.resolutions).value| == |d.resolutions|
              && forall i :: 0 <= i < |d.resolutions| ==>
                   MakeResolution(r, d.resolutions[i]) == Some(MakeResolutions(r, d.resolutions).value[i])
  {
    MadeIff((f: FindingDecision) => MakeFinding(r, f), d.findings);
    MadeIff((x: ResolutionDecision) => MakeResolution(r, x), d.resolutions);
  }

  lemma SuccessorsIff(refOf: Finding -> Ref, r: Request, d: Decision, ref: Ref)
    requires MakeFindings(r, d.findings).Some?
    ensures (exists f :: f in MakeFindings(r, d.findings).value && refOf(f) == ref)
       <==> IsDecidedFinding(refOf, r, d.findings, ref)
  {
    MadePartsAre(r, d);
    MadeElements((x: FindingDecision) => MakeFinding(r, x), d.findings, MakeFindings(r, d.findings).value);
  }

  lemma MadeElements<A, B>(make: A -> Option<B>, ds: seq<A>, made: seq<B>)
    requires |made| == |ds| && forall i :: 0 <= i < |ds| ==> make(ds[i]) == Some(made[i])
    ensures forall f :: f in made ==> exists x :: x in ds && make(x) == Some(f)
    ensures forall x :: x in ds ==> make(x).Some? && make(x).value in made
  {
    forall f | f in made ensures exists x :: x in ds && make(x) == Some(f) {
      var i :| 0 <= i < |made| && made[i] == f;
      assert ds[i] in ds;
    }
    forall x | x in ds ensures make(x).Some? && make(x).value in made {
      var i :| 0 <= i < |ds| && ds[i] == x;
    }
  }

  lemma SamePriors(ds: seq<ResolutionDecision>, made: seq<Resolution>)
    requires |made| == |ds| && forall i :: 0 <= i < |ds| ==> made[i].prior == ds[i].prior
    ensures PriorsOf(made) == set x | x in ds :: x.prior
  {
    forall y | y in made ensures exists x :: x in ds && x.prior == y.prior {
      var i :| 0 <= i < |made| && made[i] == y;
      assert ds[i] in ds;
    }
    forall x | x in ds ensures exists y :: y in made && y.prior == x.prior {
      var i :| 0 <= i < |ds| && ds[i] == x;
      assert made[i] in made;
    }
  }

  lemma PriorsAre(r: Request, d: Decision)
    requires MakeResolutions(r, d.resolutions).Some?
    ensures PriorsOf(MakeResolutions(r, d.resolutions).value) == set x | x in d.resolutions :: x.prior
  {
    MadePartsAre(r, d);
    SamePriors(d.resolutions, MakeResolutions(r, d.resolutions).value);
  }

  lemma ValidatedMeansStands(refOf: Finding -> Ref, r: Request, m: Material, d: Decision)
    requires Validated(refOf, r, m, d)
    ensures PartsStand(refOf, r, m, d)
  {
    MadePartsAre(r, d);
    PriorsAre(r, d);
    var made := MakeResolutions(r, d.resolutions).value;
    forall f | f in d.findings ensures FindingStands(r, m, f) { FindingIsMadeIff(r, f); }
    forall x | x in d.resolutions
      ensures ResolutionStands(r, m, x)
      ensures x.successor.Some? ==> IsDecidedFinding(refOf, r, d.findings, x.successor.value)
    {
      var i :| 0 <= i < |d.resolutions| && d.resolutions[i] == x;
      assert made[i] in made;
      ResolutionIsMadeIff(r, m, x);
      if x.successor.Some? { SuccessorsIff(refOf, r, d, x.successor.value); }
    }
  }

  lemma StandsMeansValidated(refOf: Finding -> Ref, r: Request, m: Material, d: Decision)
    requires PartsStand(refOf, r, m, d)
    ensures Validated(refOf, r, m, d)
  {
    forall f | f in d.findings ensures MakeFinding(r, f).Some? {
      assert FindingStands(r, m, f);
      FindingIsMadeIff(r, f);
    }
    forall x | x in d.resolutions ensures MadeInLineage(r, x) {
      assert ResolutionStands(r, m, x);
      ResolutionIsMadeIff(r, m, x);
    }
    MadePartsAre(r, d);
    PriorsAre(r, d);
    var made := MakeResolutions(r, d.resolutions).value;
    forall y | y in made
      ensures LineageMatches(r, y)
      ensures y.successor.Some? ==>
                exists f :: f in MakeFindings(r, d.findings).value && refOf(f) == y.successor.value
    {
      var i :| 0 <= i < |made| && made[i] == y;
      assert d.resolutions[i] in d.resolutions && MadeInLineage(r, d.resolutions[i]);
      if y.successor.Some? { SuccessorsIff(refOf, r, d, y.successor.value); }
    }
  }

  lemma MadeCodesAre(r: Request, ds: seq<FindingDecision>)
    requires MakeFindings(r, ds).Some?
    ensures CodesOf(MakeFindings(r, ds).value) == set f | f in ds :: f.code
  {
    var make, made := (x: FindingDecision) => MakeFinding(r, x), MakeFindings(r, ds).value;
    MadeIff(make, ds);
    MadeElements(make, ds, made);
    forall x | x in ds ensures make(x).value.code == x.code { FindingIsMadeIff(r, x); }
  }

  lemma OutcomeStandsIff(r: Request, d: Decision)
    requires MakeFindings(r, d.findings).Some? && MakeResolutions(r, d.resolutions).Some?
    ensures
      var x := Result(d.outcome, MakeFindings(r, d.findings).value, MakeResolutions(r, d.resolutions).value, d.failure);
      OutcomeAgrees(x) && d.outcome != BlockedReview <==> OutcomeStands(d)
  {
    MadePartsAre(r, d);
    var made := MakeFindings(r, d.findings).value;
    forall f | f in made ensures f.policy == PolicyOf(f.code) { FindingKeepsPolicy(r, d.findings, f); }
    MadeCodesAre(r, d.findings);
    if d.outcome in {Accepted, RequiresRepair, Rejected} {
      OutcomeFitsIff(Result(d.outcome, made, MakeResolutions(r, d.resolutions).value, d.failure));
    }
  }

  /** The exact condition, for every backend: a review is not BLOCKED if and only if
      its material is the request's, the backend decides, every part of its decision
      stands, and its outcome is the one its codes call for. */
  lemma ReviewStandsIff(refOf: Finding -> Ref, r: Request, m: Option<Material>, b: Backend)
    ensures Review(refOf, r, m, b).outcome != BlockedReview <==>
              && m.Some? && MaterialFits(r, m.value) && b.Decides?
              && PartsStand(refOf, r, m.value, b.decision) && OutcomeStands(b.decision)
    ensures Review(refOf, r, m, b).outcome != BlockedReview ==>
              Review(refOf, r, m, b).outcome == b.decision.outcome
  {
    if m.Some? && b.Decides? {
      MaterialFitsIff(r, m.value);
      var d := b.decision;
      if Validated(refOf, r, m.value, d) {
        ValidatedMeansStands(refOf, r, m.value, d);
        OutcomeStandsIff(r, d);
      } else if PartsStand(refOf, r, m.value, d) {
        StandsMeansValidated(refOf, r, m.value, d);
      }
    } else if m.Some? {
      MaterialFitsIff(r, m.value);
    }
  }

  /** Why a review is BLOCKED, if the backend did not itself say so. */
  lemma BlockedReviewSaysWhy(refOf: Finding -> Ref, r: Request, m: Option<Material>, b: Backend)
    requires Review(refOf, r, m, b).outcome == BlockedReview
    requires b.Decides? ==> b.decision.outcome != BlockedReview
    ensures Review(refOf, r, m, b).findings == [] && Review(refOf, r, m, b).resolutions == []
    ensures
      var code := Review(refOf, r, m, b).failure;
      && (code == Some(ContextMissing) <==> m.None?)
      && (code == Some(ContextMismatch) <==> m.Some? && !MaterialFits(r, m.value))
      && (code == Some(ModelUnavailable) <==> m.Some? && MaterialFits(r, m.value) && b.NoBackend?)
      && (code == Some(BackendFailed) <==> m.Some? && MaterialFits(r, m.value) && b.RaisesOther?)
      && (code == Some(BackendOutputInvalid) <==>
            m.Some? && MaterialFits(r, m.value) && (b.RaisesValueError? || b.Decides?))
  {
    if m.Some? { MaterialFitsIff(r, m.value); }
  }
}
