/** Exact workspace export: outputs are copied one by one, and what was copied is
    compared with the requested inventory. */
module Export {
  import opened Prelude

  datatype MemberType = DirectoryMember | FileMember | NestedMember

  function TypeName(t: MemberType): string
  {
    match t
    case DirectoryMember => "DIRECTORY"
    case FileMember => "FILE"
    case NestedMember => "NESTED_MEMBER"
  }

  datatype Member = Member(
    path: string, memberType: MemberType, mediaType: Option<string>, size: nat, contentSha: Option<string>,
    containerRef: Option<Ref>, outputRef: Ref)

  function MemberKey(m: Member): Key
  {
    [if m.containerRef.Some? then m.containerRef.value.objectId else "", m.path, TypeName(m.memberType),
     m.outputRef.objectId]
  }

  /** `genuine`: the identity check accepts the request. */
  datatype Request = Request(genuine: bool, outputRefs: seq<Ref>, members: seq<Member>)

  function OutputRefsOf(members: seq<Member>): (refs: seq<Ref>)
    ensures |refs| == |members|
    ensures forall i :: 0 <= i < |members| ==> refs[i] == members[i].outputRef
  {
    seq(|members|, i requires 0 <= i < |members| => members[i].outputRef)
  }

  /** What validating a request has already established. */
  ghost predicate Valid(r: Request)
  {
    && r.members == Sort(r.members, MemberKey)
    && DistinctKeys(r.members, MemberKey)
    && r.outputRefs == SortedRefs(r.outputRefs)
    && (forall i, j :: 0 <= i < j < |r.outputRefs| ==> r.outputRefs[i] != r.outputRefs[j])
    && SortedRefs(OutputRefsOf(r.members)) == r.outputRefs
  }

  datatype Code =
    | MaterialNotFound | MaterialMismatch | SourcePathViolation | DestinationPathViolation | SymlinkUnsupported
    | SpecialFileUnsupported | InventoryMismatch | SourceHashMismatch | CopiedHashMismatch | LimitExceeded
    | ContainerUnsupported

  datatype Scanned = Scanned(members: seq<Member>) | ScanFailed(code: Code)

  /** What the file system does for one output: resolving it, scanning and hashing
      the source, copying it, scanning and hashing the copy, hashing the source
      again. */
  datatype OutputRun = OutputRun(
    material: Option<Code>,
    source: Scanned,
    sourceSha: string,
    copy: Option<Code>,
    copied: Scanned,
    copiedSha: string,
    sourceShaAfter: string)

  function Expected(members: seq<Member>, ref: Ref): seq<Member>
  {
    if members == [] then []
    else
      var last := members[|members| - 1];
      Expected(members[..|members| - 1], ref) + if last.outputRef == ref then [last] else []
  }

  /** Why one output is not exported, if it is not. */
  function Fault(r: Request, ref: Ref, run: OutputRun): Option<Code>
  {
    var expected := Expected(r.members, ref);
    if run.material.Some? then run.material
    else if run.source.ScanFailed? then Some(run.source.code)
    else if run.source.members != expected then Some(InventoryMismatch)
    else if run.sourceSha != ref.objectSha256 then Some(SourceHashMismatch)
    else if run.copy.Some? then run.copy
    else if run.copied.ScanFailed? then Some(run.copied.code)
    else if run.copied.members != expected then Some(InventoryMismatch)
    else if run.copiedSha != ref.objectSha256 then Some(CopiedHashMismatch)
    else if run.sourceShaAfter != run.sourceSha then Some(SourceHashMismatch)
    else None
  }

  datatype Result =
    | Exported(members: seq<Member>, outputRefs: seq<Ref>, fileCount: nat, totalBytes: nat)
    | Blocked(code: Code)
    | ConstructorRaises
    | IdentityRaises

  function FileCount(members: seq<Member>): nat
  {
    if members == [] then 0
    else FileCount(members[..|members| - 1]) + if members[|members| - 1].memberType == DirectoryMember then 0 else 1
  }

  function TotalBytes(members: seq<Member>): nat
  {
    if members == [] then 0
    else
      var last := members[|members| - 1];
      TotalBytes(members[..|members| - 1]) + if last.memberType == DirectoryMember then 0 else last.size
  }

  /** `LHWorkspaceExportResultV2.exported`, which checks the inventory once more. */
  function MakeExported(r: Request, observed: seq<Member>, copied: seq<Ref>): Result
  {
    var members := Sort(observed, MemberKey);
    if members != r.members || SortedRefs(copied) != r.outputRefs then ConstructorRaises
    else Exported(members, SortedRefs(copied), FileCount(members), TotalBytes(members))
  }

  /** The fault of the first output, among the first `n`, that has one. */
  function FirstFault(r: Request, runs: seq<OutputRun>, n: nat): Option<Code>
    requires n <= |runs| == |r.outputRefs|
  {
    if n == 0 then None
    else
      var earlier := FirstFault(r, runs, n - 1);
      if earlier.Some? then earlier else Fault(r, r.outputRefs[n - 1], runs[n - 1])
  }

  lemma {:induction false} FirstFaultIsFinal(r: Request, runs: seq<OutputRun>, n: nat)
    requires n <= |runs| == |r.outputRefs| && FirstFault(r, runs, n).Some?
    ensures FirstFault(r, runs, |runs|) == FirstFault(r, runs, n)
    decreases |runs| - n
  {
    if n < |runs| {
      FirstFaultIsFinal(r, runs, n + 1);
    }
  }

  /** Output `k` was found and copied exactly as requested, and left unchanged. */
  ghost predicate FaithfulCopy(r: Request, runs: seq<OutputRun>, k: nat)
    requires k < |runs| == |r.outputRefs|
  {
    var ref, run := r.outputRefs[k], runs[k];
    && run.material.None? && run.copy.None?
    && run.source == run.copied == Scanned(Expected(r.members, ref))
    && run.sourceSha == run.copiedSha == run.sourceShaAfter == ref.objectSha256
  }

  /** An export is not blocked if and only if every output is a faithful copy. */
  lemma {:induction false} NoFaultIffFaithful(r: Request, runs: seq<OutputRun>, n: nat)
    requires n <= |runs| == |r.outputRefs|
    ensures FirstFault(r, runs, n).None? <==> forall k :: 0 <= k < n ==> FaithfulCopy(r, runs, k)
  {
    if n > 0 {
      NoFaultIffFaithful(r, runs, n - 1);
      assert Fault(r, r.outputRefs[n - 1], runs[n - 1]).None? <==> FaithfulCopy(r, runs, n - 1);
    }
  }

  /** The loop over outputs: all their copied members, or the first fault. */
  method CopyOutputs(r: Request, runs: seq<OutputRun>) returns (observed: seq<Member>, fault: Option<Code>)
    requires |runs| == |r.outputRefs|
    ensures fault == FirstFault(r, runs, |runs|)
    ensures fault.None? ==> observed == Partition(r.members, r.outputRefs)
  {
    observed, fault := [], None;
    for k := 0 to |r.outputRefs|
      invariant FirstFault(r, runs, k) == fault == None
      invariant observed == Partition(r.members, r.outputRefs[..k])
    {
      fault := Fault(r, r.outputRefs[k], runs[k]);
      if fault.Some? {
        FirstFaultIsFinal(r, runs, k + 1);
        return;
      }
      assert r.outputRefs[..k + 1][..k] == r.outputRefs[..k];
      observed := observed + runs[k].copied.members;
    }
    assert r.outputRefs[..|r.outputRefs|] == r.outputRefs;
  }

  /** The copies, then the final inventory check and the constructor. The last two
      never refuse: the result is the fault of the first faulty output, or an
      export of exactly the requested members and outputs. */
  method ExportWorkspace(r: Request, destination: Option<Code>, runs: seq<OutputRun>) returns (result: Result)
    requires Valid(r) && |runs| == |r.outputRefs|
    ensures
      var fault := if destination.Some? then destination else FirstFault(r, runs, |runs|);
      result == if !r.genuine then IdentityRaises
                else if fault.Some? then Blocked(fault.value)
                else Exported(r.members, r.outputRefs, FileCount(r.members), TotalBytes(r.members))
  {
    if !r.genuine { return IdentityRaises; }
    if destination.Some? { return Blocked(destination.value); }
    var observed, fault := CopyOutputs(r, runs);
    if fault.Some? { return Blocked(fault.value); }
    FinalInventoryIsExact(r);
    var observedMembers := Sort(observed, MemberKey);
    result := if observedMembers != r.members then Blocked(InventoryMismatch)
              else MakeExported(r, observedMembers, r.outputRefs);
  }

  // ------------------------------------------------------------- the partition

  /** The expected members of each output, one output after the other. */
  function Partition(members: seq<Member>, refs: seq<Ref>): seq<Member>
  {
    if refs == [] then []
    else Partition(members, refs[..|refs| - 1]) + Expected(members, refs[|refs| - 1])
  }

  function Belonging(members: seq<Member>, refs: set<Ref>): seq<Member>
  {
    if members == [] then []
    else
      var last := members[|members| - 1];
      Belonging(members[..|members| - 1], refs) + if last.outputRef in refs then [last] else []
  }

  lemma {:induction false} BelongingSplits(members: seq<Member>, refs: set<Ref>, ref: Ref)
    requires ref !in refs
    ensures multiset(Belonging(members, refs + {ref}))
         == multiset(Belonging(members, refs)) + multiset(Expected(members, ref))
  {
    if members != [] {
      BelongingSplits(members[..|members| - 1], refs, ref);
    }
  }

  lemma {:induction false} EverythingBelongs(members: seq<Member>, refs: set<Ref>)
    requires forall i :: 0 <= i < |members| ==> members[i].outputRef in refs
    ensures Belonging(members, refs) == members
  {
    if members != [] {
      EverythingBelongs(members[..|members| - 1], refs);
    }
  }

  lemma {:induction false} NothingBelongs(members: seq<Member>)
    ensures Belonging(members, {}) == []
  {
    if members != [] {
      NothingBelongs(members[..|members| - 1]);
    }
  }

  function RefsIn(refs: seq<Ref>): set<Ref> { set ref | ref in refs }

  lemma RefsInAppend(front: seq<Ref>, last: Ref)
    ensures RefsIn(front + [last]) == RefsIn(front) + {last}
  {
    assert forall x :: x in front + [last] <==> x in front || x == last;
  }

  /** Filtering by each of several distinct outputs neither loses nor repeats. */
  lemma {:induction false} PartitionIsExact(members: seq<Member>, refs: seq<Ref>)
    requires forall i, j :: 0 <= i < j < |refs| ==> refs[i] != refs[j]
    ensures multiset(Partition(members, refs)) == multiset(Belonging(members, RefsIn(refs)))
  {
    if refs == [] {
      NothingBelongs(members);
      assert RefsIn(refs) == {};
    } else {
      var front, last := refs[..|refs| - 1], refs[|refs| - 1];
      PartitionIsExact(members, front);
      BelongingSplits(members, RefsIn(front), last);
      RefsInAppend(front, last);
      assert refs == front + [last];
    }
  }

  /** Once every output matches its own members, the sorted whole is the request. */
  lemma FinalInventoryIsExact(r: Request)
    requires Valid(r)
    ensures Sort(Partition(r.members, r.outputRefs), MemberKey) == r.members
  {
    var refs := RefsIn(r.outputRefs);
    forall i | 0 <= i < |r.members| ensures r.members[i].outputRef in refs {
      assert OutputRefsOf(r.members)[i] == r.members[i].outputRef;
      SortedRefsSameElements(OutputRefsOf(r.members), r.members[i].outputRef);
    }
    PartitionIsExact(r.members, r.outputRefs);
    EverythingBelongs(r.members, refs);
    var observed := Partition(r.members, r.outputRefs);
    SortSorts(observed, MemberKey);
    SortSorts(r.members, MemberKey);
    SortedArrangementUnique(r.members, Sort(observed, MemberKey), MemberKey);
  }
}
