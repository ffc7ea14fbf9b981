/** What the parts of an export mean: which members an output is held to, why an output
    is blocked, in which order members come, and what is counted. */
module ExportConditions {
  import opened Prelude
  import opened Export

  // --------------------------------------------------------------- the expectation

  /** These are the positions of the members that belong to the output, in order. */
  ghost predicate ArePositions(members: seq<Member>, ref: Ref, at: seq<nat>)
  {
    && (forall i, j :: 0 <= i < j < |at| ==> at[i] < at[j])
    && (forall k :: k in at <==> 0 <= k < |members| && members[k].outputRef == ref)
  }

  /** An output is held to exactly the requested members that name it, in their order. */
  lemma {:induction false} ExpectedAre(members: seq<Member>, ref: Ref) returns (at: seq<nat>)
    ensures ArePositions(members, ref, at) && |Expected(members, ref)| == |at|
    ensures forall i :: 0 <= i < |at| ==> at[i] < |members| && Expected(members, ref)[i] == members[at[i]]
  {
    at := [];
    if members != [] {
      var n := |members| - 1;
      at := ExpectedAre(members[..n], ref);
      assert forall i :: 0 <= i < |at| ==> at[i] in at;
      if members[n].outputRef == ref {
        PositionsExtend(members, ref, at);
        at := at + [n];
      } else {
        assert forall k :: k in at <==> 0 <= k < |members| && members[k].outputRef == ref;
      }
    }
  }

  lemma PositionsExtend(members: seq<Member>, ref: Ref, at: seq<nat>)
    requires members != [] && members[|members| - 1].outputRef == ref
    requires ArePositions(members[..|members| - 1], ref, at)
    ensures ArePositions(members, ref, at + [|members| - 1])
  {
    var n := |members| - 1;
    assert forall i :: 0 <= i < |at| ==> at[i] in at;
    forall k ensures k in at + [n] <==> 0 <= k < |members| && members[k].outputRef == ref {
      assert k in at + [n] <==> k in at || k == n;
    }
  }

  // ------------------------------------------------------------------------ faults

  /** Everything outside of the export's own comparisons went well. */
  ghost predicate RanThrough(run: OutputRun)
  {
    run.material.None? && run.source.Scanned? && run.copy.None? && run.copied.Scanned?
  }

  /** Why an output is blocked whose files could all be found, scanned and copied. */
  lemma FaultSaysWhy(r: Request, ref: Ref, run: OutputRun)
    requires RanThrough(run)
    ensures
      var asked := Expected(r.members, ref);
      var sourceOk := run.source.members == asked && run.sourceSha == ref.objectSha256;
      var copyOk := run.copied.members == asked && run.copiedSha == ref.objectSha256;
      && (Fault(r, ref, run) == None <==> sourceOk && copyOk && run.sourceShaAfter == ref.objectSha256)
      && (Fault(r, ref, run) == Some(InventoryMismatch) <==>
            run.source.members != asked || (sourceOk && run.copied.members != asked))
      && (Fault(r, ref, run) == Some(CopiedHashMismatch) <==>
            sourceOk && run.copied.members == asked && run.copiedSha != ref.objectSha256)
      && (Fault(r, ref, run) == Some(SourceHashMismatch) <==>
            || (run.source.members == asked && run.sourceSha != ref.objectSha256)
            || (sourceOk && copyOk && run.sourceShaAfter != run.sourceSha))
  {
  }

  /** A failure of the file system is the fault if everything before it was as asked; and
      nothing that comes after a fault is looked at. */
  lemma FaultIsFirst(r: Request, ref: Ref, run: OutputRun, later: OutputRun)
    ensures run.material.Some? ==> Fault(r, ref, run) == run.material
    ensures run.material.None? && run.source.ScanFailed? ==> Fault(r, ref, run) == Some(run.source.code)
    ensures
      var sourceOk := run.source == Scanned(Expected(r.members, ref)) && run.sourceSha == ref.objectSha256;
      && (run.material.None? && sourceOk && run.copy.Some? ==> Fault(r, ref, run) == run.copy)
      && (run.material.None? && sourceOk && run.copy.None? && run.copied.ScanFailed? ==>
            Fault(r, ref, run) == Some(run.copied.code))
      && (run.material.None? && !sourceOk ==>
            Fault(r, ref, run.(copy := later.copy, copied := later.copied, copiedSha := later.copiedSha,
                               sourceShaAfter := later.sourceShaAfter)) == Fault(r, ref, run))
  {
  }

  // ---------------------------------------------------------------- order and totals

  function ContainerId(m: Member): string { if m.containerRef.Some? then m.containerRef.value.objectId else "" }

  lemma KeyLeqFour(a: Key, b: Key)
    requires |a| == |b| == 4
    ensures KeyLeq(a, b) <==>
              if a[0] != b[0] then TextLeq(a[0], b[0])
              else if a[1] != b[1] then TextLeq(a[1], b[1])
              else if a[2] != b[2] then TextLeq(a[2], b[2])
              else a[3] == b[3] || TextLeq(a[3], b[3])
  {
    assert a[1..][0] == a[1] && a[1..][1..] == a[2..] && a[2..][0] == a[2] && a[2..][1..] == a[3..];
    assert b[1..][0] == b[1] && b[1..][1..] == b[2..] && b[2..][0] == b[2] && b[2..][1..] == b[3..];
    assert a[3..] == [a[3]] && b[3..] == [b[3]];
    KeyLeqOne(a[3], b[3]);
    assert KeyLeq(a[2..], b[2..]) == if a[2] != b[2] then TextLeq(a[2], b[2]) else KeyLeq(a[3..], b[3..]);
    assert KeyLeq(a[1..], b[1..]) == if a[1] != b[1] then TextLeq(a[1], b[1]) else KeyLeq(a[2..], b[2..]);
  }

  lemma KeyLeqOne(a: string, b: string)
    ensures KeyLeq([a], [b]) <==> a == b || TextLeq(a, b)
  {
    assert [a][1..] == [] && [b][1..] == [];
  }

  /** Members come by container first, top level before nested ones, then by path, then
      directories before files before nested members, and last by output. */
  lemma MemberOrderIs(a: Member, b: Member)
    ensures KeyLeq(MemberKey(a), MemberKey(b)) <==>
              if ContainerId(a) != ContainerId(b) then TextLeq(ContainerId(a), ContainerId(b))
              else if a.path != b.path then TextLeq(a.path, b.path)
              else if a.memberType != b.memberType then
                a.memberType == DirectoryMember || (a.memberType == FileMember && b.memberType == NestedMember)
              else a.outputRef.objectId == b.outputRef.objectId || TextLeq(a.outputRef.objectId, b.outputRef.objectId)
    ensures a.containerRef.None? ==> TextLeq(ContainerId(a), ContainerId(b))
  {
    KeyLeqFour(MemberKey(a), MemberKey(b));
    TypeNamesAscend();
  }

  lemma TypeNamesAscend()
    ensures TextLeq("DIRECTORY", "FILE") && TextLeq("FILE", "NESTED_MEMBER") && TextLeq("DIRECTORY", "NESTED_MEMBER")
    ensures !TextLeq("FILE", "DIRECTORY") && !TextLeq("NESTED_MEMBER", "FILE")
    ensures !TextLeq("NESTED_MEMBER", "DIRECTORY")
  {
    assert "DIRECTORY"[0] == 'D' && "FILE"[0] == 'F' && "NESTED_MEMBER"[0] == 'N';
  }

  /** Directories do not count; every other member counts once, with its size. */
  lemma TotalsAre(members: seq<Member>, m: Member)
    ensures FileCount([]) == 0 && TotalBytes([]) == 0
    ensures FileCount(members + [m]) == FileCount(members) + if m.memberType in {FileMember, NestedMember} then 1 else 0
    ensures TotalBytes(members + [m])
         == TotalBytes(members) + if m.memberType in {FileMember, NestedMember} then m.size else 0
  {
    assert (members + [m])[..|members|] == members;
  }

  /** The file count is the number of positions that hold no directory. */
  lemma {:induction false} FileCountIsCardinality(members: seq<Member>)
    ensures FileCount(members) == |set k | 0 <= k < |members| && members[k].memberType != DirectoryMember|
  {
    var at := set k | 0 <= k < |members| && members[k].memberType != DirectoryMember;
    if members != [] {
      var n := |members| - 1;
      FileCountIsCardinality(members[..n]);
      var before := set k | 0 <= k < |members[..n]| && members[..n][k].memberType != DirectoryMember;
      assert at == before + if members[n].memberType != DirectoryMember then {n} else {};
    }
  }
}
