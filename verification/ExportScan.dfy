/** The inventory scan of workspace export: a file tree, with the archives in it, is
    walked into a bounded list of members. The walk is described by the effects it
    asks for; limits and hard links decide how far they are applied. */
module ExportScan {
  import opened Prelude
  import opened Walks
  import opened ArchivePaths
  import opened Export

  type Bytes = seq<nat>

  /** What stands at a path; directories list their children in name order. */
  datatype Node =
    | Link
    | SpecialFile
    | Directory(children: seq<Child>)
    | Regular(inode: nat, bytes: Bytes)

  datatype Child = Child(name: string, node: Node)

  datatype EntryKind = DirectoryEntry | RegularEntry | LinkEntry | SpecialEntry

  /** An entry of an archive listing, in file name order; no content if reading fails. */
  datatype Entry = Entry(
    name: string, encrypted: bool, kind: EntryKind, fileSize: nat, compressSize: nat, content: Option<Bytes>)

  /** Foreign code: zip decoding, suffixes, media types and hashes. */
  datatype Lib = Lib(
    parse: Bytes -> Option<seq<Entry>>,
    isZip: Bytes -> bool,
    unsupported: string -> bool,
    media: string -> Option<string>,
    sha: Bytes -> string,
    container: (Ref, string, string) -> Ref)

  datatype Limits = Limits(maxMembers: nat, maxTotalBytes: nat, maxFileBytes: nat, maxDepth: nat, maxRatio: nat)

  /** The output that is scanned, and how deep archives may nest. */
  datatype Scan = Scan(lib: Lib, limits: Limits, outputRef: Ref)

  // ---------------------------------------------------------------------- the walk

  datatype Effect = Add(member: Member) | See(inode: nat) | Fail(code: Code)

  function Remaining(l: Limits, depth: nat): nat
  {
    if depth <= l.maxDepth then l.maxDepth + 1 - depth else 0
  }

  function DirectoryAt(s: Scan, path: string, container: Option<Ref>): Member
  {
    Member(path, DirectoryMember, None, 0, None, container, s.outputRef)
  }

  /** The recursive walk over archive bytes; every level uses up one of the levels
      that remain, whatever the bytes contain. */
  function ZipWalk(s: Scan, data: Bytes, container: Ref, depth: nat): seq<Effect>
    decreases Remaining(s.limits, depth), 1, 0
  {
    if depth > s.limits.maxDepth then [Fail(LimitExceeded)]
    else if s.lib.parse(data).None? then [Fail(ContainerUnsupported)]
    else EntriesWalk(s, s.lib.parse(data).value, container, depth)
  }

  function EntriesWalk(s: Scan, entries: seq<Entry>, container: Ref, depth: nat): seq<Effect>
    requires depth <= s.limits.maxDepth
    decreases Remaining(s.limits, depth), 0, |entries|
  {
    if entries == [] then []
    else
      var front := entries[..|entries| - 1];
      EntriesWalk(s, front, container, depth)
        + EntryWalk(s, entries[|entries| - 1], Seen(front), container, depth)
  }

  function NameOf(): Entry -> Option<string> { (e: Entry) => NormalizedMember(e.name) }

  function Seen(entries: seq<Entry>): set<string>
  {
    Names(NameOf(), entries)
  }

  function EntryWalk(s: Scan, e: Entry, seen: set<string>, container: Ref, depth: nat): seq<Effect>
    requires depth <= s.limits.maxDepth
    decreases Remaining(s.limits, depth), 0, 0
  {
    if NormalizedMember(e.name).None? then [Fail(SourcePathViolation)]
    else
      var path := NormalizedMember(e.name).value;
      if path in seen then [Fail(InventoryMismatch)]
      else if e.encrypted then [Fail(ContainerUnsupported)]
      else if e.kind == LinkEntry then [Fail(SymlinkUnsupported)]
      else if e.kind == DirectoryEntry then [Add(DirectoryAt(s, path + "/", Some(container)))]
      else if e.kind == SpecialEntry then [Fail(SpecialFileUnsupported)]
      else if e.fileSize > s.limits.maxFileBytes then [Fail(LimitExceeded)]
      else if e.fileSize > s.limits.maxRatio * (if e.compressSize > 1 then e.compressSize else 1) then
        [Fail(LimitExceeded)]
      else if e.content.None? then [Fail(ContainerUnsupported)]
      else
        var bytes := e.content.value;
        [Add(Member(path, NestedMember, s.lib.media(path), |bytes|, Some(s.lib.sha(bytes)), Some(container),
                    s.outputRef))]
          + if s.lib.unsupported(path) then [Fail(ContainerUnsupported)]
            else if s.lib.isZip(bytes) then
              ZipWalk(s, bytes, s.lib.container(container, path, s.lib.sha(bytes)), depth + 1)
            else []
  }

  /** One node of the tree, at a normalised path. */
  function NodeWalk(s: Scan, node: Node, path: string, name: string, media: Option<string>): seq<Effect>
    decreases node, 1
  {
    match node
    case Link => [Fail(SymlinkUnsupported)]
    case SpecialFile => [Fail(SpecialFileUnsupported)]
    case Directory(children) => [Add(DirectoryAt(s, path, None))] + ChildrenWalk(s, children, path)
    case Regular(inode, bytes) =>
      [See(inode)]
        + if |bytes| > s.limits.maxFileBytes then [Fail(LimitExceeded)]
          else
            [Add(Member(path, FileMember, media, |bytes|, Some(s.lib.sha(bytes)), None, s.outputRef))]
              + if s.lib.unsupported(name) then [Fail(ContainerUnsupported)]
                else if s.lib.isZip(bytes) then ZipWalk(s, bytes, s.outputRef, 1)
                else []
  }

  function ChildrenWalk(s: Scan, children: seq<Child>, path: string): seq<Effect>
    decreases children, 0
  {
    if children == [] then []
    else
      var last := children[|children| - 1];
      ChildrenWalk(s, children[..|children| - 1], path) + ChildWalk(s, last.name, last.node, path)
  }

  function ChildWalk(s: Scan, name: string, node: Node, path: string): seq<Effect>
    decreases node, 2
  {
    var joined := JoinedPath(path, name);
    if joined.None? then [Fail(SourcePathViolation)] else NodeWalk(s, node, joined.value, name, s.lib.media(name))
  }

  // ------------------------------------------------------------------- accumulator

  datatype Acc = Acc(members: seq<Member>, totalBytes: nat, inodes: set<nat>)

  const EMPTY := Acc([], 0, {})

  type Outcome = Walks.Reached<Acc, Code>

  function Counted(m: Member): nat { if m.memberType == DirectoryMember then 0 else m.size }

  function Apply(l: Limits, a: Acc, e: Effect): Outcome
  {
    match e
    case Add(m) =>
      if |a.members| + 1 > l.maxMembers || a.totalBytes + Counted(m) > l.maxTotalBytes then Raised(LimitExceeded)
      else Ok(a.(members := a.members + [m], totalBytes := a.totalBytes + Counted(m)))
    case See(inode) =>
      if inode in a.inodes then Raised(InventoryMismatch) else Ok(a.(inodes := a.inodes + {inode}))
    case Fail(code) => Raised(code)
  }

  function Applying(l: Limits): (Acc, Effect) -> Outcome { (a, e) => Apply(l, a, e) }

  function ToScanned(outcome: Outcome): Scanned
  {
    if outcome.Raised? then ScanFailed(outcome.failure) else Scanned(Sort(outcome.acc.members, MemberKey))
  }

  /** `_scan_material`. */
  function ScanMaterial(s: Scan, node: Node, path: string, name: string, media: Option<string>): Scanned
  {
    ToScanned(ApplyAll(Applying(s.limits), EMPTY, NodeWalk(s, node, path, name, media)))
  }

  // --------------------------------------------------------------------- the flatten

  function Members(effects: seq<Effect>): seq<Member>
  {
    if effects == [] then []
    else
      var e := effects[|effects| - 1];
      Members(effects[..|effects| - 1]) + if e.Add? then [e.member] else []
  }

  function Inodes(effects: seq<Effect>): seq<nat>
  {
    if effects == [] then []
    else
      var e := effects[|effects| - 1];
      Inodes(effects[..|effects| - 1]) + if e.See? then [e.inode] else []
  }

  ghost predicate NoFail(effects: seq<Effect>)
  {
    forall i :: 0 <= i < |effects| ==> !effects[i].Fail?
  }

  /** Nothing fails, no file is met twice, and the totals are within the limits. */
  ghost predicate Fits(l: Limits, effects: seq<Effect>)
  {
    && NoFail(effects) && Distinct(Inodes(effects))
    && |Members(effects)| <= l.maxMembers && TotalBytes(Members(effects)) <= l.maxTotalBytes
  }

  function Flatten(effects: seq<Effect>): Acc
  {
    Acc(Members(effects), TotalBytes(Members(effects)), set x | x in Inodes(effects))
  }

  lemma TotalBytesAppend(members: seq<Member>, m: Member)
    ensures TotalBytes(members + [m]) == TotalBytes(members) + Counted(m)
  {
    assert (members + [m])[..|members|] == members;
  }

  lemma NoFailExtends(effects: seq<Effect>)
    requires effects != []
    ensures NoFail(effects) <==> NoFail(effects[..|effects| - 1]) && !effects[|effects| - 1].Fail?
  {
    var front := effects[..|effects| - 1];
    assert forall i :: 0 <= i < |front| ==> front[i] == effects[i];
  }

  /** What the last effect adds to the flatten. */
  lemma FlattenStep(effects: seq<Effect>)
    requires effects != []
    ensures
      var front, e := effects[..|effects| - 1], effects[|effects| - 1];
      && Members(effects) == (if e.Add? then Members(front) + [e.member] else Members(front))
      && Inodes(effects) == (if e.See? then Inodes(front) + [e.inode] else Inodes(front))
  {
  }

  lemma FitsAdd(l: Limits, members: seq<Member>, m: Member, inodes: set<nat>)
    ensures
      var after := Apply(l, Acc(members, TotalBytes(members), inodes), Add(m));
      && TotalBytes(members + [m]) == TotalBytes(members) + Counted(m)
      && (after.Ok? <==> |members + [m]| <= l.maxMembers && TotalBytes(members + [m]) <= l.maxTotalBytes)
      && (after.Ok? ==> after.acc == Acc(members + [m], TotalBytes(members + [m]), inodes))
  {
    TotalBytesAppend(members, m);
  }

  lemma FitsSee(l: Limits, members: seq<Member>, total: nat, inodes: seq<nat>, x: nat)
    ensures
      var after := Apply(l, Acc(members, total, set i | i in inodes), See(x));
      && (Distinct(inodes + [x]) <==> Distinct(inodes) && after.Ok?)
      && (after.Ok? ==> after.acc == Acc(members, total, set i | i in inodes + [x]))
  {
    DistinctExtends(inodes, x);
    assert (set i | i in inodes + [x]) == (set i | i in inodes) + {x};
  }

  lemma FitsStep(l: Limits, effects: seq<Effect>)
    requires effects != []
    ensures
      var front, e := effects[..|effects| - 1], effects[|effects| - 1];
      && (Fits(l, effects) <==> Fits(l, front) && Apply(l, Flatten(front), e).Ok?)
      && (Fits(l, effects) ==> Apply(l, Flatten(front), e) == Ok(Flatten(effects)))
  {
    var front, e := effects[..|effects| - 1], effects[|effects| - 1];
    NoFailExtends(effects);
    FlattenStep(effects);
    match e
    case Add(m) => FitsAdd(l, Members(front), m, set x | x in Inodes(front));
    case See(inode) => FitsSee(l, Members(front), TotalBytes(Members(front)), Inodes(front), inode);
    case Fail(_) =>
  }

  /** The scan succeeds exactly when everything it asks for fits, although limits are
      checked after every member; then it holds the flatten of the walk. */
  lemma {:induction false} ScanSucceedsIffFits(l: Limits, effects: seq<Effect>)
    ensures ApplyAll(Applying(l), EMPTY, effects).Ok? <==> Fits(l, effects)
    ensures Fits(l, effects) ==> ApplyAll(Applying(l), EMPTY, effects) == Ok(Flatten(effects))
  {
    if effects != [] {
      ScanSucceedsIffFits(l, effects[..|effects| - 1]);
      FitsStep(l, effects);
    } else {
      assert Flatten(effects) == EMPTY;
    }
  }

  // ------------------------------------------------------------------ copies of a tree

  /** The same names, kinds and bytes; other inodes. */
  ghost predicate SameContent(a: Node, b: Node)
  {
    match a
    case Directory(children) =>
      && b.Directory? && |b.children| == |children|
      && forall i :: 0 <= i < |children| ==>
           children[i].name == b.children[i].name && SameContent(children[i].node, b.children[i].node)
    case Regular(_, bytes) => b.Regular? && b.bytes == bytes
    case _ => a == b
  }

  /** The effects without the inodes. */
  function Anonymous(effects: seq<Effect>): (r: seq<Effect>)
    ensures |r| == |effects|
    ensures forall i :: 0 <= i < |effects| ==> r[i] == if effects[i].See? then See(0) else effects[i]
  {
    seq(|effects|, i requires 0 <= i < |effects| => if effects[i].See? then See(0) else effects[i])
  }

  lemma AnonymousConcat(a: seq<Effect>, b: seq<Effect>)
    ensures Anonymous(a + b) == Anonymous(a) + Anonymous(b)
  {
  }

  lemma AnonymousSkips(inode: nat, inode': nat, rest: seq<Effect>)
    ensures Anonymous([See(inode)] + rest) == Anonymous([See(inode')] + rest)
  {
  }

  lemma {:induction false} SameWalks(s: Scan, a: Node, b: Node, path: string, name: string, media: Option<string>)
    requires SameContent(a, b)
    ensures Anonymous(NodeWalk(s, a, path, name, media)) == Anonymous(NodeWalk(s, b, path, name, media))
    decreases a, 1
  {
    match a
    case Directory(children) =>
      var head := [Add(DirectoryAt(s, path, None))];
      SameChildrenWalk(s, children, b.children, path);
      AnonymousConcat(head, ChildrenWalk(s, children, path));
      AnonymousConcat(head, ChildrenWalk(s, b.children, path));
    case Regular(inode, bytes) =>
      var x, y := NodeWalk(s, a, path, name, media), NodeWalk(s, b, path, name, media);
      assert x[1..] == y[1..];
      assert x == [See(inode)] + x[1..] && y == [See(b.inode)] + x[1..];
      AnonymousSkips(inode, b.inode, x[1..]);
    case _ =>
  }

  lemma {:induction false} SameChildrenWalk(s: Scan, a: seq<Child>, b: seq<Child>, path: string)
    requires |a| == |b|
    requires forall i :: 0 <= i < |a| ==> a[i].name == b[i].name && SameContent(a[i].node, b[i].node)
    ensures Anonymous(ChildrenWalk(s, a, path)) == Anonymous(ChildrenWalk(s, b, path))
    decreases a, 0
  {
    if a != [] {
      var n := |a| - 1;
      SameChildrenWalk(s, a[..n], b[..n], path);
      var joined := JoinedPath(path, a[n].name);
      if joined.Some? {
        SameWalks(s, a[n].node, b[n].node, joined.value, a[n].name, s.lib.media(a[n].name));
      }
      AnonymousConcat(ChildrenWalk(s, a[..n], path), ChildWalk(s, a[n].name, a[n].node, path));
      AnonymousConcat(ChildrenWalk(s, b[..n], path), ChildWalk(s, b[n].name, b[n].node, path));
    }
  }

  lemma {:induction false} MembersOfAnonymous(effects: seq<Effect>)
    ensures Members(Anonymous(effects)) == Members(effects)
  {
    if effects != [] {
      var n := |effects| - 1;
      MembersOfAnonymous(effects[..n]);
      assert Anonymous(effects)[..n] == Anonymous(effects[..n]);
    }
  }

  lemma NoFailOfAnonymous(effects: seq<Effect>)
    ensures NoFail(Anonymous(effects)) <==> NoFail(effects)
  {
    var r := Anonymous(effects);
    assert forall i :: 0 <= i < |effects| ==> (r[i].Fail? <==> effects[i].Fail?);
  }

  /** A single file's name matters to the scan only by its suffix. */
  predicate RefusedName(s: Scan, node: Node, name: string) { node.Regular? && s.lib.unsupported(name) }

  lemma NameIsOnlySuffix(s: Scan, node: Node, path: string, name: string, name': string, media: Option<string>)
    requires !RefusedName(s, node, name) && !RefusedName(s, node, name')
    ensures NodeWalk(s, node, path, name, media) == NodeWalk(s, node, path, name', media)
  {
  }

  lemma SameContentScansAlike(s: Scan, a: Node, b: Node, path: string, name: string, media: Option<string>)
    requires SameContent(a, b) && Distinct(Inodes(NodeWalk(s, b, path, name, media)))
    requires ScanMaterial(s, a, path, name, media).Scanned?
    ensures ScanMaterial(s, b, path, name, media) == ScanMaterial(s, a, path, name, media)
  {
    var x, y := NodeWalk(s, a, path, name, media), NodeWalk(s, b, path, name, media);
    ScanSucceedsIffFits(s.limits, x);
    ScanSucceedsIffFits(s.limits, y);
    SameWalks(s, a, b, path, name, media);
    MembersOfAnonymous(x);
    MembersOfAnonymous(y);
    NoFailOfAnonymous(x);
    NoFailOfAnonymous(y);
  }

  /** A scan that succeeds did not end in a refused name. */
  lemma ScannedHasAcceptedName(s: Scan, node: Node, path: string, name: string, media: Option<string>)
    requires ScanMaterial(s, node, path, name, media).Scanned?
    ensures !RefusedName(s, node, name)
  {
    var effects := NodeWalk(s, node, path, name, media);
    ScanSucceedsIffFits(s.limits, effects);
  }

  /** A file under a refused name fails on it, if it does not fail under another one. */
  lemma RefusedNameFails(s: Scan, node: Node, path: string, name: string, name': string, media: Option<string>)
    requires ScanMaterial(s, node, path, name, media).Scanned? && RefusedName(s, node, name')
    ensures ScanMaterial(s, node, path, name', media) == ScanFailed(ContainerUnsupported)
  {
    ScannedHasAcceptedName(s, node, path, name, media);
    var good, bad := NodeWalk(s, node, path, name, media), NodeWalk(s, node, path, name', media);
    ScanSucceedsIffFits(s.limits, good);
    assert bad == good[..2] + [Fail(ContainerUnsupported)];
    FitsPrefix(s.limits, good, 2);
    ScanSucceedsIffFits(s.limits, good[..2]);
    assert bad[..|bad| - 1] == good[..2];
  }

  lemma {:induction false} FitsPrefix(l: Limits, effects: seq<Effect>, n: nat)
    requires n <= |effects| && Fits(l, effects)
    ensures Fits(l, effects[..n])
    decreases |effects|
  {
    if n == |effects| {
      assert effects[..n] == effects;
    } else {
      FitsStep(l, effects);
      assert effects[..|effects| - 1][..n] == effects[..n];
      FitsPrefix(l, effects[..|effects| - 1], n);
    }
  }

  /** Scanning a faithful copy. The source is scanned under its own file name, the
      copy under the last part of the requested path. If the source's scan succeeds,
      that of any tree with the same names, kinds and bytes whose files are not linked
      to one another gives the same list, unless it is a single file whose new name has
      the suffix of an unsupported container, and then it is refused for that. */
  lemma FaithfulCopyScansAlike(s: Scan, a: Node, b: Node, path: string, name: string, name': string,
                               media: Option<string>)
    requires SameContent(a, b) && Distinct(Inodes(NodeWalk(s, b, path, name, media)))
    requires ScanMaterial(s, a, path, name, media).Scanned?
    ensures ScanMaterial(s, b, path, name', media)
         == if RefusedName(s, b, name') then ScanFailed(ContainerUnsupported) else ScanMaterial(s, a, path, name, media)
  {
    SameContentScansAlike(s, a, b, path, name, media);
    ScannedHasAcceptedName(s, b, path, name, media);
    if RefusedName(s, b, name') {
      RefusedNameFails(s, b, path, name, name', media);
    } else {
      NameIsOnlySuffix(s, b, path, name, name', media);
    }
  }

  /** What a successful scan lists: every member belongs to the scanned output, and
      member count and bytes are within the limits. */
  lemma ScannedIsBounded(s: Scan, node: Node, path: string, name: string, media: Option<string>)
    requires ScanMaterial(s, node, path, name, media).Scanned?
    ensures
      var members := ScanMaterial(s, node, path, name, media).members;
      && SortedBy(members, MemberKey)
      && multiset(members) == multiset(Members(NodeWalk(s, node, path, name, media)))
      && |members| <= s.limits.maxMembers
      && TotalBytes(Members(NodeWalk(s, node, path, name, media))) <= s.limits.maxTotalBytes
  {
    var effects := NodeWalk(s, node, path, name, media);
    ScanSucceedsIffFits(s.limits, effects);
    SortSorts(Members(effects), MemberKey);
    var members := Sort(Members(effects), MemberKey);
    assert |members| == |multiset(members)| == |multiset(Members(effects))| == |Members(effects)|;
  }

  /** Hence an output whose source stays as it is and is copied faithfully has no
      fault if and only if the source has the requested members and hash, and is not a
      single file requested under the name of an unsupported container. */
  lemma FaithfulOutputPassesIff(s: Scan, r: Request, ref: Ref, a: Node, b: Node, path: string, name: string,
                                name': string, media: Option<string>, hash: Node -> string)
    requires SameContent(a, b) && Distinct(Inodes(NodeWalk(s, b, path, name, media))) && hash(a) == hash(b)
    ensures
      var source, copied := ScanMaterial(s, a, path, name, media), ScanMaterial(s, b, path, name', media);
      Fault(r, ref, OutputRun(None, source, hash(a), None, copied, hash(b), hash(a))).None?
      <==> && source == Scanned(Expected(r.members, ref)) && hash(a) == ref.objectSha256
           && !RefusedName(s, a, name')
  {
    if ScanMaterial(s, a, path, name, media).Scanned? {
      FaithfulCopyScansAlike(s, a, b, path, name, name', media);
    }
  }

  /** For instance a file `blob` that is requested as `x.tar`: its scan gives exactly
      the requested member, its copy is the same byte for byte, and the export is still
      blocked on the copy. */
  lemma RenamedFileIsRefused(s: Scan, bytes: Bytes, inode: nat, inode': nat, media: Option<string>)
    requires !s.lib.unsupported("blob") && s.lib.unsupported("x.tar") && !s.lib.isZip(bytes)
    requires s.limits.maxMembers >= 1 && |bytes| <= s.limits.maxFileBytes && |bytes| <= s.limits.maxTotalBytes
    ensures
      var member := Member("x.tar", FileMember, media, |bytes|, Some(s.lib.sha(bytes)), None, s.outputRef);
      var source := ScanMaterial(s, Regular(inode, bytes), "x.tar", "blob", media);
      var copied := ScanMaterial(s, Regular(inode', bytes), "x.tar", "x.tar", media);
      var r, sha := Request(true, [s.outputRef], [member]), s.outputRef.objectSha256;
      && source == Scanned([member]) && copied == ScanFailed(ContainerUnsupported)
      && Fault(r, s.outputRef, OutputRun(None, source, sha, None, copied, sha, sha)) == Some(ContainerUnsupported)
  {
    var member := Member("x.tar", FileMember, media, |bytes|, Some(s.lib.sha(bytes)), None, s.outputRef);
    var a, b := Regular(inode, bytes), Regular(inode', bytes);
    SingleFileScans(s, inode, bytes, "x.tar", "blob", media);
    SingleFileScans(s, inode', bytes, "x.tar", "blob", media);
    RefusedNameFails(s, b, "x.tar", "blob", "x.tar", media);
    assert [member][..0] == [];
    assert Expected([], s.outputRef) == [];
    assert Expected([member], s.outputRef) == [member];
  }

  lemma SingleFileScans(s: Scan, inode: nat, bytes: Bytes, path: string, name: string, media: Option<string>)
    requires !s.lib.unsupported(name) && !s.lib.isZip(bytes)
    requires s.limits.maxMembers >= 1 && |bytes| <= s.limits.maxFileBytes && |bytes| <= s.limits.maxTotalBytes
    ensures ScanMaterial(s, Regular(inode, bytes), path, name, media)
         == Scanned([Member(path, FileMember, media, |bytes|, Some(s.lib.sha(bytes)), None, s.outputRef)])
  {
    var member := Member(path, FileMember, media, |bytes|, Some(s.lib.sha(bytes)), None, s.outputRef);
    var effects := NodeWalk(s, Regular(inode, bytes), path, name, media);
    assert effects == [See(inode), Add(member)];
    assert effects[..1] == [See(inode)] && effects[..1][..0] == [];
    ApplyFirst(Applying(s.limits), EMPTY, effects);
    assert EMPTY.inodes + {inode} == {inode} && EMPTY.members + [member] == [member];
    assert Apply(s.limits, EMPTY, See(inode)) == Ok(Acc([], 0, {inode}));
    assert effects[1..] == [Add(member)];
    ApplySingle(Applying(s.limits), Acc([], 0, {inode}), Add(member));
    assert ApplyAll(Applying(s.limits), EMPTY, effects) == Ok(Acc([member], |bytes|, {inode}));
    assert [member][1..] == [] && Insert(member, [], MemberKey) == [member];
    assert Sort([member], MemberKey) == [member];
  }
}
