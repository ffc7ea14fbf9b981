/** The loops below workspace export: the scan on its mutable state, and the copy of
    one file by reads and writes that may be short. */
module ExportFiles {
  import opened Prelude
  import opened Walks
  import opened ArchivePaths
  import opened Export
  import opened ExportScan

  // ------------------------------------------------------------------------ the scan

  /** `_ScanState` with the functions that drive it. After a raise it is dropped. */
  class ScanState {
    const scan: Scan
    var members: seq<Member>
    var totalBytes: nat
    var fileIdentities: set<nat>

    ghost function View(): Acc
      reads this
    {
      Acc(members, totalBytes, fileIdentities)
    }

    /** The object holds what the outcome says, if it is not a failure. */
    ghost predicate Holds(outcome: Outcome, raised: Option<Code>)
      reads this
    {
      match outcome
      case Ok(acc) => raised.None? && View() == acc
      case Raised(code) => raised == Some(code)
    }

    constructor (scan: Scan)
      ensures this.scan == scan && View() == EMPTY
    {
      this.scan := scan;
      members, totalBytes, fileIdentities := [], 0, {};
    }

    method Add(m: Member) returns (raised: Option<Code>)
      modifies this
      ensures Holds(Apply(scan.limits, old(View()), ExportScan.Add(m)), raised)
    {
      members := members + [m];
      if m.memberType != DirectoryMember {
        totalBytes := totalBytes + m.size;
      }
      raised := if |members| > scan.limits.maxMembers || totalBytes > scan.limits.maxTotalBytes
                then Some(LimitExceeded) else None;
    }

    /** `_scan_zip`. */
    method ScanZip(data: Bytes, container: Ref, depth: nat) returns (raised: Option<Code>)
      modifies this
      ensures Holds(ApplyAll(Applying(scan.limits), old(View()), ZipWalk(scan, data, container, depth)), raised)
      decreases Remaining(scan.limits, depth), 1, 0
    {
      ghost var effects := ZipWalk(scan, data, container, depth);
      if depth > scan.limits.maxDepth {
        ApplySingle(Applying(scan.limits), View(), effects[0]);
        return Some(LimitExceeded);
      }
      var archive := scan.lib.parse(data);
      if archive.None? {
        ApplySingle(Applying(scan.limits), View(), effects[0]);
        return Some(ContainerUnsupported);
      }
      raised := ScanEntries(archive.value, container, depth);
    }

    method ScanEntries(entries: seq<Entry>, container: Ref, depth: nat) returns (raised: Option<Code>)
      requires depth <= scan.limits.maxDepth
      modifies this
      ensures Holds(ApplyAll(Applying(scan.limits), old(View()), EntriesWalk(scan, entries, container, depth)), raised)
      decreases Remaining(scan.limits, depth), 0, |entries| + 1
    {
      ghost var start := View();
      var seen: set<string> := {};
      for i := 0 to |entries|
        invariant seen == Seen(entries[..i])
        invariant ApplyAll(Applying(scan.limits), start, EntriesWalk(scan, entries[..i], container, depth))
               == Ok(View())
      {
        EntriesStep(scan, start, entries, i, container, depth);
        NamesStep(NameOf(), entries, i);
        raised := ScanEntry(entries[i], seen, container, depth);
        if raised.Some? {
          EntriesRaise(scan, start, entries, i + 1, container, depth);
          return;
        }
        var normalized := NormalizedMember(entries[i].name);
        if normalized.Some? {
          seen := seen + {normalized.value};
        }
      }
      assert entries[..|entries|] == entries;
      raised := None;
    }

    /** One archive entry. */
    method ScanEntry(e: Entry, seen: set<string>, container: Ref, depth: nat) returns (raised: Option<Code>)
      requires depth <= scan.limits.maxDepth
      modifies this
      ensures Holds(ApplyAll(Applying(scan.limits), old(View()), EntryWalk(scan, e, seen, container, depth)), raised)
      decreases Remaining(scan.limits, depth), 0, 0
    {
      ghost var effects := EntryWalk(scan, e, seen, container, depth);
      ApplyFirst(Applying(scan.limits), View(), effects);
      var name := NormalizedMember(e.name);
      if name.None? { return Some(SourcePathViolation); }
      var path := name.value;
      if path in seen { return Some(InventoryMismatch); }
      if e.encrypted { return Some(ContainerUnsupported); }
      if e.kind == LinkEntry { return Some(SymlinkUnsupported); }
      if e.kind == DirectoryEntry {
        raised := Add(DirectoryAt(scan, path + "/", Some(container)));
        return;
      }
      if e.kind == SpecialEntry { return Some(SpecialFileUnsupported); }
      if e.fileSize > scan.limits.maxFileBytes { return Some(LimitExceeded); }
      if e.fileSize > scan.limits.maxRatio * (if e.compressSize > 1 then e.compressSize else 1) {
        return Some(LimitExceeded);
      }
      if e.content.None? { return Some(ContainerUnsupported); }
      var bytes := e.content.value;
      var digest := scan.lib.sha(bytes);
      raised := Add(Member(path, NestedMember, scan.lib.media(path), |bytes|, Some(digest), Some(container),
                           scan.outputRef));
      if raised.Some? { return; }
      if scan.lib.unsupported(path) {
        ApplySingle(Applying(scan.limits), View(), effects[1]);
        return Some(ContainerUnsupported);
      }
      if scan.lib.isZip(bytes) {
        raised := ScanZip(bytes, scan.lib.container(container, path, digest), depth + 1);
      }
    }

    /** `_scan_node`. */
    method ScanNode(node: Node, path: string, name: string, media: Option<string>) returns (raised: Option<Code>)
      modifies this
      ensures Holds(ApplyAll(Applying(scan.limits), old(View()), NodeWalk(scan, node, path, name, media)), raised)
      decreases node, 1
    {
      ghost var effects := NodeWalk(scan, node, path, name, media);
      ApplyFirst(Applying(scan.limits), View(), effects);
      match node {
        case Link => raised := Some(SymlinkUnsupported);
        case SpecialFile => raised := Some(SpecialFileUnsupported);
        case Directory(children) =>
          raised := Add(DirectoryAt(scan, path, None));
          if raised.Some? { return; }
          raised := ScanChildren(children, path);
        case Regular(inode, bytes) =>
          raised := ScanFile(inode, bytes, path, name, media);
      }
    }

    method ScanFile(inode: nat, bytes: Bytes, path: string, name: string, media: Option<string>)
      returns (raised: Option<Code>)
      modifies this
      ensures
        var effects := NodeWalk(scan, Regular(inode, bytes), path, name, media);
        Holds(ApplyAll(Applying(scan.limits), old(View()), effects), raised)
    {
      ghost var effects := NodeWalk(scan, Regular(inode, bytes), path, name, media);
      ApplyFirst(Applying(scan.limits), View(), effects);
      if inode in fileIdentities { return Some(InventoryMismatch); }
      fileIdentities := fileIdentities + {inode};
      ApplyFirst(Applying(scan.limits), View(), effects[1..]);
      if |bytes| > scan.limits.maxFileBytes { return Some(LimitExceeded); }
      raised := Add(Member(path, FileMember, media, |bytes|, Some(scan.lib.sha(bytes)), None, scan.outputRef));
      if raised.Some? { return; }
      if scan.lib.unsupported(name) {
        ApplySingle(Applying(scan.limits), View(), Fail(ContainerUnsupported));
        return Some(ContainerUnsupported);
      }
      if scan.lib.isZip(bytes) {
        raised := ScanZip(bytes, scan.outputRef, 1);
      }
    }

    method ScanChildren(children: seq<Child>, path: string) returns (raised: Option<Code>)
      modifies this
      ensures Holds(ApplyAll(Applying(scan.limits), old(View()), ChildrenWalk(scan, children, path)), raised)
      decreases children, 0
    {
      ghost var start := View();
      for i := 0 to |children|
        invariant ApplyAll(Applying(scan.limits), start, ChildrenWalk(scan, children[..i], path)) == Ok(View())
      {
        ChildrenStep(scan, start, children, i, path);
        var c := children[i];
        var joined := JoinedPath(path, c.name);
        if joined.None? {
          ApplySingle(Applying(scan.limits), View(), Fail(SourcePathViolation));
          raised := Some(SourcePathViolation);
        } else {
          raised := ScanNode(c.node, joined.value, c.name, scan.lib.media(c.name));
        }
        if raised.Some? {
          ChildrenRaise(scan, start, children, i + 1, path);
          return;
        }
      }
      assert children[..|children|] == children;
      raised := None;
    }
  }

  /** `_scan_material` with a fresh state. */
  method ScanOutput(scan: Scan, node: Node, path: string, name: string, media: Option<string>) returns (r: Scanned)
    ensures r == ScanMaterial(scan, node, path, name, media)
  {
    var state := new ScanState(scan);
    var raised := state.ScanNode(node, path, name, media);
    r := if raised.Some? then ScanFailed(raised.value) else Scanned(Sort(state.members, MemberKey));
  }

  lemma EntriesStep(s: Scan, a: Acc, entries: seq<Entry>, n: nat, container: Ref, depth: nat)
    requires n < |entries| && depth <= s.limits.maxDepth
    ensures
      var before := ApplyAll(Applying(s.limits), a, EntriesWalk(s, entries[..n], container, depth));
      ApplyAll(Applying(s.limits), a, EntriesWalk(s, entries[..n + 1], container, depth))
        == if before.Raised? then before
           else ApplyAll(Applying(s.limits), before.acc,
                         EntryWalk(s, entries[n], Seen(entries[..n]), container, depth))
  {
    assert entries[..n + 1][..n] == entries[..n];
    ApplyAllConcat(Applying(s.limits), a, EntriesWalk(s, entries[..n], container, depth),
                   EntryWalk(s, entries[n], Seen(entries[..n]), container, depth));
  }

  lemma {:induction false} EntriesRaise(s: Scan, a: Acc, entries: seq<Entry>, n: nat, container: Ref, depth: nat)
    requires n <= |entries| && depth <= s.limits.maxDepth
    requires ApplyAll(Applying(s.limits), a, EntriesWalk(s, entries[..n], container, depth)).Raised?
    ensures ApplyAll(Applying(s.limits), a, EntriesWalk(s, entries, container, depth))
         == ApplyAll(Applying(s.limits), a, EntriesWalk(s, entries[..n], container, depth))
    decreases |entries| - n
  {
    if n == |entries| {
      assert entries[..n] == entries;
    } else {
      EntriesStep(s, a, entries, n, container, depth);
      EntriesRaise(s, a, entries, n + 1, container, depth);
    }
  }

  lemma ChildrenStep(s: Scan, a: Acc, children: seq<Child>, n: nat, path: string)
    requires n < |children|
    ensures
      var before := ApplyAll(Applying(s.limits), a, ChildrenWalk(s, children[..n], path));
      ApplyAll(Applying(s.limits), a, ChildrenWalk(s, children[..n + 1], path))
        == if before.Raised? then before
           else ApplyAll(Applying(s.limits), before.acc, ChildWalk(s, children[n].name, children[n].node, path))
  {
    assert children[..n + 1][..n] == children[..n];
    ApplyAllConcat(Applying(s.limits), a, ChildrenWalk(s, children[..n], path),
                   ChildWalk(s, children[n].name, children[n].node, path));
  }

  lemma {:induction false} ChildrenRaise(s: Scan, a: Acc, children: seq<Child>, n: nat, path: string)
    requires n <= |children| && ApplyAll(Applying(s.limits), a, ChildrenWalk(s, children[..n], path)).Raised?
    ensures ApplyAll(Applying(s.limits), a, ChildrenWalk(s, children, path))
         == ApplyAll(Applying(s.limits), a, ChildrenWalk(s, children[..n], path))
    decreases |children| - n
  {
    if n == |children| {
      assert children[..n] == children;
    } else {
      ChildrenStep(s, a, children, n, path);
      ChildrenRaise(s, a, children, n + 1, path);
    }
  }

  // ------------------------------------------------------------------------ the copy

  const CHUNK := 1024 * 1024

  /** A system call asked for `n >= 1` bytes moves between one and `n` of them. */
  function Moved(wish: nat, n: nat): (k: nat)
    requires n > 0
    ensures 1 <= k <= n
  {
    if wish < 1 then 1 else if wish > n then n else wish
  }

  function Least(a: nat, b: nat): nat { if a < b then a else b }

  /** The inner loop: a chunk is written in as many pieces as the system likes. */
  method WriteAll(target: Bytes, chunk: Bytes, writeSize: (nat, nat) -> nat) returns (written: Bytes)
    ensures written == target + chunk
  {
    written := target;
    var view := chunk;
    while view != []
      invariant written + view == target + chunk
      decreases |view|
    {
      var k := Moved(writeSize(|written|, |view|), |view|);
      assert view == view[..k] + view[k..];
      assert written + view == written + view[..k] + view[k..];
      written, view := written + view[..k], view[k..];
    }
  }

  /** `_copy_regular_file`: `size` is what `fstat` reported, `content` what can be read.
      Whatever lengths reads and writes have, the copy succeeds if and only if the
      file is regular, within the limit, and exactly as long as reported, and then it
      equals the file; otherwise what was written is a prefix of it. */
  method CopyRegularFile(content: Bytes, size: nat, regular: bool, maxFileBytes: nat,
                         readSize: (nat, nat) -> nat, writeSize: (nat, nat) -> nat)
    returns (target: Bytes, fault: Option<Code>)
    ensures fault == if !regular || size > maxFileBytes then Some(SpecialFileUnsupported)
                     else if |content| != size then Some(SourceHashMismatch)
                     else None
    ensures target == if !regular || size > maxFileBytes then [] else content[..Least(size, |content|)]
    ensures fault.None? ==> target == content
  {
    target, fault := [], None;
    if !regular || size > maxFileBytes { return [], Some(SpecialFileUnsupported); }
    var position, remaining := 0, size;
    while remaining > 0
      invariant position <= |content| && position + remaining == size && target == content[..position]
      decreases remaining
    {
      var n := Least(Least(CHUNK, remaining), |content| - position);
      if n == 0 { return target, Some(SourceHashMismatch); }
      var k := Moved(readSize(position, n), n);
      var chunk := content[position..position + k];
      target := WriteAll(target, chunk, writeSize);
      assert content[..position] + chunk == content[..position + k];
      position, remaining := position + k, remaining - k;
    }
    if position < |content| { return target, Some(SourceHashMismatch); }
  }
}
