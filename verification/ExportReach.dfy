/** The tree an export scan walks, said of the output itself: below a directory lie its
    children, and below a zip the entries of its listing. A scan succeeds exactly when
    every spot of the tree is sound and the totals are within the limits, and then lists
    one member for every spot. */
module ExportReach {
  import opened Prelude
  import opened Walks
  import opened ArchivePaths
  import opened Chains
  import opened Export
  import opened ExportScan

  /** A node of the file tree, with the names from the root to it, or an entry of a zip
      whose listing has this nesting depth. */
  datatype Spot =
    | OnDisk(node: Node, names: seq<string>, name: string, media: Option<string>)
    | InZip(entry: Entry, container: Ref, depth: nat)

  // ----------------------------------------------------------------- the tree

  /** The spot's bytes, if it is a zip by its bytes. */
  function ZipAt(s: Scan, x: Spot): Option<Bytes>
  {
    match x
    case OnDisk(Regular(_, bytes), _, _, _) => if s.lib.isZip(bytes) then Some(bytes) else None
    case InZip(e, _, _) =>
      if e.kind == RegularEntry && e.content.Some? && s.lib.isZip(e.content.value) then e.content else None
    case _ => None
  }

  /** The container that a zip's own entries name, and the depth of its listing. */
  function ContainerAt(s: Scan, x: Spot): (Ref, nat)
    requires ZipAt(s, x).Some?
  {
    match x
    case OnDisk(_, _, _, _) => (s.outputRef, 1)
    case InZip(e, container, depth) =>
      var path := if NormalizedMember(e.name).Some? then NormalizedMember(e.name).value else "";
      (s.lib.container(container, path, s.lib.sha(e.content.value)), depth + 1)
  }

  function SpotsBelow(s: Scan, x: Spot): seq<Spot>
  {
    if x.OnDisk? && x.node.Directory? then Children(s, x.node.children, x.names)
    else if ZipAt(s, x).Some? && s.lib.parse(ZipAt(s, x).value).Some? then
      Listed(s.lib.parse(ZipAt(s, x).value).value, ContainerAt(s, x).0, ContainerAt(s, x).1)
    else []
  }

  function Children(s: Scan, children: seq<Child>, names: seq<string>): seq<Spot>
  {
    seq(|children|, i requires 0 <= i < |children| => ChildSpot(s, children[i], names))
  }

  function ChildSpot(s: Scan, c: Child, names: seq<string>): Spot
  {
    OnDisk(c.node, names + [c.name], c.name, s.lib.media(c.name))
  }

  function Listed(entries: seq<Entry>, container: Ref, depth: nat): seq<Spot>
  {
    seq(|entries|, i requires 0 <= i < |entries| => InZip(entries[i], container, depth))
  }

  function Tree(s: Scan): Spot -> seq<Spot> { x => SpotsBelow(s, x) }

  // ---------------------------------------------------------------- soundness

  predicate DistinctNames(entries: seq<Entry>)
  {
    forall i, j :: 0 <= i < j < |entries| ==> NormalizedMember(entries[i].name) != NormalizedMember(entries[j].name)
  }

  /** The zip can be opened: its nesting depth is within the limit, and its listing is
      readable and has no name twice. */
  predicate Opens(s: Scan, x: Spot)
    requires ZipAt(s, x).Some?
  {
    var data := ZipAt(s, x).value;
    ContainerAt(s, x).1 <= s.limits.maxDepth && s.lib.parse(data).Some? && DistinctNames(s.lib.parse(data).value)
  }

  /** A regular entry: size and compression ratio are within the limits, it can be read,
      and its name is not that of an unsupported container. */
  predicate SoundContent(s: Scan, e: Entry)
    requires NormalizedMember(e.name).Some?
  {
    && e.fileSize <= s.limits.maxFileBytes
    && e.fileSize <= s.limits.maxRatio * (if e.compressSize == 0 then 1 else e.compressSize)
    && e.content.Some? && !s.lib.unsupported(NormalizedMember(e.name).value)
  }

  /** A spot that does not make the scan fail. */
  predicate Sound(s: Scan, x: Spot)
  {
    match x
    case OnDisk(node, names, name, _) =>
      && (|names| > 1 ==> |Slashed(names)| <= MAX_PATH)
      && (node.Directory? || (node.Regular? && |node.bytes| <= s.limits.maxFileBytes && !s.lib.unsupported(name)))
      && (ZipAt(s, x).Some? ==> Opens(s, x))
    case InZip(e, _, _) =>
      && NormalizedMember(e.name).Some? && !e.encrypted && e.kind in {DirectoryEntry, RegularEntry}
      && (e.kind == RegularEntry ==> SoundContent(s, e) && (ZipAt(s, x).Some? ==> Opens(s, x)))
  }

  function Sounds(s: Scan): Spot -> bool { x => Sound(s, x) }

  // ----------------------------------------------------------------- reports

  /** A directory or file, or an entry that has a name and can be read. */
  predicate HasMember(x: Spot)
  {
    match x
    case OnDisk(node, _, _, _) => node.Directory? || node.Regular?
    case InZip(e, _, _) => NormalizedMember(e.name).Some? && (e.kind == DirectoryEntry || e.content.Some?)
  }

  /** The member a spot is listed as. */
  function MemberAt(s: Scan, x: Spot): Member
    requires HasMember(x)
  {
    match x
    case OnDisk(Directory(_), names, _, _) =>
      Member(Slashed(names), DirectoryMember, None, 0, None, None, s.outputRef)
    case OnDisk(Regular(_, bytes), names, _, media) =>
      Member(Slashed(names), FileMember, media, |bytes|, Some(s.lib.sha(bytes)), None, s.outputRef)
    case InZip(e, container, _) =>
      var name := NormalizedMember(e.name).value;
      if e.kind == DirectoryEntry then
        Member(name + "/", DirectoryMember, None, 0, None, Some(container), s.outputRef)
      else
        Member(name, NestedMember, s.lib.media(name), |e.content.value|, Some(s.lib.sha(e.content.value)),
               Some(container), s.outputRef)
  }

  /** The file identity a spot has, if it is a file on disk. */
  function InodesAt(x: Spot): seq<nat> { if x.OnDisk? && x.node.Regular? then [x.node.inode] else [] }

  function Report(s: Scan, x: Spot): seq<Effect>
  {
    (if x.OnDisk? && x.node.Regular? then [See(x.node.inode)] else [])
      + if HasMember(x) then [Add(MemberAt(s, x))] else []
  }

  function Reporting(s: Scan): Spot -> seq<Effect> { x => Report(s, x) }

  // ------------------------------------------ the walk fails where a spot is unsound

  type Judge = Spot -> bool

  ghost predicate Judges(s: Scan, all: Judge) { Unfolds(Tree(s), Sounds(s), all) }

  lemma JudgedAt(s: Scan, all: Judge, x: Spot)
    requires Judges(s, all)
    ensures all(x) <==> Sound(s, x) && forall i :: 0 <= i < |SpotsBelow(s, x)| ==> all(SpotsBelow(s, x)[i])
  {
    assert UnfoldsAt(Tree(s), Sounds(s), all, x);
  }

  ghost predicate SoundEntries(all: Judge, entries: seq<Entry>, container: Ref, depth: nat)
  {
    forall i :: 0 <= i < |entries| ==> all(InZip(entries[i], container, depth))
  }

  lemma NoFailConcat(a: seq<Effect>, b: seq<Effect>)
    ensures NoFail(a + b) <==> NoFail(a) && NoFail(b)
  {
    if NoFail(a + b) {
      forall i | 0 <= i < |a| ensures !a[i].Fail? { assert (a + b)[i] == a[i]; }
      forall i | 0 <= i < |b| ensures !b[i].Fail? { assert (a + b)[|a| + i] == b[i]; }
    }
  }

  lemma NoFailOne(e: Effect)
    ensures NoFail([e]) <==> !e.Fail?
  {
    assert [e][0] == e;
  }

  lemma {:induction false} ZipFailsIff(s: Scan, all: Judge, data: Bytes, container: Ref, depth: nat)
    requires Judges(s, all)
    ensures NoFail(ZipWalk(s, data, container, depth)) <==>
              && depth <= s.limits.maxDepth && s.lib.parse(data).Some?
              && SoundListing(all, s.lib.parse(data).value, container, depth)
    decreases Remaining(s.limits, depth), 1, 0
  {
    if depth > s.limits.maxDepth {
      NoFailOne(Fail(LimitExceeded));
    } else if s.lib.parse(data).None? {
      NoFailOne(Fail(ContainerUnsupported));
    } else {
      EntriesFailIff(s, all, s.lib.parse(data).value, container, depth);
    }
  }

  lemma {:induction false} EntriesFailIff(s: Scan, all: Judge, entries: seq<Entry>, container: Ref, depth: nat)
    requires Judges(s, all) && depth <= s.limits.maxDepth
    ensures NoFail(EntriesWalk(s, entries, container, depth))
       <==> SoundListing(all, entries, container, depth)
    decreases Remaining(s.limits, depth), 0, |entries|, 0
  {
    if entries != [] {
      var front, e := entries[..|entries| - 1], entries[|entries| - 1];
      assert entries == front + [e];
      EntriesFailAppend(s, all, front, e, container, depth);
    }
  }

  lemma {:induction false} EntriesFailAppend(s: Scan, all: Judge, front: seq<Entry>, e: Entry, container: Ref,
                                             depth: nat)
    requires Judges(s, all) && depth <= s.limits.maxDepth
    ensures NoFail(EntriesWalk(s, front + [e], container, depth))
       <==> SoundListing(all, front + [e], container, depth)
    decreases Remaining(s.limits, depth), 0, |front|, 1
  {
    EntriesFailIff(s, all, front, container, depth);
    EntryFailsIff(s, all, e, Seen(front), container, depth);
    EntriesFailStep(s, all, front, e, container, depth);
  }

  lemma EntriesFailStep(s: Scan, all: Judge, front: seq<Entry>, e: Entry, container: Ref, depth: nat)
    requires depth <= s.limits.maxDepth
    requires all(InZip(e, container, depth)) ==> NormalizedMember(e.name).Some?
    requires NoFail(EntriesWalk(s, front, container, depth)) <==> SoundListing(all, front, container, depth)
    requires NoFail(EntryWalk(s, e, Seen(front), container, depth)) <==>
               all(InZip(e, container, depth)) && NormalizedMember(e.name).value !in Seen(front)
    ensures NoFail(EntriesWalk(s, front + [e], container, depth))
       <==> SoundListing(all, front + [e], container, depth)
  {
    EntriesWalkStep(s, front, e, container, depth);
    NoFailConcat(EntriesWalk(s, front, container, depth), EntryWalk(s, e, Seen(front), container, depth));
    SoundListingStep(all, front, e, container, depth);
  }

  lemma EntriesWalkStep(s: Scan, front: seq<Entry>, e: Entry, container: Ref, depth: nat)
    requires depth <= s.limits.maxDepth
    ensures EntriesWalk(s, front + [e], container, depth)
         == EntriesWalk(s, front, container, depth) + EntryWalk(s, e, Seen(front), container, depth)
  {
    assert (front + [e])[..|front|] == front;
  }

  ghost predicate SoundListing(all: Judge, entries: seq<Entry>, container: Ref, depth: nat)
  {
    DistinctNames(entries) && SoundEntries(all, entries, container, depth)
  }

  lemma SoundListingStep(all: Judge, front: seq<Entry>, e: Entry, container: Ref, depth: nat)
    requires all(InZip(e, container, depth)) ==> NormalizedMember(e.name).Some?
    ensures SoundListing(all, front + [e], container, depth) <==>
              && SoundListing(all, front, container, depth) && all(InZip(e, container, depth))
              && NormalizedMember(e.name).value !in Seen(front)
  {
    SoundEntriesStep(all, front, e, container, depth);
    if NormalizedMember(e.name).Some? { DistinctNamesStep(front, e); }
  }

  lemma SoundEntriesStep(all: Judge, front: seq<Entry>, e: Entry, container: Ref, depth: nat)
    ensures SoundEntries(all, front + [e], container, depth)
       <==> SoundEntries(all, front, container, depth) && all(InZip(e, container, depth))
  {
    var entries := front + [e];
    if SoundEntries(all, entries, container, depth) {
      assert entries[|front|] == e;
      forall i | 0 <= i < |front| ensures all(InZip(front[i], container, depth)) { assert entries[i] == front[i]; }
    }
  }

  lemma DistinctNamesStep(front: seq<Entry>, e: Entry)
    requires NormalizedMember(e.name).Some?
    ensures DistinctNames(front + [e]) <==> DistinctNames(front) && NormalizedMember(e.name).value !in Seen(front)
  {
    var all := front + [e];
    assert forall i :: 0 <= i < |front| ==> all[i] == front[i];
    if NormalizedMember(e.name).value in Seen(front) {
      var x :| x in front && NormalizedMember(x.name) == NormalizedMember(e.name);
      var i :| 0 <= i < |front| && front[i] == x;
      assert NormalizedMember(all[i].name) == NormalizedMember(all[|front|].name);
    } else if DistinctNames(front) {
      forall i, j | 0 <= i < j < |all| ensures NormalizedMember(all[i].name) != NormalizedMember(all[j].name) {
        if j == |front| { assert all[i] in front; }
      }
    }
  }

  lemma {:induction false} EntryFailsIff(s: Scan, all: Judge, e: Entry, seen: set<string>, container: Ref, depth: nat)
    requires Judges(s, all) && depth <= s.limits.maxDepth
    ensures all(InZip(e, container, depth)) ==> NormalizedMember(e.name).Some?
    ensures NoFail(EntryWalk(s, e, seen, container, depth)) <==>
              all(InZip(e, container, depth)) && NormalizedMember(e.name).value !in seen
    decreases Remaining(s.limits, depth), 0, 0, 0
  {
    var x := InZip(e, container, depth);
    JudgedAt(s, all, x);
    if !LocallySound(s, e, seen) {
      UnsoundEntryFails(s, e, seen, container, depth);
    } else {
      SoundEntryWalk(s, e, seen, container, depth);
      NoFailOne(Add(MemberAt(s, x)));
      if ZipAt(s, x).Some? {
        var (inner, level) := ContainerAt(s, x);
        ZipFailsIff(s, all, e.content.value, inner, level);
        NoFailConcat([Add(MemberAt(s, x))], ZipWalk(s, e.content.value, inner, level));
        ZipSoundIff(s, all, x);
      }
    }
  }

  /** What is checked of an entry itself. */
  predicate LocallySound(s: Scan, e: Entry, seen: set<string>)
  {
    && NormalizedMember(e.name).Some? && NormalizedMember(e.name).value !in seen
    && !e.encrypted && e.kind in {DirectoryEntry, RegularEntry}
    && (e.kind == RegularEntry ==> SoundContent(s, e))
  }

  lemma UnsoundEntryFails(s: Scan, e: Entry, seen: set<string>, container: Ref, depth: nat)
    requires depth <= s.limits.maxDepth && !LocallySound(s, e, seen)
    ensures !NoFail(EntryWalk(s, e, seen, container, depth))
  {
    var effects := EntryWalk(s, e, seen, container, depth);
    if |effects| == 1 {
      assert effects[0].Fail?;
    } else {
      assert effects[1].Fail?;
    }
  }

  /** What the walk does at a sound entry with a fresh name. */
  lemma SoundEntryWalk(s: Scan, e: Entry, seen: set<string>, container: Ref, depth: nat)
    requires depth <= s.limits.maxDepth && LocallySound(s, e, seen)
    ensures
      var x := InZip(e, container, depth);
      EntryWalk(s, e, seen, container, depth) ==
        [Add(MemberAt(s, x))]
          + if ZipAt(s, x).Some? then ZipWalk(s, e.content.value, ContainerAt(s, x).0, ContainerAt(s, x).1) else []
  {
  }

  lemma ZipSoundIff(s: Scan, all: Judge, x: Spot)
    requires ZipAt(s, x).Some? && Judges(s, all) && (Sound(s, x) ==> Opens(s, x))
    ensures all(x) <==>
              && Sound(s, x)
              && SoundEntries(all, s.lib.parse(ZipAt(s, x).value).value, ContainerAt(s, x).0, ContainerAt(s, x).1)
  {
    JudgedAt(s, all, x);
    if Opens(s, x) {
      var entries, container, depth := s.lib.parse(ZipAt(s, x).value).value, ContainerAt(s, x).0, ContainerAt(s, x).1;
      assert SpotsBelow(s, x) == Listed(entries, container, depth);
      assert forall i :: 0 <= i < |entries| ==>
          Listed(entries, container, depth)[i] == InZip(entries[i], container, depth);
    }
  }

  /** The names in a file tree are not empty and hold no slash. */
  ghost predicate CleanTree(node: Node)
    decreases node
  {
    node.Directory? ==>
      forall i :: 0 <= i < |node.children| ==>
        Clean(node.children[i].name) && node.children[i].name[0] != '/' && CleanTree(node.children[i].node)
  }

  lemma {:induction false} NodeFailsIff(s: Scan, all: Judge, node: Node, names: seq<string>, name: string,
                                        media: Option<string>)
    requires Judges(s, all) && names != [] && AllClean(names) && CleanTree(node)
    requires |names| > 1 ==> |Slashed(names)| <= MAX_PATH
    ensures NoFail(NodeWalk(s, node, Slashed(names), name, media)) <==> all(OnDisk(node, names, name, media))
    decreases node, 1
  {
    var x, path := OnDisk(node, names, name, media), Slashed(names);
    JudgedAt(s, all, x);
    match node
    case Directory(children) =>
      NoFailOne(Add(DirectoryAt(s, path, None)));
      NoFailConcat([Add(DirectoryAt(s, path, None))], ChildrenWalk(s, children, path));
      ChildrenFailIff(s, all, children, names);
      assert forall i :: 0 <= i < |children| ==> SpotsBelow(s, x)[i] == ChildSpot(s, children[i], names);
    case Regular(_, _) => FileFailsIff(s, all, x);
    case _ => assert NodeWalk(s, node, path, name, media)[0].Fail?;
  }

  /** What is checked of a file itself. */
  predicate LocallySoundFile(s: Scan, x: Spot)
    requires x.OnDisk? && x.node.Regular?
  {
    |x.node.bytes| <= s.limits.maxFileBytes && !s.lib.unsupported(x.name)
  }

  lemma UnsoundFileFails(s: Scan, x: Spot)
    requires x.OnDisk? && x.node.Regular? && !LocallySoundFile(s, x)
    ensures !NoFail(NodeWalk(s, x.node, Slashed(x.names), x.name, x.media))
  {
    var effects := NodeWalk(s, x.node, Slashed(x.names), x.name, x.media);
    if |effects| == 2 {
      assert effects[1].Fail?;
    } else {
      assert effects[2].Fail?;
    }
  }

  /** What the walk does at a sound file. */
  lemma SoundFileWalk(s: Scan, x: Spot)
    requires x.OnDisk? && x.node.Regular? && LocallySoundFile(s, x)
    ensures NodeWalk(s, x.node, Slashed(x.names), x.name, x.media) ==
              Report(s, x) + if ZipAt(s, x).Some? then ZipWalk(s, x.node.bytes, s.outputRef, 1) else []
    ensures NoFail(Report(s, x))
  {
    assert Report(s, x) == [See(x.node.inode)] + [Add(MemberAt(s, x))];
    NoFailConcat([See(x.node.inode)], [Add(MemberAt(s, x))]);
    NoFailOne(See(x.node.inode));
    NoFailOne(Add(MemberAt(s, x)));
  }

  lemma FileFailsIff(s: Scan, all: Judge, x: Spot)
    requires Judges(s, all) && x.OnDisk? && x.node.Regular? && (|x.names| > 1 ==> |Slashed(x.names)| <= MAX_PATH)
    ensures NoFail(NodeWalk(s, x.node, Slashed(x.names), x.name, x.media)) <==> all(x)
  {
    JudgedAt(s, all, x);
    if !LocallySoundFile(s, x) {
      UnsoundFileFails(s, x);
    } else {
      SoundFileWalk(s, x);
      if ZipAt(s, x).Some? {
        ZipFailsIff(s, all, x.node.bytes, s.outputRef, 1);
        NoFailConcat(Report(s, x), ZipWalk(s, x.node.bytes, s.outputRef, 1));
        ZipSoundIff(s, all, x);
      }
    }
  }

  ghost predicate SoundChildren(s: Scan, all: Judge, children: seq<Child>, names: seq<string>)
  {
    forall i :: 0 <= i < |children| ==> all(ChildSpot(s, children[i], names))
  }

  lemma SoundChildrenStep(s: Scan, all: Judge, front: seq<Child>, c: Child, names: seq<string>)
    ensures SoundChildren(s, all, front + [c], names)
       <==> SoundChildren(s, all, front, names) && all(ChildSpot(s, c, names))
  {
    var children := front + [c];
    if SoundChildren(s, all, children, names) {
      assert children[|front|] == c;
      forall i | 0 <= i < |front| ensures all(ChildSpot(s, front[i], names)) { assert children[i] == front[i]; }
    }
  }

  lemma {:induction false} ChildrenFailIff(s: Scan, all: Judge, children: seq<Child>, names: seq<string>)
    requires Judges(s, all) && names != [] && AllClean(names) && CleanTree(Directory(children))
    ensures NoFail(ChildrenWalk(s, children, Slashed(names))) <==> SoundChildren(s, all, children, names)
    decreases children, 0
  {
    if children != [] {
      var front, c := children[..|children| - 1], children[|children| - 1];
      ChildrenFailIff(s, all, front, names);
      ChildFailsIff(s, all, c.name, c.node, names);
      NoFailConcat(ChildrenWalk(s, front, Slashed(names)), ChildWalk(s, c.name, c.node, Slashed(names)));
      SoundChildrenStep(s, all, front, c, names);
      assert children == front + [c];
    }
  }

  lemma {:induction false} ChildFailsIff(s: Scan, all: Judge, name: string, node: Node, names: seq<string>)
    requires Judges(s, all) && names != [] && AllClean(names) && CleanTree(node) && Clean(name) && name[0] != '/'
    ensures NoFail(ChildWalk(s, name, node, Slashed(names))) <==> all(ChildSpot(s, Child(name, node), names))
    decreases node, 2
  {
    JoinedIsSlashed(names, name);
    if |Slashed(names + [name])| > MAX_PATH {
      JudgedAt(s, all, ChildSpot(s, Child(name, node), names));
      NoFailOne(Fail(SourcePathViolation));
    } else {
      NodeFailsIff(s, all, node, names + [name], name, s.lib.media(name));
    }
  }

  // ------------------------------------------ a walk without failures is the report

  type Teller = (Spot, nat) -> seq<Effect>

  ghost predicate IsTold(s: Scan, tree: Teller) { Tells(Tree(s), Reporting(s), tree) }

  lemma ToldAt(s: Scan, tree: Teller, x: Spot, levels: nat)
    requires IsTold(s, tree)
    ensures tree(x, levels)
         == Report(s, x) + if levels == 0 then [] else Reports(tree, SpotsBelow(s, x), levels - 1)
  {
    assert TellsAt(Tree(s), Reporting(s), tree, x, levels);
  }

  /** A spot with nothing below it. */
  lemma LeafTold(s: Scan, tree: Teller, x: Spot, levels: nat)
    requires IsTold(s, tree) && SpotsBelow(s, x) == []
    ensures tree(x, levels) == Report(s, x)
  {
    ToldAt(s, tree, x, levels);
  }

  lemma {:induction false} ZipReports(s: Scan, tree: Teller, data: Bytes, container: Ref, depth: nat, levels: nat)
    requires IsTold(s, tree) && NoFail(ZipWalk(s, data, container, depth)) && depth + levels >= s.limits.maxDepth
    ensures depth <= s.limits.maxDepth && s.lib.parse(data).Some?
    ensures ZipWalk(s, data, container, depth)
         == Reports(tree, Listed(s.lib.parse(data).value, container, depth), levels)
    decreases Remaining(s.limits, depth), 1, 0
  {
    if depth > s.limits.maxDepth {
      NoFailOne(Fail(LimitExceeded));
    } else if s.lib.parse(data).None? {
      NoFailOne(Fail(ContainerUnsupported));
    } else {
      EntriesReport(s, tree, s.lib.parse(data).value, container, depth, levels);
    }
  }

  lemma {:induction false} EntriesReport(s: Scan, tree: Teller, entries: seq<Entry>, container: Ref, depth: nat,
                                         levels: nat)
    requires IsTold(s, tree) && depth <= s.limits.maxDepth <= depth + levels
    requires NoFail(EntriesWalk(s, entries, container, depth))
    ensures EntriesWalk(s, entries, container, depth)
         == Reports(tree, Listed(entries, container, depth), levels)
    decreases Remaining(s.limits, depth), 0, |entries|, 0
  {
    if entries != [] {
      var front, e := entries[..|entries| - 1], entries[|entries| - 1];
      assert entries == front + [e];
      EntriesReportAppend(s, tree, front, e, container, depth, levels);
    }
  }

  lemma {:induction false} EntriesReportAppend(s: Scan, tree: Teller, front: seq<Entry>, e: Entry, container: Ref,
                                               depth: nat, levels: nat)
    requires IsTold(s, tree) && depth <= s.limits.maxDepth <= depth + levels
    requires NoFail(EntriesWalk(s, front + [e], container, depth))
    ensures EntriesWalk(s, front + [e], container, depth)
         == Reports(tree, Listed(front + [e], container, depth), levels)
    decreases Remaining(s.limits, depth), 0, |front|, 1
  {
    EntriesWalkStep(s, front, e, container, depth);
    NoFailConcat(EntriesWalk(s, front, container, depth), EntryWalk(s, e, Seen(front), container, depth));
    EntriesReport(s, tree, front, container, depth, levels);
    EntryReport(s, tree, e, Seen(front), container, depth, levels);
    ReportsJoin(s, tree, front, e, container, depth, levels);
  }

  lemma ReportsJoin(s: Scan, tree: Teller, front: seq<Entry>, e: Entry, container: Ref, depth: nat, levels: nat)
    requires depth <= s.limits.maxDepth
    requires EntriesWalk(s, front, container, depth)
          == Reports(tree, Listed(front, container, depth), levels)
    requires EntryWalk(s, e, Seen(front), container, depth)
          == tree(InZip(e, container, depth), levels)
    ensures EntriesWalk(s, front + [e], container, depth)
         == Reports(tree, Listed(front + [e], container, depth), levels)
  {
    EntriesWalkStep(s, front, e, container, depth);
    ReportsStep(tree, Listed(front, container, depth), InZip(e, container, depth), levels);
    assert Listed(front + [e], container, depth) == Listed(front, container, depth) + [InZip(e, container, depth)];
  }

  lemma {:induction false} EntryReport(s: Scan, tree: Teller, e: Entry, seen: set<string>, container: Ref, depth: nat,
                                       levels: nat)
    requires IsTold(s, tree) && depth <= s.limits.maxDepth <= depth + levels
    requires NoFail(EntryWalk(s, e, seen, container, depth))
    ensures EntryWalk(s, e, seen, container, depth) == tree(InZip(e, container, depth), levels)
    decreases Remaining(s.limits, depth), 0, 0, 0
  {
    var x := InZip(e, container, depth);
    WalkedEntryIsSound(s, e, seen, container, depth);
    if ZipAt(s, x).Some? {
      ZipReports(s, tree, e.content.value, ContainerAt(s, x).0, ContainerAt(s, x).1, levels - 1);
      ZipEntryReport(s, tree, e, seen, container, depth, levels);
    } else {
      SoundEntryWalk(s, e, seen, container, depth);
      LeafTold(s, tree, x, levels);
    }
  }

  lemma ZipEntryReport(s: Scan, tree: Teller, e: Entry, seen: set<string>, container: Ref, depth: nat, levels: nat)
    requires IsTold(s, tree) && depth <= s.limits.maxDepth && levels > 0 && LocallySound(s, e, seen)
    requires ZipAt(s, InZip(e, container, depth)).Some? && s.lib.parse(e.content.value).Some?
    requires
      var (inner, level) := ContainerAt(s, InZip(e, container, depth));
      ZipWalk(s, e.content.value, inner, level)
        == Reports(tree, Listed(s.lib.parse(e.content.value).value, inner, level), levels - 1)
    ensures EntryWalk(s, e, seen, container, depth) == tree(InZip(e, container, depth), levels)
  {
    SoundEntryWalk(s, e, seen, container, depth);
    ToldAt(s, tree, InZip(e, container, depth), levels);
    assert Report(s, InZip(e, container, depth)) == [Add(MemberAt(s, InZip(e, container, depth)))];
  }

  lemma WalkedEntryIsSound(s: Scan, e: Entry, seen: set<string>, container: Ref, depth: nat)
    requires depth <= s.limits.maxDepth && NoFail(EntryWalk(s, e, seen, container, depth))
    ensures LocallySound(s, e, seen)
    ensures
      var x := InZip(e, container, depth);
      ZipAt(s, x).Some? ==>
        depth < s.limits.maxDepth && NoFail(ZipWalk(s, e.content.value, ContainerAt(s, x).0, ContainerAt(s, x).1))
  {
    var x := InZip(e, container, depth);
    if !LocallySound(s, e, seen) {
      UnsoundEntryFails(s, e, seen, container, depth);
    } else if ZipAt(s, x).Some? {
      var (inner, level) := ContainerAt(s, x);
      SoundEntryWalk(s, e, seen, container, depth);
      NoFailConcat([Add(MemberAt(s, x))], ZipWalk(s, e.content.value, inner, level));
      if level > s.limits.maxDepth { NoFailOne(Fail(LimitExceeded)); }
    }
  }

  /** How far down there can be sound spots. */
  function Rank(l: Limits, x: Spot): nat
  {
    match x
    case OnDisk(node, _, _, _) => Height(node) + l.maxDepth
    case InZip(_, _, depth) => if depth <= l.maxDepth then l.maxDepth - depth else 0
  }

  function Height(node: Node): (h: nat)
    ensures node.Directory? ==> forall i :: 0 <= i < |node.children| ==> Height(node.children[i].node) < h
    decreases node, 1
  {
    if node.Directory? then 1 + Highest(node.children) else 0
  }

  function Highest(children: seq<Child>): (h: nat)
    ensures forall i :: 0 <= i < |children| ==> Height(children[i].node) <= h
    decreases children, 0
  {
    if children == [] then 0
    else
      var rest, last := Highest(children[..|children| - 1]), Height(children[|children| - 1].node);
      if last > rest then last else rest
  }

  lemma {:induction false} NodeReport(s: Scan, tree: Teller, x: Spot, levels: nat)
    requires IsTold(s, tree) && x.OnDisk? && levels >= Rank(s.limits, x)
    requires x.names != [] && AllClean(x.names) && CleanTree(x.node)
    requires NoFail(NodeWalk(s, x.node, Slashed(x.names), x.name, x.media))
    ensures NodeWalk(s, x.node, Slashed(x.names), x.name, x.media) == tree(x, levels)
    decreases x.node, 1
  {
    match x.node
    case Directory(children) =>
      var head := [Add(DirectoryAt(s, Slashed(x.names), None))];
      NoFailConcat(head, ChildrenWalk(s, children, Slashed(x.names)));
      ChildrenReport(s, tree, children, x.names, levels - 1);
      DirectoryReport(s, tree, x, levels);
    case Regular(_, _) => FileReport(s, tree, x, levels);
    case _ => assert NodeWalk(s, x.node, Slashed(x.names), x.name, x.media)[0].Fail?;
  }

  lemma DirectoryReport(s: Scan, tree: Teller, x: Spot, levels: nat)
    requires IsTold(s, tree) && x.OnDisk? && x.node.Directory? && levels > 0
    requires ChildrenWalk(s, x.node.children, Slashed(x.names))
          == Reports(tree, Children(s, x.node.children, x.names), levels - 1)
    ensures NodeWalk(s, x.node, Slashed(x.names), x.name, x.media) == tree(x, levels)
  {
    ToldAt(s, tree, x, levels);
    assert Report(s, x) == [Add(DirectoryAt(s, Slashed(x.names), None))];
  }

  lemma FileReport(s: Scan, tree: Teller, x: Spot, levels: nat)
    requires IsTold(s, tree) && x.OnDisk? && x.node.Regular? && levels >= Rank(s.limits, x)
    requires NoFail(NodeWalk(s, x.node, Slashed(x.names), x.name, x.media))
    ensures NodeWalk(s, x.node, Slashed(x.names), x.name, x.media) == tree(x, levels)
  {
    if !LocallySoundFile(s, x) { UnsoundFileFails(s, x); }
    SoundFileWalk(s, x);
    if ZipAt(s, x).Some? {
      NoFailConcat(Report(s, x), ZipWalk(s, x.node.bytes, s.outputRef, 1));
      if s.limits.maxDepth == 0 { NoFailOne(Fail(LimitExceeded)); }
      ZipReports(s, tree, x.node.bytes, s.outputRef, 1, levels - 1);
      ToldAt(s, tree, x, levels);
    } else {
      LeafTold(s, tree, x, levels);
    }
  }

  lemma {:induction false} ChildrenReport(s: Scan, tree: Teller, children: seq<Child>, names: seq<string>, levels: nat)
    requires IsTold(s, tree) && levels >= Highest(children) + s.limits.maxDepth
    requires names != [] && AllClean(names) && CleanTree(Directory(children))
    requires NoFail(ChildrenWalk(s, children, Slashed(names)))
    ensures ChildrenWalk(s, children, Slashed(names)) == Reports(tree, Children(s, children, names), levels)
    decreases children, 0
  {
    if children != [] {
      var front, c := children[..|children| - 1], children[|children| - 1];
      NoFailConcat(ChildrenWalk(s, front, Slashed(names)), ChildWalk(s, c.name, c.node, Slashed(names)));
      ChildrenReport(s, tree, front, names, levels);
      JoinedIsSlashed(names, c.name);
      if |Slashed(names + [c.name])| > MAX_PATH { NoFailOne(Fail(SourcePathViolation)); }
      NodeReport(s, tree, ChildSpot(s, c, names), levels);
      ChildrenJoin(s, tree, front, c, names, levels);
      assert children == front + [c];
    }
  }

  lemma ChildrenJoin(s: Scan, tree: Teller, front: seq<Child>, c: Child, names: seq<string>, levels: nat)
    requires ChildrenWalk(s, front, Slashed(names)) == Reports(tree, Children(s, front, names), levels)
    requires ChildWalk(s, c.name, c.node, Slashed(names)) == tree(ChildSpot(s, c, names), levels)
    ensures ChildrenWalk(s, front + [c], Slashed(names)) == Reports(tree, Children(s, front + [c], names), levels)
  {
    assert (front + [c])[..|front|] == front;
    ReportsStep(tree, Children(s, front, names), ChildSpot(s, c, names), levels);
    assert Children(s, front + [c], names) == Children(s, front, names) + [ChildSpot(s, c, names)];
  }

  // --------------------------------------------------------- what a scan reaches

  function Ranking(l: Limits): Spot -> nat { x => Rank(l, x) }

  lemma RankFalls(s: Scan)
    ensures Falls(Tree(s), Sounds(s), Ranking(s.limits))
  {
    forall x, i | Sound(s, x) && 0 <= i < |SpotsBelow(s, x)|
      ensures Rank(s.limits, SpotsBelow(s, x)[i]) < Rank(s.limits, x)
    {
    }
  }

  function MembersAt(s: Scan): Spot -> seq<Member> { x => if HasMember(x) then [MemberAt(s, x)] else [] }

  function Identities(): Spot -> seq<nat> { x => InodesAt(x) }

  lemma {:induction false} MembersConcat(a: seq<Effect>, b: seq<Effect>)
    ensures Members(a + b) == Members(a) + Members(b) && Inodes(a + b) == Inodes(a) + Inodes(b)
    decreases |b|
  {
    if b == [] {
      assert a + b == a;
    } else {
      MembersConcat(a, b[..|b| - 1]);
      assert (a + b)[..|a + b| - 1] == a + b[..|b| - 1];
    }
  }

  lemma ReportIs(s: Scan, x: Spot)
    ensures Members(Report(s, x)) == MembersAt(s)(x) && Inodes(Report(s, x)) == InodesAt(x)
  {
    var first := if x.OnDisk? && x.node.Regular? then [See(x.node.inode)] else [];
    var second := if HasMember(x) then [Add(MemberAt(s, x))] else [];
    MembersConcat(first, second);
    if first != [] { OneEffect(first[0]); }
    if second != [] { OneEffect(second[0]); }
  }

  lemma OneEffect(e: Effect)
    ensures Members([e]) == (if e.Add? then [e.member] else [])
    ensures Inodes([e]) == (if e.See? then [e.inode] else [])
  {
    assert [e][..0] == [];
  }

  lemma {:induction false} GatheredAre(s: Scan, root: Spot, chains: seq<Chain>)
    ensures
      var effects := Gather(ReportAt(Tree(s), Reporting(s), root), chains);
      && Members(effects) == Gather(ReportAt(Tree(s), MembersAt(s), root), chains)
      && Inodes(effects) == Gather(ReportAt(Tree(s), Identities(), root), chains)
  {
    if chains != [] {
      var front, last := chains[..|chains| - 1], chains[|chains| - 1];
      var f := ReportAt(Tree(s), Reporting(s), root);
      GatheredAre(s, root, front);
      MembersConcat(Gather(f, front), f(last));
      if Leads(Tree(s), root, last) { ReportIs(s, NodeAt(Tree(s), root, last)); }
    }
  }

  /** A scan succeeds if and only if every spot that some chain leads to is sound, no file
      is met twice, and the totals are within the limits. It then lists exactly the
      members of these spots, in the order of the inventory. */
  lemma ScanReaches(s: Scan, node: Node, path: string, name: string, media: Option<string>)
    returns (chains: seq<Chain>)
    requires Clean(path) && CleanTree(node)
    ensures
      var root := OnDisk(node, [path], name, media);
      var members := Gather(ReportAt(Tree(s), MembersAt(s), root), chains);
      && Ascending(chains)
      && (AllSound(Tree(s), Sounds(s), root) ==> forall c :: c in chains <==> Leads(Tree(s), root, c))
      && (ScanMaterial(s, node, path, name, media).Scanned? <==>
            && AllSound(Tree(s), Sounds(s), root)
            && Distinct(Gather(ReportAt(Tree(s), Identities(), root), chains))
            && |members| <= s.limits.maxMembers && TotalBytes(members) <= s.limits.maxTotalBytes)
      && (ScanMaterial(s, node, path, name, media).Scanned? ==>
            ScanMaterial(s, node, path, name, media).members == Sort(members, MemberKey))
  {
    var root, effects := OnDisk(node, [path], name, media), NodeWalk(s, node, path, name, media);
    var all := Soundness(Tree(s), Sounds(s));
    assert Slashed([path]) == path;
    RankFalls(s);
    chains := ChainsAreComplete(Tree(s), Sounds(s), Ranking(s.limits), root);
    SoundnessUnfolds(Tree(s), Sounds(s));
    NodeFailsIff(s, all, node, [path], name, media);
    ScanSucceedsIffFits(s.limits, effects);
    if all(root) {
      TellingTells(Tree(s), Reporting(s));
      NodeReport(s, Telling(Tree(s), Reporting(s)), root, Rank(s.limits, root));
      GatheredAre(s, root, chains);
    }
  }
}
