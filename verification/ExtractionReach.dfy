/** The tree an extraction walks, said of the attachment itself: below an attachment lie
    the paths of its directory, and below an archive the entries of its listing. Spots of
    this tree are sound or not, and a walk fails exactly where a spot is unsound. */
module ExtractionReach {
  import opened Prelude
  import opened Walks
  import opened ArchivePaths
  import opened Chains
  import opened Extraction

  datatype Node = Root(attachment: Attachment) | Below(child: Child) | Inside(entry: Entry)

  /** A node where the walk meets it: the names met above it, and the nesting depth that
      its own listing has, if it is opened as an archive. */
  datatype Spot = Spot(node: Node, above: seq<string>, depth: nat)

  // ----------------------------------------------------------------- the tree

  /** Under which name a node's bytes are classified; None for directories, and for
      what has no readable bytes. */
  function FileAt(lib: Lib, n: Node): Option<(string, Bytes)>
  {
    match n
    case Root(File(name, bytes)) => Some((name, bytes))
    case Below(FileChild(path, bytes)) => Some((path, bytes))
    case Inside(e) =>
      if !e.isDir && e.content.Content? && NormalizedName(lib, e.name).Some? then
        Some((NormalizedName(lib, e.name).value, e.content.bytes))
      else None
    case _ => None
  }

  predicate IsDocument(lib: Lib, n: Node)
  {
    FileAt(lib, n).Some? && lib.kind(FileAt(lib, n).value.0) == Document
  }

  /** A zip by its name or by its bytes, unless it is a document by its name. */
  predicate IsArchive(lib: Lib, n: Node)
  {
    && FileAt(lib, n).Some? && !IsDocument(lib, n)
    && (lib.kind(FileAt(lib, n).value.0) == Zip || lib.isZip(FileAt(lib, n).value.1))
  }

  /** The name a node adds to the paths that lead through it. */
  function OwnName(lib: Lib, n: Node): seq<string>
  {
    match n
    case Root(_) => []
    case Below(c) => [c.path]
    case Inside(e) => if NormalizedName(lib, e.name).Some? then [NormalizedName(lib, e.name).value] else []
  }

  /** What lies directly below a spot. */
  function SpotsBelow(lib: Lib, s: Spot): seq<Spot>
  {
    if s.node.Root? && s.node.attachment.Directory? then Children(s.node.attachment.children)
    else if IsArchive(lib, s.node) && lib.parse(FileAt(lib, s.node).value.1).Some? then
      Listed(lib.parse(FileAt(lib, s.node).value.1).value, s.above + OwnName(lib, s.node), s.depth)
    else []
  }

  function Children(children: seq<Child>): seq<Spot>
  {
    seq(|children|, i requires 0 <= i < |children| => Spot(Below(children[i]), [], 1))
  }

  /** The entries of a listing that has this depth, below these names. */
  function Listed(entries: seq<Entry>, above: seq<string>, depth: nat): seq<Spot>
  {
    seq(|entries|, i requires 0 <= i < |entries| => Spot(Inside(entries[i]), above, depth + 1))
  }

  function Tree(lib: Lib): Spot -> seq<Spot> { s => SpotsBelow(lib, s) }

  /** Where the walk starts. A directory is no nesting level. */
  function Start(a: Attachment): Spot { Spot(Root(a), [], if a.Directory? then 0 else 1) }

  predicate IsDirectory(n: Node)
  {
    (n.Below? && n.child.DirectoryChild?) || (n.Inside? && n.entry.isDir)
  }

  /** The logical path of a spot: the names met on the way to it, joined by slashes. */
  function PathOf(lib: Lib, s: Spot): string
  {
    Slashed(s.above + OwnName(lib, s.node)) + if IsDirectory(s.node) then "/" else ""
  }

  // ---------------------------------------------------------------- soundness

  predicate DistinctNames(lib: Lib, entries: seq<Entry>)
  {
    forall i, j :: 0 <= i < j < |entries| ==>
      NormalizedName(lib, entries[i].name) != NormalizedName(lib, entries[j].name)
  }

  /** The archive can be opened at this nesting depth: the depth is within the limit,
      and the listing is readable and has no name twice. */
  predicate Opens(lib: Lib, l: Limits, data: Bytes, depth: nat)
  {
    depth <= l.maxDepth && lib.parse(data).Some? && DistinctNames(lib, lib.parse(data).value)
  }

  /** The file is a document that can be read, or an archive that opens, or else
      may be passed over. */
  predicate SoundFile(lib: Lib, l: Limits, s: Spot, passOver: bool)
    requires FileAt(lib, s.node).Some?
  {
    if IsDocument(lib, s.node) then TextAt(lib, l, s.node).Some?
    else if IsArchive(lib, s.node) then Opens(lib, l, FileAt(lib, s.node).value.1, s.depth)
    else passOver
  }

  /** The text of a document. */
  function TextAt(lib: Lib, l: Limits, n: Node): Option<string>
    requires FileAt(lib, n).Some?
  {
    var (name, bytes) := FileAt(lib, n).value;
    if n.Inside? then lib.decode(bytes, name) else lib.extractFile(bytes, name, l.maxCharacters + 1)
  }

  /** Neither encrypted nor a link; a file's size and compression ratio are within the
      limits, and its bytes can be read. */
  predicate SoundEntry(l: Limits, e: Entry)
  {
    && !e.encrypted && !e.symlink
    && (!e.isDir ==>
          && e.fileSize <= l.maxFileBytes
          && e.fileSize * 1000 < (l.maxRatioMilli + 1) * (if e.compressSize == 0 then 1 else e.compressSize)
          && e.content.Content?)
  }

  /** A spot that does not make the extraction fail. */
  predicate Sound(lib: Lib, m: Mode, s: Spot)
  {
    match s.node
    case Root(Directory(_)) => true
    case Root(File(name, bytes)) =>
      |bytes| <= m.limits.maxFileBytes && lib.kind(name) != OtherContainer && SoundFile(lib, m.limits, s, false)
    case Below(FileChild(path, bytes)) =>
      |bytes| <= m.limits.maxFileBytes && lib.kind(path) != OtherContainer && SoundFile(lib, m.limits, s, !m.strict)
    case Below(c) => c.DirectoryChild?
    case Inside(e) =>
      && NormalizedName(lib, e.name).Some? && SoundEntry(m.limits, e)
      && (!e.isDir ==> SoundFile(lib, m.limits, s, !m.strict))
  }

  ghost function Sounds(lib: Lib, m: Mode): Spot -> bool { s => Sound(lib, m, s) }

  /** What is reported at a spot. */
  function Report(lib: Lib, m: Mode, s: Spot): seq<Effect>
  {
    var path := PathOf(lib, s);
    match s.node
    case Root(Directory(_)) => []
    case Root(File(_, bytes)) =>
      if IsDocument(lib, s.node) then [Member(|bytes|, None)] + Told(TextAt(lib, m.limits, s.node))
      else if m.strict then [Member(|bytes|, None)]
      else []
    case Below(FileChild(_, bytes)) =>
      if IsDocument(lib, s.node) then [Member(|bytes|, Some(path))] + Told(TextAt(lib, m.limits, s.node))
      else if IsArchive(lib, s.node) then [if m.strict then Member(|bytes|, Some(path)) else PathOnly(path)]
      else []
    case Below(_) => [Member(0, Some(path))]
    case Inside(e) =>
      [Member(if e.isDir then 0 else e.fileSize, Some(path))]
        + if IsDocument(lib, s.node) then Told(TextAt(lib, m.limits, s.node)) else []
  }

  function Told(text: Option<string>): seq<Effect> { if text.Some? then [Text(text.value)] else [] }

  function Reporting(lib: Lib, m: Mode): Spot -> seq<Effect> { s => Report(lib, m, s) }

  // ------------------------------------------ the walk fails where a spot is unsound

  lemma RatioIff(size: nat, compressed: nat, ratio: nat)
    ensures size * 1000 / (if compressed > 1 then compressed else 1) <= ratio
       <==> size * 1000 < (ratio + 1) * (if compressed == 0 then 1 else compressed)
  {
    var d := if compressed > 1 then compressed else 1;
    var q := size * 1000 / d;
    assert q * d <= size * 1000 < (q + 1) * d;
    if q <= ratio {
      assert (q + 1) * d <= (ratio + 1) * d;
    } else {
      assert (ratio + 1) * d <= q * d;
    }
  }

  lemma LogicalPathIsSlashed(above: seq<string>, name: string)
    requires AllClean(above)
    ensures LogicalPath(Slashed(above), name) == Slashed(above + [name])
  {
    assert (above + [name])[..|above|] == above;
    if above != [] {
      SlashedIsClean(above);
    }
  }

  /** Says of a spot whether everything from there on is sound. */
  type Judge = Spot -> bool

  ghost predicate Judges(lib: Lib, m: Mode, all: Judge) { Unfolds(Tree(lib), Sounds(lib, m), all) }

  lemma JudgedAt(lib: Lib, m: Mode, all: Judge, s: Spot)
    requires Judges(lib, m, all)
    ensures all(s) <==>
              Sound(lib, m, s) && forall i :: 0 <= i < |SpotsBelow(lib, s)| ==> all(SpotsBelow(lib, s)[i])
  {
    assert UnfoldsAt(Tree(lib), Sounds(lib, m), all, s);
  }

  ghost predicate SoundListing(lib: Lib, all: Judge, entries: seq<Entry>, above: seq<string>, depth: nat)
  {
    DistinctNames(lib, entries) && SoundEntries(all, entries, above, depth)
  }

  ghost predicate SoundEntries(all: Judge, entries: seq<Entry>, above: seq<string>, depth: nat)
  {
    forall i :: 0 <= i < |entries| ==> all(Spot(Inside(entries[i]), above, depth + 1))
  }

  lemma {:induction false} ZipFailsIff(lib: Lib, m: Mode, all: Judge, data: Bytes, depth: nat, above: seq<string>)
    requires AllClean(above) && Judges(lib, m, all)
    ensures NoFail(ZipEffects(lib, m, data, depth, Slashed(above))) <==>
              Opens(lib, m.limits, data, depth) && SoundListing(lib, all, lib.parse(data).value, above, depth)
    decreases Remaining(m, depth), 1, 0
  {
    if depth > m.limits.maxDepth {
      HaltFails(ScanLimitExceeded, NoReason);
    } else if lib.parse(data).None? {
      HaltFails(ContentUnscannable, ContainerTruncated);
    } else {
      EntriesFailIff(lib, m, all, lib.parse(data).value, depth, above);
    }
  }

  lemma {:induction false} EntriesFailIff(lib: Lib, m: Mode, all: Judge, entries: seq<Entry>, depth: nat,
                                          above: seq<string>)
    requires AllClean(above) && depth <= m.limits.maxDepth && Judges(lib, m, all)
    ensures NoFail(EntriesEffects(lib, m, entries, depth, Slashed(above)))
       <==> SoundListing(lib, all, entries, above, depth)
    decreases Remaining(m, depth), 0, |entries|, 0
  {
    if entries != [] {
      var front, e := entries[..|entries| - 1], entries[|entries| - 1];
      assert entries == front + [e];
      EntriesFailAppend(lib, m, all, front, e, depth, above);
    }
  }

  lemma {:induction false} EntriesFailAppend(lib: Lib, m: Mode, all: Judge, front: seq<Entry>, e: Entry, depth: nat,
                                             above: seq<string>)
    requires AllClean(above) && depth <= m.limits.maxDepth && Judges(lib, m, all)
    ensures NoFail(EntriesEffects(lib, m, front + [e], depth, Slashed(above)))
       <==> SoundListing(lib, all, front + [e], above, depth)
    decreases Remaining(m, depth), 0, |front|, 1
  {
    EntriesFailIff(lib, m, all, front, depth, above);
    EntryFailsIff(lib, m, all, e, Seen(lib, front), depth, above);
    EntriesFailStep(lib, m, all, front, e, depth, above);
  }

  lemma EntriesFailStep(lib: Lib, m: Mode, all: Judge, front: seq<Entry>, e: Entry, depth: nat, above: seq<string>)
    requires depth <= m.limits.maxDepth
    requires all(Spot(Inside(e), above, depth + 1)) ==> NormalizedName(lib, e.name).Some?
    requires NoFail(EntriesEffects(lib, m, front, depth, Slashed(above)))
        <==> SoundListing(lib, all, front, above, depth)
    requires NoFail(EntryEffects(lib, m, e, Seen(lib, front), depth, Slashed(above))) <==>
               all(Spot(Inside(e), above, depth + 1)) && NormalizedName(lib, e.name).value !in Seen(lib, front)
    ensures NoFail(EntriesEffects(lib, m, front + [e], depth, Slashed(above)))
       <==> SoundListing(lib, all, front + [e], above, depth)
  {
    EntriesEffectsStep(lib, m, front, e, depth, Slashed(above));
    NoFailConcat(EntriesEffects(lib, m, front, depth, Slashed(above)),
                 EntryEffects(lib, m, e, Seen(lib, front), depth, Slashed(above)));
    SoundListingStep(lib, all, front, e, above, depth);
  }

  lemma SoundListingStep(lib: Lib, all: Judge, front: seq<Entry>, e: Entry, above: seq<string>, depth: nat)
    requires all(Spot(Inside(e), above, depth + 1)) ==> NormalizedName(lib, e.name).Some?
    ensures SoundListing(lib, all, front + [e], above, depth) <==>
              && SoundListing(lib, all, front, above, depth) && all(Spot(Inside(e), above, depth + 1))
              && NormalizedName(lib, e.name).value !in Seen(lib, front)
  {
    SoundEntriesStep(all, front, e, above, depth);
    if NormalizedName(lib, e.name).Some? { DistinctNamesStep(lib, front, e); }
  }

  lemma SoundEntriesStep(all: Judge, front: seq<Entry>, e: Entry, above: seq<string>, depth: nat)
    ensures SoundEntries(all, front + [e], above, depth)
       <==> SoundEntries(all, front, above, depth) && all(Spot(Inside(e), above, depth + 1))
  {
    var entries := front + [e];
    if SoundEntries(all, entries, above, depth) {
      assert entries[|front|] == e;
      forall i | 0 <= i < |front| ensures all(Spot(Inside(front[i]), above, depth + 1)) {
        assert entries[i] == front[i];
      }
    }
  }

  lemma DistinctNamesStep(lib: Lib, front: seq<Entry>, e: Entry)
    requires NormalizedName(lib, e.name).Some?
    ensures DistinctNames(lib, front + [e]) <==>
              DistinctNames(lib, front) && NormalizedName(lib, e.name).value !in Seen(lib, front)
  {
    var all := front + [e];
    assert forall i :: 0 <= i < |front| ==> all[i] == front[i];
    if NormalizedName(lib, e.name).value in Seen(lib, front) {
      var x :| x in front && NormalizedName(lib, x.name) == NormalizedName(lib, e.name);
      var i :| 0 <= i < |front| && front[i] == x;
      assert NormalizedName(lib, all[i].name) == NormalizedName(lib, all[|front|].name);
    } else if DistinctNames(lib, front) {
      forall i, j | 0 <= i < j < |all| ensures NormalizedName(lib, all[i].name) != NormalizedName(lib, all[j].name) {
        if j == |front| { assert all[i] in front; }
      }
    }
  }

  lemma {:induction false} EntryFailsIff(lib: Lib, m: Mode, all: Judge, e: Entry, seen: set<string>, depth: nat,
                                         above: seq<string>)
    requires AllClean(above) && depth <= m.limits.maxDepth && Judges(lib, m, all)
    ensures all(Spot(Inside(e), above, depth + 1)) ==> NormalizedName(lib, e.name).Some?
    ensures NoFail(EntryEffects(lib, m, e, seen, depth, Slashed(above))) <==>
              all(Spot(Inside(e), above, depth + 1)) && NormalizedName(lib, e.name).value !in seen
    decreases Remaining(m, depth), 0, 0, 0
  {
    var s := Spot(Inside(e), above, depth + 1);
    JudgedAt(lib, m, all, s);
    if NormalizedName(lib, e.name).None? || NormalizedName(lib, e.name).value in seen || !SoundEntry(m.limits, e) {
      UnsoundEntryFails(lib, m, e, seen, depth, above);
    } else {
      var name := NormalizedName(lib, e.name).value;
      SoundEntryEffects(lib, m, e, seen, depth, above);
      if IsArchive(lib, Inside(e)) {
        var head := [Member(e.fileSize, Some(Slashed(above + [name])))];
        NormalizedStaysInside(lib.nfkc, e.name);
        ZipFailsIff(lib, m, all, e.content.bytes, depth + 1, above + [name]);
        NoFailConcat(head, ZipEffects(lib, m, e.content.bytes, depth + 1, Slashed(above + [name])));
        assert NoFail(head);
        ArchiveSoundIff(lib, m, all, s);
      } else {
        PlainFailsIff(lib, m, all, EntryEffects(lib, m, e, seen, depth, Slashed(above)), s);
      }
    }
  }

  lemma UnsoundEntryFails(lib: Lib, m: Mode, e: Entry, seen: set<string>, depth: nat, above: seq<string>)
    requires depth <= m.limits.maxDepth
    requires NormalizedName(lib, e.name).None? || NormalizedName(lib, e.name).value in seen || !SoundEntry(m.limits, e)
    ensures !NoFail(EntryEffects(lib, m, e, seen, depth, Slashed(above)))
  {
    var effects := EntryEffects(lib, m, e, seen, depth, Slashed(above));
    RatioIff(e.fileSize, e.compressSize, m.limits.maxRatioMilli);
    if |effects| == 1 {
      assert effects[0].Fail?;
    } else {
      assert effects[1].Fail?;
    }
  }

  /** What the walk does at a sound entry with a fresh name. */
  lemma SoundEntryEffects(lib: Lib, m: Mode, e: Entry, seen: set<string>, depth: nat, above: seq<string>)
    requires AllClean(above) && depth <= m.limits.maxDepth && SoundEntry(m.limits, e)
    requires NormalizedName(lib, e.name).Some? && NormalizedName(lib, e.name).value !in seen
    ensures
      var effects, path := EntryEffects(lib, m, e, seen, depth, Slashed(above)),
                           Slashed(above + [NormalizedName(lib, e.name).value]);
      effects == if IsArchive(lib, Inside(e)) then
                   [Member(e.fileSize, Some(path))] + ZipEffects(lib, m, e.content.bytes, depth + 1, path)
                 else PlainEffects(lib, m, e, path)
  {
    RatioIff(e.fileSize, e.compressSize, m.limits.maxRatioMilli);
    LogicalPathIsSlashed(above, NormalizedName(lib, e.name).value);
  }

  /** What the walk does at an entry that is no archive. */
  function PlainEffects(lib: Lib, m: Mode, e: Entry, path: string): seq<Effect>
    requires NormalizedName(lib, e.name).Some? && (!e.isDir ==> e.content.Content?)
  {
    if e.isDir then [Member(0, Some(path + "/"))]
    else
      [Member(e.fileSize, Some(path))] +
      if IsDocument(lib, Inside(e)) then TextEffects(lib.decode(e.content.bytes, NormalizedName(lib, e.name).value))
      else if m.strict then [Fail(Unsupported(ContainerUnsupported))]
      else []
  }

  lemma PlainFailsIff(lib: Lib, m: Mode, all: Judge, effects: seq<Effect>, s: Spot)
    requires s.node.Inside? && SoundEntry(m.limits, s.node.entry) && !IsArchive(lib, s.node)
    requires NormalizedName(lib, s.node.entry.name).Some? && Judges(lib, m, all)
    requires effects == PlainEffects(lib, m, s.node.entry, Slashed(s.above + OwnName(lib, s.node)))
    ensures NoFail(effects) <==> all(s)
  {
    JudgedAt(lib, m, all, s);
    if |effects| == 1 {
      assert NoFail(effects) <==> !effects[0].Fail?;
    } else {
      assert NoFail(effects) <==> !effects[0].Fail? && !effects[1].Fail?;
    }
  }

  lemma ArchiveSoundIff(lib: Lib, m: Mode, all: Judge, s: Spot)
    requires IsArchive(lib, s.node) && Judges(lib, m, all)
    requires Sound(lib, m, s) ==> Opens(lib, m.limits, FileAt(lib, s.node).value.1, s.depth)
    ensures all(s) <==>
              && Sound(lib, m, s)
              && SoundListing(lib, all, lib.parse(FileAt(lib, s.node).value.1).value, s.above + OwnName(lib, s.node),
                              s.depth)
  {
    JudgedAt(lib, m, all, s);
    if Opens(lib, m.limits, FileAt(lib, s.node).value.1, s.depth) {
      var entries, above := lib.parse(FileAt(lib, s.node).value.1).value, s.above + OwnName(lib, s.node);
      assert SpotsBelow(lib, s) == Listed(entries, above, s.depth);
      assert forall i :: 0 <= i < |entries| ==>
          Listed(entries, above, s.depth)[i] == Spot(Inside(entries[i]), above, s.depth + 1);
    }
  }

  /** Paths below a directory are neither empty nor do they end in a slash. */
  ghost predicate CleanPaths(a: Attachment)
  {
    a.Directory? ==> forall i :: 0 <= i < |a.children| ==> Clean(a.children[i].path)
  }

  lemma ChildFailsIff(lib: Lib, m: Mode, all: Judge, c: Child)
    requires Judges(lib, m, all) && Clean(c.path)
    ensures NoFail(ChildEffects(lib, m, c)) <==> all(Spot(Below(c), [], 1))
  {
    var s := Spot(Below(c), [], 1);
    if IsArchiveChild(lib, m.limits, c) {
      var head := [ArchiveHead(|c.bytes|, c.path, m.strict)];
      assert Slashed([c.path]) == c.path && s.above + OwnName(lib, s.node) == [c.path];
      ZipFailsIff(lib, m, all, c.bytes, 1, [c.path]);
      NoFailConcat(head, ZipEffects(lib, m, c.bytes, 1, c.path));
      assert NoFail(head);
      ArchiveSoundIff(lib, m, all, s);
    } else {
      PlainChildFailsIff(lib, m, all, c);
    }
  }

  lemma PlainChildFailsIff(lib: Lib, m: Mode, all: Judge, c: Child)
    requires Judges(lib, m, all) && !IsArchiveChild(lib, m.limits, c)
    ensures NoFail(ChildEffects(lib, m, c)) <==> all(Spot(Below(c), [], 1))
  {
    var s, effects := Spot(Below(c), [], 1), ChildEffects(lib, m, c);
    JudgedAt(lib, m, all, s);
    if |effects| == 1 {
      assert NoFail(effects) <==> !effects[0].Fail?;
    } else if |effects| == 2 {
      assert NoFail(effects) <==> !effects[0].Fail? && !effects[1].Fail?;
    }
    assert Sound(lib, m, s) ==> SpotsBelow(lib, s) == [];
  }

  ghost predicate SoundChildren(all: Judge, children: seq<Child>)
  {
    forall i :: 0 <= i < |children| ==> all(Spot(Below(children[i]), [], 1))
  }

  lemma SoundChildrenStep(all: Judge, front: seq<Child>, c: Child)
    ensures SoundChildren(all, front + [c]) <==> SoundChildren(all, front) && all(Spot(Below(c), [], 1))
  {
    var children := front + [c];
    if SoundChildren(all, children) {
      assert children[|front|] == c;
      forall i | 0 <= i < |front| ensures all(Spot(Below(front[i]), [], 1)) {
        assert children[i] == front[i];
      }
    }
  }

  lemma {:induction false} ChildrenFailIff(lib: Lib, m: Mode, all: Judge, children: seq<Child>)
    requires Judges(lib, m, all) && CleanPaths(Directory(children))
    ensures NoFail(ChildrenEffects(lib, m, children)) <==> SoundChildren(all, children)
  {
    if children != [] {
      var front, c := children[..|children| - 1], children[|children| - 1];
      ChildrenFailIff(lib, m, all, front);
      ChildFailsIff(lib, m, all, c);
      NoFailConcat(ChildrenEffects(lib, m, front), ChildEffects(lib, m, c));
      SoundChildrenStep(all, front, c);
      assert children == front + [c];
    }
  }

  lemma FileFailsIff(lib: Lib, m: Mode, all: Judge, name: string, bytes: Bytes)
    requires Judges(lib, m, all)
    ensures NoFail(FileEffects(lib, m, name, bytes)) <==> all(Start(File(name, bytes)))
  {
    var s, effects := Start(File(name, bytes)), FileEffects(lib, m, name, bytes);
    JudgedAt(lib, m, all, s);
    if IsArchive(lib, s.node) && |bytes| <= m.limits.maxFileBytes && lib.kind(name) != OtherContainer {
      var head := if m.strict then [Member(|bytes|, None)] else [];
      ZipFailsIff(lib, m, all, bytes, 1, []);
      NoFailConcat(head, ZipEffects(lib, m, bytes, 1, ""));
      assert NoFail(head);
      assert s.above + OwnName(lib, s.node) == [];
      ArchiveSoundIff(lib, m, all, s);
    } else {
      if |effects| == 1 {
        assert NoFail(effects) <==> !effects[0].Fail?;
      } else {
        assert NoFail(effects) <==> !effects[0].Fail? && !effects[1].Fail?;
      }
      assert Sound(lib, m, s) ==> SpotsBelow(lib, s) == [];
    }
  }

  lemma WalkFailsIff(lib: Lib, m: Mode, all: Judge, a: Attachment)
    requires Judges(lib, m, all) && CleanPaths(a)
    ensures NoFail(Effects(lib, m, a)) <==> all(Start(a))
  {
    match a {
      case Directory(children) =>
        ChildrenFailIff(lib, m, all, children);
        JudgedAt(lib, m, all, Start(a));
        assert forall i :: 0 <= i < |children| ==> SpotsBelow(lib, Start(a))[i] == Spot(Below(children[i]), [], 1);
      case File(name, bytes) => FileFailsIff(lib, m, all, name, bytes);
    }
  }

  /** The walk fails exactly where some reachable spot is unsound. */
  lemma FailsIffUnsound(lib: Lib, m: Mode, a: Attachment)
    requires CleanPaths(a)
    ensures NoFail(Effects(lib, m, a)) <==> AllSound(Tree(lib), Sounds(lib, m), Start(a))
  {
    SoundnessUnfolds(Tree(lib), Sounds(lib, m));
    WalkFailsIff(lib, m, Soundness(Tree(lib), Sounds(lib, m)), a);
  }

  // ------------------------------------------ a walk without failures is the report

  /** What is reported from a spot on, down to some levels. */
  type Teller = (Spot, nat) -> seq<Effect>

  ghost predicate IsTold(lib: Lib, m: Mode, tree: Teller) { Tells(Tree(lib), Reporting(lib, m), tree) }

  lemma ToldAt(lib: Lib, m: Mode, tree: Teller, s: Spot, levels: nat)
    requires IsTold(lib, m, tree)
    ensures tree(s, levels)
         == Report(lib, m, s) + if levels == 0 then [] else Reports(tree, SpotsBelow(lib, s), levels - 1)
  {
    assert TellsAt(Tree(lib), Reporting(lib, m), tree, s, levels);
  }

  lemma {:induction false} ZipReports(lib: Lib, m: Mode, tree: Teller, data: Bytes, depth: nat, above: seq<string>)
    requires IsTold(lib, m, tree) && AllClean(above) && NoFail(ZipEffects(lib, m, data, depth, Slashed(above)))
    ensures depth <= m.limits.maxDepth && lib.parse(data).Some?
    ensures ZipEffects(lib, m, data, depth, Slashed(above))
         == Reports(tree, Listed(lib.parse(data).value, above, depth), m.limits.maxDepth - depth)
    decreases Remaining(m, depth), 1, 0
  {
    if depth > m.limits.maxDepth {
      HaltFails(ScanLimitExceeded, NoReason);
    } else if lib.parse(data).None? {
      HaltFails(ContentUnscannable, ContainerTruncated);
    } else {
      EntriesReport(lib, m, tree, lib.parse(data).value, depth, above);
    }
  }

  lemma {:induction false} EntriesReport(lib: Lib, m: Mode, tree: Teller, entries: seq<Entry>, depth: nat,
                                         above: seq<string>)
    requires IsTold(lib, m, tree) && AllClean(above) && depth <= m.limits.maxDepth
    requires NoFail(EntriesEffects(lib, m, entries, depth, Slashed(above)))
    ensures EntriesEffects(lib, m, entries, depth, Slashed(above))
         == Reports(tree, Listed(entries, above, depth), m.limits.maxDepth - depth)
    decreases Remaining(m, depth), 0, |entries|, 0
  {
    if entries != [] {
      var front, e := entries[..|entries| - 1], entries[|entries| - 1];
      assert entries == front + [e];
      EntriesReportAppend(lib, m, tree, front, e, depth, above);
    }
  }

  lemma {:induction false} EntriesReportAppend(lib: Lib, m: Mode, tree: Teller, front: seq<Entry>, e: Entry, depth: nat,
                                               above: seq<string>)
    requires IsTold(lib, m, tree) && AllClean(above) && depth <= m.limits.maxDepth
    requires NoFail(EntriesEffects(lib, m, front + [e], depth, Slashed(above)))
    ensures EntriesEffects(lib, m, front + [e], depth, Slashed(above))
         == Reports(tree, Listed(front + [e], above, depth), m.limits.maxDepth - depth)
    decreases Remaining(m, depth), 0, |front|, 2
  {
    EntriesWalked(lib, m, front, e, depth, Slashed(above));
    EntriesReport(lib, m, tree, front, depth, above);
    EntryReport(lib, m, tree, e, Seen(lib, front), depth, above);
    ReportsJoin(lib, m, tree, front, e, depth, above);
  }

  lemma EntriesWalked(lib: Lib, m: Mode, front: seq<Entry>, e: Entry, depth: nat, prefix: string)
    requires depth <= m.limits.maxDepth && NoFail(EntriesEffects(lib, m, front + [e], depth, prefix))
    ensures NoFail(EntriesEffects(lib, m, front, depth, prefix))
    ensures NoFail(EntryEffects(lib, m, e, Seen(lib, front), depth, prefix))
  {
    EntriesEffectsStep(lib, m, front, e, depth, prefix);
    NoFailConcat(EntriesEffects(lib, m, front, depth, prefix),
                 EntryEffects(lib, m, e, Seen(lib, front), depth, prefix));
  }

  lemma ReportsJoin(lib: Lib, m: Mode, tree: Teller, front: seq<Entry>, e: Entry, depth: nat, above: seq<string>)
    requires depth <= m.limits.maxDepth
    requires EntriesEffects(lib, m, front, depth, Slashed(above))
          == Reports(tree, Listed(front, above, depth), m.limits.maxDepth - depth)
    requires EntryEffects(lib, m, e, Seen(lib, front), depth, Slashed(above))
          == tree(Spot(Inside(e), above, depth + 1), m.limits.maxDepth - depth)
    ensures EntriesEffects(lib, m, front + [e], depth, Slashed(above))
         == Reports(tree, Listed(front + [e], above, depth), m.limits.maxDepth - depth)
  {
    EntriesEffectsStep(lib, m, front, e, depth, Slashed(above));
    var s := Spot(Inside(e), above, depth + 1);
    ReportsStep(tree, Listed(front, above, depth), s, m.limits.maxDepth - depth);
    assert Listed(front + [e], above, depth) == Listed(front, above, depth) + [s];
  }

  lemma EntriesEffectsStep(lib: Lib, m: Mode, front: seq<Entry>, e: Entry, depth: nat, prefix: string)
    requires depth <= m.limits.maxDepth
    ensures EntriesEffects(lib, m, front + [e], depth, prefix)
         == EntriesEffects(lib, m, front, depth, prefix) + EntryEffects(lib, m, e, Seen(lib, front), depth, prefix)
  {
    assert (front + [e])[..|front|] == front;
  }

  lemma {:induction false} EntryReport(lib: Lib, m: Mode, tree: Teller, e: Entry, seen: set<string>, depth: nat,
                                       above: seq<string>)
    requires IsTold(lib, m, tree) && AllClean(above) && depth <= m.limits.maxDepth
    requires NoFail(EntryEffects(lib, m, e, seen, depth, Slashed(above)))
    ensures EntryEffects(lib, m, e, seen, depth, Slashed(above))
         == tree(Spot(Inside(e), above, depth + 1), m.limits.maxDepth - depth)
    decreases Remaining(m, depth), 0, 0, 1
  {
    WalkedEntryIsSound(lib, m, e, seen, depth, above);
    if IsArchive(lib, Inside(e)) {
      NestedReport(lib, m, tree, e, seen, depth, above);
    } else {
      PlainEntryReport(lib, m, tree, e, seen, depth, above);
    }
  }

  lemma {:induction false} NestedReport(lib: Lib, m: Mode, tree: Teller, e: Entry, seen: set<string>, depth: nat,
                                        above: seq<string>)
    requires IsTold(lib, m, tree) && AllClean(above) && depth <= m.limits.maxDepth
    requires SoundEntry(m.limits, e) && IsArchive(lib, Inside(e)) && NormalizedName(lib, e.name).value !in seen
    requires NoFail(ZipEffects(lib, m, e.content.bytes, depth + 1,
                               Slashed(above + [NormalizedName(lib, e.name).value])))
    ensures EntryEffects(lib, m, e, seen, depth, Slashed(above))
         == tree(Spot(Inside(e), above, depth + 1), m.limits.maxDepth - depth)
    decreases Remaining(m, depth), 0, 0, 0
  {
    NormalizedStaysInside(lib.nfkc, e.name);
    ZipReports(lib, m, tree, e.content.bytes, depth + 1, above + [NormalizedName(lib, e.name).value]);
    ArchiveEntryReport(lib, m, tree, e, seen, depth, above);
  }

  lemma PlainEntryReport(lib: Lib, m: Mode, tree: Teller, e: Entry, seen: set<string>, depth: nat, above: seq<string>)
    requires AllClean(above) && depth <= m.limits.maxDepth && SoundEntry(m.limits, e) && !IsArchive(lib, Inside(e))
    requires IsTold(lib, m, tree) && NoFail(EntryEffects(lib, m, e, seen, depth, Slashed(above)))
    requires NormalizedName(lib, e.name).Some? && NormalizedName(lib, e.name).value !in seen
    ensures EntryEffects(lib, m, e, seen, depth, Slashed(above))
         == tree(Spot(Inside(e), above, depth + 1), m.limits.maxDepth - depth)
  {
    SoundEntryEffects(lib, m, e, seen, depth, above);
    PlainReport(lib, m, tree, EntryEffects(lib, m, e, seen, depth, Slashed(above)),
                Spot(Inside(e), above, depth + 1), m.limits.maxDepth - depth);
  }

  lemma WalkedEntryIsSound(lib: Lib, m: Mode, e: Entry, seen: set<string>, depth: nat, above: seq<string>)
    requires AllClean(above) && depth <= m.limits.maxDepth
    requires NoFail(EntryEffects(lib, m, e, seen, depth, Slashed(above)))
    ensures NormalizedName(lib, e.name).Some? && NormalizedName(lib, e.name).value !in seen && SoundEntry(m.limits, e)
    ensures IsArchive(lib, Inside(e)) ==>
              NoFail(ZipEffects(lib, m, e.content.bytes, depth + 1,
                                Slashed(above + [NormalizedName(lib, e.name).value])))
  {
    if NormalizedName(lib, e.name).None? || NormalizedName(lib, e.name).value in seen || !SoundEntry(m.limits, e) {
      UnsoundEntryFails(lib, m, e, seen, depth, above);
    } else if IsArchive(lib, Inside(e)) {
      var path := Slashed(above + [NormalizedName(lib, e.name).value]);
      SoundEntryEffects(lib, m, e, seen, depth, above);
      NoFailConcat([Member(e.fileSize, Some(path))], ZipEffects(lib, m, e.content.bytes, depth + 1, path));
    }
  }

  lemma PlainReport(lib: Lib, m: Mode, tree: Teller, effects: seq<Effect>, s: Spot, levels: nat)
    requires IsTold(lib, m, tree) && s.node.Inside? && SoundEntry(m.limits, s.node.entry) && !IsArchive(lib, s.node)
    requires NormalizedName(lib, s.node.entry.name).Some? && NoFail(effects)
    requires effects == PlainEffects(lib, m, s.node.entry, Slashed(s.above + OwnName(lib, s.node)))
    ensures effects == tree(s, levels)
  {
    ToldAt(lib, m, tree, s, levels);
    assert SpotsBelow(lib, s) == [];
    var path := Slashed(s.above + OwnName(lib, s.node));
    assert path + "" == path;
    if |effects| == 2 {
      assert !effects[1].Fail?;
    }
  }

  lemma ArchiveEntryReport(lib: Lib, m: Mode, tree: Teller, e: Entry, seen: set<string>, depth: nat, above: seq<string>)
    requires AllClean(above) && depth < m.limits.maxDepth && SoundEntry(m.limits, e) && IsArchive(lib, Inside(e))
    requires IsTold(lib, m, tree)
    requires NormalizedName(lib, e.name).Some? && NormalizedName(lib, e.name).value !in seen
    requires lib.parse(e.content.bytes).Some?
    requires
      var below := above + [NormalizedName(lib, e.name).value];
      ZipEffects(lib, m, e.content.bytes, depth + 1, Slashed(below))
        == Reports(tree, Listed(lib.parse(e.content.bytes).value, below, depth + 1), m.limits.maxDepth - (depth + 1))
    ensures EntryEffects(lib, m, e, seen, depth, Slashed(above))
         == tree(Spot(Inside(e), above, depth + 1), m.limits.maxDepth - depth)
  {
    SoundEntryEffects(lib, m, e, seen, depth, above);
    ArchiveReport(lib, m, tree, Spot(Inside(e), above, depth + 1), m.limits.maxDepth - depth);
  }

  lemma ArchiveReport(lib: Lib, m: Mode, tree: Teller, s: Spot, levels: nat)
    requires IsTold(lib, m, tree) && s.node.Inside? && IsArchive(lib, s.node) && levels > 0
    requires lib.parse(s.node.entry.content.bytes).Some?
    ensures
      var names := s.above + [NormalizedName(lib, s.node.entry.name).value];
      tree(s, levels)
        == [Member(s.node.entry.fileSize, Some(Slashed(names)))]
           + Reports(tree, Listed(lib.parse(s.node.entry.content.bytes).value, names, s.depth), levels - 1)
  {
    var names := s.above + [NormalizedName(lib, s.node.entry.name).value];
    ToldAt(lib, m, tree, s, levels);
    assert OwnName(lib, s.node) == [NormalizedName(lib, s.node.entry.name).value];
    assert Slashed(names) + "" == Slashed(names);
    assert Report(lib, m, s) == [Member(s.node.entry.fileSize, Some(Slashed(names)))];
  }

  lemma {:induction false} ChildrenReport(lib: Lib, m: Mode, tree: Teller, children: seq<Child>)
    requires IsTold(lib, m, tree) && CleanPaths(Directory(children)) && NoFail(ChildrenEffects(lib, m, children))
    ensures ChildrenEffects(lib, m, children) == Reports(tree, Children(children), m.limits.maxDepth)
  {
    if children != [] {
      var front, c := children[..|children| - 1], children[|children| - 1];
      assert children == front + [c];
      ChildrenWalked(lib, m, front, c);
      ChildrenReport(lib, m, tree, front);
      ChildReport(lib, m, tree, c);
      ChildrenJoin(lib, m, tree, front, c);
    }
  }

  lemma ChildrenWalked(lib: Lib, m: Mode, front: seq<Child>, c: Child)
    requires CleanPaths(Directory(front + [c])) && NoFail(ChildrenEffects(lib, m, front + [c]))
    ensures CleanPaths(Directory(front)) && Clean(c.path)
    ensures NoFail(ChildrenEffects(lib, m, front)) && NoFail(ChildEffects(lib, m, c))
  {
    var children := front + [c];
    assert children[..|front|] == front && children[|front|] == c;
    assert forall i :: 0 <= i < |front| ==> children[i] == front[i];
    NoFailConcat(ChildrenEffects(lib, m, front), ChildEffects(lib, m, c));
  }

  lemma ChildrenJoin(lib: Lib, m: Mode, tree: Teller, front: seq<Child>, c: Child)
    requires ChildrenEffects(lib, m, front) == Reports(tree, Children(front), m.limits.maxDepth)
    requires ChildEffects(lib, m, c) == tree(Spot(Below(c), [], 1), m.limits.maxDepth)
    ensures ChildrenEffects(lib, m, front + [c]) == Reports(tree, Children(front + [c]), m.limits.maxDepth)
  {
    assert (front + [c])[..|front|] == front;
    ReportsStep(tree, Children(front), Spot(Below(c), [], 1), m.limits.maxDepth);
    assert Children(front + [c]) == Children(front) + [Spot(Below(c), [], 1)];
  }

  lemma ChildReport(lib: Lib, m: Mode, tree: Teller, c: Child)
    requires IsTold(lib, m, tree) && Clean(c.path) && NoFail(ChildEffects(lib, m, c))
    ensures ChildEffects(lib, m, c) == tree(Spot(Below(c), [], 1), m.limits.maxDepth)
  {
    var s := Spot(Below(c), [], 1);
    ChildPath(lib, c);
    if IsArchiveChild(lib, m.limits, c) {
      var head := [ArchiveHead(|c.bytes|, c.path, m.strict)];
      NoFailConcat(head, ZipEffects(lib, m, c.bytes, 1, c.path));
      ZipReports(lib, m, tree, c.bytes, 1, [c.path]);
      ToldAt(lib, m, tree, s, m.limits.maxDepth);
      assert Report(lib, m, s) == head;
    } else {
      PlainChildReport(lib, m, tree, c);
    }
  }

  lemma ChildPath(lib: Lib, c: Child)
    ensures [] + OwnName(lib, Below(c)) == [c.path] && Slashed([c.path]) == c.path
    ensures PathOf(lib, Spot(Below(c), [], 1)) == c.path + if c.DirectoryChild? then "/" else ""
    ensures !c.DirectoryChild? ==> PathOf(lib, Spot(Below(c), [], 1)) == c.path
  {
    assert [] + [c.path] == [c.path] && c.path + "" == c.path;
  }

  lemma PlainChildReport(lib: Lib, m: Mode, tree: Teller, c: Child)
    requires IsTold(lib, m, tree) && !IsArchiveChild(lib, m.limits, c) && NoFail(ChildEffects(lib, m, c))
    ensures ChildEffects(lib, m, c) == tree(Spot(Below(c), [], 1), m.limits.maxDepth)
  {
    var s, effects := Spot(Below(c), [], 1), ChildEffects(lib, m, c);
    ChildPath(lib, c);
    ToldAt(lib, m, tree, s, m.limits.maxDepth);
    if |effects| == 1 {
      assert !effects[0].Fail?;
    } else if |effects| == 2 {
      assert !effects[1].Fail?;
    }
    assert SpotsBelow(lib, s) == [];
  }

  lemma FileReport(lib: Lib, m: Mode, tree: Teller, name: string, bytes: Bytes)
    requires IsTold(lib, m, tree) && NoFail(FileEffects(lib, m, name, bytes))
    ensures FileEffects(lib, m, name, bytes) == tree(Start(File(name, bytes)), m.limits.maxDepth)
  {
    var s, effects := Start(File(name, bytes)), FileEffects(lib, m, name, bytes);
    if |effects| == 1 {
      assert !effects[0].Fail?;
    }
    if IsArchive(lib, s.node) {
      var head := if m.strict then [Member(|bytes|, None)] else [];
      NoFailConcat(head, ZipEffects(lib, m, bytes, 1, ""));
      ZipReports(lib, m, tree, bytes, 1, []);
      ToldAt(lib, m, tree, s, m.limits.maxDepth);
      assert s.above + OwnName(lib, s.node) == [];
    } else {
      PlainFileReport(lib, m, tree, name, bytes);
    }
  }

  lemma PlainFileReport(lib: Lib, m: Mode, tree: Teller, name: string, bytes: Bytes)
    requires IsTold(lib, m, tree)
    requires NoFail(FileEffects(lib, m, name, bytes)) && !IsArchive(lib, Root(File(name, bytes)))
    ensures FileEffects(lib, m, name, bytes) == tree(Start(File(name, bytes)), m.limits.maxDepth)
  {
    var s, effects := Start(File(name, bytes)), FileEffects(lib, m, name, bytes);
    ToldAt(lib, m, tree, s, m.limits.maxDepth);
    assert !effects[0].Fail?;
    if |effects| == 2 {
      assert !effects[1].Fail?;
    }
    assert SpotsBelow(lib, s) == [];
  }

  /** How far down there can be sound spots. */
  function Rank(l: Limits, s: Spot): nat
  {
    if s.node.Root? && s.node.attachment.Directory? then l.maxDepth + 1
    else if s.depth <= l.maxDepth then l.maxDepth + 1 - s.depth
    else 0
  }

  function Ranking(l: Limits): Spot -> nat { s => Rank(l, s) }

  lemma RankFalls(lib: Lib, m: Mode)
    ensures Falls(Tree(lib), Sounds(lib, m), Ranking(m.limits))
  {
    forall s, i | Sound(lib, m, s) && 0 <= i < |SpotsBelow(lib, s)|
      ensures Rank(m.limits, SpotsBelow(lib, s)[i]) < Rank(m.limits, s)
    {
    }
  }

  /** A walk without failures is what is reported from the attachment on. */
  lemma WalkIsReport(lib: Lib, m: Mode, tree: Teller, a: Attachment)
    requires IsTold(lib, m, tree) && CleanPaths(a) && NoFail(Effects(lib, m, a))
    ensures Effects(lib, m, a) == tree(Start(a), Rank(m.limits, Start(a)))
  {
    match a {
      case Directory(children) =>
        ChildrenReport(lib, m, tree, children);
        ToldAt(lib, m, tree, Start(a), m.limits.maxDepth + 1);
      case File(name, bytes) => FileReport(lib, m, tree, name, bytes);
    }
  }
}
