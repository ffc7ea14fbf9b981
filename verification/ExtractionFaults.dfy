/** Why an extraction fails, said of the attachment's own tree: a failure that names a
    reason has that reason somewhere among the spots that chains lead to. */
module ExtractionFaults {
  import opened Prelude
  import opened Walks
  import opened Extraction
  import opened Chains
  import opened ExtractionReach

  const ENCRYPTED := Blocked(ContentUnscannable, ContainerEncrypted)
  const TRUNCATED := Blocked(ContentUnscannable, ContainerTruncated)

  /** The node itself is a reason for the failure. */
  predicate Causes(lib: Lib, m: Mode, n: Node, f: Failure)
  {
    if f == ENCRYPTED then
      n.Inside? && (n.entry.encrypted || n.entry.content.ReadEncrypted?)
    else if f == TRUNCATED then
      || (n.Inside? && n.entry.content.ReadTruncated?)
      || (IsArchive(lib, n) && lib.parse(FileAt(lib, n).value.1).None?)
    else if f == Blocked(SymlinkUnsupported, NoReason) then
      (n.Inside? && n.entry.symlink) || (n.Below? && n.child.SymlinkChild?)
    else if f == Blocked(OutputPathViolation, NoReason) then
      n.Inside? && NormalizedName(lib, n.entry.name).None?
    else if f == Unsupported(ContainerUnsupported) then
      && FileAt(lib, n).Some?
      && (if !n.Inside? && lib.kind(FileAt(lib, n).value.0) == OtherContainer then true
          else !n.Root? && m.strict && !IsDocument(lib, n) && !IsArchive(lib, n))
    else if f == Unsupported(MediaUnsupported) then
      n.Root? && n.attachment.File? && !IsDocument(lib, n) && !IsArchive(lib, n)
    else false
  }

  /** The two failures that also stand for totals, sizes and unreadable or repeated things. */
  predicate Unspecific(f: Failure)
  {
    f == Blocked(ScanLimitExceeded, NoReason) || f == Blocked(ContentUnscannable, NoReason)
  }

  // ------------------------------------------------------------------ the walk

  /** Closed under going up: a spot with a cause below it has a cause. */
  ghost predicate Traces(lib: Lib, m: Mode, f: Failure, caused: Judge)
  {
    forall s :: TracesAt(lib, m, f, caused, s)
  }

  ghost predicate TracesAt(lib: Lib, m: Mode, f: Failure, caused: Judge, s: Spot)
  {
    && (Causes(lib, m, s.node, f) ==> caused(s))
    && ((exists i :: 0 <= i < |SpotsBelow(lib, s)| && caused(SpotsBelow(lib, s)[i])) ==> caused(s))
  }

  /** The archive cannot be read, or an entry has a cause. */
  ghost predicate ListingCaused(lib: Lib, f: Failure, caused: Judge, data: Bytes, above: seq<string>, depth: nat)
  {
    if lib.parse(data).None? then f == TRUNCATED else EntriesCaused(caused, lib.parse(data).value, above, depth)
  }

  ghost predicate EntriesCaused(caused: Judge, entries: seq<Entry>, above: seq<string>, depth: nat)
  {
    exists i :: 0 <= i < |entries| && caused(Spot(Inside(entries[i]), above, depth + 1))
  }

  lemma {:induction false} ZipCause(lib: Lib, m: Mode, f: Failure, caused: Judge, data: Bytes, depth: nat,
                                    prefix: string, above: seq<string>)
    requires Traces(lib, m, f, caused) && !Unspecific(f) && Fail(f) in ZipEffects(lib, m, data, depth, prefix)
    ensures ListingCaused(lib, f, caused, data, above, depth)
    decreases Remaining(m, depth), 1, 0
  {
    if depth <= m.limits.maxDepth && lib.parse(data).Some? {
      EntriesCause(lib, m, f, caused, lib.parse(data).value, depth, prefix, above);
    }
  }

  lemma {:induction false} EntriesCause(lib: Lib, m: Mode, f: Failure, caused: Judge, entries: seq<Entry>,
                                        depth: nat, prefix: string, above: seq<string>)
    requires depth <= m.limits.maxDepth && Traces(lib, m, f, caused) && !Unspecific(f)
    requires Fail(f) in EntriesEffects(lib, m, entries, depth, prefix)
    ensures EntriesCaused(caused, entries, above, depth)
    decreases Remaining(m, depth), 0, |entries|
  {
    var k := |entries| - 1;
    var front, e := entries[..k], entries[k];
    if Fail(f) in EntriesEffects(lib, m, front, depth, prefix) {
      EntriesCause(lib, m, f, caused, front, depth, prefix, above);
      var i :| 0 <= i < k && caused(Spot(Inside(front[i]), above, depth + 1));
      assert caused(Spot(Inside(entries[i]), above, depth + 1));
    } else {
      EntryCause(lib, m, f, caused, e, Seen(lib, front), depth, prefix, above);
      assert caused(Spot(Inside(entries[k]), above, depth + 1));
    }
  }

  lemma {:induction false} EntryCause(lib: Lib, m: Mode, f: Failure, caused: Judge, e: Entry, seen: set<string>,
                                      depth: nat, prefix: string, above: seq<string>)
    requires depth <= m.limits.maxDepth && Traces(lib, m, f, caused) && !Unspecific(f)
    requires Fail(f) in EntryEffects(lib, m, e, seen, depth, prefix)
    ensures caused(Spot(Inside(e), above, depth + 1))
    decreases Remaining(m, depth), 0, 0
  {
    var s := Spot(Inside(e), above, depth + 1);
    assert TracesAt(lib, m, f, caused, s);
    if !Causes(lib, m, Inside(e), f) {
      EntryPasses(lib, m, f, e, seen, depth, prefix);
      var path := LogicalPath(prefix, NormalizedName(lib, e.name).value);
      ZipCause(lib, m, f, caused, e.content.bytes, depth + 1, path, above + OwnName(lib, Inside(e)));
      CauseIsBelow(lib, m, f, caused, s);
    }
  }

  /** The walk stops at an entry before it counts it, or has nothing more to do with it. */
  predicate EndsEarly(lib: Lib, e: Entry, seen: set<string>)
  {
    || NormalizedName(lib, e.name).None? || NormalizedName(lib, e.name).value in seen
    || e.encrypted || e.symlink || e.isDir
  }

  lemma EarlyCause(lib: Lib, m: Mode, f: Failure, e: Entry, seen: set<string>, depth: nat, prefix: string)
    requires depth <= m.limits.maxDepth && !Unspecific(f) && EndsEarly(lib, e, seen)
    requires Fail(f) in EntryEffects(lib, m, e, seen, depth, prefix)
    ensures Causes(lib, m, Inside(e), f)
  {
    assert |EntryEffects(lib, m, e, seen, depth, prefix)| == 1;
    assert EntryEffects(lib, m, e, seen, depth, prefix)[0] == Fail(f);
  }

  /** What the walk can ask for at a file entry, once it is counted. */
  ghost predicate IsTail(lib: Lib, m: Mode, e: Entry, tail: seq<Effect>, depth: nat, path: string)
    requires NormalizedName(lib, e.name).Some? && !e.isDir
  {
    || tail == [Fail(Blocked(ScanLimitExceeded, NoReason))]
    || tail == match e.content
         case ReadEncrypted => [Fail(ENCRYPTED)]
         case ReadTruncated => [Fail(TRUNCATED)]
         case Content(bytes) =>
           if IsDocument(lib, Inside(e)) then TextEffects(lib.decode(bytes, NormalizedName(lib, e.name).value))
           else if IsArchive(lib, Inside(e)) then ZipEffects(lib, m, bytes, depth + 1, path)
           else if m.strict then [Fail(Unsupported(ContainerUnsupported))]
           else []
  }

  lemma FileEntryEffects(lib: Lib, m: Mode, e: Entry, seen: set<string>, depth: nat, prefix: string)
    requires depth <= m.limits.maxDepth && !EndsEarly(lib, e, seen)
    ensures
      var effects := EntryEffects(lib, m, e, seen, depth, prefix);
      var path := LogicalPath(prefix, NormalizedName(lib, e.name).value);
      && effects != [] && effects[0] == Member(e.fileSize, Some(path)) && effects == [effects[0]] + effects[1..]
      && IsTail(lib, m, e, effects[1..], depth, path)
  {
  }

  /** An entry that is no cause itself hands the failure up from its own archive. */
  lemma EntryPasses(lib: Lib, m: Mode, f: Failure, e: Entry, seen: set<string>, depth: nat, prefix: string)
    requires depth <= m.limits.maxDepth && !Unspecific(f) && !Causes(lib, m, Inside(e), f)
    requires Fail(f) in EntryEffects(lib, m, e, seen, depth, prefix)
    ensures IsArchive(lib, Inside(e))
    ensures Fail(f) in ZipEffects(lib, m, e.content.bytes, depth + 1,
                                  LogicalPath(prefix, NormalizedName(lib, e.name).value))
  {
    if EndsEarly(lib, e, seen) { EarlyCause(lib, m, f, e, seen, depth, prefix); }
    FileEntryEffects(lib, m, e, seen, depth, prefix);
    TailPasses(lib, m, f, e, EntryEffects(lib, m, e, seen, depth, prefix)[1..], depth,
               LogicalPath(prefix, NormalizedName(lib, e.name).value));
  }

  lemma TailPasses(lib: Lib, m: Mode, f: Failure, e: Entry, tail: seq<Effect>, depth: nat, path: string)
    requires !Unspecific(f) && !Causes(lib, m, Inside(e), f) && !e.isDir && NormalizedName(lib, e.name).Some?
    requires IsTail(lib, m, e, tail, depth, path) && Fail(f) in tail
    ensures IsArchive(lib, Inside(e)) && Fail(f) in ZipEffects(lib, m, e.content.bytes, depth + 1, path)
  {
  }

  lemma CauseIsBelow(lib: Lib, m: Mode, f: Failure, caused: Judge, s: Spot)
    requires IsArchive(lib, s.node) && TracesAt(lib, m, f, caused, s)
    requires ListingCaused(lib, f, caused, FileAt(lib, s.node).value.1, s.above + OwnName(lib, s.node), s.depth)
    ensures caused(s)
  {
    var data, above := FileAt(lib, s.node).value.1, s.above + OwnName(lib, s.node);
    if lib.parse(data).Some? {
      var entries := lib.parse(data).value;
      var i :| 0 <= i < |entries| && caused(Spot(Inside(entries[i]), above, s.depth + 1));
      assert SpotsBelow(lib, s)[i] == Spot(Inside(entries[i]), above, s.depth + 1);
    }
  }

  lemma ChildCause(lib: Lib, m: Mode, f: Failure, caused: Judge, c: Child)
    requires Traces(lib, m, f, caused) && !Unspecific(f) && Fail(f) in ChildEffects(lib, m, c)
    ensures caused(Spot(Below(c), [], 1))
  {
    var s := Spot(Below(c), [], 1);
    assert TracesAt(lib, m, f, caused, s);
    if !Causes(lib, m, Below(c), f) {
      ZipCause(lib, m, f, caused, c.bytes, 1, c.path, s.above + OwnName(lib, s.node));
      CauseIsBelow(lib, m, f, caused, s);
    }
  }

  lemma {:induction false} ChildrenCause(lib: Lib, m: Mode, f: Failure, caused: Judge, children: seq<Child>)
    requires Traces(lib, m, f, caused) && !Unspecific(f) && Fail(f) in ChildrenEffects(lib, m, children)
    ensures exists i :: 0 <= i < |children| && caused(Spot(Below(children[i]), [], 1))
  {
    var k := |children| - 1;
    if Fail(f) in ChildrenEffects(lib, m, children[..k]) {
      ChildrenCause(lib, m, f, caused, children[..k]);
      var i :| 0 <= i < k && caused(Spot(Below(children[..k][i]), [], 1));
      assert caused(Spot(Below(children[i]), [], 1));
    } else {
      ChildCause(lib, m, f, caused, children[k]);
    }
  }

  lemma FileCause(lib: Lib, m: Mode, f: Failure, caused: Judge, name: string, bytes: Bytes)
    requires Traces(lib, m, f, caused) && !Unspecific(f) && Fail(f) in FileEffects(lib, m, name, bytes)
    ensures caused(Start(File(name, bytes)))
  {
    var s := Start(File(name, bytes));
    assert TracesAt(lib, m, f, caused, s);
    if !Causes(lib, m, s.node, f) {
      ZipCause(lib, m, f, caused, bytes, 1, "", s.above + OwnName(lib, s.node));
      CauseIsBelow(lib, m, f, caused, s);
    }
  }

  lemma WalkCause(lib: Lib, m: Mode, f: Failure, caused: Judge, a: Attachment)
    requires Traces(lib, m, f, caused) && !Unspecific(f) && Fail(f) in Effects(lib, m, a)
    ensures caused(Start(a))
  {
    match a {
      case Directory(children) =>
        ChildrenCause(lib, m, f, caused, children);
        assert TracesAt(lib, m, f, caused, Start(a));
        var i :| 0 <= i < |children| && caused(Spot(Below(children[i]), [], 1));
        assert SpotsBelow(lib, Start(a))[i] == Spot(Below(children[i]), [], 1);
      case File(name, bytes) => FileCause(lib, m, f, caused, name, bytes);
    }
  }

  // ------------------------------------------------------------- the failure's cause

  /** Some chain leads to a spot that is a reason for the failure. */
  ghost predicate HasCause(lib: Lib, m: Mode, f: Failure, s: Spot)
  {
    exists c :: IsCauseAt(lib, m, f, s, c)
  }

  ghost predicate IsCauseAt(lib: Lib, m: Mode, f: Failure, s: Spot, c: Chain)
  {
    Leads(Tree(lib), s, c) && Causes(lib, m, NodeAt(Tree(lib), s, c).node, f)
  }

  ghost function Caused(lib: Lib, m: Mode, f: Failure): Judge { s => HasCause(lib, m, f, s) }

  lemma CausesTrace(lib: Lib, m: Mode, f: Failure, s: Spot)
    ensures TracesAt(lib, m, f, Caused(lib, m, f), s)
  {
    if Causes(lib, m, s.node, f) { assert IsCauseAt(lib, m, f, s, []); }
    if i :| 0 <= i < |SpotsBelow(lib, s)| && HasCause(lib, m, f, SpotsBelow(lib, s)[i]) {
      var c :| IsCauseAt(lib, m, f, SpotsBelow(lib, s)[i], c);
      assert ([i] + c)[1..] == c;
      assert IsCauseAt(lib, m, f, s, [i] + c);
    }
  }

  lemma {:induction false} RaisedIsAskedFor(l: Limits, effects: seq<Effect>, f: Failure)
    requires ApplyAll(Applying(l), EMPTY, effects) == Raised(f) && !Unspecific(f)
    ensures Fail(f) in effects
  {
    var k := |effects| - 1;
    if ApplyAll(Applying(l), EMPTY, effects[..k]).Raised? {
      RaisedIsAskedFor(l, effects[..k], f);
    }
  }

  /** An extraction that fails for encryption, truncation, a link, a bad name or an
      unsupported file does so because of a spot, at any depth, that is just that. */
  lemma FailureHasCause(lib: Lib, m: Mode, a: Attachment, f: Failure)
    requires Extract(lib, m, a) == Raised(f) && !Unspecific(f)
    ensures HasCause(lib, m, f, Start(a))
  {
    RaisedIsAskedFor(m.limits, Effects(lib, m, a), f);
    forall s ensures TracesAt(lib, m, f, Caused(lib, m, f), s) { CausesTrace(lib, m, f, s); }
    WalkCause(lib, m, f, Caused(lib, m, f), a);
  }
}
