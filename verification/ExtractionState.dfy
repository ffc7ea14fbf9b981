/** The extraction accumulator as an object that the recursive walk updates in
    place. Every method either raises or leaves exactly the accumulator that the
    effects of module Extraction describe; after a raise the object is dropped. */
module ExtractionState {
  import opened Prelude
  import opened Walks
  import opened Extraction

  class State {
    const lib: Lib
    const mode: Mode
    var chunks: seq<string>
    var paths: seq<string>
    var pathSet: set<string>
    var inventoryMembers: nat
    var expandedBytes: nat
    var extractedCharacters: nat

    /** The path set mirrors the path list. */
    ghost predicate Valid()
      reads this
    {
      pathSet == set p | p in paths
    }

    ghost function View(): Acc
      reads this
    {
      Acc(chunks, paths, inventoryMembers, expandedBytes, extractedCharacters)
    }

    /** The object holds what the outcome says, if it is not a failure. */
    ghost predicate Holds(outcome: Outcome, raised: Option<Failure>)
      reads this
    {
      match outcome
      case Ok(acc) => raised.None? && Valid() && View() == acc
      case Raised(failure) => raised == Some(failure)
    }

    constructor (lib: Lib, mode: Mode)
      ensures this.lib == lib && this.mode == mode && Valid() && View() == EMPTY
    {
      this.lib, this.mode := lib, mode;
      chunks, paths, pathSet, inventoryMembers, expandedBytes, extractedCharacters := [], [], {}, 0, 0, 0;
    }

    method AddPath(path: string) returns (raised: Option<Failure>)
      requires Valid()
      modifies this
      ensures Holds(Extraction.AddPath(old(View()), path), raised)
    {
      if path in pathSet { return Some(Blocked(ContentUnscannable, NoReason)); }
      pathSet := pathSet + {path};
      paths := paths + [path];
      raised := None;
    }

    method AddMember(size: nat, path: Option<string>) returns (raised: Option<Failure>)
      requires Valid()
      modifies this
      ensures Holds(Apply(mode.limits, old(View()), Member(size, path)), raised)
    {
      inventoryMembers := inventoryMembers + 1;
      if inventoryMembers > mode.limits.maxMembers { return Some(Blocked(ScanLimitExceeded, NoReason)); }
      expandedBytes := expandedBytes + size;
      if expandedBytes > mode.limits.maxExpandedBytes { return Some(Blocked(ScanLimitExceeded, NoReason)); }
      raised := None;
      if path.Some? {
        raised := AddPath(path.value);
      }
    }

    method AddText(text: Option<string>) returns (raised: Option<Failure>)
      requires Valid()
      modifies this
      ensures Holds(ApplyAll(Applying(mode.limits), old(View()), TextEffects(text)), raised)
    {
      ApplySingles(mode.limits);
      if text.None? { return Some(Blocked(ContentUnscannable, NoReason)); }
      var observed := extractedCharacters + |text.value|;
      if observed > mode.limits.maxCharacters { return Some(Blocked(ScanLimitExceeded, NoReason)); }
      extractedCharacters := observed;
      chunks := chunks + [text.value];
      raised := None;
    }

    /** `_scan_zip_bytes`. */
    method ScanZip(data: Bytes, depth: nat, prefix: string) returns (raised: Option<Failure>)
      requires Valid()
      modifies this
      ensures Holds(ApplyAll(Applying(mode.limits), old(View()), ZipEffects(lib, mode, data, depth, prefix)), raised)
      decreases Remaining(mode, depth), 1, 0
    {
      ApplySingles(mode.limits);
      if depth > mode.limits.maxDepth { return Some(Blocked(ScanLimitExceeded, NoReason)); }
      var archive := lib.parse(data);
      if archive.None? { return Some(Blocked(ContentUnscannable, ContainerTruncated)); }
      raised := ScanEntries(archive.value, depth, prefix);
    }

    /** The loop over the listing, with its own set of names seen. */
    method ScanEntries(entries: seq<Entry>, depth: nat, prefix: string) returns (raised: Option<Failure>)
      requires Valid() && depth <= mode.limits.maxDepth
      modifies this
      ensures Holds(ApplyAll(Applying(mode.limits), old(View()), EntriesEffects(lib, mode, entries, depth, prefix)),
                    raised)
      decreases Remaining(mode, depth), 0, |entries| + 1
    {
      ghost var start := View();
      var seen: set<string> := {};
      for i := 0 to |entries|
        invariant Valid() && seen == Seen(lib, entries[..i])
        invariant Progress(lib, mode, start, entries, i, depth, prefix) == Ok(View())
      {
        ProgressStep(lib, mode, start, entries, i, depth, prefix);
        NamesStep(NameOf(lib), entries, i);
        raised := ScanEntry(entries[i], seen, depth, prefix);
        if raised.Some? {
          RaiseIsFinal(lib, mode, start, entries, i + 1, depth, prefix);
          return;
        }
        var normalized := NormalizedName(lib, entries[i].name);
        if normalized.Some? {
          seen := seen + {normalized.value};
        }
      }
      assert entries[..|entries|] == entries;
      raised := None;
    }

    /** The loop body: one archive entry. */
    method ScanEntry(e: Entry, seen: set<string>, depth: nat, prefix: string) returns (raised: Option<Failure>)
      requires Valid() && depth <= mode.limits.maxDepth
      modifies this
      ensures Holds(ApplyAll(Applying(mode.limits), old(View()), EntryEffects(lib, mode, e, seen, depth, prefix)),
                    raised)
      decreases Remaining(mode, depth), 0, 0
    {
      ApplySingles(mode.limits);
      var name := NormalizedName(lib, e.name);
      if name.None? { return Some(Blocked(OutputPathViolation, NoReason)); }
      var path := LogicalPath(prefix, name.value);
      if name.value in seen { return Some(Blocked(ContentUnscannable, NoReason)); }
      if e.encrypted { return Some(Blocked(ContentUnscannable, ContainerEncrypted)); }
      if e.symlink { return Some(Blocked(SymlinkUnsupported, NoReason)); }
      if e.isDir {
        raised := AddMember(0, Some(path + "/"));
        return;
      }
      ghost var effects := EntryEffects(lib, mode, e, seen, depth, prefix);
      ghost var head := [Member(e.fileSize, Some(path))];
      assert effects == head + effects[1..];
      ApplyAllConcat(Applying(mode.limits), old(View()), head, effects[1..]);
      raised := AddMember(e.fileSize, Some(path));
      if raised.Some? { return; }
      if e.fileSize > mode.limits.maxFileBytes { return Some(Blocked(ScanLimitExceeded, NoReason)); }
      var ratio := e.fileSize * 1000 / (if e.compressSize > 1 then e.compressSize else 1);
      if ratio > mode.limits.maxRatioMilli { return Some(Blocked(ScanLimitExceeded, NoReason)); }
      match e.content {
        case ReadEncrypted => raised := Some(Blocked(ContentUnscannable, ContainerEncrypted));
        case ReadTruncated => raised := Some(Blocked(ContentUnscannable, ContainerTruncated));
        case Content(bytes) =>
          if lib.kind(name.value) == Document {
            raised := AddText(lib.decode(bytes, name.value));
          } else if lib.kind(name.value) == Zip || lib.isZip(bytes) {
            raised := ScanZip(bytes, depth + 1, path);
          } else if mode.strict {
            raised := Some(Unsupported(ContainerUnsupported));
          }
      }
    }
  }

  /** `_extract_directory`: one path below the directory. */
  method ExtractChild(s: State, c: Child) returns (raised: Option<Failure>)
    requires s.Valid()
    modifies s
    ensures s.Holds(ApplyAll(Applying(s.mode.limits), old(s.View()), ChildEffects(s.lib, s.mode, c)), raised)
  {
    ApplySingles(s.mode.limits);
    match c
    case SymlinkChild(_) => raised := Some(Blocked(SymlinkUnsupported, NoReason));
    case DirectoryChild(path) => raised := s.AddMember(0, Some(path + "/"));
    case SpecialChild(_) => raised := Some(Blocked(ContentUnscannable, NoReason));
    case FileChild(path, bytes) =>
      if |bytes| > s.mode.limits.maxFileBytes { return Some(Blocked(ScanLimitExceeded, NoReason)); }
      if s.lib.kind(path) == OtherContainer { return Some(Unsupported(ContainerUnsupported)); }
      ghost var effects := ChildEffects(s.lib, s.mode, c);
      if s.lib.kind(path) == Document {
        ApplyAllConcat(Applying(s.mode.limits), s.View(), [effects[0]], effects[1..]);
        assert effects == [effects[0]] + effects[1..];
        raised := s.AddMember(|bytes|, Some(path));
        if raised.Some? { return; }
        raised := s.AddText(s.lib.extractFile(bytes, path, s.mode.limits.maxCharacters + 1));
      } else if s.lib.kind(path) == Zip || s.lib.isZip(bytes) {
        ApplyAllConcat(Applying(s.mode.limits), s.View(), [effects[0]], effects[1..]);
        assert effects == [effects[0]] + effects[1..];
        if s.mode.strict {
          raised := s.AddMember(|bytes|, Some(path));
        } else {
          raised := s.AddPath(path);
        }
        if raised.Some? { return; }
        raised := s.ScanZip(bytes, 1, path);
      } else if s.mode.strict {
        raised := Some(Unsupported(ContainerUnsupported));
      } else {
        raised := None;
      }
  }

  method ExtractDirectory(s: State, children: seq<Child>) returns (raised: Option<Failure>)
    requires s.Valid()
    modifies s
    ensures s.Holds(ApplyAll(Applying(s.mode.limits), old(s.View()), ChildrenEffects(s.lib, s.mode, children)), raised)
  {
    ghost var start := s.View();
    for i := 0 to |children|
      invariant s.Valid()
      invariant ApplyAll(Applying(s.mode.limits), start, ChildrenEffects(s.lib, s.mode, children[..i])) == Ok(s.View())
    {
      ChildrenStep(s.lib, s.mode, start, children, i);
      raised := ExtractChild(s, children[i]);
      if raised.Some? {
        ChildRaiseIsFinal(s.lib, s.mode, start, children, i + 1);
        return;
      }
    }
    assert children[..|children|] == children;
    raised := None;
  }

  /** `extract_attachment_text_projections` with a fresh accumulator. */
  method ExtractTextProjections(lib: Lib, mode: Mode, a: Attachment) returns (outcome: Outcome)
    ensures outcome == Extract(lib, mode, a)
  {
    var s := new State(lib, mode);
    var raised: Option<Failure> := None;
    ApplySingles(mode.limits);
    match a {
      case Directory(children) =>
        raised := ExtractDirectory(s, children);
      case File(name, bytes) =>
        ghost var effects := FileEffects(lib, mode, name, bytes);
        if |bytes| > mode.limits.maxFileBytes { return Raised(Blocked(ScanLimitExceeded, NoReason)); }
        if lib.kind(name) == OtherContainer { return Raised(Unsupported(ContainerUnsupported)); }
        if lib.kind(name) == Document {
          ApplyAllConcat(Applying(mode.limits), EMPTY, [effects[0]], effects[1..]);
          assert effects == [effects[0]] + effects[1..];
          raised := s.AddMember(|bytes|, None);
          if raised.Some? { return Raised(raised.value); }
          raised := s.AddText(lib.extractFile(bytes, name, mode.limits.maxCharacters + 1));
        } else if lib.kind(name) == Zip || lib.isZip(bytes) {
          ghost var head := if mode.strict then [Member(|bytes|, None)] else [];
          ApplyAllConcat(Applying(mode.limits), EMPTY, head, ZipEffects(lib, mode, bytes, 1, ""));
          if mode.strict {
            raised := s.AddMember(|bytes|, None);
            if raised.Some? { return Raised(raised.value); }
          }
          raised := s.ScanZip(bytes, 1, "");
        } else {
          return Raised(Unsupported(MediaUnsupported));
        }
    }
    if raised.Some? { return Raised(raised.value); }
    outcome := Ok(Acc(s.chunks, s.paths, s.inventoryMembers, s.expandedBytes, s.extractedCharacters));
  }

  lemma ChildrenStep(lib: Lib, m: Mode, a: Acc, children: seq<Child>, n: nat)
    requires n < |children|
    ensures
      var before := ApplyAll(Applying(m.limits), a, ChildrenEffects(lib, m, children[..n]));
      ApplyAll(Applying(m.limits), a, ChildrenEffects(lib, m, children[..n + 1]))
        == if before.Raised? then before
           else ApplyAll(Applying(m.limits), before.acc, ChildEffects(lib, m, children[n]))
  {
    assert children[..n + 1][..n] == children[..n];
    ApplyAllConcat(Applying(m.limits), a, ChildrenEffects(lib, m, children[..n]), ChildEffects(lib, m, children[n]));
  }

  lemma {:induction false} ChildRaiseIsFinal(lib: Lib, m: Mode, a: Acc, children: seq<Child>, n: nat)
    requires n <= |children|
    requires ApplyAll(Applying(m.limits), a, ChildrenEffects(lib, m, children[..n])).Raised?
    ensures ApplyAll(Applying(m.limits), a, ChildrenEffects(lib, m, children))
         == ApplyAll(Applying(m.limits), a, ChildrenEffects(lib, m, children[..n]))
    decreases |children| - n
  {
    if n == |children| {
      assert children[..n] == children;
    } else {
      ChildrenStep(lib, m, a, children, n);
      ChildRaiseIsFinal(lib, m, a, children, n + 1);
    }
  }

  /** The outcome after the first `n` entries. */
  ghost function Progress(lib: Lib, m: Mode, a: Acc, entries: seq<Entry>, n: nat, depth: nat, prefix: string): Outcome
    requires n <= |entries| && depth <= m.limits.maxDepth
  {
    ApplyAll(Applying(m.limits), a, EntriesEffects(lib, m, entries[..n], depth, prefix))
  }

  lemma ProgressStep(lib: Lib, m: Mode, a: Acc, entries: seq<Entry>, n: nat, depth: nat, prefix: string)
    requires n < |entries| && depth <= m.limits.maxDepth
    ensures
      var before := Progress(lib, m, a, entries, n, depth, prefix);
      Progress(lib, m, a, entries, n + 1, depth, prefix)
        == if before.Raised? then before
           else ApplyAll(Applying(m.limits), before.acc,
                         EntryEffects(lib, m, entries[n], Seen(lib, entries[..n]), depth, prefix))
  {
    assert entries[..n + 1][..n] == entries[..n];
    ApplyAllConcat(Applying(m.limits), a, EntriesEffects(lib, m, entries[..n], depth, prefix),
                   EntryEffects(lib, m, entries[n], Seen(lib, entries[..n]), depth, prefix));
  }

  /** Once the entries so far raise, so do all of them. */
  lemma {:induction false} RaiseIsFinal(lib: Lib, m: Mode, a: Acc, entries: seq<Entry>, n: nat, depth: nat,
                                        prefix: string)
    requires n <= |entries| && depth <= m.limits.maxDepth
    requires Progress(lib, m, a, entries, n, depth, prefix).Raised?
    ensures ApplyAll(Applying(m.limits), a, EntriesEffects(lib, m, entries, depth, prefix))
         == Progress(lib, m, a, entries, n, depth, prefix)
    decreases |entries| - n
  {
    if n == |entries| {
      assert entries[..n] == entries;
    } else {
      ProgressStep(lib, m, a, entries, n, depth, prefix);
      RaiseIsFinal(lib, m, a, entries, n + 1, depth, prefix);
    }
  }
}
