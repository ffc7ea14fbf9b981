/** Bounded text extraction from files, directories and nested zip archives. The
    walk is described by the effects it asks for; limits decide how far they are
    applied to the accumulator. */
module Extraction {
  import opened Prelude
  import opened Walks
  import ArchivePaths

  type Bytes = seq<nat>

  datatype Code =
    | ScanLimitExceeded | ContentUnscannable | SymlinkUnsupported | OutputPathViolation
    | ContainerUnsupported | MediaUnsupported

  datatype Reason = NoReason | ContainerEncrypted | ContainerTruncated

  datatype Failure = Blocked(code: Code, reason: Reason) | Unsupported(code: Code)

  datatype Read = Content(bytes: Bytes) | ReadEncrypted | ReadTruncated

  /** An entry of an archive listing, in file name order. */
  datatype Entry = Entry(
    name: string, encrypted: bool, symlink: bool, isDir: bool, fileSize: nat, compressSize: nat, content: Read)

  datatype Kind = Document | Zip | OtherContainer | Unknown

  /** Foreign code: zip decoding, Unicode normalisation (NFKC), classification
      by suffix, and document text. Parsing is any function, so an archive may contain itself. */
  datatype Lib = Lib(
    parse: Bytes -> Option<seq<Entry>>,
    isZip: Bytes -> bool,
    nfkc: string -> string,
    kind: string -> Kind,
    decode: (Bytes, string) -> Option<string>,
    extractFile: (Bytes, string, nat) -> Option<string>)

  function NormalizedName(lib: Lib, name: string): Option<string> { ArchivePaths.NormalizedPath(lib.nfkc, name) }

  datatype Limits = Limits(
    maxFileBytes: nat, maxCharacters: nat, maxMembers: nat, maxDepth: nat, maxExpandedBytes: nat, maxRatioMilli: nat)

  datatype Mode = Mode(limits: Limits, strict: bool)

  // ------------------------------------------------------------------ effects

  /** One thing the walk does to the accumulator, or the failure it raises. */
  datatype Effect =
    | Member(size: nat, path: Option<string>)
    | PathOnly(logicalPath: string)
    | Text(text: string)
    | Fail(failure: Failure)

  function Halt(code: Code, reason: Reason := NoReason): seq<Effect> { [Fail(Blocked(code, reason))] }

  function LogicalPath(prefix: string, normalized: string): string
  {
    if prefix == "" then normalized else ArchivePaths.WithoutTrailingSlash(prefix) + "/" + normalized
  }

  function Remaining(m: Mode, depth: nat): nat
  {
    if depth <= m.limits.maxDepth then m.limits.maxDepth + 1 - depth else 0
  }

  /** The recursive walk over archive bytes. It ends because every nesting level
      uses up one of the remaining levels, whatever the bytes contain. */
  function ZipEffects(lib: Lib, m: Mode, data: Bytes, depth: nat, prefix: string): seq<Effect>
    decreases Remaining(m, depth), 1, 0
  {
    if depth > m.limits.maxDepth then Halt(ScanLimitExceeded)
    else if lib.parse(data).None? then Halt(ContentUnscannable, ContainerTruncated)
    else EntriesEffects(lib, m, lib.parse(data).value, depth, prefix)
  }

  /** The entries in order; an entry clashes with any earlier one. */
  function EntriesEffects(lib: Lib, m: Mode, entries: seq<Entry>, depth: nat, prefix: string): seq<Effect>
    requires depth <= m.limits.maxDepth
    decreases Remaining(m, depth), 0, |entries|
  {
    if entries == [] then []
    else
      var front := entries[..|entries| - 1];
      EntriesEffects(lib, m, front, depth, prefix)
        + EntryEffects(lib, m, entries[|entries| - 1], Seen(lib, front), depth, prefix)
  }

  function NameOf(lib: Lib): Entry -> Option<string> { (e: Entry) => NormalizedName(lib, e.name) }

  function Seen(lib: Lib, entries: seq<Entry>): set<string>
  {
    Names(NameOf(lib), entries)
  }

  function EntryEffects(lib: Lib, m: Mode, e: Entry, seen: set<string>, depth: nat, prefix: string): seq<Effect>
    requires depth <= m.limits.maxDepth
    decreases Remaining(m, depth), 0, 0
  {
    if NormalizedName(lib, e.name).None? then Halt(OutputPathViolation)
    else
      var normalized := NormalizedName(lib, e.name).value;
      var path := LogicalPath(prefix, normalized);
      if normalized in seen then Halt(ContentUnscannable)
      else if e.encrypted then Halt(ContentUnscannable, ContainerEncrypted)
      else if e.symlink then Halt(SymlinkUnsupported)
      else if e.isDir then [Member(0, Some(path + "/"))]
      else
        [Member(e.fileSize, Some(path))] +
        if e.fileSize > m.limits.maxFileBytes then Halt(ScanLimitExceeded)
        else if e.fileSize * 1000 / (if e.compressSize > 1 then e.compressSize else 1) > m.limits.maxRatioMilli then
          Halt(ScanLimitExceeded)
        else match e.content
          case ReadEncrypted => Halt(ContentUnscannable, ContainerEncrypted)
          case ReadTruncated => Halt(ContentUnscannable, ContainerTruncated)
          case Content(bytes) =>
            if lib.kind(normalized) == Document then
              TextEffects(lib.decode(bytes, normalized))
            else if lib.kind(normalized) == Zip || lib.isZip(bytes) then
              ZipEffects(lib, m, bytes, depth + 1, path)
            else if m.strict then [Fail(Unsupported(ContainerUnsupported))]
            else []
  }

  function TextEffects(text: Option<string>): seq<Effect>
  {
    if text.Some? then [Text(text.value)] else Halt(ContentUnscannable)
  }

  /** A path below an attachment directory, in path order. */
  datatype Child =
    | SymlinkChild(path: string)
    | DirectoryChild(path: string)
    | SpecialChild(path: string)
    | FileChild(path: string, bytes: Bytes)

  datatype Attachment = Directory(children: seq<Child>) | File(name: string, bytes: Bytes)

  function ArchiveHead(size: nat, path: string, strict: bool): Effect
  {
    if strict then Member(size, Some(path)) else PathOnly(path)
  }

  function ChildEffects(lib: Lib, m: Mode, c: Child): seq<Effect>
  {
    match c
    case SymlinkChild(_) => Halt(SymlinkUnsupported)
    case DirectoryChild(path) => [Member(0, Some(path + "/"))]
    case SpecialChild(_) => Halt(ContentUnscannable)
    case FileChild(path, bytes) =>
      if |bytes| > m.limits.maxFileBytes then Halt(ScanLimitExceeded)
      else if lib.kind(path) == OtherContainer then [Fail(Unsupported(ContainerUnsupported))]
      else if lib.kind(path) == Document then
        [Member(|bytes|, Some(path))] + TextEffects(lib.extractFile(bytes, path, m.limits.maxCharacters + 1))
      else if lib.kind(path) == Zip || lib.isZip(bytes) then
        [ArchiveHead(|bytes|, path, m.strict)] + ZipEffects(lib, m, bytes, 1, path)
      else if m.strict then [Fail(Unsupported(ContainerUnsupported))]
      else []
  }

  function ChildrenEffects(lib: Lib, m: Mode, children: seq<Child>): seq<Effect>
  {
    if children == [] then []
    else ChildrenEffects(lib, m, children[..|children| - 1]) + ChildEffects(lib, m, children[|children| - 1])
  }

  function FileEffects(lib: Lib, m: Mode, name: string, bytes: Bytes): seq<Effect>
  {
    if |bytes| > m.limits.maxFileBytes then Halt(ScanLimitExceeded)
    else if lib.kind(name) == OtherContainer then [Fail(Unsupported(ContainerUnsupported))]
    else if lib.kind(name) == Document then
      [Member(|bytes|, None)] + TextEffects(lib.extractFile(bytes, name, m.limits.maxCharacters + 1))
    else if lib.kind(name) == Zip || lib.isZip(bytes) then
      (if m.strict then [Member(|bytes|, None)] else []) + ZipEffects(lib, m, bytes, 1, "")
    else [Fail(Unsupported(MediaUnsupported))]
  }

  function Effects(lib: Lib, m: Mode, a: Attachment): seq<Effect>
  {
    match a
    case Directory(children) => ChildrenEffects(lib, m, children)
    case File(name, bytes) => FileEffects(lib, m, name, bytes)
  }

  // -------------------------------------------------------------- accumulator

  datatype Acc = Acc(chunks: seq<string>, paths: seq<string>, members: nat, bytes: nat, characters: nat)

  const EMPTY := Acc([], [], 0, 0, 0)

  type Outcome = Walks.Reached<Acc, Failure>

  function AddPath(a: Acc, path: string): Outcome
  {
    if path in a.paths then Raised(Blocked(ContentUnscannable, NoReason)) else Ok(a.(paths := a.paths + [path]))
  }

  function Apply(l: Limits, a: Acc, e: Effect): Outcome
  {
    match e
    case Member(size, path) =>
      if a.members + 1 > l.maxMembers || a.bytes + size > l.maxExpandedBytes then
        Raised(Blocked(ScanLimitExceeded, NoReason))
      else
        var counted := a.(members := a.members + 1, bytes := a.bytes + size);
        if path.None? then Ok(counted) else AddPath(counted, path.value)
    case PathOnly(path) => AddPath(a, path)
    case Text(text) =>
      if a.characters + |text| > l.maxCharacters then Raised(Blocked(ScanLimitExceeded, NoReason))
      else Ok(a.(chunks := a.chunks + [text], characters := a.characters + |text|))
    case Fail(failure) => Raised(failure)
  }

  function Applying(l: Limits): (Acc, Effect) -> Outcome { (a, e) => Apply(l, a, e) }

  /** `extract_attachment_text_projections`. */
  function Extract(lib: Lib, m: Mode, a: Attachment): Outcome
  {
    ApplyAll(Applying(m.limits), EMPTY, Effects(lib, m, a))
  }

  lemma ApplySingles(l: Limits)
    ensures forall a, e :: ApplyAll(Applying(l), a, [e]) == Apply(l, a, e)
  {
    forall a, e ensures ApplyAll(Applying(l), a, [e]) == Apply(l, a, e) {
      ApplySingle(Applying(l), a, e);
    }
  }

  // --------------------------------------------------------------- the flatten

  function Chunks(effects: seq<Effect>): seq<string>
  {
    if effects == [] then []
    else
      var e := effects[|effects| - 1];
      Chunks(effects[..|effects| - 1]) + if e.Text? then [e.text] else []
  }

  function Paths(effects: seq<Effect>): seq<string>
  {
    if effects == [] then []
    else
      var e := effects[|effects| - 1];
      Paths(effects[..|effects| - 1])
        + if e.PathOnly? then [e.logicalPath] else if e.Member? && e.path.Some? then [e.path.value] else []
  }

  function Members(effects: seq<Effect>): nat
  {
    if effects == [] then 0
    else Members(effects[..|effects| - 1]) + if effects[|effects| - 1].Member? then 1 else 0
  }

  function ExpandedBytes(effects: seq<Effect>): nat
  {
    if effects == [] then 0
    else
      var e := effects[|effects| - 1];
      ExpandedBytes(effects[..|effects| - 1]) + if e.Member? then e.size else 0
  }

  function TotalLength(texts: seq<string>): nat
  {
    if texts == [] then 0 else TotalLength(texts[..|texts| - 1]) + |texts[|texts| - 1]|
  }

  ghost predicate NoFail(effects: seq<Effect>)
  {
    forall i :: 0 <= i < |effects| ==> !effects[i].Fail?
  }

  /** No path comes twice, and the totals are within the limits. */
  ghost predicate Within(l: Limits, a: Acc)
  {
    && Distinct(a.paths)
    && a.members <= l.maxMembers && a.bytes <= l.maxExpandedBytes && a.characters <= l.maxCharacters
  }

  /** Nothing fails, and what is asked for is within the limits. */
  ghost predicate Fits(l: Limits, effects: seq<Effect>)
  {
    NoFail(effects) && Within(l, Flatten(effects))
  }

  function Flatten(effects: seq<Effect>): Acc
  {
    Acc(Chunks(effects), Paths(effects), Members(effects), ExpandedBytes(effects), TotalLength(Chunks(effects)))
  }

  /** What an effect adds. */
  function Extend(a: Acc, e: Effect): Acc
  {
    match e
    case Member(size, path) =>
      a.(members := a.members + 1, bytes := a.bytes + size,
         paths := if path.Some? then a.paths + [path.value] else a.paths)
    case PathOnly(path) => a.(paths := a.paths + [path])
    case Text(text) => a.(chunks := a.chunks + [text], characters := a.characters + |text|)
    case Fail(_) => a
  }

  lemma FlattenStep(effects: seq<Effect>)
    requires effects != []
    ensures Flatten(effects) == Extend(Flatten(effects[..|effects| - 1]), effects[|effects| - 1])
  {
    var front, e := effects[..|effects| - 1], effects[|effects| - 1];
    if e.Text? {
      assert (Chunks(front) + [e.text])[..|Chunks(front)|] == Chunks(front);
    }
    assert Chunks(front) + [] == Chunks(front) && Paths(front) + [] == Paths(front);
  }

  lemma ExtendWithinIff(l: Limits, a: Acc, e: Effect)
    ensures !e.Fail? && Within(l, Extend(a, e)) ==> Within(l, a) && Apply(l, a, e) == Ok(Extend(a, e))
    ensures Within(l, a) && Apply(l, a, e).Ok? ==> !e.Fail? && Within(l, Extend(a, e))
  {
    if e.PathOnly? { DistinctExtends(a.paths, e.logicalPath); }
    if e.Member? && e.path.Some? { DistinctExtends(a.paths, e.path.value); }
  }

  lemma NoFailExtends(effects: seq<Effect>)
    requires effects != []
    ensures NoFail(effects) <==> NoFail(effects[..|effects| - 1]) && !effects[|effects| - 1].Fail?
  {
    var front := effects[..|effects| - 1];
    assert forall i :: 0 <= i < |front| ==> front[i] == effects[i];
  }

  lemma FitsStep(l: Limits, effects: seq<Effect>)
    requires effects != []
    ensures
      var front, e := effects[..|effects| - 1], effects[|effects| - 1];
      Fits(l, effects) <==> Fits(l, front) && Apply(l, Flatten(front), e).Ok?
    ensures
      var front, e := effects[..|effects| - 1], effects[|effects| - 1];
      Fits(l, effects) ==> Apply(l, Flatten(front), e) == Ok(Flatten(effects))
  {
    NoFailExtends(effects);
    FlattenStep(effects);
    ExtendWithinIff(l, Flatten(effects[..|effects| - 1]), effects[|effects| - 1]);
  }

  /** The walk succeeds exactly when everything it asks for fits, and then its
      accumulator is the flatten of what it asked for: characters are the summed
      lengths of the chunks, paths are distinct, every total is within its limit. */
  lemma {:induction false} SucceedsIffFits(l: Limits, effects: seq<Effect>)
    ensures ApplyAll(Applying(l), EMPTY, effects).Ok? <==> Fits(l, effects)
    ensures Fits(l, effects) ==> ApplyAll(Applying(l), EMPTY, effects) == Ok(Flatten(effects))
  {
    if effects != [] {
      SucceedsIffFits(l, effects[..|effects| - 1]);
      FitsStep(l, effects);
    }
  }

  // ------------------------------------------------- raising limits, leniency

  /** Limits at least as wide (characters unchanged: that limit is also passed
      to the document extractor), and no stricter about unscannable members. */
  ghost predicate MorePermissive(m: Mode, wider: Mode)
  {
    && m.limits.maxFileBytes <= wider.limits.maxFileBytes
    && m.limits.maxCharacters == wider.limits.maxCharacters
    && m.limits.maxMembers <= wider.limits.maxMembers
    && m.limits.maxDepth <= wider.limits.maxDepth
    && m.limits.maxExpandedBytes <= wider.limits.maxExpandedBytes
    && m.limits.maxRatioMilli <= wider.limits.maxRatioMilli
    && (wider.strict ==> m.strict)
  }

  lemma NoFailConcat(a: seq<Effect>, b: seq<Effect>)
    ensures NoFail(a + b) <==> NoFail(a) && NoFail(b)
  {
    if NoFail(a + b) {
      forall i | 0 <= i < |a| ensures !a[i].Fail? { assert (a + b)[i] == a[i]; }
      forall i | 0 <= i < |b| ensures !b[i].Fail? { assert (a + b)[|a| + i] == b[i]; }
    }
  }

  lemma HaltFails(code: Code, reason: Reason)
    ensures !NoFail(Halt(code, reason))
  {
    assert Halt(code, reason)[0].Fail?;
  }

  /** Inside archives a walk without failures is the same walk under any more
      permissive mode. */
  lemma {:induction false} ZipWalkIsStable(lib: Lib, m: Mode, wider: Mode, data: Bytes, depth: nat, prefix: string)
    requires MorePermissive(m, wider)
    requires NoFail(ZipEffects(lib, m, data, depth, prefix))
    ensures ZipEffects(lib, wider, data, depth, prefix) == ZipEffects(lib, m, data, depth, prefix)
    decreases Remaining(m, depth), 1, 0
  {
    if depth > m.limits.maxDepth {
      HaltFails(ScanLimitExceeded, NoReason);
    } else if lib.parse(data).None? {
      HaltFails(ContentUnscannable, ContainerTruncated);
    } else {
      EntriesWalkIsStable(lib, m, wider, lib.parse(data).value, depth, prefix);
    }
  }

  lemma {:induction false} EntriesWalkIsStable(lib: Lib, m: Mode, wider: Mode, entries: seq<Entry>, depth: nat,
                                               prefix: string)
    requires MorePermissive(m, wider) && depth <= m.limits.maxDepth
    requires NoFail(EntriesEffects(lib, m, entries, depth, prefix))
    ensures EntriesEffects(lib, wider, entries, depth, prefix) == EntriesEffects(lib, m, entries, depth, prefix)
    decreases Remaining(m, depth), 0, |entries|
  {
    if entries != [] {
      var front, e := entries[..|entries| - 1], entries[|entries| - 1];
      NoFailConcat(EntriesEffects(lib, m, front, depth, prefix),
                   EntryEffects(lib, m, e, Seen(lib, front), depth, prefix));
      EntriesWalkIsStable(lib, m, wider, front, depth, prefix);
      EntryWalkIsStable(lib, m, wider, e, Seen(lib, front), depth, prefix);
    }
  }

  lemma {:induction false} EntryWalkIsStable(lib: Lib, m: Mode, wider: Mode, e: Entry, seen: set<string>, depth: nat,
                                             prefix: string)
    requires MorePermissive(m, wider) && depth <= m.limits.maxDepth
    requires NoFail(EntryEffects(lib, m, e, seen, depth, prefix))
    ensures EntryEffects(lib, wider, e, seen, depth, prefix) == EntryEffects(lib, m, e, seen, depth, prefix)
    decreases Remaining(m, depth), 0, 0
  {
    var effects := EntryEffects(lib, m, e, seen, depth, prefix);
    if |effects| == 1 {
      assert !effects[0].Fail?;
    } else {
      assert !effects[1].Fail?;
    }
    if NormalizedName(lib, e.name).Some? && !e.isDir && e.content.Content? {
      var normalized := NormalizedName(lib, e.name).value;
      var path := LogicalPath(prefix, normalized);
      var nested := ZipEffects(lib, m, e.content.bytes, depth + 1, path);
      if lib.kind(normalized) != Document && (lib.kind(normalized) == Zip || lib.isZip(e.content.bytes))
         && effects == [Member(e.fileSize, Some(path))] + nested
      {
        NoFailConcat([Member(e.fileSize, Some(path))], nested);
        ZipWalkIsStable(lib, m, wider, e.content.bytes, depth + 1, path);
      }
    }
  }

  /** Same chunks and paths in the same order, with no more members or bytes. */
  ghost predicate Leaner(lean: seq<Effect>, full: seq<Effect>)
  {
    && NoFail(lean)
    && Chunks(lean) == Chunks(full)
    && Paths(lean) == Paths(full)
    && Members(lean) <= Members(full)
    && ExpandedBytes(lean) <= ExpandedBytes(full)
  }

  lemma {:induction false} ChunksConcat(a: seq<Effect>, b: seq<Effect>)
    ensures Chunks(a + b) == Chunks(a) + Chunks(b)
    decreases |b|
  {
    if b == [] {
      assert a + b == a;
    } else {
      var front := b[..|b| - 1];
      ChunksConcat(a, front);
      assert (a + b)[..|a + b| - 1] == a + front;
      var e := b[|b| - 1];
      var last := if e.Text? then [e.text] else [];
      assert Chunks(b) == Chunks(front) + last;
      assert Chunks(a + b) == Chunks(a + front) + last;
    }
  }

  lemma {:induction false} PathsConcat(a: seq<Effect>, b: seq<Effect>)
    ensures Paths(a + b) == Paths(a) + Paths(b)
    decreases |b|
  {
    if b == [] {
      assert a + b == a;
    } else {
      var front := b[..|b| - 1];
      PathsConcat(a, front);
      assert (a + b)[..|a + b| - 1] == a + front;
      var e := b[|b| - 1];
      var last := if e.PathOnly? then [e.logicalPath] else if e.Member? && e.path.Some? then [e.path.value] else [];
      assert Paths(b) == Paths(front) + last;
      assert Paths(a + b) == Paths(a + front) + last;
    }
  }

  lemma {:induction false} TotalsConcat(a: seq<Effect>, b: seq<Effect>)
    ensures Members(a + b) == Members(a) + Members(b)
    ensures ExpandedBytes(a + b) == ExpandedBytes(a) + ExpandedBytes(b)
    decreases |b|
  {
    if b == [] {
      assert a + b == a;
    } else {
      var front := b[..|b| - 1];
      TotalsConcat(a, front);
      assert (a + b)[..|a + b| - 1] == a + front;
    }
  }

  lemma LeanerConcat(lean: seq<Effect>, full: seq<Effect>, lean': seq<Effect>, full': seq<Effect>)
    requires Leaner(lean, full) && Leaner(lean', full')
    ensures Leaner(lean + lean', full + full')
  {
    ChunksConcat(lean, lean');
    ChunksConcat(full, full');
    PathsConcat(lean, lean');
    PathsConcat(full, full');
    TotalsConcat(lean, lean');
    TotalsConcat(full, full');
    NoFailConcat(lean, lean');
  }

  lemma OneEffect(e: Effect)
    ensures Chunks([e]) == if e.Text? then [e.text] else []
    ensures Paths([e]) == if e.PathOnly? then [e.logicalPath]
                          else if e.Member? && e.path.Some? then [e.path.value] else []
    ensures Members([e]) == if e.Member? then 1 else 0
    ensures ExpandedBytes([e]) == if e.Member? then e.size else 0
  {
    assert [e][..0] == [];
    assert Chunks([]) == [] && Paths([]) == [] && Members([]) == 0 && ExpandedBytes([]) == 0;
  }

  /** An archive child starts with its own path, counted as a member or not. */
  lemma HeadIsLeaner(size: nat, path: string, strict: bool, wider: bool)
    requires wider ==> strict
    ensures Leaner([ArchiveHead(size, path, wider)], [ArchiveHead(size, path, strict)])
  {
    OneEffect(ArchiveHead(size, path, wider));
    OneEffect(ArchiveHead(size, path, strict));
  }

  lemma ArchiveChildIsLeaner(lib: Lib, m: Mode, wider: Mode, path: string, bytes: Bytes)
    requires MorePermissive(m, wider)
    requires NoFail([ArchiveHead(|bytes|, path, m.strict)] + ZipEffects(lib, m, bytes, 1, path))
    ensures Leaner([ArchiveHead(|bytes|, path, wider.strict)] + ZipEffects(lib, wider, bytes, 1, path),
                   [ArchiveHead(|bytes|, path, m.strict)] + ZipEffects(lib, m, bytes, 1, path))
    ensures ZipEffects(lib, wider, bytes, 1, path) == ZipEffects(lib, m, bytes, 1, path)
  {
    var nested := ZipEffects(lib, m, bytes, 1, path);
    NoFailConcat([ArchiveHead(|bytes|, path, m.strict)], nested);
    ZipWalkIsStable(lib, m, wider, bytes, 1, path);
    HeadIsLeaner(|bytes|, path, m.strict, wider.strict);
    assert Leaner(nested, nested);
    LeanerConcat([ArchiveHead(|bytes|, path, wider.strict)], [ArchiveHead(|bytes|, path, m.strict)], nested, nested);
  }

  predicate IsArchiveChild(lib: Lib, l: Limits, c: Child)
  {
    && c.FileChild? && |c.bytes| <= l.maxFileBytes
    && lib.kind(c.path) != OtherContainer && lib.kind(c.path) != Document
    && (lib.kind(c.path) == Zip || lib.isZip(c.bytes))
  }

  /** Children other than archives are walked alike, or dropped by leniency. */
  lemma PlainChildIsSame(lib: Lib, m: Mode, wider: Mode, c: Child)
    requires MorePermissive(m, wider) && NoFail(ChildEffects(lib, m, c)) && !IsArchiveChild(lib, m.limits, c)
    ensures ChildEffects(lib, wider, c) == ChildEffects(lib, m, c)
  {
    var effects := ChildEffects(lib, m, c);
    if |effects| == 1 {
      assert !effects[0].Fail?;
    } else if |effects| > 1 {
      assert !effects[1].Fail?;
    }
  }

  lemma ChildWalkIsLeaner(lib: Lib, m: Mode, wider: Mode, c: Child)
    requires MorePermissive(m, wider) && NoFail(ChildEffects(lib, m, c))
    ensures Leaner(ChildEffects(lib, wider, c), ChildEffects(lib, m, c))
    ensures m.strict == wider.strict ==> ChildEffects(lib, wider, c) == ChildEffects(lib, m, c)
  {
    if IsArchiveChild(lib, m.limits, c) {
      ArchiveChildIsLeaner(lib, m, wider, c.path, c.bytes);
    } else {
      PlainChildIsSame(lib, m, wider, c);
    }
  }

  lemma {:induction false} ChildrenWalkIsLeaner(lib: Lib, m: Mode, wider: Mode, children: seq<Child>)
    requires MorePermissive(m, wider) && NoFail(ChildrenEffects(lib, m, children))
    ensures Leaner(ChildrenEffects(lib, wider, children), ChildrenEffects(lib, m, children))
    ensures m.strict == wider.strict ==> ChildrenEffects(lib, wider, children) == ChildrenEffects(lib, m, children)
  {
    if children != [] {
      var front, c := children[..|children| - 1], children[|children| - 1];
      NoFailConcat(ChildrenEffects(lib, m, front), ChildEffects(lib, m, c));
      ChildrenWalkIsLeaner(lib, m, wider, front);
      ChildWalkIsLeaner(lib, m, wider, c);
      LeanerConcat(ChildrenEffects(lib, wider, front), ChildrenEffects(lib, m, front),
                   ChildEffects(lib, wider, c), ChildEffects(lib, m, c));
    }
  }

  lemma FileWalkIsLeaner(lib: Lib, m: Mode, wider: Mode, name: string, bytes: Bytes)
    requires MorePermissive(m, wider) && NoFail(FileEffects(lib, m, name, bytes))
    ensures Leaner(FileEffects(lib, wider, name, bytes), FileEffects(lib, m, name, bytes))
    ensures m.strict == wider.strict ==> FileEffects(lib, wider, name, bytes) == FileEffects(lib, m, name, bytes)
  {
    var effects := FileEffects(lib, m, name, bytes);
    if |effects| == 1 {
      assert !effects[0].Fail?;
    } else if |effects| > 1 {
      assert !effects[1].Fail?;
    }
    if |bytes| <= m.limits.maxFileBytes && lib.kind(name) != OtherContainer && lib.kind(name) != Document
       && (lib.kind(name) == Zip || lib.isZip(bytes))
    {
      var nested := ZipEffects(lib, m, bytes, 1, "");
      var head := if m.strict then [Member(|bytes|, None)] else [];
      var head' := if wider.strict then [Member(|bytes|, None)] else [];
      NoFailConcat(head, nested);
      ZipWalkIsStable(lib, m, wider, bytes, 1, "");
      assert [Member(|bytes|, None)][..0] == [];
      assert Leaner(head', head);
      assert Leaner(nested, nested);
      LeanerConcat(head', head, nested, nested);
    }
  }

  /** Success survives wider depth, member, byte or ratio limits and leniency
      about unscannable members: the chunks and paths are identical and the
      totals no larger; and if strictness is unchanged, so is the whole outcome.
      In particular a strict scan that succeeds is matched by the lenient one. */
  lemma SuccessIsPreserved(lib: Lib, m: Mode, wider: Mode, a: Attachment)
    requires MorePermissive(m, wider)
    requires Extract(lib, m, a).Ok?
    ensures Extract(lib, wider, a).Ok?
    ensures
      var full, lean := Extract(lib, m, a).acc, Extract(lib, wider, a).acc;
      && lean.chunks == full.chunks && lean.paths == full.paths && lean.characters == full.characters
      && lean.members <= full.members && lean.bytes <= full.bytes
    ensures m.strict == wider.strict ==> Extract(lib, wider, a) == Extract(lib, m, a)
  {
    SucceedsIffFits(m.limits, Effects(lib, m, a));
    match a {
      case Directory(children) => ChildrenWalkIsLeaner(lib, m, wider, children);
      case File(name, bytes) => FileWalkIsLeaner(lib, m, wider, name, bytes);
    }
    SucceedsIffFits(wider.limits, Effects(lib, wider, a));
  }

  /** An archive with a readable zip entry that holds the archive itself. */
  ghost predicate ContainsItself(lib: Lib, data: Bytes, i: nat)
  {
    && lib.parse(data).Some? && i < |lib.parse(data).value|
    && var e := lib.parse(data).value[i];
       && NormalizedName(lib, e.name).Some? && !e.isDir && e.content == Content(data)
       && lib.kind(NormalizedName(lib, e.name).value) == Zip
  }

  lemma {:induction false} EntriesFailWithOne(lib: Lib, m: Mode, entries: seq<Entry>, i: nat, depth: nat,
                                              prefix: string)
    requires depth <= m.limits.maxDepth && i < |entries|
    requires !NoFail(EntryEffects(lib, m, entries[i], Seen(lib, entries[..i]), depth, prefix))
    ensures !NoFail(EntriesEffects(lib, m, entries, depth, prefix))
    decreases |entries|
  {
    var front, e := entries[..|entries| - 1], entries[|entries| - 1];
    NoFailConcat(EntriesEffects(lib, m, front, depth, prefix),
                 EntryEffects(lib, m, e, Seen(lib, front), depth, prefix));
    if i < |front| {
      assert front[..i] == entries[..i];
      EntriesFailWithOne(lib, m, front, i, depth, prefix);
    } else {
      assert entries[..i] == front;
    }
  }

  /** Such an archive is always refused, at any depth limit. */
  lemma {:induction false} SelfContainingArchiveFails(lib: Lib, m: Mode, data: Bytes, i: nat, depth: nat,
                                                      prefix: string)
    requires ContainsItself(lib, data, i)
    ensures !NoFail(ZipEffects(lib, m, data, depth, prefix))
    decreases Remaining(m, depth)
  {
    if depth > m.limits.maxDepth {
      HaltFails(ScanLimitExceeded, NoReason);
    } else {
      var entries := lib.parse(data).value;
      var e := entries[i];
      var path := LogicalPath(prefix, NormalizedName(lib, e.name).value);
      var seen := Seen(lib, entries[..i]);
      var effects := EntryEffects(lib, m, e, seen, depth, prefix);
      SelfContainingArchiveFails(lib, m, data, i, depth + 1, path);
      var head, nested := [Member(e.fileSize, Some(path))], ZipEffects(lib, m, data, depth + 1, path);
      if effects == head + nested {
        NoFailConcat(head, nested);
      } else if |effects| == 1 {
        assert effects[0].Fail?;
      } else {
        assert effects[1].Fail?;
      }
      EntriesFailWithOne(lib, m, entries, i, depth, prefix);
    }
  }
}
