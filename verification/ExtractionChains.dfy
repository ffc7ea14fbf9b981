/** A successful extraction reports just the spots that chains of indices lead to, in
    the order of the chains. */
module ExtractionChains {
  import opened Prelude
  import opened Walks
  import opened ArchivePaths
  import opened Chains
  import opened Extraction
  import opened ExtractionReach

  /** Every path below the attachment is listed, except for a file of a directory that
      is neither a document nor an archive. */
  predicate IsListed(lib: Lib, n: Node)
  {
    n.Inside? || (n.Below? && (IsDirectory(n) || IsDocument(lib, n) || IsArchive(lib, n)))
  }

  function PathsAt(lib: Lib): Spot -> seq<string>
  {
    (s: Spot) => if IsListed(lib, s.node) then [PathOf(lib, s)] else []
  }

  function TextsAt(lib: Lib, l: Limits): Spot -> seq<string>
  {
    (s: Spot) =>
      if IsDocument(lib, s.node) && TextAt(lib, l, s.node).Some? then [TextAt(lib, l, s.node).value] else []
  }

  /** What is counted as a member: everything listed, and a document that is the whole
      attachment; but a lenient extraction counts no archive outside of archives. */
  predicate IsCounted(lib: Lib, m: Mode, n: Node)
  {
    && (IsListed(lib, n) || (n.Root? && (IsDocument(lib, n) || IsArchive(lib, n))))
    && (n.Inside? || !IsArchive(lib, n) || m.strict)
  }

  function SizeOf(n: Node): nat
  {
    match n
    case Root(File(_, bytes)) => |bytes|
    case Below(FileChild(_, bytes)) => |bytes|
    case Inside(e) => if e.isDir then 0 else e.fileSize
    case _ => 0
  }

  /** The sizes of what is counted. */
  function SizesAt(lib: Lib, m: Mode): Spot -> seq<nat>
  {
    (s: Spot) => if IsCounted(lib, m, s.node) then [SizeOf(s.node)] else []
  }

  function Total(sizes: seq<nat>): nat
  {
    if sizes == [] then 0 else Total(sizes[..|sizes| - 1]) + sizes[|sizes| - 1]
  }

  /** What these chains lead to: the texts of the documents, the paths, and the totals. */
  function Reached(lib: Lib, m: Mode, a: Attachment, chains: seq<Chain>): Acc
  {
    var texts := Gather(ReportAt(Tree(lib), TextsAt(lib, m.limits), Start(a)), chains);
    var sizes := Gather(ReportAt(Tree(lib), SizesAt(lib, m), Start(a)), chains);
    Acc(texts, Gather(ReportAt(Tree(lib), PathsAt(lib), Start(a)), chains), |sizes|, Total(sizes), TotalLength(texts))
  }

  // -------------------------------------------------------------- from the reports

  lemma SoundReportIs(lib: Lib, m: Mode, s: Spot)
    requires Sound(lib, m, s)
    ensures
      var effects := Report(lib, m, s);
      && Paths(effects) == PathsAt(lib)(s)
      && Chunks(effects) == TextsAt(lib, m.limits)(s)
      && Members(effects) == |SizesAt(lib, m)(s)|
      && ExpandedBytes(effects) == (if IsCounted(lib, m, s.node) then SizeOf(s.node) else 0)
  {
    if IsDocument(lib, s.node) { DocumentReportIs(lib, m, s); } else { PlainReportIs(lib, m, s); }
  }

  lemma DocumentReportIs(lib: Lib, m: Mode, s: Spot)
    requires Sound(lib, m, s) && IsDocument(lib, s.node)
    ensures
      var effects := Report(lib, m, s);
      && Paths(effects) == PathsAt(lib)(s)
      && Chunks(effects) == TextsAt(lib, m.limits)(s)
      && Members(effects) == |SizesAt(lib, m)(s)|
      && ExpandedBytes(effects) == (if IsCounted(lib, m, s.node) then SizeOf(s.node) else 0)
  {
    var head := Member(SizeOf(s.node), if s.node.Root? then None else Some(PathOf(lib, s)));
    var text := Text(TextAt(lib, m.limits, s.node).value);
    assert Report(lib, m, s) == [head, text];
    TwoEffects(head, text);
    OneEffect(head);
    OneEffect(text);
  }

  lemma PlainReportIs(lib: Lib, m: Mode, s: Spot)
    requires Sound(lib, m, s) && !IsDocument(lib, s.node)
    ensures
      var effects := Report(lib, m, s);
      && Paths(effects) == PathsAt(lib)(s)
      && Chunks(effects) == TextsAt(lib, m.limits)(s)
      && Members(effects) == |SizesAt(lib, m)(s)|
      && ExpandedBytes(effects) == (if IsCounted(lib, m, s.node) then SizeOf(s.node) else 0)
  {
    var effects := Report(lib, m, s);
    if effects != [] {
      assert effects == [effects[0]];
      OneEffect(effects[0]);
    }
  }

  lemma TwoEffects(first: Effect, second: Effect)
    ensures Chunks([first, second]) == Chunks([first]) + Chunks([second])
    ensures Paths([first, second]) == Paths([first]) + Paths([second])
    ensures Members([first, second]) == Members([first]) + Members([second])
    ensures ExpandedBytes([first, second]) == ExpandedBytes([first]) + ExpandedBytes([second])
  {
    assert [first, second] == [first] + [second];
    PathsConcat([first], [second]);
    ChunksConcat([first], [second]);
    TotalsConcat([first], [second]);
  }

  lemma {:induction false} TotalConcat(a: seq<nat>, b: seq<nat>)
    ensures Total(a + b) == Total(a) + Total(b)
    decreases |b|
  {
    if b == [] {
      assert a + b == a;
    } else {
      TotalConcat(a, b[..|b| - 1]);
      assert (a + b)[..|a + b| - 1] == a + b[..|b| - 1];
    }
  }

  /** Reports of effects, and what they amount to. */
  lemma {:induction false} FlattenGathered(f: Chain -> seq<Effect>, paths: Chain -> seq<string>,
                                           texts: Chain -> seq<string>, sizes: Chain -> seq<nat>, chains: seq<Chain>)
    requires forall c :: c in chains ==> Paths(f(c)) == paths(c) && Chunks(f(c)) == texts(c)
    requires forall c :: c in chains ==> Members(f(c)) == |sizes(c)| && ExpandedBytes(f(c)) == Total(sizes(c))
    ensures
      var effects := Gather(f, chains);
      && Paths(effects) == Gather(paths, chains) && Chunks(effects) == Gather(texts, chains)
      && Members(effects) == |Gather(sizes, chains)| && ExpandedBytes(effects) == Total(Gather(sizes, chains))
  {
    if chains != [] {
      var front, last := chains[..|chains| - 1], chains[|chains| - 1];
      FlattenGathered(f, paths, texts, sizes, front);
      PathsConcat(Gather(f, front), f(last));
      ChunksConcat(Gather(f, front), f(last));
      TotalsConcat(Gather(f, front), f(last));
      TotalConcat(Gather(sizes, front), sizes(last));
    }
  }

  lemma ReportOnSoundChain(lib: Lib, m: Mode, a: Attachment, c: Chain)
    requires Leads(Tree(lib), Start(a), c) && Sound(lib, m, NodeAt(Tree(lib), Start(a), c))
    ensures
      var effects := ReportAt(Tree(lib), Reporting(lib, m), Start(a))(c);
      var sizes := ReportAt(Tree(lib), SizesAt(lib, m), Start(a))(c);
      && Paths(effects) == ReportAt(Tree(lib), PathsAt(lib), Start(a))(c)
      && Chunks(effects) == ReportAt(Tree(lib), TextsAt(lib, m.limits), Start(a))(c)
      && Members(effects) == |sizes| && ExpandedBytes(effects) == Total(sizes)
  {
    var s := NodeAt(Tree(lib), Start(a), c);
    SoundReportIs(lib, m, s);
    TotalOne(SizeOf(s.node));
  }

  lemma TotalOne(n: nat)
    ensures Total([n]) == n
  {
    assert [n][..0] == [];
  }

  /** A walk without failures reports what the chains lead to. */
  lemma WalkReaches(lib: Lib, m: Mode, a: Attachment, chains: seq<Chain>)
    requires CleanPaths(a) && NoFail(Effects(lib, m, a))
    requires chains == ChainsFrom(Tree(lib), Start(a), Rank(m.limits, Start(a)))
    requires forall c :: c in chains ==>
               Leads(Tree(lib), Start(a), c) && Sound(lib, m, NodeAt(Tree(lib), Start(a), c))
    ensures Flatten(Effects(lib, m, a)) == Reached(lib, m, a, chains)
  {
    var f := ReportAt(Tree(lib), Reporting(lib, m), Start(a));
    TellingTells(Tree(lib), Reporting(lib, m));
    WalkIsReport(lib, m, Telling(Tree(lib), Reporting(lib, m)), a);
    var paths := ReportAt(Tree(lib), PathsAt(lib), Start(a));
    var texts := ReportAt(Tree(lib), TextsAt(lib, m.limits), Start(a));
    var sizes := ReportAt(Tree(lib), SizesAt(lib, m), Start(a));
    forall c | c in chains
      ensures Paths(f(c)) == paths(c) && Chunks(f(c)) == texts(c)
      ensures Members(f(c)) == |sizes(c)| && ExpandedBytes(f(c)) == Total(sizes(c))
    {
      ReportOnSoundChain(lib, m, a, c);
    }
    FlattenGathered(f, paths, texts, sizes, chains);
  }

  // ---------------------------------------------------- what an extraction reaches

  /** Every spot that some chain leads to is sound. */
  ghost predicate IsSound(lib: Lib, m: Mode, a: Attachment) { AllSound(Tree(lib), Sounds(lib, m), Start(a)) }

  /** The whole extraction, said of the attachment's tree alone: it succeeds if and only
      if every spot that some chain leads to is sound and the totals are within the
      limits. Then its texts, paths and counts are those of exactly these spots, in
      the order of their chains. */
  lemma ExtractionReaches(lib: Lib, m: Mode, a: Attachment) returns (chains: seq<Chain>)
    requires CleanPaths(a)
    ensures Ascending(chains)
    ensures IsSound(lib, m, a) ==> forall c :: c in chains <==> Leads(Tree(lib), Start(a), c)
    ensures Extract(lib, m, a).Ok? <==> IsSound(lib, m, a) && Within(m.limits, Reached(lib, m, a, chains))
    ensures Extract(lib, m, a).Ok? ==> Extract(lib, m, a).acc == Reached(lib, m, a, chains)
  {
    RankFalls(lib, m);
    chains := ChainsAreComplete(Tree(lib), Sounds(lib, m), Ranking(m.limits), Start(a));
    FailsIffUnsound(lib, m, a);
    SucceedsIffFits(m.limits, Effects(lib, m, a));
    if IsSound(lib, m, a) {
      WalkReaches(lib, m, a, chains);
    }
  }

  lemma SuccessReaches(lib: Lib, m: Mode, a: Attachment) returns (chains: seq<Chain>)
    requires CleanPaths(a) && Extract(lib, m, a).Ok?
    ensures forall c :: c in chains <==> Leads(Tree(lib), Start(a), c)
    ensures Extract(lib, m, a).acc == Reached(lib, m, a, chains)
  {
    chains := ExtractionReaches(lib, m, a);
  }

  /** The spot at the end of the chain is listed under this path: the names met on the
      way, joined by slashes. */
  ghost predicate ListedAs(lib: Lib, a: Attachment, c: Chain, path: string)
  {
    && Leads(Tree(lib), Start(a), c)
    && var s := NodeAt(Tree(lib), Start(a), c); IsListed(lib, s.node) && path == PathOf(lib, s)
  }

  lemma PathsAreReached(lib: Lib, m: Mode, a: Attachment, path: string)
    requires CleanPaths(a) && Extract(lib, m, a).Ok?
    ensures path in Extract(lib, m, a).acc.paths <==> exists c :: ListedAs(lib, a, c, path)
  {
    var chains := SuccessReaches(lib, m, a);
    GatherHolds(ReportAt(Tree(lib), PathsAt(lib), Start(a)), chains, path);
    forall c ensures path in ReportAt(Tree(lib), PathsAt(lib), Start(a))(c) <==> ListedAs(lib, a, c, path) {
      ListedAsIff(lib, a, c, path);
    }
    if c :| ListedAs(lib, a, c, path) { assert c in chains; }
  }

  lemma ListedAsIff(lib: Lib, a: Attachment, c: Chain, path: string)
    ensures path in ReportAt(Tree(lib), PathsAt(lib), Start(a))(c) <==> ListedAs(lib, a, c, path)
  {
  }

  /** The spot at the end of the chain is a document with this text. */
  ghost predicate Reads(lib: Lib, l: Limits, a: Attachment, c: Chain, text: string)
  {
    && Leads(Tree(lib), Start(a), c)
    && var s := NodeAt(Tree(lib), Start(a), c); IsDocument(lib, s.node) && TextAt(lib, l, s.node) == Some(text)
  }

  lemma TextsAreReached(lib: Lib, m: Mode, a: Attachment, text: string)
    requires CleanPaths(a) && Extract(lib, m, a).Ok?
    ensures text in Extract(lib, m, a).acc.chunks <==> exists c :: Reads(lib, m.limits, a, c, text)
  {
    var chains := SuccessReaches(lib, m, a);
    GatherHolds(ReportAt(Tree(lib), TextsAt(lib, m.limits), Start(a)), chains, text);
    forall c ensures text in ReportAt(Tree(lib), TextsAt(lib, m.limits), Start(a))(c)
                <==> Reads(lib, m.limits, a, c, text)
    {
      ReadsIff(lib, m.limits, a, c, text);
    }
    if c :| Reads(lib, m.limits, a, c, text) { assert c in chains; }
  }

  lemma ReadsIff(lib: Lib, l: Limits, a: Attachment, c: Chain, text: string)
    ensures text in ReportAt(Tree(lib), TextsAt(lib, l), Start(a))(c) <==> Reads(lib, l, a, c, text)
  {
  }

  /** Every archive entry that a successful extraction met, at any depth, was neither
      encrypted nor a link, a file within the limits for size and compression ratio, and
      nested no deeper than allowed. */
  lemma EveryEntryWasSafe(lib: Lib, m: Mode, a: Attachment, c: Chain, e: Entry)
    requires CleanPaths(a) && Extract(lib, m, a).Ok?
    requires Leads(Tree(lib), Start(a), c) && NodeAt(Tree(lib), Start(a), c).node == Inside(e)
    ensures !e.encrypted && !e.symlink
    ensures !e.isDir ==>
              && e.fileSize <= m.limits.maxFileBytes
              && e.fileSize * 1000 / (if e.compressSize > 1 then e.compressSize else 1) <= m.limits.maxRatioMilli
    ensures |c| - (if a.Directory? then 1 else 0) <= m.limits.maxDepth
  {
    var chains := ExtractionReaches(lib, m, a);
    SoundChain(lib, m, a, c);
    SoundEntryIsSafe(lib, m, NodeAt(Tree(lib), Start(a), c), e);
  }

  lemma SoundChain(lib: Lib, m: Mode, a: Attachment, c: Chain)
    requires IsSound(lib, m, a) && Leads(Tree(lib), Start(a), c)
    ensures |c| <= Rank(m.limits, Start(a)) && Sound(lib, m, NodeAt(Tree(lib), Start(a), c))
  {
    RankFalls(lib, m);
    SoundnessUnfolds(Tree(lib), Sounds(lib, m));
    ChainIsShort(Tree(lib), Sounds(lib, m), Soundness(Tree(lib), Sounds(lib, m)), Ranking(m.limits), Start(a), c);
  }

  lemma SoundEntryIsSafe(lib: Lib, m: Mode, s: Spot, e: Entry)
    requires Sound(lib, m, s) && s.node == Inside(e)
    ensures !e.encrypted && !e.symlink
    ensures !e.isDir ==>
              && e.fileSize <= m.limits.maxFileBytes
              && e.fileSize * 1000 / (if e.compressSize > 1 then e.compressSize else 1) <= m.limits.maxRatioMilli
  {
    RatioIff(e.fileSize, e.compressSize, m.limits.maxRatioMilli);
  }
}
