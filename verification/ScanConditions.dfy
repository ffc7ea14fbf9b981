/** When a cross-item safety scan passes and what it then reports, said of the attachment's
    own tree, down to its bytes and names. */
module ScanConditions {
  import opened Prelude
  import opened Extraction
  import opened Chains
  import opened ExtractionReach
  import opened ExtractionChains
  import opened ExtractionFaults
  import opened Matcher
  import opened CrossItemSafety
  import Tokens

  /** A run of the text's tokens, of the fingerprint's length, has its digest: the hash of
      the tokens with single spaces between them. */
  ghost predicate Carries(fs: Foreign, text: string, f: Fingerprint)
  {
    exists start: nat :: RunAt(fs, Tokens.Scan(fs.isWord, fs.normalizeText(text)), f, start)
  }

  ghost predicate RunAt(fs: Foreign, tokens: seq<string>, f: Fingerprint, start: nat)
  {
    start + f.tokenCount <= |tokens| && fs.hash(Tokens.Join(tokens[start..start + f.tokenCount])) == f.digest
  }

  /** Somewhere in the attachment the fingerprint is found: in its own path or a path that a
      chain leads to if it is taken of paths, and in a document's text otherwise. */
  ghost predicate IsFound(fs: Foreign, r: ScanRequest, a: Attachment, f: Fingerprint)
  {
    if f.kind == PathComponent then
      || Carries(fs, r.logicalPath, f)
      || exists c, path :: ListedAs(fs.extraction, a, c, path) && Carries(fs, path, f)
    else exists c, text :: Reads(fs.extraction, r.limits, a, c, text) && Carries(fs, text, f)
  }

  ghost function FoundIds(fs: Foreign, r: ScanRequest, a: Attachment): set<string>
  {
    set f | f in r.fingerprints && IsFound(fs, r, a, f) :: f.id
  }

  lemma CarriesIff(fs: Foreign, text: string, f: Fingerprint)
    ensures Carries(fs, text, f)
       <==> HasWindow(fs.hash, Tokens.Scan(fs.isWord, fs.normalizeText(text)), f.tokenCount, f.digest)
  {
    var tokens := Tokens.Scan(fs.isWord, fs.normalizeText(text));
    assert forall start: nat :: RunAt(fs, tokens, f, start)
                           <==> WindowAt(fs.hash, tokens, f.tokenCount, f.digest, start);
  }

  lemma TokenizedHas(fs: Foreign, texts: seq<string>, f: Fingerprint)
    ensures (exists tokens :: tokens in Tokenize(fs, texts) && HasWindow(fs.hash, tokens, f.tokenCount, f.digest))
       <==> exists text :: text in texts && Carries(fs, text, f)
  {
    var all := Tokenize(fs, texts);
    if tokens :| tokens in all && HasWindow(fs.hash, tokens, f.tokenCount, f.digest) {
      var i :| 0 <= i < |all| && all[i] == tokens;
      CarriesIff(fs, texts[i], f);
      assert texts[i] in texts;
    }
    if text :| text in texts && Carries(fs, text, f) {
      var i :| 0 <= i < |texts| && texts[i] == text;
      CarriesIff(fs, text, f);
      assert all[i] in all;
    }
  }

  lemma MatchesIffFound(fs: Foreign, r: ScanRequest, a: Attachment, f: Fingerprint)
    requires CleanPaths(a) && Extract(fs.extraction, Mode(r.limits, true), a).Ok?
    ensures Matches(fs.hash, ProjectionsOf(fs, r, Extract(fs.extraction, Mode(r.limits, true), a).acc), f)
       <==> IsFound(fs, r, a, f)
  {
    var m := Mode(r.limits, true);
    var acc := Extract(fs.extraction, m, a).acc;
    if f.kind == PathComponent {
      TokenizedHas(fs, [r.logicalPath] + acc.paths, f);
      forall path ensures path in acc.paths <==> exists c :: ListedAs(fs.extraction, a, c, path) {
        PathsAreReached(fs.extraction, m, a, path);
      }
    } else {
      TokenizedHas(fs, acc.chunks, f);
      forall text ensures text in acc.chunks <==> exists c :: Reads(fs.extraction, r.limits, a, c, text) {
        TextsAreReached(fs.extraction, m, a, text);
      }
    }
  }

  lemma TrueMatchesAreFound(fs: Foreign, r: ScanRequest, a: Attachment)
    requires CleanPaths(a) && Extract(fs.extraction, Mode(r.limits, true), a).Ok?
    ensures
      var acc := Extract(fs.extraction, Mode(r.limits, true), a).acc;
      TrueMatches(fs.hash, ProjectionsOf(fs, r, acc), r.fingerprints) == FoundIds(fs, r, a)
  {
    forall f ensures Matches(fs.hash, ProjectionsOf(fs, r, Extract(fs.extraction, Mode(r.limits, true), a).acc), f)
                <==> IsFound(fs, r, a, f)
    {
      MatchesIffFound(fs, r, a, f);
    }
  }

  // -------------------------------------------------------- counting the members

  lemma StrictlyCounted(lib: Lib, l: Limits, s: Spot)
    requires Sound(lib, Mode(l, true), s)
    ensures IsCounted(lib, Mode(l, true), s.node) <==> !(s.node.Root? && s.node.attachment.Directory?)
  {
  }

  lemma {:induction false} GatherOnes(f: Chain -> seq<nat>, chains: seq<Chain>)
    requires chains != [] && forall i :: 1 <= i < |chains| ==> |f(chains[i])| == 1
    ensures |Gather(f, chains)| == |f(chains[0])| + |chains| - 1
  {
    if |chains| > 1 {
      GatherOnes(f, chains[..|chains| - 1]);
    } else {
      assert chains[..0] == [];
    }
  }

  /** Only the empty chain comes first. */
  lemma RootIsFirst(chains: seq<Chain>)
    requires Ascending(chains) && [] in chains
    ensures chains[0] == [] && forall i :: 1 <= i < |chains| ==> chains[i] != []
  {
    forall i | 1 <= i < |chains| ensures chains[i] != [] { assert Before(chains[0], chains[i]); }
  }

  /** A strict extraction counts everything but the directory itself. */
  lemma StrictCount(lib: Lib, l: Limits, a: Attachment, chains: seq<Chain>)
    requires IsSound(lib, Mode(l, true), a) && Ascending(chains)
    requires forall c :: c in chains <==> Leads(Tree(lib), Start(a), c)
    ensures Reached(lib, Mode(l, true), a, chains).members == |chains| - if a.Directory? then 1 else 0
  {
    var f := ReportAt(Tree(lib), SizesAt(lib, Mode(l, true)), Start(a));
    assert Leads(Tree(lib), Start(a), []);
    RootIsFirst(chains);
    forall i | 0 <= i < |chains| ensures |f(chains[i])| == if i == 0 && a.Directory? then 0 else 1 {
      assert chains[i] in chains;
      SoundChain(lib, Mode(l, true), a, chains[i]);
      StrictlyCounted(lib, l, NodeAt(Tree(lib), Start(a), chains[i]));
      if i > 0 { BelowRoot(lib, Start(a), chains[i]); }
    }
    GatherOnes(f, chains);
  }

  /** Nothing below a spot is an attachment. */
  lemma {:induction false} BelowRoot(lib: Lib, s: Spot, c: Chain)
    requires Leads(Tree(lib), s, c) && c != []
    ensures !NodeAt(Tree(lib), s, c).node.Root?
    decreases |c|
  {
    if |c| > 1 { BelowRoot(lib, SpotsBelow(lib, s)[c[0]], c[1..]); }
  }

  // ------------------------------------------------------------- when a scan passes

  /** The answer in terms of what the extraction gives and of what is found. */
  lemma PassesIff(fs: Foreign, r: ScanRequest, m: Material, result: ScanResult, found: set<string>)
    requires RightAnswer(fs, r, m, result)
    requires m.Available? && Extract(fs.extraction, Mode(r.limits, true), m.attachment).Ok? ==>
               var acc := Extract(fs.extraction, Mode(r.limits, true), m.attachment).acc;
               TrueMatches(fs.hash, ProjectionsOf(fs, r, acc), r.fingerprints) == found
    ensures result.Passed? <==>
              && r.knownNormalization && m.Available? && m.changed.None?
              && Extract(fs.extraction, Mode(r.limits, true), m.attachment).Ok? && |found| <= r.maxMatchCount
    ensures result.Passed? ==>
              && SortedBy(result.matchedIds, TextKey) && |result.matchedIds| == |found|
              && (set id | id in result.matchedIds) == found
              && result.memberCount == Extract(fs.extraction, Mode(r.limits, true), m.attachment).acc.members
  {
  }

  /** A scan passes if and only if its normalisation is known, its material is available and
      unchanged, every spot of the attachment is sound, the totals are within the limits
      and no more fingerprints are found than allowed. It then names exactly those
      found, and counts one member for every spot below the attachment and for the
      attachment itself if it is a single file. */
  lemma ScanPassesIff(fs: Foreign, r: ScanRequest, a: Attachment, changed: Option<ScanCode>, result: ScanResult)
    returns (chains: seq<Chain>)
    requires RightAnswer(fs, r, Available(a, changed), result) && CleanPaths(a)
    ensures result.Passed? <==>
              && r.knownNormalization && changed.None? && IsSound(fs.extraction, Mode(r.limits, true), a)
              && Within(r.limits, Reached(fs.extraction, Mode(r.limits, true), a, chains))
              && |FoundIds(fs, r, a)| <= r.maxMatchCount
    ensures result.Passed? ==>
              && SortedBy(result.matchedIds, TextKey) && |result.matchedIds| == |FoundIds(fs, r, a)|
              && (set id | id in result.matchedIds) == FoundIds(fs, r, a)
    ensures result.Passed? ==>
              && (forall c :: c in chains <==> Leads(Tree(fs.extraction), Start(a), c)) && Ascending(chains)
              && result.memberCount == |chains| - if a.Directory? then 1 else 0
  {
    var m := Mode(r.limits, true);
    chains := ExtractionReaches(fs.extraction, m, a);
    if Extract(fs.extraction, m, a).Ok? { TrueMatchesAreFound(fs, r, a); }
    PassesIff(fs, r, Available(a, changed), result, FoundIds(fs, r, a));
    if result.Passed? { StrictCount(fs.extraction, r.limits, a, chains); }
  }

  /** The attachment holds, at any depth, a node that is a reason for the failure. */
  ghost predicate Holds(fs: Foreign, r: ScanRequest, a: Attachment, f: Failure)
  {
    HasCause(fs.extraction, Mode(r.limits, true), f, Start(a))
  }

  /** Why a scan of unchanged material is BLOCKED. */
  lemma BlockedScanSaysWhy(fs: Foreign, r: ScanRequest, a: Attachment, code: ScanCode)
    requires RightAnswer(fs, r, Available(a, None), ScanBlocked(code)) && r.knownNormalization
    ensures code in {LimitExceeded, Unscannable, EncryptedContainer, TruncatedContainer, SymlinkRefused, PathViolation,
                     UnsupportedContainer}
    ensures code == EncryptedContainer ==> Holds(fs, r, a, ENCRYPTED)
    ensures code == TruncatedContainer ==> Holds(fs, r, a, TRUNCATED)
    ensures code == SymlinkRefused ==> Holds(fs, r, a, Blocked(SymlinkUnsupported, NoReason))
    ensures code == PathViolation ==> Holds(fs, r, a, Blocked(OutputPathViolation, NoReason))
    ensures code == UnsupportedContainer ==>
              || Holds(fs, r, a, Unsupported(ContainerUnsupported)) || Holds(fs, r, a, Unsupported(MediaUnsupported))
  {
    var outcome := Extract(fs.extraction, Mode(r.limits, true), a);
    if outcome.Raised? && !Unspecific(outcome.failure) {
      FailureHasCause(fs.extraction, Mode(r.limits, true), a, outcome.failure);
      CausedFailures(fs.extraction, Mode(r.limits, true), a, outcome.failure);
    }
  }

  /** The failures that a node can be a reason for. */
  lemma CausedFailures(lib: Lib, m: Mode, a: Attachment, f: Failure)
    requires HasCause(lib, m, f, Start(a))
    ensures f in {ENCRYPTED, TRUNCATED, Blocked(SymlinkUnsupported, NoReason), Blocked(OutputPathViolation, NoReason),
                  Unsupported(ContainerUnsupported), Unsupported(MediaUnsupported)}
  {
    var c :| IsCauseAt(lib, m, f, Start(a), c);
  }
}
