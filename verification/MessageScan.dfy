/** The single pass over a trace's messages that counts reads before and after
    mutations of the same path. */
module MessageScan {
  import opened Prelude

  datatype Family = FileRead | FileWrite | FileEdit | WebSearch | WebFetch | PowerShell

  /** A content block; tool names and paths are already normalised, and `truncated`
      says that the case-folded content of a result contains "truncat". */
  datatype Block =
    | ToolUse(name: string, path: Option<string>)
    | ToolResult(isError: bool, truncated: bool)
    | OtherBlock

  /** A message: who speaks, its visible text (case-folded), and its blocks if its
      content is a list. */
  datatype Message = NotAnObject | Message(assistant: bool, text: string, blocks: Option<seq<Block>>)

  function BlocksOf(m: Message): seq<Block>
  {
    if m.Message? && m.blocks.Some? then m.blocks.value else []
  }

  function FamilyOf(name: string): Option<Family>
  {
    if name in {"read", "read_file"} then Some(FileRead)
    else if name in {"write", "write_file"} then Some(FileWrite)
    else if name in {"edit", "edit_file", "multi_edit"} then Some(FileEdit)
    else if name in {"websearch", "web_search", "search"} then Some(WebSearch)
    else if name in {"webfetch", "web_fetch", "fetch"} then Some(WebFetch)
    else if name == "powershell" then Some(PowerShell)
    else None
  }

  predicate Reads(b: Block, path: string)
  {
    b.ToolUse? && FamilyOf(b.name) == Some(FileRead) && b.path == Some(path)
  }

  predicate Mutates(b: Block, path: string)
  {
    b.ToolUse? && FamilyOf(b.name) in {Some(FileWrite), Some(FileEdit)} && b.path == Some(path)
  }

  /** Which tools read and which ones mutate the file they name. */
  lemma ReadsAndMutations(b: Block, path: string)
    ensures Reads(b, path) <==> b in {ToolUse("read", Some(path)), ToolUse("read_file", Some(path))}
    ensures Mutates(b, path) <==>
              b in {ToolUse("write", Some(path)), ToolUse("write_file", Some(path)), ToolUse("edit", Some(path)),
                    ToolUse("edit_file", Some(path)), ToolUse("multi_edit", Some(path))}
  {
  }

  /** All blocks of a trace in order. */
  function Flatten(messages: seq<Message>): seq<Block>
  {
    if messages == [] then []
    else Flatten(messages[..|messages| - 1]) + BlocksOf(messages[|messages| - 1])
  }

  // ------------------------------------------------ the quadratic specification

  ghost predicate ReadAfterMutation(bs: seq<Block>, i: nat)
    requires i < |bs|
  {
    bs[i].ToolUse? && bs[i].path.Some? && Reads(bs[i], bs[i].path.value)
    && exists j :: 0 <= j < i && Mutates(bs[j], bs[i].path.value)
  }

  ghost predicate MutationAfterRead(bs: seq<Block>, i: nat)
    requires i < |bs|
  {
    bs[i].ToolUse? && bs[i].path.Some? && Mutates(bs[i], bs[i].path.value)
    && exists j :: 0 <= j < i && Reads(bs[j], bs[i].path.value)
  }

  ghost function PostMutationReads(bs: seq<Block>): set<nat>
  {
    set i: nat | i < |bs| && ReadAfterMutation(bs, i)
  }

  ghost function PreMutationReads(bs: seq<Block>): set<nat>
  {
    set i: nat | i < |bs| && MutationAfterRead(bs, i)
  }

  ghost function ErrorResults(bs: seq<Block>): set<nat>
  {
    set i: nat | i < |bs| && bs[i].ToolResult? && bs[i].isError
  }

  ghost function Truncations(bs: seq<Block>): set<nat>
  {
    set i: nat | i < |bs| && bs[i].ToolResult? && bs[i].truncated
  }

  ghost function UsesOf(bs: seq<Block>, f: Family): set<nat>
  {
    set i: nat | i < |bs| && bs[i].ToolUse? && FamilyOf(bs[i].name) == Some(f)
  }

  ghost function ReadPaths(bs: seq<Block>): set<string>
  {
    set b | b in bs && b.ToolUse? && b.path.Some? && Reads(b, b.path.value) :: b.path.value
  }

  ghost function MutatedPaths(bs: seq<Block>): set<string>
  {
    set b | b in bs && b.ToolUse? && b.path.Some? && Mutates(b, b.path.value) :: b.path.value
  }

  // ------------------------------------------------------------- the one pass

  /** The mutable state of the pass. */
  datatype Metrics = Metrics(
    toolCounts: map<Family, nat>, postMutationReads: nat, preMutationReads: nat, errorResults: nat, truncations: nat,
    fileReads: set<string>, mutatedPaths: set<string>)

  const NOTHING := Metrics(map[], 0, 0, 0, 0, {}, {})

  function Tally(counts: map<Family, nat>, f: Family): nat { if f in counts then counts[f] else 0 }

  function Visit(m: Metrics, b: Block): Metrics
  {
    match b
    case OtherBlock => m
    case ToolResult(isError, truncated) =>
      m.(errorResults := m.errorResults + if isError then 1 else 0,
         truncations := m.truncations + if truncated then 1 else 0)
    case ToolUse(name, path) =>
      var family := FamilyOf(name);
      var counted := if family.Some?
                     then m.(toolCounts := m.toolCounts[family.value := Tally(m.toolCounts, family.value) + 1]) else m;
      if path.None? then counted
      else if family == Some(FileRead) then
        counted.(postMutationReads := m.postMutationReads + if path.value in m.mutatedPaths then 1 else 0,
                 fileReads := m.fileReads + {path.value})
      else if family == Some(FileWrite) || family == Some(FileEdit) then
        counted.(preMutationReads := m.preMutationReads + if path.value in m.fileReads then 1 else 0,
                 mutatedPaths := m.mutatedPaths + {path.value})
      else counted
  }

  /** The state says exactly what the specification says of the blocks so far. */
  ghost predicate Describes(m: Metrics, bs: seq<Block>)
  {
    && m.postMutationReads == |PostMutationReads(bs)|
    && m.preMutationReads == |PreMutationReads(bs)|
    && m.errorResults == |ErrorResults(bs)|
    && m.truncations == |Truncations(bs)|
    && (forall f :: Tally(m.toolCounts, f) == |UsesOf(bs, f)|)
    && m.fileReads == ReadPaths(bs)
    && m.mutatedPaths == MutatedPaths(bs)
  }

  lemma PathsGrow(bs: seq<Block>, b: Block)
    ensures ReadPaths(bs + [b]) == ReadPaths(bs)
              + if b.ToolUse? && b.path.Some? && Reads(b, b.path.value) then {b.path.value} else {}
    ensures MutatedPaths(bs + [b]) == MutatedPaths(bs)
              + if b.ToolUse? && b.path.Some? && Mutates(b, b.path.value) then {b.path.value} else {}
  {
    assert forall x :: x in bs + [b] <==> x in bs || x == b;
  }

  lemma VerdictsAreStable(bs: seq<Block>, b: Block)
    ensures forall i: nat :: i < |bs| ==>
              && (ReadAfterMutation(bs + [b], i) <==> ReadAfterMutation(bs, i))
              && (MutationAfterRead(bs + [b], i) <==> MutationAfterRead(bs, i))
  {
    var cs := bs + [b];
    forall i: nat | i < |bs|
      ensures ReadAfterMutation(cs, i) <==> ReadAfterMutation(bs, i)
      ensures MutationAfterRead(cs, i) <==> MutationAfterRead(bs, i)
    {
      assert cs[i] == bs[i];
      assert forall j :: 0 <= j < i ==> cs[j] == bs[j];
      if bs[i].ToolUse? && bs[i].path.Some? {
        var p := bs[i].path.value;
        assert (exists j :: 0 <= j < i && Mutates(cs[j], p)) <==> (exists j :: 0 <= j < i && Mutates(bs[j], p));
        assert (exists j :: 0 <= j < i && Reads(cs[j], p)) <==> (exists j :: 0 <= j < i && Reads(bs[j], p));
      }
    }
  }

  lemma LastVerdict(bs: seq<Block>, b: Block)
    ensures ReadAfterMutation(bs + [b], |bs|) <==>
              b.ToolUse? && b.path.Some? && Reads(b, b.path.value) && b.path.value in MutatedPaths(bs)
    ensures MutationAfterRead(bs + [b], |bs|) <==>
              b.ToolUse? && b.path.Some? && Mutates(b, b.path.value) && b.path.value in ReadPaths(bs)
  {
    var cs, n := bs + [b], |bs|;
    assert cs[n] == b && forall j :: 0 <= j < n ==> cs[j] == bs[j];
    if b.ToolUse? && b.path.Some? {
      var p := b.path.value;
      if p in MutatedPaths(bs) {
        var x :| x in bs && Mutates(x, p);
        var j :| 0 <= j < n && bs[j] == x;
        assert Mutates(cs[j], p);
      }
      if j :| 0 <= j < n && Mutates(cs[j], p) {
        assert bs[j] in bs && Mutates(bs[j], p);
      }
      if p in ReadPaths(bs) {
        var x :| x in bs && Reads(x, p);
        var j :| 0 <= j < n && bs[j] == x;
        assert Reads(cs[j], p);
      }
      if j :| 0 <= j < n && Reads(cs[j], p) {
        assert bs[j] in bs && Reads(bs[j], p);
      }
    }
  }

  function Extend(s: set<nat>, n: nat, grows: bool): set<nat> { if grows then s + {n} else s }

  lemma ExtendCounts(s: set<nat>, n: nat, grows: bool)
    requires n !in s
    ensures |Extend(s, n, grows)| == |s| + if grows then 1 else 0
  {
  }

  lemma FlowSetsGrow(bs: seq<Block>, b: Block)
    ensures PostMutationReads(bs + [b]) == Extend(PostMutationReads(bs), |bs|, ReadAfterMutation(bs + [b], |bs|))
    ensures PreMutationReads(bs + [b]) == Extend(PreMutationReads(bs), |bs|, MutationAfterRead(bs + [b], |bs|))
  {
    VerdictsAreStable(bs, b);
  }

  lemma FlowCountsGrow(bs: seq<Block>, b: Block)
    ensures |PostMutationReads(bs + [b])|
         == |PostMutationReads(bs)| + if ReadAfterMutation(bs + [b], |bs|) then 1 else 0
    ensures |PreMutationReads(bs + [b])|
         == |PreMutationReads(bs)| + if MutationAfterRead(bs + [b], |bs|) then 1 else 0
  {
    FlowSetsGrow(bs, b);
    ExtendCounts(PostMutationReads(bs), |bs|, ReadAfterMutation(bs + [b], |bs|));
    ExtendCounts(PreMutationReads(bs), |bs|, MutationAfterRead(bs + [b], |bs|));
  }

  lemma CountSetsGrow(bs: seq<Block>, b: Block, f: Family)
    ensures ErrorResults(bs + [b]) == Extend(ErrorResults(bs), |bs|, b.ToolResult? && b.isError)
    ensures Truncations(bs + [b]) == Extend(Truncations(bs), |bs|, b.ToolResult? && b.truncated)
    ensures UsesOf(bs + [b], f) == Extend(UsesOf(bs, f), |bs|, b.ToolUse? && FamilyOf(b.name) == Some(f))
  {
    var cs := bs + [b];
    assert cs[|bs|] == b && forall i :: 0 <= i < |bs| ==> cs[i] == bs[i];
  }

  lemma CountsGrow(bs: seq<Block>, b: Block, f: Family)
    ensures |ErrorResults(bs + [b])| == |ErrorResults(bs)| + if b.ToolResult? && b.isError then 1 else 0
    ensures |Truncations(bs + [b])| == |Truncations(bs)| + if b.ToolResult? && b.truncated then 1 else 0
    ensures |UsesOf(bs + [b], f)| == |UsesOf(bs, f)| + if b.ToolUse? && FamilyOf(b.name) == Some(f) then 1 else 0
  {
    CountSetsGrow(bs, b, f);
    ExtendCounts(ErrorResults(bs), |bs|, b.ToolResult? && b.isError);
    ExtendCounts(Truncations(bs), |bs|, b.ToolResult? && b.truncated);
    ExtendCounts(UsesOf(bs, f), |bs|, b.ToolUse? && FamilyOf(b.name) == Some(f));
  }

  lemma VisitCountsTools(m: Metrics, b: Block, f: Family)
    ensures Tally(Visit(m, b).toolCounts, f)
         == Tally(m.toolCounts, f) + if b.ToolUse? && FamilyOf(b.name) == Some(f) then 1 else 0
    ensures Visit(m, b).errorResults == m.errorResults + if b.ToolResult? && b.isError then 1 else 0
    ensures Visit(m, b).truncations == m.truncations + if b.ToolResult? && b.truncated then 1 else 0
  {
  }

  lemma VisitTracksPaths(m: Metrics, b: Block)
    ensures
      var n := Visit(m, b);
      var isRead := b.ToolUse? && b.path.Some? && Reads(b, b.path.value);
      var isMutation := b.ToolUse? && b.path.Some? && Mutates(b, b.path.value);
      && n.fileReads == m.fileReads + (if isRead then {b.path.value} else {})
      && n.mutatedPaths == m.mutatedPaths + (if isMutation then {b.path.value} else {})
      && n.postMutationReads == m.postMutationReads + (if isRead && b.path.value in m.mutatedPaths then 1 else 0)
      && n.preMutationReads == m.preMutationReads + (if isMutation && b.path.value in m.fileReads then 1 else 0)
  {
  }

  /** One visited block keeps the two path sets and all counters exact. */
  lemma VisitDescribes(m: Metrics, bs: seq<Block>, b: Block)
    requires Describes(m, bs)
    ensures Describes(Visit(m, b), bs + [b])
  {
    var n := Visit(m, b);
    VisitTracksPaths(m, b);
    PathsGrow(bs, b);
    FlowCountsGrow(bs, b);
    LastVerdict(bs, b);
    forall f ensures Tally(n.toolCounts, f) == |UsesOf(bs + [b], f)| {
      CountsGrow(bs, b, f);
      VisitCountsTools(m, b, f);
    }
    CountsGrow(bs, b, FileRead);
    VisitCountsTools(m, b, FileRead);
  }

  lemma EmptyDescribes()
    ensures Describes(NOTHING, [])
  {
    forall f: Family ensures UsesOf([], f) == {} { }
    assert Truncations([]) == {};
  }

  // -------------------------------------------------------------- terms in the text

  const CONTINUATION_TERMS: seq<string> :=
    ["continuation from", "continue from", "context window",
     "\U{7ee7}\U{7eed}\U{4e0a}\U{6b21}", "\U{63a5}\U{7740}\U{4e4b}\U{524d}"]

  const COMPLETION_TERMS: seq<string> :=
    ["final output", "final deliverable", "completed the",
     "\U{5df2}\U{5b8c}\U{6210}", "\U{6700}\U{7ec8}\U{4ea4}\U{4ed8}",
     "\U{4ea4}\U{4ed8}\U{5b8c}\U{6210}"]

  /** `term in text`. */
  predicate Contains(text: string, term: string)
  {
    exists i :: 0 <= i <= |text| - |term| && StandsAt(text, term, i)
  }

  predicate StandsAt(text: string, term: string, i: nat) { i + |term| <= |text| && text[i..i + |term|] == term }

  /** Which messages contain which terms; for claims only the assistant's count. */
  ghost function Hits(messages: seq<Message>, terms: seq<string>, claims: bool): set<(nat, nat)>
  {
    set i: nat, j: nat | i < |messages| && j < |terms| && IsHit(messages[i], terms[j], claims) :: (i, j)
  }

  predicate IsHit(m: Message, term: string, claims: bool)
  {
    m.Message? && (claims ==> m.assistant && m.text != "") && Contains(m.text, term)
  }

  /** The hits in one message, the `n`-th, for the first terms. */
  ghost function HitsIn(m: Message, n: nat, terms: seq<string>, claims: bool): set<(nat, nat)>
  {
    set j: nat | j < |terms| && IsHit(m, terms[j], claims) :: (n, j)
  }

  lemma HitsInAppend(m: Message, n: nat, terms: seq<string>, term: string, claims: bool)
    ensures HitsIn(m, n, terms + [term], claims)
         == HitsIn(m, n, terms, claims) + if IsHit(m, term, claims) then {(n, |terms|)} else {}
  {
    var all := terms + [term];
    assert all[|terms|] == term && forall j :: 0 <= j < |terms| ==> all[j] == terms[j];
  }

  lemma HitsInGrow(m: Message, n: nat, terms: seq<string>, k: nat, claims: bool)
    requires k < |terms|
    ensures |HitsIn(m, n, terms[..k + 1], claims)|
         == |HitsIn(m, n, terms[..k], claims)| + if IsHit(m, terms[k], claims) then 1 else 0
  {
    HitsInAppend(m, n, terms[..k], terms[k], claims);
    assert terms[..k + 1] == terms[..k] + [terms[k]];
    assert (n, k) !in HitsIn(m, n, terms[..k], claims);
  }

  lemma HitsGrow(messages: seq<Message>, n: nat, terms: seq<string>, claims: bool)
    requires n < |messages|
    ensures |Hits(messages[..n + 1], terms, claims)|
         == |Hits(messages[..n], terms, claims)| + |HitsIn(messages[n], n, terms, claims)|
  {
    var before, here := Hits(messages[..n], terms, claims), HitsIn(messages[n], n, terms, claims);
    assert Hits(messages[..n + 1], terms, claims) == before + here;
    assert before !! here;
  }

  /** `sum(term in text for term in TERMS)`, for the `n`-th message. */
  method CountTerms(m: Message, terms: seq<string>, claims: bool, ghost n: nat) returns (count: nat)
    ensures count == |HitsIn(m, n, terms, claims)|
  {
    count := 0;
    for k := 0 to |terms|
      invariant count == |HitsIn(m, n, terms[..k], claims)|
    {
      HitsInGrow(m, n, terms, k, claims);
      if IsHit(m, terms[k], claims) {
        count := count + 1;
      }
    }
    assert terms[..|terms|] == terms;
  }

  datatype Signals = Signals(messages: nat, continuations: nat, completions: nat)

  /** The signals are the counts over the messages so far. */
  ghost predicate Signal(x: Signals, messages: seq<Message>)
  {
    && x.messages == |messages|
    && x.continuations == |Hits(messages, CONTINUATION_TERMS, false)|
    && x.completions == |Hits(messages, COMPLETION_TERMS, true)|
  }

  method AddSignals(x: Signals, messages: seq<Message>, n: nat) returns (y: Signals)
    requires n < |messages| && Signal(x, messages[..n])
    ensures Signal(y, messages[..n + 1])
  {
    var continuations := CountTerms(messages[n], CONTINUATION_TERMS, false, n);
    var completions := CountTerms(messages[n], COMPLETION_TERMS, true, n);
    HitsGrow(messages, n, CONTINUATION_TERMS, false);
    HitsGrow(messages, n, COMPLETION_TERMS, true);
    y := Signals(x.messages + 1, x.continuations + continuations, x.completions + completions);
  }

  /** The inner loop: the blocks of one message. */
  method VisitBlocks(start: Metrics, blocks: seq<Block>, ghost before: seq<Block>) returns (m: Metrics)
    requires Describes(start, before)
    ensures Describes(m, before + blocks)
  {
    m := start;
    assert before + blocks[..0] == before;
    for j := 0 to |blocks|
      invariant Describes(m, before + blocks[..j])
    {
      VisitDescribes(m, before + blocks[..j], blocks[j]);
      assert before + blocks[..j] + [blocks[j]] == before + blocks[..j + 1];
      m := Visit(m, blocks[j]);
    }
    assert blocks[..|blocks|] == blocks;
  }

  /** `_scan_strict_messages`: messages outside, blocks inside. It counts exactly
      the reads with an earlier mutation of the same path, and the mutations with
      an earlier read of it, over the whole trace; and the terms in its text. */
  method ScanMessages(messages: seq<Message>) returns (m: Metrics, signals: Signals)
    ensures Describes(m, Flatten(messages))
    ensures Signal(signals, messages)
  {
    m, signals := NOTHING, Signals(0, 0, 0);
    EmptyDescribes();
    assert Hits([], CONTINUATION_TERMS, false) == {} && Hits([], COMPLETION_TERMS, true) == {};
    for i := 0 to |messages|
      invariant Describes(m, Flatten(messages[..i]))
      invariant Signal(signals, messages[..i])
    {
      assert messages[..i + 1][..i] == messages[..i];
      signals := AddSignals(signals, messages, i);
      m := VisitBlocks(m, BlocksOf(messages[i]), Flatten(messages[..i]));
    }
    assert messages[..|messages|] == messages;
  }
}
