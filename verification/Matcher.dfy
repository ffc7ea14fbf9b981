/** Foreign-fingerprint matching: an index over the fingerprints and a sliding
    window over token lists, against the plain "some window has this digest". */
module Matcher {
  import opened Prelude
  import opened Tokens

  datatype MatchKind = NormalizedFullText | TokenWindow | PathComponent

  datatype Fingerprint = Fingerprint(id: string, kind: MatchKind, tokenCount: nat, digest: string)

  /** Tokenised texts and paths of an attachment. */
  datatype Projections = Projections(texts: seq<seq<string>>, paths: seq<seq<string>>)

  function Of(p: Projections, kind: MatchKind): seq<seq<string>>
  {
    if kind == PathComponent then p.paths else p.texts
  }

  function DigestTokens(hash: string -> string, tokens: seq<string>): string { hash(Join(tokens)) }

  /** A window of the right length starts at `start` and has the right digest. */
  ghost predicate WindowAt(hash: string -> string, tokens: seq<string>, count: nat, digest: string, start: nat)
  {
    start + count <= |tokens| && DigestTokens(hash, tokens[start..start + count]) == digest
  }

  ghost predicate HasWindow(hash: string -> string, tokens: seq<string>, count: nat, digest: string)
  {
    exists start: nat :: WindowAt(hash, tokens, count, digest, start)
  }

  ghost predicate Matches(hash: string -> string, p: Projections, f: Fingerprint)
  {
    exists tokens :: tokens in Of(p, f.kind) && HasWindow(hash, tokens, f.tokenCount, f.digest)
  }

  /** The specification: the ids of all matching fingerprints. */
  ghost function TrueMatches(hash: string -> string, p: Projections, fs: seq<Fingerprint>): set<string>
  {
    set f | f in fs && Matches(hash, p, f) :: f.id
  }

  // -------------------------------------------------------------------- index

  type Index = map<(nat, string), set<string>>

  function Listed(fs: seq<Fingerprint>, kind: MatchKind, key: (nat, string)): set<string>
  {
    set f | f in fs && f.kind == kind && f.tokenCount == key.0 && f.digest == key.1 :: f.id
  }

  /** Each key holds the ids of the fingerprints with that length and digest. */
  ghost predicate IsIndex(index: Index, fs: seq<Fingerprint>, kind: MatchKind)
  {
    && (forall key :: key in index ==> index[key] == Listed(fs, kind, key))
    && (forall key :: key !in index ==> Listed(fs, kind, key) == {})
  }

  lemma IndexStep(index: Index, fs: seq<Fingerprint>, f: Fingerprint, kind: MatchKind)
    requires IsIndex(index, fs, kind)
    ensures
      var key := (f.tokenCount, f.digest);
      IsIndex(if f.kind == kind then index[key := (if key in index then index[key] else {}) + {f.id}] else index,
              fs + [f], kind)
  {
    var key := (f.tokenCount, f.digest);
    forall k ensures Listed(fs + [f], kind, k)
                  == Listed(fs, kind, k) + if f.kind == kind && k == key then {f.id} else {}
    {
      assert forall g :: g in fs + [f] <==> g in fs || g == f;
    }
  }

  method BuildIndexes(fs: seq<Fingerprint>) returns (indexes: map<MatchKind, Index>)
    ensures forall kind :: kind in indexes && IsIndex(indexes[kind], fs, kind)
  {
    indexes := map[NormalizedFullText := map[], TokenWindow := map[], PathComponent := map[]];
    forall kind: MatchKind ensures kind in indexes && IsIndex(indexes[kind], [], kind) {
      assert kind == NormalizedFullText || kind == TokenWindow || kind == PathComponent;
    }
    for i := 0 to |fs|
      invariant forall kind :: kind in indexes && IsIndex(indexes[kind], fs[..i], kind)
    {
      var f := fs[i];
      var key := (f.tokenCount, f.digest);
      var index := indexes[f.kind];
      forall kind { IndexStep(indexes[kind], fs[..i], f, kind); }
      assert fs[..i + 1] == fs[..i] + [f];
      indexes := indexes[f.kind := index[key := (if key in index then index[key] else {}) + {f.id}]];
    }
    assert fs[..|fs|] == fs;
  }

  // ------------------------------------------------------------------- search

  /** The index lists `id` for the window of `count` tokens at `start`. */
  ghost predicate HitAt(hash: string -> string, index: Index, tokens: seq<string>, count: nat, start: nat, id: string)
  {
    && start + count <= |tokens|
    && var key := (count, DigestTokens(hash, tokens[start..start + count]));
       key in index && id in index[key]
  }

  /** Everything the index can find in `tokens` is among `ids`. */
  ghost predicate AllHitsIn(hash: string -> string, index: Index, tokens: seq<string>, ids: set<string>)
  {
    forall count: nat, start: nat, id :: HitAt(hash, index, tokens, count, start, id) ==> id in ids
  }

  ghost predicate HitsOfLengthIn(hash: string -> string, index: Index, tokens: seq<string>, count: nat, bound: nat,
                                 ids: set<string>)
  {
    forall start: nat, id :: start < bound && HitAt(hash, index, tokens, count, start, id) ==> id in ids
  }

  /** The innermost loop: windows of one length over one token list. It reports
      only ids of `target`, and either all of them there are or too many. */
  method SlideWindow(hash: string -> string, index: Index, tokens: seq<string>, count: nat, before: set<string>,
                     limit: nat, ghost target: set<string>)
    returns (matched: set<string>, over: bool)
    requires |before| <= limit && before <= target && AllHitsIn(hash, index, tokens, target)
    ensures before <= matched <= target && (over <==> |matched| > limit)
    ensures !over ==> HitsOfLengthIn(hash, index, tokens, count, |tokens| + 1, matched)
  {
    matched, over := before, false;
    if count > |tokens| {
      return;
    }
    for start := 0 to |tokens| - count + 1
      invariant before <= matched <= target && |matched| <= limit
      invariant HitsOfLengthIn(hash, index, tokens, count, start, matched)
    {
      var key := (count, DigestTokens(hash, tokens[start..start + count]));
      if key in index {
        forall id | id in index[key] ensures id in target {
          assert HitAt(hash, index, tokens, count, start, id);
        }
        matched := matched + index[key];
      }
      if |matched| > limit {
        over := true;
        return;
      }
    }
  }

  /** All window lengths in the index, in whatever order. */
  method SearchTokens(hash: string -> string, index: Index, tokens: seq<string>, before: set<string>, limit: nat,
                      ghost target: set<string>)
    returns (matched: set<string>, over: bool)
    requires |before| <= limit && before <= target && AllHitsIn(hash, index, tokens, target)
    ensures before <= matched <= target && (over <==> |matched| > limit)
    ensures !over ==> AllHitsIn(hash, index, tokens, matched)
  {
    matched, over := before, false;
    var todo := set key | key in index :: key.0;
    ghost var counts := todo;
    while todo != {}
      invariant todo <= counts && before <= matched <= target && |matched| <= limit
      invariant forall count :: count in counts - todo ==>
                  HitsOfLengthIn(hash, index, tokens, count, |tokens| + 1, matched)
      decreases |todo|
    {
      var count :| count in todo;
      ghost var previous, done := matched, counts - todo;
      matched, over := SlideWindow(hash, index, tokens, count, matched, limit, target);
      if over {
        return;
      }
      todo := todo - {count};
      forall c | c in counts - todo ensures HitsOfLengthIn(hash, index, tokens, c, |tokens| + 1, matched) {
        if c != count {
          assert c in done;
          assert HitsOfLengthIn(hash, index, tokens, c, |tokens| + 1, previous);
        }
      }
    }
    forall count: nat, start: nat, id | HitAt(hash, index, tokens, count, start, id) ensures id in matched {
      var key := (count, DigestTokens(hash, tokens[start..start + count]));
      assert key in index && key.0 in counts - todo;
      assert HitsOfLengthIn(hash, index, tokens, count, |tokens| + 1, matched);
    }
  }

  method SearchAll(hash: string -> string, index: Index, projections: seq<seq<string>>, before: set<string>, limit: nat,
                   ghost target: set<string>)
    returns (matched: set<string>, over: bool)
    requires |before| <= limit && before <= target
    requires forall i :: 0 <= i < |projections| ==> AllHitsIn(hash, index, projections[i], target)
    ensures before <= matched <= target && (over <==> |matched| > limit)
    ensures !over ==> forall i :: 0 <= i < |projections| ==> AllHitsIn(hash, index, projections[i], matched)
  {
    matched, over := before, false;
    for n := 0 to |projections|
      invariant before <= matched <= target && |matched| <= limit
      invariant forall i :: 0 <= i < n ==> AllHitsIn(hash, index, projections[i], matched)
    {
      ghost var previous := matched;
      matched, over := SearchTokens(hash, index, projections[n], matched, limit, target);
      if over {
        return;
      }
      forall i | 0 <= i < n ensures AllHitsIn(hash, index, projections[i], matched) {
        assert AllHitsIn(hash, index, projections[i], previous);
      }
    }
  }

  ghost predicate KindSearched(hash: string -> string, p: Projections, index: Index, kind: MatchKind, ids: set<string>)
  {
    forall i :: 0 <= i < |Of(p, kind)| ==> AllHitsIn(hash, index, Of(p, kind)[i], ids)
  }

  method SearchKinds(hash: string -> string, p: Projections, indexes: map<MatchKind, Index>, limit: nat,
                     ghost target: set<string>)
    returns (matched: set<string>, over: bool)
    requires forall kind :: kind in indexes && KindSearched(hash, p, indexes[kind], kind, target)
    ensures matched <= target && (over <==> |matched| > limit)
    ensures !over ==> forall kind :: KindSearched(hash, p, indexes[kind], kind, matched)
  {
    assert KindSearched(hash, p, indexes[NormalizedFullText], NormalizedFullText, target);
    assert KindSearched(hash, p, indexes[TokenWindow], TokenWindow, target);
    assert KindSearched(hash, p, indexes[PathComponent], PathComponent, target);
    matched, over := SearchAll(hash, indexes[NormalizedFullText], Of(p, NormalizedFullText), {}, limit, target);
    if over { return; }
    ghost var first := matched;
    matched, over := SearchAll(hash, indexes[TokenWindow], Of(p, TokenWindow), matched, limit, target);
    if over { return; }
    ghost var second := matched;
    matched, over := SearchAll(hash, indexes[PathComponent], Of(p, PathComponent), matched, limit, target);
    if over { return; }
    assert KindSearched(hash, p, indexes[NormalizedFullText], NormalizedFullText, first);
    assert KindSearched(hash, p, indexes[TokenWindow], TokenWindow, second);
    forall kind: MatchKind ensures KindSearched(hash, p, indexes[kind], kind, matched) {
      match kind
      case NormalizedFullText =>
      case TokenWindow =>
      case PathComponent =>
    }
  }

  // ------------------------------------------------------------------ results

  lemma HitsAreMatches(hash: string -> string, p: Projections, fs: seq<Fingerprint>, kind: MatchKind, index: Index,
                       i: nat)
    requires IsIndex(index, fs, kind) && i < |Of(p, kind)|
    ensures AllHitsIn(hash, index, Of(p, kind)[i], TrueMatches(hash, p, fs))
  {
    var tokens := Of(p, kind)[i];
    forall count: nat, start: nat, id | HitAt(hash, index, tokens, count, start, id)
      ensures id in TrueMatches(hash, p, fs)
    {
      var key := (count, DigestTokens(hash, tokens[start..start + count]));
      assert id in Listed(fs, kind, key);
      var f :| f in fs && f.kind == kind && f.tokenCount == key.0 && f.digest == key.1 && f.id == id;
      assert WindowAt(hash, tokens, count, f.digest, start);
      assert HasWindow(hash, tokens, f.tokenCount, f.digest) && tokens in Of(p, f.kind);
      assert Matches(hash, p, f);
    }
  }

  lemma MatchesAreHits(hash: string -> string, p: Projections, fs: seq<Fingerprint>, indexes: map<MatchKind, Index>,
                       ids: set<string>)
    requires forall kind :: kind in indexes && IsIndex(indexes[kind], fs, kind)
    requires forall kind :: KindSearched(hash, p, indexes[kind], kind, ids)
    ensures TrueMatches(hash, p, fs) <= ids
  {
    forall f | f in fs && Matches(hash, p, f) ensures f.id in ids {
      var tokens :| tokens in Of(p, f.kind) && HasWindow(hash, tokens, f.tokenCount, f.digest);
      var start: nat :| WindowAt(hash, tokens, f.tokenCount, f.digest, start);
      var i :| 0 <= i < |Of(p, f.kind)| && Of(p, f.kind)[i] == tokens;
      assert f.id in Listed(fs, f.kind, (f.tokenCount, f.digest));
      assert HitAt(hash, indexes[f.kind], tokens, f.tokenCount, start, f.id);
    }
  }

  /** `tuple(sorted(ids))`. */
  method SortedIds(ids: set<string>) returns (r: seq<string>)
    ensures SortedBy(r, TextKey) && (set id | id in r) == ids && |r| == |ids|
  {
    var todo, listed := ids, [];
    while todo != {}
      invariant todo <= ids && (set id | id in listed) == ids - todo && |listed| + |todo| == |ids|
      decreases |todo|
    {
      var id :| id in todo;
      assert (set x | x in listed + [id]) == (set x | x in listed) + {id};
      todo, listed := todo - {id}, listed + [id];
    }
    r := Sort(listed, TextKey);
    SortKeepsElements(listed);
  }

  lemma SortKeepsElements(ids: seq<string>)
    ensures SortedBy(Sort(ids, TextKey), TextKey)
    ensures |Sort(ids, TextKey)| == |ids|
    ensures (set id | id in Sort(ids, TextKey)) == set id | id in ids
  {
    var r := Sort(ids, TextKey);
    SortSorts(ids, TextKey);
    assert |r| == |multiset(r)| == |multiset(ids)| == |ids|;
    forall id ensures id in r <==> id in ids {
      SortedTextsSameElements(ids, id);
    }
  }

  /** `_matched_fingerprint_ids`; None is the SCAN_LIMIT_EXCEEDED abort. It
      aborts exactly when the true match set is larger than the limit, and
      otherwise returns that set, sorted, whatever the order of iteration. */
  method MatchedFingerprintIds(hash: string -> string, p: Projections, fs: seq<Fingerprint>, limit: nat)
    returns (r: Option<seq<string>>)
    ensures r.None? <==> |TrueMatches(hash, p, fs)| > limit
    ensures r.Some? ==> SortedBy(r.value, TextKey) && |r.value| == |TrueMatches(hash, p, fs)|
    ensures r.Some? ==> (set id | id in r.value) == TrueMatches(hash, p, fs)
  {
    var indexes := BuildIndexes(fs);
    ghost var target := TrueMatches(hash, p, fs);
    forall kind: MatchKind ensures KindSearched(hash, p, indexes[kind], kind, target) {
      forall i | 0 <= i < |Of(p, kind)| ensures AllHitsIn(hash, indexes[kind], Of(p, kind)[i], target) {
        HitsAreMatches(hash, p, fs, kind, indexes[kind], i);
      }
    }
    var matched, over := SearchKinds(hash, p, indexes, limit, target);
    if over {
      SubsetIsNoLarger(matched, target);
      return None;
    }
    MatchesAreHits(hash, p, fs, indexes, matched);
    assert matched == target;
    var ids := SortedIds(matched);
    r := Some(ids);
  }

  lemma {:induction false} SubsetIsNoLarger(a: set<string>, b: set<string>)
    requires a <= b
    ensures |a| <= |b|
  {
    if a != {} {
      var x :| x in a;
      SubsetIsNoLarger(a - {x}, b - {x});
    }
  }

  /** With an injective hash, a fingerprint taken of the tokens `t` matches exactly
      when `t` itself occurs as a run of tokens in a projection of its kind. */
  lemma MatchMeansSameTokens(isWord: char -> bool, hash: string -> string, p: Projections, f: Fingerprint,
                             t: seq<string>)
    requires WordRules(isWord) && AllTokens(isWord, t)
    requires forall x, y :: hash(x) == hash(y) ==> x == y
    requires forall tokens :: tokens in Of(p, f.kind) ==> AllTokens(isWord, tokens)
    requires f.tokenCount == |t| && f.digest == DigestTokens(hash, t)
    ensures Matches(hash, p, f) <==>
      exists tokens, start: nat :: tokens in Of(p, f.kind) && Occurs(t, tokens, start)
  {
    if Matches(hash, p, f) {
      var tokens :| tokens in Of(p, f.kind) && HasWindow(hash, tokens, f.tokenCount, f.digest);
      var start: nat :| WindowAt(hash, tokens, f.tokenCount, f.digest, start);
      WindowMeansSameTokens(isWord, hash, tokens, t, start);
      assert Occurs(t, tokens, start);
    }
    if tokens, start: nat :| tokens in Of(p, f.kind) && Occurs(t, tokens, start) {
      WindowMeansSameTokens(isWord, hash, tokens, t, start);
      assert HasWindow(hash, tokens, f.tokenCount, f.digest);
    }
  }

  lemma WindowMeansSameTokens(isWord: char -> bool, hash: string -> string, tokens: seq<string>, t: seq<string>,
                              start: nat)
    requires WordRules(isWord) && AllTokens(isWord, t) && AllTokens(isWord, tokens)
    requires forall x, y :: hash(x) == hash(y) ==> x == y
    ensures WindowAt(hash, tokens, |t|, DigestTokens(hash, t), start) <==> Occurs(t, tokens, start)
  {
    if start + |t| <= |tokens| {
      DigestsEqualIffTokensEqual(isWord, hash, tokens[start..start + |t|], t);
    }
  }

  ghost predicate Occurs(t: seq<string>, tokens: seq<string>, start: nat)
  {
    start + |t| <= |tokens| && tokens[start..start + |t|] == t
  }
}
