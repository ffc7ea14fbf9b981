/** The tokenizer both attachment scanners share: the matches of the pattern
    `[\w]+(?:[._/-][\w]+)*`, left to right, in an already normalised text. */
module Tokens {

  /** The facts about `\w` that matter here: the underscore is a word character,
      the other connectors and the space are not. */
  ghost predicate WordRules(isWord: char -> bool)
  {
    isWord('_') && !isWord('.') && !isWord('/') && !isWord('-') && !isWord(' ')
  }

  predicate IsConnector(c: char)
  {
    c == '.' || c == '_' || c == '/' || c == '-'
  }

  /** Where the run of word characters that starts at `i` ends. */
  function RunEnd(isWord: char -> bool, s: string, i: nat): (n: nat)
    requires i <= |s|
    ensures i <= n <= |s|
    decreases |s| - i
  {
    if i < |s| && isWord(s[i]) then RunEnd(isWord, s, i + 1) else i
  }

  /** A run that ends at `n` goes on behind a connector. */
  predicate Continues(isWord: char -> bool, s: string, n: nat)
  {
    n + 1 < |s| && IsConnector(s[n]) && isWord(s[n + 1])
  }

  /** Where the greedy match that starts at `i`, with a word character, ends. */
  function TokenEnd(isWord: char -> bool, s: string, i: nat): (n: nat)
    requires i < |s| && isWord(s[i])
    ensures i < n <= |s|
    decreases |s| - i
  {
    var run := RunEnd(isWord, s, i);
    if Continues(isWord, s, run) then TokenEnd(isWord, s, run + 1) else run
  }

  function Scan(isWord: char -> bool, s: string): seq<string>
    decreases |s|
  {
    if s == "" then []
    else if isWord(s[0]) then
      var n := TokenEnd(isWord, s, 0);
      [s[..n]] + Scan(isWord, s[n..])
    else Scan(isWord, s[1..])
  }

  /** A text that is one token from end to end. */
  predicate IsToken(isWord: char -> bool, t: string)
  {
    t != "" && isWord(t[0]) && TokenEnd(isWord, t, 0) == |t|
  }

  ghost predicate AllTokens(isWord: char -> bool, tokens: seq<string>)
  {
    forall i :: 0 <= i < |tokens| ==> IsToken(isWord, tokens[i])
  }

  /** Tokens joined by single spaces. */
  function Join(tokens: seq<string>): string
  {
    if tokens == [] then ""
    else if |tokens| == 1 then tokens[0]
    else tokens[0] + " " + Join(tokens[1..])
  }

  lemma {:induction false} RunIsLongest(isWord: char -> bool, s: string, i: nat)
    requires i <= |s|
    ensures forall k :: i <= k < RunEnd(isWord, s, i) ==> isWord(s[k])
    ensures RunEnd(isWord, s, i) < |s| ==> !isWord(s[RunEnd(isWord, s, i)])
    decreases |s| - i
  {
    if i < |s| && isWord(s[i]) {
      RunIsLongest(isWord, s, i + 1);
    }
  }

  lemma {:induction false} RunEndOfPrefix(isWord: char -> bool, s: string, i: nat, n: nat)
    requires i <= n <= |s|
    ensures RunEnd(isWord, s[..n], i) == if RunEnd(isWord, s, i) < n then RunEnd(isWord, s, i) else n
    decreases n - i
  {
    if i < n && isWord(s[i]) {
      RunEndOfPrefix(isWord, s, i + 1, n);
    }
  }

  /** The character at `n` is neither part of a word nor a connector. */
  predicate Breaks(isWord: char -> bool, s: string, n: nat)
  {
    n < |s| ==> !isWord(s[n]) && !IsConnector(s[n])
  }

  lemma {:induction false} RunStopsAtBreak(isWord: char -> bool, s: string, i: nat, n: nat)
    requires i <= n <= |s| && Breaks(isWord, s, n)
    ensures RunEnd(isWord, s, i) <= n
    decreases n - i
  {
    if i < n && isWord(s[i]) {
      RunStopsAtBreak(isWord, s, i + 1, n);
    }
  }

  /** Where a text breaks, what follows does not change where a token ends. */
  lemma {:induction false} TokenEndsAtBreak(isWord: char -> bool, s: string, i: nat, n: nat)
    requires i < n <= |s| && isWord(s[i]) && Breaks(isWord, s, n)
    ensures TokenEnd(isWord, s[..n], i) == TokenEnd(isWord, s, i)
    decreases n - i
  {
    var run := RunEnd(isWord, s, i);
    RunStopsAtBreak(isWord, s, i, n);
    RunEndOfPrefix(isWord, s, i, n);
    assert Continues(isWord, s[..n], run) <==> Continues(isWord, s, run);
    if Continues(isWord, s, run) {
      TokenEndsAtBreak(isWord, s, run + 1, n);
    }
  }

  /** The match, cut out, is a token on its own. */
  lemma {:induction false} MatchIsToken(isWord: char -> bool, s: string, i: nat)
    requires i < |s| && isWord(s[i])
    ensures
      var n := TokenEnd(isWord, s, i);
      TokenEnd(isWord, s[..n], i) == n
    decreases |s| - i
  {
    var run, n := RunEnd(isWord, s, i), TokenEnd(isWord, s, i);
    RunEndOfPrefix(isWord, s, i, n);
    if Continues(isWord, s, run) {
      MatchIsToken(isWord, s, run + 1);
    }
  }

  lemma {:induction false} ScanGivesTokens(isWord: char -> bool, s: string)
    ensures AllTokens(isWord, Scan(isWord, s))
    decreases |s|
  {
    if s != "" {
      if isWord(s[0]) {
        MatchIsToken(isWord, s, 0);
        ScanGivesTokens(isWord, s[TokenEnd(isWord, s, 0)..]);
      } else {
        ScanGivesTokens(isWord, s[1..]);
      }
    }
  }

  /** Scanning the joined tokens gives the same tokens back. */
  lemma {:induction false} ScanAfterJoin(isWord: char -> bool, tokens: seq<string>)
    requires WordRules(isWord) && AllTokens(isWord, tokens)
    ensures Scan(isWord, Join(tokens)) == tokens
  {
    if tokens != [] {
      var t := tokens[0];
      if |tokens| == 1 {
        assert t[..|t|] == t && t[|t|..] == "";
        assert Scan(isWord, "") == [];
      } else {
        var rest := " " + Join(tokens[1..]);
        var s := t + rest;
        assert Join(tokens) == s;
        assert s[..|t|] == t && s[|t|..] == rest;
        TokenEndsAtBreak(isWord, s, 0, |t|);
        assert rest[1..] == Join(tokens[1..]);
        ScanAfterJoin(isWord, tokens[1..]);
      }
    }
  }

  /** Hence rescanning the join of a scan changes nothing. */
  lemma RescanIsStable(isWord: char -> bool, s: string)
    requires WordRules(isWord)
    ensures Scan(isWord, Join(Scan(isWord, s))) == Scan(isWord, s)
  {
    ScanGivesTokens(isWord, s);
    ScanAfterJoin(isWord, Scan(isWord, s));
  }

  /** Joining loses nothing: with an injective hash, two token lists have the same
      digest exactly when they are equal. */
  lemma DigestsEqualIffTokensEqual(isWord: char -> bool, hash: string -> string, a: seq<string>, b: seq<string>)
    requires WordRules(isWord) && AllTokens(isWord, a) && AllTokens(isWord, b)
    requires forall x, y :: hash(x) == hash(y) ==> x == y
    ensures hash(Join(a)) == hash(Join(b)) <==> a == b
  {
    ScanAfterJoin(isWord, a);
    ScanAfterJoin(isWord, b);
  }

  function WordCharacters(isWord: char -> bool, s: string): string
  {
    if s == "" then "" else (if isWord(s[0]) then [s[0]] else []) + WordCharacters(isWord, s[1..])
  }

  function Concat(texts: seq<string>): string
  {
    if texts == [] then "" else texts[0] + Concat(texts[1..])
  }

  lemma {:induction false} WordCharactersConcat(isWord: char -> bool, a: string, b: string)
    ensures WordCharacters(isWord, a + b) == WordCharacters(isWord, a) + WordCharacters(isWord, b)
  {
    if a == "" {
      assert a + b == b;
    } else {
      WordCharactersConcat(isWord, a[1..], b);
      assert (a + b)[1..] == a[1..] + b;
      var head := if isWord(a[0]) then [a[0]] else [];
      assert WordCharacters(isWord, a) == head + WordCharacters(isWord, a[1..]);
      assert WordCharacters(isWord, a + b) == head + WordCharacters(isWord, a[1..] + b);
    }
  }

  /** Every word character of the text is in some token, once and in order. */
  lemma {:induction false} ScanKeepsWordCharacters(isWord: char -> bool, s: string)
    ensures WordCharacters(isWord, Concat(Scan(isWord, s))) == WordCharacters(isWord, s)
    decreases |s|
  {
    if s != "" {
      if isWord(s[0]) {
        var n := TokenEnd(isWord, s, 0);
        ScanKeepsWordCharacters(isWord, s[n..]);
        WordCharactersConcat(isWord, s[..n], Concat(Scan(isWord, s[n..])));
        WordCharactersConcat(isWord, s[..n], s[n..]);
        assert s == s[..n] + s[n..];
      } else {
        ScanKeepsWordCharacters(isWord, s[1..]);
      }
    }
  }

  // ------------------------------------------------------- tokens in the text

  /** The characters at `k - 1` and `k` belong together: both are word characters, or one
      is a dot, underscore, slash or hyphen with word characters on both sides. */
  ghost predicate Glued(isWord: char -> bool, s: string, k: nat)
  {
    && 0 < k < |s|
    && (isWord(s[k]) || (s[k] in "._/-" && k + 1 < |s| && isWord(s[k + 1])))
    && (isWord(s[k - 1]) || (s[k - 1] in "._/-" && k > 1 && isWord(s[k - 2])))
    && (isWord(s[k - 1]) || isWord(s[k]))
  }

  /** A token goes on as long as the characters belong together, and no longer. */
  lemma {:induction false} TokenExtent(isWord: char -> bool, s: string, i: nat)
    requires i < |s| && isWord(s[i])
    ensures
      var n := TokenEnd(isWord, s, i);
      (forall k :: i < k < n ==> Glued(isWord, s, k)) && !Glued(isWord, s, n) && isWord(s[n - 1])
    decreases |s| - i
  {
    var run := RunEnd(isWord, s, i);
    RunIsLongest(isWord, s, i);
    if Continues(isWord, s, run) {
      TokenExtent(isWord, s, run + 1);
    }
  }

  lemma {:induction false} RunEndShift(isWord: char -> bool, s: string, i: nat, j: nat)
    requires i + j <= |s|
    ensures RunEnd(isWord, s[i..], j) + i == RunEnd(isWord, s, i + j)
    decreases |s| - j
  {
    if i + j < |s| && isWord(s[i + j]) {
      RunEndShift(isWord, s, i, j + 1);
    }
  }

  lemma {:induction false} TokenEndShift(isWord: char -> bool, s: string, i: nat, j: nat)
    requires i + j < |s| && isWord(s[i + j])
    ensures TokenEnd(isWord, s[i..], j) + i == TokenEnd(isWord, s, i + j)
    decreases |s| - j
  {
    var run := RunEnd(isWord, s[i..], j);
    RunEndShift(isWord, s, i, j);
    if Continues(isWord, s[i..], run) {
      TokenEndShift(isWord, s, i, run + 1);
    }
  }

  /** The stretch from `start` to `end` is a whole token of the text. */
  ghost predicate IsStretch(isWord: char -> bool, s: string, start: nat, end: nat)
  {
    && start < end <= |s| && isWord(s[start]) && isWord(s[end - 1])
    && (forall k :: start < k < end ==> Glued(isWord, s, k)) && !Glued(isWord, s, end)
  }

  ghost predicate IsTokenAt(isWord: char -> bool, s: string, start: nat, token: string)
  {
    start + |token| <= |s| && IsStretch(isWord, s, start, start + |token|) && token == s[start..start + |token|]
  }

  ghost predicate Holds(start: nat, token: string, k: nat) { start <= k < start + |token| }

  /** From `i` on, the tokens are the stretches that begin at these places, one behind the
      other, and every word character is in one of them. */
  ghost predicate AreStretches(isWord: char -> bool, s: string, i: nat, starts: seq<nat>, tokens: seq<string>)
  {
    && |starts| == |tokens|
    && (forall t :: 0 <= t < |starts| ==> IsTokenAt(isWord, s, starts[t], tokens[t]))
    && InOrder(i, starts, tokens)
    && (forall k :: i <= k < |s| && isWord(s[k]) ==> IsHeld(starts, tokens, k))
  }

  ghost predicate InOrder(i: nat, starts: seq<nat>, tokens: seq<string>)
    requires |starts| == |tokens|
  {
    && (forall t :: 0 <= t < |starts| ==> i <= starts[t])
    && (forall t, u :: 0 <= t < u < |starts| ==> starts[t] + |tokens[t]| <= starts[u])
  }

  ghost predicate IsHeld(starts: seq<nat>, tokens: seq<string>, k: nat)
    requires |starts| == |tokens|
  {
    exists t :: 0 <= t < |starts| && Holds(starts[t], tokens[t], k)
  }

  /** The tokens of a text are its stretches of characters that belong together, from
      left to right, and they hold all its word characters. */
  lemma {:induction false} TokensAreStretches(isWord: char -> bool, s: string, i: nat) returns (starts: seq<nat>)
    requires i <= |s|
    ensures AreStretches(isWord, s, i, starts, Scan(isWord, s[i..]))
    decreases |s| - i
  {
    if i == |s| {
      starts := [];
    } else if isWord(s[i]) {
      var n := TokenEnd(isWord, s, i);
      TokenExtent(isWord, s, i);
      var later := TokensAreStretches(isWord, s, n);
      StretchesStep(isWord, s, i, n, later, Scan(isWord, s[n..]));
      ScanStep(isWord, s, i);
      starts := [i] + later;
    } else {
      starts := TokensAreStretches(isWord, s, i + 1);
      ScanSkips(isWord, s, i);
      StretchesSkip(isWord, s, i, starts, Scan(isWord, s[i + 1..]));
    }
  }

  lemma ScanSkips(isWord: char -> bool, s: string, i: nat)
    requires i < |s| && !isWord(s[i])
    ensures Scan(isWord, s[i..]) == Scan(isWord, s[i + 1..])
  {
    var t := s[i..];
    assert t[0] == s[i] && t[1..] == s[i + 1..];
  }

  lemma StretchesSkip(isWord: char -> bool, s: string, i: nat, starts: seq<nat>, tokens: seq<string>)
    requires i < |s| && !isWord(s[i]) && AreStretches(isWord, s, i + 1, starts, tokens)
    ensures AreStretches(isWord, s, i, starts, tokens)
  {
  }

  lemma ScanStep(isWord: char -> bool, s: string, i: nat)
    requires i < |s| && isWord(s[i])
    ensures
      var n := TokenEnd(isWord, s, i);
      Scan(isWord, s[i..]) == [s[i..n]] + Scan(isWord, s[n..])
  {
    var t, n := s[i..], TokenEnd(isWord, s, i);
    TokenEndShift(isWord, s, i, 0);
    ScanFirst(isWord, t);
    assert t[n - i..] == s[n..] && t[..n - i] == s[i..n];
  }

  lemma ScanFirst(isWord: char -> bool, t: string)
    requires t != "" && isWord(t[0])
    ensures Scan(isWord, t) == [t[..TokenEnd(isWord, t, 0)]] + Scan(isWord, t[TokenEnd(isWord, t, 0)..])
  {
  }

  lemma StretchesStep(isWord: char -> bool, s: string, i: nat, n: nat, starts: seq<nat>, tokens: seq<string>)
    requires n <= |s| && IsStretch(isWord, s, i, n) && AreStretches(isWord, s, n, starts, tokens)
    ensures AreStretches(isWord, s, i, [i] + starts, [s[i..n]] + tokens)
  {
    var ss, ts := [i] + starts, [s[i..n]] + tokens;
    assert IsTokenAt(isWord, s, i, s[i..n]);
    OrderStep(i, s[i..n], n, starts, tokens);
    forall k | i <= k < |s| && isWord(s[k]) ensures IsHeld(ss, ts, k) {
      HeldStep(i, s[i..n], starts, tokens, k);
    }
  }

  lemma OrderStep(i: nat, token: string, n: nat, starts: seq<nat>, tokens: seq<string>)
    requires |starts| == |tokens| && InOrder(n, starts, tokens) && i + |token| == n
    ensures InOrder(i, [i] + starts, [token] + tokens)
  {
    var ss, ts := [i] + starts, [token] + tokens;
    assert forall t :: 1 <= t < |ss| ==> ss[t] == starts[t - 1] && ts[t] == tokens[t - 1];
  }

  lemma HeldStep(i: nat, token: string, starts: seq<nat>, tokens: seq<string>, k: nat)
    requires |starts| == |tokens| && (IsHeld(starts, tokens, k) || Holds(i, token, k))
    ensures IsHeld([i] + starts, [token] + tokens, k)
  {
    var ss, ts := [i] + starts, [token] + tokens;
    assert ss[0] == i && ts[0] == token;
    if !Holds(i, token, k) {
      var t :| 0 <= t < |starts| && Holds(starts[t], tokens[t], k);
      assert Holds(ss[t + 1], ts[t + 1], k);
    }
  }
}
