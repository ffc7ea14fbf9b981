/** `select_canaries` as a loop over mutable counters and a shrinking dictionary. */
module CanarySelector {
  import opened Prelude
  import opened Canaries

  /** A `collections.Counter`. */
  type Counter = map<string, nat>

  function Get(c: Counter, t: string): nat { if t in c then c[t] else 0 }

  /** The counter holds the counts over the selected scans. */
  ghost predicate Counts(c: Counter, selected: seq<Scan>, a: Aspect)
  {
    forall t :: Get(c, t) == Count(selected, a, t)
  }

  method Update(c: Counter, traits: set<string>, ghost selected: seq<Scan>, ghost s: Scan, ghost a: Aspect)
    returns (updated: Counter)
    requires Counts(c, selected, a) && traits == Traits(s, a)
    ensures Counts(updated, selected + [s], a)
  {
    updated := c;
    var todo := traits;
    while todo != {}
      invariant todo <= traits
      invariant forall t :: Get(updated, t) == Get(c, t) + if t in traits - todo then 1 else 0
      decreases |todo|
    {
      var t :| t in todo;
      updated := updated[t := Get(updated, t) + 1];
      todo := todo - {t};
    }
    forall t ensures Get(updated, t) == Count(selected + [s], a, t) {
      CountAppend(selected, s, a, t);
    }
  }

  method GainFrom(targets: seq<Target>, c: Counter, traits: set<string>, ghost selected: seq<Scan>, ghost a: Aspect)
    returns (gain: nat)
    requires Counts(c, selected, a)
    ensures gain == Gain(targets, selected, a, traits)
  {
    gain := 0;
    for i := 0 to |targets|
      invariant gain == Gain(targets[..i], selected, a, traits)
    {
      assert targets[..i + 1][..i] == targets[..i];
      if targets[i].name in traits {
        gain := gain + Missing(targets[i].minimum, Get(c, targets[i].name));
      }
    }
    assert targets[..|targets|] == targets;
  }

  datatype Counters = Counters(verified: Counter, candidates: Counter, categories: Counter)

  ghost predicate AllCounts(c: Counters, selected: seq<Scan>)
  {
    Counts(c.verified, selected, Verified) && Counts(c.candidates, selected, Candidate)
    && Counts(c.categories, selected, Category)
  }

  /** The `score` closure. */
  method ScoreFrom(c: Counters, s: Scan, ghost selected: seq<Scan>) returns (score: Score)
    requires AllCounts(c, selected)
    ensures score == ScoreOf(selected, s)
  {
    var target := GainFrom(VERIFIED_TARGETS, c.verified, s.verified, selected, Verified);
    var candidate := GainFrom(ANNOTATION_TARGETS, c.candidates, s.candidates, selected, Candidate);
    var rare := set t | t in s.verified && Get(c.verified, t) == 0;
    assert rare == set t | t in s.verified && Count(selected, Verified, t) == 0;
    score := Score(target, candidate,
                   if s.category != "" && Get(c.categories, s.category) == 0 then 3 else 0,
                   (if s.strictEvents then 2 else 0) + |rare|,
                   s.id);
  }

  /** `max(remaining.values(), key=score)`, in any order of iteration. */
  method Best(pool: Pool, c: Counters, ghost selected: seq<Scan>) returns (best: Scan)
    requires pool.Keys != {} && Keyed(pool) && AllCounts(c, selected)
    ensures IsBest(pool, selected, best)
  {
    var todo := pool.Keys;
    var id :| id in todo;
    best := pool[id];
    var top := ScoreFrom(c, best, selected);
    todo := todo - {id};
    ScoreLeqIsTotalOrder(top, top, top);
    while todo != {}
      invariant todo <= pool.Keys && best.id in pool && pool[best.id] == best
      invariant top == ScoreOf(selected, best)
      invariant forall k :: k in pool.Keys - todo ==> ScoreLeq(ScoreOf(selected, pool[k]), top)
      decreases |todo|
    {
      var k :| k in todo;
      var score := ScoreFrom(c, pool[k], selected);
      ghost var done, bar := pool.Keys - todo, top;
      if !ScoreLeq(score, top) {
        best, top := pool[k], score;
      }
      todo := todo - {k};
      forall j | j in pool.Keys - todo ensures ScoreLeq(ScoreOf(selected, pool[j]), top) {
        ScoreLeqIsTotalOrder(score, bar, score);
        if j != k {
          assert j in done;
          ScoreLeqIsTotalOrder(ScoreOf(selected, pool[j]), bar, top);
        }
      }
    }
  }

  lemma PoolShrinks(pool: Pool, picks: seq<Scan>, s: Scan)
    requires s.id in pool - Ids(picks)
    ensures (pool - Ids(picks)) - {s.id} == pool - Ids(picks + [s])
    ensures |pool - Ids(picks + [s])| == |pool - Ids(picks)| - 1
  {
    IdsAppend(picks, s);
    var rest := pool - Ids(picks);
    assert (rest - {s.id}).Keys == rest.Keys - {s.id};
    assert rest - {s.id} == pool - Ids(picks + [s]);
  }

  method BuildPool(scans: seq<Scan>) returns (pool: Pool)
    ensures pool == PoolOf(scans)
  {
    pool := map[];
    for i := 0 to |scans|
      invariant pool == PoolOf(scans[..i])
    {
      assert scans[..i + 1][..i] == scans[..i];
      pool := pool[scans[i].id := scans[i]];
    }
    assert scans[..|scans|] == scans;
  }

  lemma GreedyAppend(pool: Pool, picks: seq<Scan>, s: Scan)
    requires Greedy(pool, picks) && IsBest(pool - Ids(picks), picks, s)
    ensures Greedy(pool, picks + [s])
  {
    assert (picks + [s])[..|picks|] == picks;
  }

  /** All three counters take in one more selected scan. */
  method Absorb(c: Counters, s: Scan, ghost selected: seq<Scan>) returns (updated: Counters)
    requires AllCounts(c, selected)
    ensures AllCounts(updated, selected + [s])
  {
    var verified := Update(c.verified, s.verified, selected, s, Verified);
    var candidates := Update(c.candidates, s.candidates, selected, s, Candidate);
    var category := if s.category == "" then {} else {s.category};
    var categories := Update(c.categories, category, selected, s, Category);
    updated := Counters(verified, candidates, categories);
  }

  /** The state of the loop after some picks. */
  ghost predicate Picking(pool: Pool, remaining: Pool, counters: Counters, selected: seq<Scan>)
  {
    && Greedy(pool, selected) && AllCounts(counters, selected)
    && remaining == pool - Ids(selected) && |remaining| == |pool| - |selected|
  }

  method PickNext(remaining: Pool, counters: Counters, selected: seq<Scan>, ghost pool: Pool)
    returns (left: Pool, updated: Counters, chosen: seq<Scan>)
    requires Keyed(pool) && remaining.Keys != {} && Picking(pool, remaining, counters, selected)
    ensures Picking(pool, left, updated, chosen) && |chosen| == |selected| + 1
  {
    var candidate := Best(remaining, counters, selected);
    PoolShrinks(pool, selected, candidate);
    GreedyAppend(pool, selected, candidate);
    updated := Absorb(counters, candidate, selected);
    left := remaining - {candidate.id};
    chosen := selected + [candidate];
  }

  /** None is the ValueError: a target out of range, more than there are scans, or
      (with repeated ids) more than there are distinct scans to pick from. */
  method SelectCanaries(scans: seq<Scan>, target: int) returns (r: Option<seq<Scan>>)
    ensures r.Some? <==>
              MIN_TARGET_COUNT <= target <= MAX_TARGET_COUNT && target <= |scans| && target <= |PoolOf(scans)|
    ensures r.Some? ==> IsSelection(scans, target, r.value)
  {
    if !(MIN_TARGET_COUNT <= target <= MAX_TARGET_COUNT) || target > |scans| { return None; }
    var remaining := BuildPool(scans);
    ghost var pool := PoolOf(scans);
    PoolIsKeyed(scans);
    var selected: seq<Scan> := [];
    var counters := Counters(map[], map[], map[]);
    assert Ids(selected) == {};
    assert pool - {} == pool;
    while |selected| < target
      invariant |selected| <= target
      invariant Picking(pool, remaining, counters, selected)
    {
      if remaining.Keys == {} {
        assert |remaining| == |remaining.Keys| == 0;
        return None;
      }
      remaining, counters, selected := PickNext(remaining, counters, selected, pool);
    }
    assert |remaining| >= 0;
    r := Some(Sort(selected, ScanKey));
  }

  // ----------------------------------------------- the guarantee on the result

  lemma {:induction false} CountWithout(s: seq<Scan>, i: nat, a: Aspect, t: string)
    requires i < |s|
    ensures Count(s, a, t) == Count(Without(s, i), a, t) + if t in Traits(s[i], a) then 1 else 0
  {
    var n := |s| - 1;
    if i == n {
      assert Without(s, i) == s[..n];
    } else {
      CountWithout(s[..n], i, a, t);
      assert Without(s, i) == Without(s[..n], i) + [s[n]];
      CountAppend(Without(s[..n], i), s[n], a, t);
    }
  }

  lemma {:induction false} CountIgnoresOrder(x: seq<Scan>, y: seq<Scan>, a: Aspect, t: string)
    requires multiset(x) == multiset(y)
    ensures Count(x, a, t) == Count(y, a, t)
  {
    if x == [] {
      assert |y| == |multiset(y)| == |multiset(x)| == 0;
    } else {
      var i := PlaceOfLast(x, y);
      CountIgnoresOrder(x[..|x| - 1], Without(y, i), a, t);
      CountWithout(y, i, a, t);
    }
  }

  lemma {:induction false} DeficitIgnoresOrder(targets: seq<Target>, x: seq<Scan>, y: seq<Scan>)
    requires multiset(x) == multiset(y)
    ensures Deficit(targets, x) == Deficit(targets, y)
  {
    if targets != [] {
      DeficitIgnoresOrder(targets[..|targets| - 1], x, y);
      CountIgnoresOrder(x, y, Verified, targets[|targets| - 1].name);
    }
  }

  lemma ExhaustedIgnoresOrder(pool: Pool, x: seq<Scan>, y: seq<Scan>)
    requires multiset(x) == multiset(y) && Exhausted(pool, x)
    ensures Exhausted(pool, y)
  {
    forall t ensures Count(y, Verified, t) == Count(x, Verified, t) {
      CountIgnoresOrder(x, y, Verified, t);
    }
  }

  lemma IdsIgnoreOrder(x: seq<Scan>, y: seq<Scan>)
    requires multiset(x) == multiset(y)
    ensures Ids(x) == Ids(y) && |x| == |y|
  {
    assert |x| == |multiset(x)| == |multiset(y)| == |y|;
    forall s ensures s in x <==> s in y {
      assert s in x <==> s in multiset(x);
      assert s in y <==> s in multiset(y);
    }
  }

  /** What a caller gets: the returned list is sorted by id, its ids are distinct
      members of the pool, and either it has lowered the total verified deficit by
      its length or no scan left out carries an unmet verified trait. */
  lemma SelectionGuarantee(scans: seq<Scan>, target: nat, r: seq<Scan>)
    requires IsSelection(scans, target, r)
    ensures |r| == target && SortedBy(r, ScanKey) && Ids(r) <= PoolOf(scans).Keys && |Ids(r)| == target
    ensures || Deficit(VERIFIED_TARGETS, r) + target <= Deficit(VERIFIED_TARGETS, [])
            || Exhausted(PoolOf(scans) - Ids(r), r)
  {
    var pool := PoolOf(scans);
    var picks :| Greedy(pool, picks) && |picks| == target && r == Sort(picks, ScanKey);
    SortSorts(picks, ScanKey);
    IdsIgnoreOrder(r, picks);
    PicksAreDistinct(pool, picks);
    DeficitIgnoresOrder(VERIFIED_TARGETS, r, picks);
    DeficitDropsOrPoolIsExhausted(pool, picks);
    if Exhausted(pool - Ids(picks), picks) {
      ExhaustedIgnoresOrder(pool - Ids(picks), picks, r);
    }
  }

  lemma {:induction false} PicksAreDistinct(pool: Pool, picks: seq<Scan>)
    requires Greedy(pool, picks)
    ensures Ids(picks) <= pool.Keys && |Ids(picks)| == |picks|
  {
    if picks != [] {
      var front, s := picks[..|picks| - 1], picks[|picks| - 1];
      PicksAreDistinct(pool, front);
      assert picks == front + [s];
      IdsAppend(front, s);
    }
  }
}
