/** Greedy selection of canary traces by coverage. */
module Canaries {
  import opened Prelude

  datatype Scan = Scan(
    id: string,
    verified: set<string>,
    candidates: set<string>,
    category: string,
    strictEvents: bool)

  datatype Target = Target(name: string, minimum: nat)

  const VERIFIED_TARGETS: seq<Target> := [
    Target("parse.strict_request", 10), Target("parse.invalid_escape", 6), Target("parse.invalid_unicode_escape", 3),
    Target("parse.invalid_response", 1), Target("size.large", 3), Target("size.small", 2),
    Target("tool.file_read", 6), Target("tool.file_write", 6), Target("tool.file_edit", 6), Target("tool.search", 3),
    Target("tool.fetch", 2), Target("tool.powershell", 1), Target("tool.error_result", 5),
    Target("flow.pre_mutation_read", 3), Target("flow.post_mutation_read", 3)]

  const ANNOTATION_TARGETS: seq<Target> := [
    Target("candidate.truncation_signal", 3), Target("candidate.continuation_signal", 3),
    Target("candidate.final_output_claim", 2), Target("candidate.no_attachment_read", 3)]

  const MIN_TARGET_COUNT := 20
  const MAX_TARGET_COUNT := 30

  /** What is counted about a scan: its verified traits, its candidate traits, or
      its category. */
  datatype Aspect = Verified | Candidate | Category

  function Traits(s: Scan, a: Aspect): set<string>
  {
    match a
    case Verified => s.verified
    case Candidate => s.candidates
    case Category => if s.category == "" then {} else {s.category}
  }

  /** How many selected scans have a trait. */
  function Count(selected: seq<Scan>, a: Aspect, t: string): nat
  {
    if selected == [] then 0
    else Count(selected[..|selected| - 1], a, t) + if t in Traits(selected[|selected| - 1], a) then 1 else 0
  }

  function Missing(minimum: nat, have: nat): nat { if minimum > have then minimum - have else 0 }

  /** What a scan with these traits adds towards the targets. */
  function Gain(targets: seq<Target>, selected: seq<Scan>, a: Aspect, traits: set<string>): nat
  {
    if targets == [] then 0
    else
      var t := targets[|targets| - 1];
      Gain(targets[..|targets| - 1], selected, a, traits)
        + if t.name in traits then Missing(t.minimum, Count(selected, a, t.name)) else 0
  }

  datatype Score = Score(targetGain: nat, candidateGain: nat, categoryGain: nat, tieGain: nat, id: string)

  function ScoreOf(selected: seq<Scan>, s: Scan): Score
  {
    Score(Gain(VERIFIED_TARGETS, selected, Verified, s.verified),
          Gain(ANNOTATION_TARGETS, selected, Candidate, s.candidates),
          if s.category != "" && Count(selected, Category, s.category) == 0 then 3 else 0,
          (if s.strictEvents then 2 else 0) + |set t | t in s.verified && Count(selected, Verified, t) == 0|,
          s.id)
  }

  /** Python's order on the score tuples. */
  predicate ScoreLeq(a: Score, b: Score)
  {
    if a.targetGain != b.targetGain then a.targetGain < b.targetGain
    else if a.candidateGain != b.candidateGain then a.candidateGain < b.candidateGain
    else if a.categoryGain != b.categoryGain then a.categoryGain < b.categoryGain
    else if a.tieGain != b.tieGain then a.tieGain < b.tieGain
    else TextLeq(a.id, b.id)
  }

  lemma ScoreLeqIsTotalOrder(a: Score, b: Score, c: Score)
    ensures ScoreLeq(a, a)
    ensures ScoreLeq(a, b) || ScoreLeq(b, a)
    ensures ScoreLeq(a, b) && ScoreLeq(b, a) ==> a == b
    ensures ScoreLeq(a, b) && ScoreLeq(b, c) ==> ScoreLeq(a, c)
  {
    TextLeqReflexive(a.id);
    TextLeqTotal(a.id, b.id);
    if TextLeq(a.id, b.id) && TextLeq(b.id, a.id) { TextLeqAntisymmetric(a.id, b.id); }
    if TextLeq(a.id, b.id) && TextLeq(b.id, c.id) { TextLeqTransitive(a.id, b.id, c.id); }
  }

  // ------------------------------------------------------------ specification

  type Pool = map<string, Scan>

  /** The dictionary by instance id; of two scans with one id the later one stays. */
  function PoolOf(scans: seq<Scan>): Pool
  {
    if scans == [] then map[] else PoolOf(scans[..|scans| - 1])[scans[|scans| - 1].id := scans[|scans| - 1]]
  }

  ghost predicate Keyed(pool: Pool)
  {
    forall id :: id in pool ==> pool[id].id == id
  }

  function Ids(scans: seq<Scan>): set<string> { set s | s in scans :: s.id }

  ghost predicate IsBest(pool: Pool, selected: seq<Scan>, s: Scan)
  {
    && s.id in pool && pool[s.id] == s
    && forall id :: id in pool ==> ScoreLeq(ScoreOf(selected, pool[id]), ScoreOf(selected, s))
  }

  /** Each pick is best among the scans not picked before it. */
  ghost predicate Greedy(pool: Pool, picks: seq<Scan>)
  {
    picks != [] ==>
      var front := picks[..|picks| - 1];
      Greedy(pool, front) && IsBest(pool - Ids(front), front, picks[|picks| - 1])
  }

  function ScanKey(s: Scan): Key { [s.id] }

  /** A result of `select_canaries`. */
  ghost predicate IsSelection(scans: seq<Scan>, target: nat, r: seq<Scan>)
  {
    exists picks :: Greedy(PoolOf(scans), picks) && |picks| == target && r == Sort(picks, ScanKey)
  }

  lemma {:induction false} PoolIsKeyed(scans: seq<Scan>)
    ensures Keyed(PoolOf(scans))
    ensures forall id :: id in PoolOf(scans) <==> id in Ids(scans)
    ensures forall id :: id in PoolOf(scans) ==> PoolOf(scans)[id] in scans
  {
    if scans != [] {
      var front, last := scans[..|scans| - 1], scans[|scans| - 1];
      PoolIsKeyed(front);
      assert scans == front + [last];
      assert Ids(scans) == Ids(front) + {last.id};
    }
  }

  lemma BestIsUnique(pool: Pool, selected: seq<Scan>, s: Scan, t: Scan)
    requires Keyed(pool) && IsBest(pool, selected, s) && IsBest(pool, selected, t)
    ensures s == t
  {
    ScoreLeqIsTotalOrder(ScoreOf(selected, s), ScoreOf(selected, t), ScoreOf(selected, s));
    assert ScoreLeq(ScoreOf(selected, pool[t.id]), ScoreOf(selected, s));
    assert ScoreLeq(ScoreOf(selected, pool[s.id]), ScoreOf(selected, t));
  }

  lemma {:induction false} GreedyIsUnique(pool: Pool, a: seq<Scan>, b: seq<Scan>)
    requires Keyed(pool) && Greedy(pool, a) && Greedy(pool, b) && |a| == |b|
    ensures a == b
  {
    if a != [] {
      var n := |a| - 1;
      GreedyIsUnique(pool, a[..n], b[..n]);
      BestIsUnique(pool - Ids(a[..n]), a[..n], a[n], b[n]);
      assert a == a[..n] + [a[n]] && b == b[..n] + [b[n]];
    }
  }

  ghost predicate UniqueIds(scans: seq<Scan>)
  {
    forall i, j :: 0 <= i < j < |scans| ==> scans[i].id != scans[j].id
  }

  lemma UniqueIdsIdentify(scans: seq<Scan>, s: Scan, t: Scan)
    requires UniqueIds(scans) && s in scans && t in scans && s.id == t.id
    ensures s == t
  {
    var i :| 0 <= i < |scans| && scans[i] == s;
    var j :| 0 <= j < |scans| && scans[j] == t;
  }

  lemma PoolIgnoresOrder(a: seq<Scan>, b: seq<Scan>)
    requires multiset(a) == multiset(b) && UniqueIds(a)
    ensures PoolOf(a) == PoolOf(b)
  {
    PoolIsKeyed(a);
    PoolIsKeyed(b);
    var p, q := PoolOf(a), PoolOf(b);
    forall s ensures s in a <==> s in b {
      assert s in a <==> s in multiset(a);
      assert s in b <==> s in multiset(b);
    }
    assert Ids(a) == Ids(b);
    forall id | id in p ensures q[id] == p[id] {
      UniqueIdsIdentify(a, p[id], q[id]);
    }
    assert p.Keys == q.Keys;
  }

  /** Scans with unique ids are selected the same way in every input order. */
  lemma SelectionIgnoresOrder(a: seq<Scan>, b: seq<Scan>, target: nat, r: seq<Scan>, r': seq<Scan>)
    requires multiset(a) == multiset(b) && UniqueIds(a)
    requires IsSelection(a, target, r) && IsSelection(b, target, r')
    ensures r == r'
  {
    PoolIgnoresOrder(a, b);
    PoolIsKeyed(a);
    var picks :| Greedy(PoolOf(a), picks) && |picks| == target && r == Sort(picks, ScanKey);
    var picks' :| Greedy(PoolOf(b), picks') && |picks'| == target && r' == Sort(picks', ScanKey);
    GreedyIsUnique(PoolOf(a), picks, picks');
  }

  // ------------------------------------------------------------------ progress

  /** What is still missing towards all targets. */
  function Deficit(targets: seq<Target>, selected: seq<Scan>): nat
  {
    if targets == [] then 0
    else
      var t := targets[|targets| - 1];
      Deficit(targets[..|targets| - 1], selected) + Missing(t.minimum, Count(selected, Verified, t.name))
  }

  /** No scan of the pool carries a target trait that is still unmet. */
  ghost predicate Exhausted(pool: Pool, selected: seq<Scan>)
  {
    forall id :: id in pool ==> CarriesNoUnmet(VERIFIED_TARGETS, selected, pool[id])
  }

  ghost predicate CarriesNoUnmet(targets: seq<Target>, selected: seq<Scan>, s: Scan)
  {
    forall i :: 0 <= i < |targets| && targets[i].name in s.verified ==>
      Count(selected, Verified, targets[i].name) >= targets[i].minimum
  }

  lemma {:induction false} NoGainIffNoUnmet(targets: seq<Target>, selected: seq<Scan>, s: Scan)
    ensures Gain(targets, selected, Verified, s.verified) == 0 <==> CarriesNoUnmet(targets, selected, s)
  {
    if targets != [] {
      var front := targets[..|targets| - 1];
      NoGainIffNoUnmet(front, selected, s);
      assert forall i :: 0 <= i < |front| ==> front[i] == targets[i];
    }
  }

  lemma CountAppend(selected: seq<Scan>, s: Scan, a: Aspect, t: string)
    ensures Count(selected + [s], a, t) == Count(selected, a, t) + if t in Traits(s, a) then 1 else 0
  {
    assert (selected + [s])[..|selected|] == selected;
  }

  /** A pick with a gain brings the total deficit down. */
  lemma {:induction false} PickLowersDeficit(targets: seq<Target>, selected: seq<Scan>, s: Scan)
    ensures Deficit(targets, selected + [s]) <= Deficit(targets, selected)
    ensures Gain(targets, selected, Verified, s.verified) > 0 ==>
              Deficit(targets, selected + [s]) < Deficit(targets, selected)
  {
    if targets != [] {
      PickLowersDeficit(targets[..|targets| - 1], selected, s);
      CountAppend(selected, s, Verified, targets[|targets| - 1].name);
    }
  }

  lemma {:induction false} IdsAppend(selected: seq<Scan>, s: Scan)
    ensures Ids(selected + [s]) == Ids(selected) + {s.id}
  {
    assert forall x :: x in selected + [s] <==> x in selected || x == s;
  }

  lemma ExhaustedStays(pool: Pool, picks: seq<Scan>, s: Scan)
    requires Exhausted(pool - Ids(picks), picks)
    ensures Exhausted(pool - Ids(picks + [s]), picks + [s])
  {
    IdsAppend(picks, s);
    forall id | id in pool - Ids(picks + [s]) ensures CarriesNoUnmet(VERIFIED_TARGETS, picks + [s], pool[id]) {
      assert id in pool - Ids(picks);
      assert CarriesNoUnmet(VERIFIED_TARGETS, picks, pool[id]);
      forall t { CountAppend(picks, s, Verified, t); }
    }
  }

  lemma BestWithoutGainMeansExhausted(pool: Pool, selected: seq<Scan>, s: Scan)
    requires IsBest(pool, selected, s)
    requires Gain(VERIFIED_TARGETS, selected, Verified, s.verified) == 0
    ensures Exhausted(pool, selected)
  {
    forall id | id in pool ensures CarriesNoUnmet(VERIFIED_TARGETS, selected, pool[id]) {
      assert ScoreLeq(ScoreOf(selected, pool[id]), ScoreOf(selected, s));
      NoGainIffNoUnmet(VERIFIED_TARGETS, selected, pool[id]);
    }
  }

  /** The greedy guarantee: each pick has lowered the total verified deficit by at
      least one, or no scan left over carries an unmet verified trait. */
  lemma {:induction false} DeficitDropsOrPoolIsExhausted(pool: Pool, picks: seq<Scan>)
    requires Greedy(pool, picks)
    ensures || Deficit(VERIFIED_TARGETS, picks) + |picks| <= Deficit(VERIFIED_TARGETS, [])
            || Exhausted(pool - Ids(picks), picks)
  {
    if picks != [] {
      var n := |picks| - 1;
      var front, s := picks[..n], picks[n];
      assert picks == front + [s];
      DeficitDropsOrPoolIsExhausted(pool, front);
      PickLowersDeficit(VERIFIED_TARGETS, front, s);
      if Gain(VERIFIED_TARGETS, front, Verified, s.verified) == 0 {
        BestWithoutGainMeansExhausted(pool - Ids(front), front, s);
      }
      if Exhausted(pool - Ids(front), front) {
        ExhaustedStays(pool, front, s);
      }
    }
  }
}
