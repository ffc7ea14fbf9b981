/** The greedy order of picks, said of the scans themselves: what is missing towards the
    targets is a set of unfilled places, and gains are numbers of places. */
module CanaryPicks {
  import opened Prelude
  import opened Canaries

  /** The picks that carry a trait. */
  ghost function Carriers(selected: seq<Scan>, a: Aspect, t: string): set<nat>
  {
    set i: nat | i < |selected| && t in Traits(selected[i], a)
  }

  lemma {:induction false} CountIsCardinality(selected: seq<Scan>, a: Aspect, t: string)
    ensures Count(selected, a, t) == |Carriers(selected, a, t)|
  {
    if selected != [] {
      var k := |selected| - 1;
      CountIsCardinality(selected[..k], a, t);
      CarriersStep(selected, a, t);
    }
  }

  lemma CarriersStep(selected: seq<Scan>, a: Aspect, t: string)
    requires selected != []
    ensures
      var k := |selected| - 1;
      && k !in Carriers(selected[..k], a, t)
      && Carriers(selected, a, t) == Carriers(selected[..k], a, t) + if t in Traits(selected[k], a) then {k} else {}
  {
  }

  predicate IsOpen(filled: nat, u: nat) { filled <= u }

  /** The places of a target that no pick has filled. */
  ghost function Unfilled(minimum: nat, filled: nat): set<nat>
  {
    set u: nat | u < minimum && IsOpen(filled, u)
  }

  lemma {:induction false} UnfilledSize(minimum: nat, filled: nat)
    ensures |Unfilled(minimum, filled)| == Missing(minimum, filled)
  {
    if filled < minimum {
      UnfilledSize(minimum - 1, filled);
      assert Unfilled(minimum, filled) == Unfilled(minimum - 1, filled) + {minimum - 1};
    } else {
      assert Unfilled(minimum, filled) == {};
    }
  }

  ghost function UnfilledOf(t: Target, selected: seq<Scan>, a: Aspect): set<nat>
  {
    Unfilled(t.minimum, |Carriers(selected, a, t.name)|)
  }

  /** The unfilled places of all targets among the traits. */
  ghost function Places(targets: seq<Target>, selected: seq<Scan>, a: Aspect, traits: set<string>): set<(nat, nat)>
  {
    set i: nat, u: nat |
      i < |targets| && targets[i].name in traits && u in UnfilledOf(targets[i], selected, a) :: (i, u)
  }

  ghost function Paired(i: nat, us: set<nat>): set<(nat, nat)> { set u | u in us :: (i, u) }

  lemma {:induction false} PairedSize(i: nat, us: set<nat>)
    ensures |Paired(i, us)| == |us|
  {
    if us != {} {
      var u :| u in us;
      PairedSize(i, us - {u});
      assert (i, u) !in Paired(i, us - {u});
      assert Paired(i, us) == Paired(i, us - {u}) + {(i, u)};
    }
  }

  lemma PlacesStep(targets: seq<Target>, selected: seq<Scan>, a: Aspect, traits: set<string>)
    requires targets != []
    ensures
      var k := |targets| - 1;
      var front := Places(targets[..k], selected, a, traits);
      var last := if targets[k].name in traits then Paired(k, UnfilledOf(targets[k], selected, a)) else {};
      Places(targets, selected, a, traits) == front + last && front !! last
  {
    var k := |targets| - 1;
    var front := Places(targets[..k], selected, a, traits);
    var last := if targets[k].name in traits then Paired(k, UnfilledOf(targets[k], selected, a)) else {};
    forall i: nat, u: nat ensures (i, u) in Places(targets, selected, a, traits) <==> (i, u) in front + last {}
  }

  /** A gain is the number of unfilled places that the traits count towards. */
  lemma {:induction false} GainCountsPlaces(targets: seq<Target>, selected: seq<Scan>, a: Aspect, traits: set<string>)
    ensures Gain(targets, selected, a, traits) == |Places(targets, selected, a, traits)|
  {
    if targets != [] {
      var k := |targets| - 1;
      var t := targets[k];
      GainCountsPlaces(targets[..k], selected, a, traits);
      CountIsCardinality(selected, a, t.name);
      UnfilledSize(t.minimum, |Carriers(selected, a, t.name)|);
      PairedSize(k, UnfilledOf(t, selected, a));
      PlacesStep(targets, selected, a, traits);
    }
  }

  /** The scan has a category, and one that no pick has. */
  ghost predicate BringsCategory(selected: seq<Scan>, s: Scan)
  {
    s.category != "" && forall i :: 0 <= i < |selected| ==> selected[i].category != s.category
  }

  /** The verified traits of the scan that no pick has. */
  ghost function RareTraits(selected: seq<Scan>, s: Scan): set<string>
  {
    set t | t in s.verified && forall i :: 0 <= i < |selected| ==> t !in selected[i].verified
  }

  ghost function VerifiedPlaces(selected: seq<Scan>, s: Scan): nat
  {
    |Places(VERIFIED_TARGETS, selected, Verified, s.verified)|
  }

  ghost function CandidatePlaces(selected: seq<Scan>, s: Scan): nat
  {
    |Places(ANNOTATION_TARGETS, selected, Candidate, s.candidates)|
  }

  ghost function Rarity(selected: seq<Scan>, s: Scan): nat
  {
    (if s.strictEvents then 2 else 0) + |RareTraits(selected, s)|
  }

  /** `s` is preferred to `c`: more verified places first, then more candidate places,
      then a new category, then rarity, and last the id. */
  ghost predicate Preferred(selected: seq<Scan>, s: Scan, c: Scan)
  {
    && VerifiedPlaces(selected, c) <= VerifiedPlaces(selected, s)
    && (VerifiedPlaces(selected, c) == VerifiedPlaces(selected, s) ==>
          && CandidatePlaces(selected, c) <= CandidatePlaces(selected, s)
          && (CandidatePlaces(selected, c) == CandidatePlaces(selected, s) ==>
                && (BringsCategory(selected, c) ==> BringsCategory(selected, s))
                && ((BringsCategory(selected, c) <==> BringsCategory(selected, s)) ==>
                      && Rarity(selected, c) <= Rarity(selected, s)
                      && (Rarity(selected, c) == Rarity(selected, s) ==> TextLeq(c.id, s.id)))))
  }

  lemma {:induction false} NoneCountedIff(selected: seq<Scan>, a: Aspect, t: string)
    ensures Count(selected, a, t) == 0 <==> forall i :: 0 <= i < |selected| ==> t !in Traits(selected[i], a)
  {
    if selected != [] {
      var k := |selected| - 1;
      NoneCountedIff(selected[..k], a, t);
      assert forall i :: 0 <= i < k ==> selected[..k][i] == selected[i];
    }
  }

  lemma ScoreIs(selected: seq<Scan>, s: Scan)
    ensures ScoreOf(selected, s) == Score(VerifiedPlaces(selected, s), CandidatePlaces(selected, s),
                                          if BringsCategory(selected, s) then 3 else 0, Rarity(selected, s), s.id)
  {
    GainCountsPlaces(VERIFIED_TARGETS, selected, Verified, s.verified);
    GainCountsPlaces(ANNOTATION_TARGETS, selected, Candidate, s.candidates);
    NoneCountedIff(selected, Category, s.category);
    assert s.category != "" ==>
        (Count(selected, Category, s.category) == 0 <==> BringsCategory(selected, s));
    assert (set t | t in s.verified && Count(selected, Verified, t) == 0) == RareTraits(selected, s) by {
      forall t | t in s.verified ensures Count(selected, Verified, t) == 0 <==> t in RareTraits(selected, s) {
        NoneCountedIff(selected, Verified, t);
      }
    }
  }

  lemma PreferredIff(selected: seq<Scan>, s: Scan, c: Scan)
    ensures ScoreLeq(ScoreOf(selected, c), ScoreOf(selected, s)) <==> Preferred(selected, s, c)
  {
    ScoreIs(selected, s);
    ScoreIs(selected, c);
  }

  /** The scan is in the pool, not picked before, and preferred to every other such scan. */
  ghost predicate ComesNext(pool: Pool, before: seq<Scan>, s: Scan)
  {
    && s.id in pool && pool[s.id] == s && s.id !in Ids(before)
    && forall id :: id in pool && id !in Ids(before) ==> Preferred(before, s, pool[id])
  }

  lemma BestIff(pool: Pool, before: seq<Scan>, s: Scan)
    ensures IsBest(pool - Ids(before), before, s) <==> ComesNext(pool, before, s)
  {
    var rest := pool - Ids(before);
    forall id | id in rest
      ensures ScoreLeq(ScoreOf(before, rest[id]), ScoreOf(before, s)) <==> Preferred(before, s, pool[id])
    {
      PreferredIff(before, s, pool[id]);
    }
  }

  /** Every pick follows on those before it. */
  ghost predicate Sequenced(next: (seq<Scan>, Scan) -> bool, picks: seq<Scan>)
  {
    forall k :: 0 <= k < |picks| ==> next(picks[..k], picks[k])
  }

  lemma SequencedStep(next: (seq<Scan>, Scan) -> bool, picks: seq<Scan>)
    requires picks != []
    ensures
      var front := picks[..|picks| - 1];
      Sequenced(next, picks) <==> Sequenced(next, front) && next(front, picks[|picks| - 1])
  {
    var front := picks[..|picks| - 1];
    forall k | 0 <= k < |front| ensures front[..k] == picks[..k] && front[k] == picks[k] {}
    if Sequenced(next, front) && next(front, picks[|picks| - 1]) {
      forall k | 0 <= k < |picks| ensures next(picks[..k], picks[k]) {
        if k < |front| { assert next(front[..k], front[k]); }
      }
    }
    if Sequenced(next, picks) {
      forall k | 0 <= k < |front| ensures next(front[..k], front[k]) { assert next(picks[..k], picks[k]); }
    }
  }

  ghost function Next(pool: Pool): (seq<Scan>, Scan) -> bool { (before, s) => ComesNext(pool, before, s) }

  /** The greedy sequences are exactly those in which every pick comes next. */
  lemma {:induction false} GreedyIffInOrder(pool: Pool, picks: seq<Scan>)
    ensures Greedy(pool, picks) <==> Sequenced(Next(pool), picks)
  {
    if picks != [] {
      var n := |picks| - 1;
      GreedyIffInOrder(pool, picks[..n]);
      BestIff(pool, picks[..n], picks[n]);
      SequencedStep(Next(pool), picks);
    }
  }
}
