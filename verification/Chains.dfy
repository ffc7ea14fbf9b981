/** Trees whose nodes are reached by chains of indices: what holds of every node, which
    chains there are, in order, and what is gathered along them. */
module Chains {

  type Chain = seq<nat>

  /** The chain picks an existing node at every level. */
  predicate Leads<N>(below: N -> seq<N>, n: N, chain: Chain)
    decreases |chain|
  {
    chain == [] || (chain[0] < |below(n)| && Leads(below, below(n)[chain[0]], chain[1..]))
  }

  function NodeAt<N>(below: N -> seq<N>, n: N, chain: Chain): N
    requires Leads(below, n, chain)
    decreases |chain|
  {
    if chain == [] then n else NodeAt(below, below(n)[chain[0]], chain[1..])
  }

  /** Every node that some chain leads to is sound. */
  ghost predicate AllSound<N>(below: N -> seq<N>, sound: N -> bool, n: N)
  {
    forall chain :: Leads(below, n, chain) ==> sound(NodeAt(below, n, chain))
  }

  /** `all` says of a node that it and everything below it are sound. */
  ghost predicate UnfoldsAt<N>(below: N -> seq<N>, sound: N -> bool, all: N -> bool, n: N)
  {
    all(n) <==> sound(n) && forall i :: 0 <= i < |below(n)| ==> all(below(n)[i])
  }

  ghost predicate Unfolds<N(!new)>(below: N -> seq<N>, sound: N -> bool, all: N -> bool)
  {
    forall n :: UnfoldsAt(below, sound, all, n)
  }

  ghost function Soundness<N>(below: N -> seq<N>, sound: N -> bool): N -> bool
  {
    n => AllSound(below, sound, n)
  }

  lemma AllSoundIff<N>(below: N -> seq<N>, sound: N -> bool, n: N)
    ensures UnfoldsAt(below, sound, Soundness(below, sound), n)
  {
    var nodes := below(n);
    if AllSound(below, sound, n) {
      assert Leads(below, n, []) && NodeAt(below, n, []) == n;
      forall i, c | 0 <= i < |nodes| && Leads(below, nodes[i], c) ensures sound(NodeAt(below, nodes[i], c)) {
        var chain := [i] + c;
        assert chain[1..] == c;
        assert Leads(below, n, chain);
      }
    }
    if sound(n) && forall i :: 0 <= i < |nodes| ==> AllSound(below, sound, nodes[i]) {
      forall chain | Leads(below, n, chain) ensures sound(NodeAt(below, n, chain)) {
        if chain != [] { assert AllSound(below, sound, nodes[chain[0]]); }
      }
    }
  }

  lemma SoundnessUnfolds<N(!new)>(below: N -> seq<N>, sound: N -> bool)
    ensures Unfolds(below, sound, Soundness(below, sound))
  {
    forall n ensures UnfoldsAt(below, sound, Soundness(below, sound), n) { AllSoundIff(below, sound, n); }
  }

  /** Going down from a sound node, the rank falls. */
  ghost predicate Falls<N(!new)>(below: N -> seq<N>, sound: N -> bool, rank: N -> nat)
  {
    forall n, i :: sound(n) && 0 <= i < |below(n)| ==> rank(below(n)[i]) < rank(n)
  }

  /** Where everything is sound, no chain is longer than the rank it starts from. */
  lemma {:induction false} ChainIsShort<N(!new)>(below: N -> seq<N>, sound: N -> bool, all: N -> bool, rank: N -> nat,
                                                 n: N, chain: Chain)
    requires Unfolds(below, sound, all) && Falls(below, sound, rank) && all(n) && Leads(below, n, chain)
    ensures |chain| <= rank(n) && sound(NodeAt(below, n, chain))
    decreases |chain|
  {
    assert UnfoldsAt(below, sound, all, n);
    if chain != [] {
      ChainIsShort(below, sound, all, rank, below(n)[chain[0]], chain[1..]);
    }
  }

  // ------------------------------------------------------------ all the chains

  /** Parents come first, and then the lower index. */
  predicate Before(c: Chain, d: Chain)
    decreases |d|
  {
    d != [] && (c == [] || c[0] < d[0] || (c[0] == d[0] && Before(c[1..], d[1..])))
  }

  ghost predicate Ascending(chains: seq<Chain>)
  {
    forall i, j :: 0 <= i < j < |chains| ==> Before(chains[i], chains[j])
  }

  /** The chains from a node of at most so many levels. */
  ghost function ChainsFrom<N>(below: N -> seq<N>, n: N, levels: nat): seq<Chain>
    decreases levels, 1, 0
  {
    [[]] + if levels == 0 then [] else ChainsBelow(below, below(n), levels - 1)
  }

  ghost function ChainsBelow<N>(below: N -> seq<N>, nodes: seq<N>, levels: nat): seq<Chain>
    decreases levels + 1, 0, |nodes|
  {
    if nodes == [] then []
    else
      var k := |nodes| - 1;
      ChainsBelow(below, nodes[..k], levels) + Prepended(k, ChainsFrom(below, nodes[k], levels))
  }

  function Prepended(i: nat, chains: seq<Chain>): seq<Chain>
  {
    seq(|chains|, j requires 0 <= j < |chains| => [i] + chains[j])
  }

  lemma PrependedHolds(i: nat, chains: seq<Chain>, c: Chain)
    ensures c in Prepended(i, chains) <==> c != [] && c[0] == i && c[1..] in chains
  {
    if c in Prepended(i, chains) {
      var j :| 0 <= j < |chains| && Prepended(i, chains)[j] == c;
      assert c[1..] == chains[j];
    }
    if c != [] && c[0] == i && c[1..] in chains {
      var j :| 0 <= j < |chains| && chains[j] == c[1..];
      assert Prepended(i, chains)[j] == c;
    }
  }

  lemma {:induction false} ChainsFromAreAll<N>(below: N -> seq<N>, n: N, levels: nat, c: Chain)
    ensures c in ChainsFrom(below, n, levels) <==> Leads(below, n, c) && |c| <= levels
    decreases levels, 1, 0
  {
    if levels > 0 {
      ChainsBelowAreAll(below, below(n), levels - 1, c);
    }
  }

  lemma {:induction false} ChainsBelowAreAll<N>(below: N -> seq<N>, nodes: seq<N>, levels: nat, c: Chain)
    ensures c in ChainsBelow(below, nodes, levels) <==>
              c != [] && c[0] < |nodes| && Leads(below, nodes[c[0]], c[1..]) && |c| <= levels + 1
    decreases levels + 1, 0, |nodes|
  {
    if nodes != [] {
      var k := |nodes| - 1;
      ChainsBelowAreAll(below, nodes[..k], levels, c);
      PrependedHolds(k, ChainsFrom(below, nodes[k], levels), c);
      if c != [] {
        ChainsFromAreAll(below, nodes[k], levels, c[1..]);
      }
    }
  }

  lemma AscendingConcat(a: seq<Chain>, b: seq<Chain>)
    requires Ascending(a) && Ascending(b)
    requires forall c, d :: c in a && d in b ==> Before(c, d)
    ensures Ascending(a + b)
  {
  }

  lemma AscendingFirst(rest: seq<Chain>)
    requires Ascending(rest) && [] !in rest
    ensures Ascending([[]] + rest)
  {
    var all := [[]] + rest;
    forall i, j | 0 <= i < j < |all| ensures Before(all[i], all[j]) {
      assert all[j] == rest[j - 1] && all[j] in rest;
      if i > 0 { assert all[i] == rest[i - 1]; }
    }
  }

  lemma AscendingPrepended(i: nat, chains: seq<Chain>)
    requires Ascending(chains)
    ensures Ascending(Prepended(i, chains))
  {
    var all := Prepended(i, chains);
    forall j, k | 0 <= j < k < |all| ensures Before(all[j], all[k]) {
      assert Before(chains[j], chains[k]);
      assert all[j][1..] == chains[j] && all[k][1..] == chains[k];
    }
  }

  lemma {:induction false} ChainsFromAscend<N>(below: N -> seq<N>, n: N, levels: nat)
    ensures Ascending(ChainsFrom(below, n, levels))
    decreases levels, 1, 0
  {
    if levels > 0 {
      var rest := ChainsBelow(below, below(n), levels - 1);
      ChainsBelowAscend(below, below(n), levels - 1);
      forall d | d in rest ensures d != [] { ChainsBelowAreAll(below, below(n), levels - 1, d); }
      AscendingFirst(rest);
    }
  }

  lemma {:induction false} ChainsBelowAscend<N>(below: N -> seq<N>, nodes: seq<N>, levels: nat)
    ensures Ascending(ChainsBelow(below, nodes, levels))
    decreases levels + 1, 0, |nodes|
  {
    if nodes != [] {
      var k := |nodes| - 1;
      var front, last := ChainsBelow(below, nodes[..k], levels), Prepended(k, ChainsFrom(below, nodes[k], levels));
      ChainsBelowAscend(below, nodes[..k], levels);
      ChainsFromAscend(below, nodes[k], levels);
      AscendingPrepended(k, ChainsFrom(below, nodes[k], levels));
      forall c, d | c in front && d in last ensures Before(c, d) {
        ChainsBelowAreAll(below, nodes[..k], levels, c);
        PrependedHolds(k, ChainsFrom(below, nodes[k], levels), d);
      }
      AscendingConcat(front, last);
    }
  }

  /** Where everything is sound, these are all the chains, each once and in order. */
  lemma ChainsAreComplete<N(!new)>(below: N -> seq<N>, sound: N -> bool, rank: N -> nat, n: N)
    returns (chains: seq<Chain>)
    requires Falls(below, sound, rank)
    ensures chains == ChainsFrom(below, n, rank(n)) && Ascending(chains)
    ensures AllSound(below, sound, n) ==> forall c :: c in chains <==> Leads(below, n, c)
  {
    chains := ChainsFrom(below, n, rank(n));
    ChainsFromAscend(below, n, rank(n));
    SoundnessUnfolds(below, sound);
    forall c ensures c in chains <==> Leads(below, n, c) && |c| <= rank(n) { ChainsFromAreAll(below, n, rank(n), c); }
    if Soundness(below, sound)(n) {
      forall c | Leads(below, n, c) ensures |c| <= rank(n) {
        ChainIsShort(below, sound, Soundness(below, sound), rank, n, c);
      }
    }
  }

  // ------------------------------------------------- what is gathered along them

  function Gather<T>(f: Chain -> seq<T>, chains: seq<Chain>): seq<T>
  {
    if chains == [] then [] else Gather(f, chains[..|chains| - 1]) + f(chains[|chains| - 1])
  }

  function Sum(f: Chain -> nat, chains: seq<Chain>): nat
  {
    if chains == [] then 0 else Sum(f, chains[..|chains| - 1]) + f(chains[|chains| - 1])
  }

  lemma {:induction false} GatherConcat<T>(f: Chain -> seq<T>, a: seq<Chain>, b: seq<Chain>)
    ensures Gather(f, a + b) == Gather(f, a) + Gather(f, b)
    decreases |b|
  {
    if b == [] {
      assert a + b == a;
    } else {
      GatherConcat(f, a, b[..|b| - 1]);
      assert (a + b)[..|a + b| - 1] == a + b[..|b| - 1];
    }
  }

  lemma GatherOne<T>(f: Chain -> seq<T>, c: Chain)
    ensures Gather(f, [c]) == f(c)
  {
    assert [c][..0] == [];
  }

  lemma GatherFirst<T>(f: Chain -> seq<T>, chains: seq<Chain>)
    ensures Gather(f, [[]] + chains) == f([]) + Gather(f, chains)
  {
    GatherOne(f, []);
    GatherConcat(f, [[]], chains);
  }

  lemma {:induction false} GatherPrepended<T>(f: Chain -> seq<T>, g: Chain -> seq<T>, i: nat, chains: seq<Chain>)
    requires forall c :: f([i] + c) == g(c)
    ensures Gather(f, Prepended(i, chains)) == Gather(g, chains)
  {
    if chains != [] {
      var k := |chains| - 1;
      GatherPrepended(f, g, i, chains[..k]);
      assert Prepended(i, chains)[..k] == Prepended(i, chains[..k]);
    }
  }

  lemma {:induction false} GatherHolds<T>(f: Chain -> seq<T>, chains: seq<Chain>, x: T)
    ensures x in Gather(f, chains) <==> exists c :: c in chains && x in f(c)
  {
    if chains != [] {
      var front, last := chains[..|chains| - 1], chains[|chains| - 1];
      GatherHolds(f, front, x);
      assert forall c :: c in chains <==> c in front || c == last;
    }
  }

  /** What is reported at the node a chain leads to. */
  function ReportAt<N, E>(below: N -> seq<N>, report: N -> seq<E>, n: N): Chain -> seq<E>
  {
    (c: Chain) => if Leads(below, n, c) then report(NodeAt(below, n, c)) else []
  }

  // ---------------------------------------------------- reports of whole trees

  /** The reports of some trees, one after the other. */
  ghost function Reports<N, E>(tree: (N, nat) -> seq<E>, nodes: seq<N>, levels: nat): seq<E>
  {
    if nodes == [] then [] else Reports(tree, nodes[..|nodes| - 1], levels) + tree(nodes[|nodes| - 1], levels)
  }

  lemma ReportsStep<N, E>(tree: (N, nat) -> seq<E>, front: seq<N>, n: N, levels: nat)
    ensures Reports(tree, front + [n], levels) == Reports(tree, front, levels) + tree(n, levels)
  {
    assert (front + [n])[..|front|] == front;
  }

  lemma ReportsPrefix<N, E>(tree: (N, nat) -> seq<E>, nodes: seq<N>, k: nat, levels: nat)
    requires k < |nodes|
    ensures Reports(tree, nodes[..k + 1], levels) == Reports(tree, nodes[..k], levels) + tree(nodes[k], levels)
  {
    ReportsStep(tree, nodes[..k], nodes[k], levels);
    assert nodes[..k + 1] == nodes[..k] + [nodes[k]];
  }

  /** A tree's report is that of its node and then those below it. */
  ghost predicate TellsAt<N, E>(below: N -> seq<N>, report: N -> seq<E>, tree: (N, nat) -> seq<E>, n: N, levels: nat)
  {
    tree(n, levels) == report(n) + if levels == 0 then [] else Reports(tree, below(n), levels - 1)
  }

  ghost predicate Tells<N(!new), E>(below: N -> seq<N>, report: N -> seq<E>, tree: (N, nat) -> seq<E>)
  {
    forall n, levels :: TellsAt(below, report, tree, n, levels)
  }

  ghost function Telling<N, E>(below: N -> seq<N>, report: N -> seq<E>): (N, nat) -> seq<E>
  {
    (n: N, levels: nat) => Gather(ReportAt(below, report, n), ChainsFrom(below, n, levels))
  }

  lemma ReportAtStep<N, E>(below: N -> seq<N>, report: N -> seq<E>, n: N, i: nat, c: Chain)
    requires i < |below(n)|
    ensures ReportAt(below, report, n)([i] + c) == ReportAt(below, report, below(n)[i])(c)
  {
    var chain := [i] + c;
    assert chain[1..] == c;
    assert Leads(below, n, chain) <==> Leads(below, below(n)[i], c);
    if Leads(below, n, chain) { assert NodeAt(below, n, chain) == NodeAt(below, below(n)[i], c); }
  }

  lemma ReportAtRoot<N, E>(below: N -> seq<N>, report: N -> seq<E>, n: N)
    ensures ReportAt(below, report, n)([]) == report(n)
  {
    var root: Chain := [];
    assert Leads(below, n, root) && NodeAt(below, n, root) == n;
  }

  /** What is gathered below a further child is what is gathered from it. */
  lemma GatheredChild<N, E>(below: N -> seq<N>, report: N -> seq<E>, n: N, i: nat, levels: nat)
    requires i < |below(n)|
    ensures Gather(ReportAt(below, report, n), Prepended(i, ChainsFrom(below, below(n)[i], levels)))
         == Telling(below, report)(below(n)[i], levels)
  {
    var child := below(n)[i];
    var f, g := ReportAt(below, report, n), ReportAt(below, report, child);
    forall c ensures f([i] + c) == g(c) { ReportAtStep(below, report, n, i, c); }
    GatherPrepended(f, g, i, ChainsFrom(below, child, levels));
  }

  lemma ChainsBelowStep<N>(below: N -> seq<N>, nodes: seq<N>, k: nat, levels: nat)
    requires k < |nodes|
    ensures ChainsBelow(below, nodes[..k + 1], levels)
         == ChainsBelow(below, nodes[..k], levels) + Prepended(k, ChainsFrom(below, nodes[k], levels))
  {
    assert nodes[..k + 1][..k] == nodes[..k];
  }

  lemma GatheredStep<N, E>(below: N -> seq<N>, report: N -> seq<E>, n: N, k: nat, levels: nat)
    requires k < |below(n)|
    ensures Gather(ReportAt(below, report, n), ChainsBelow(below, below(n)[..k + 1], levels))
         == Gather(ReportAt(below, report, n), ChainsBelow(below, below(n)[..k], levels))
            + Telling(below, report)(below(n)[k], levels)
  {
    var nodes := below(n);
    GatheredChild(below, report, n, k, levels);
    ChainsBelowStep(below, nodes, k, levels);
    GatherConcat(ReportAt(below, report, n), ChainsBelow(below, nodes[..k], levels),
                 Prepended(k, ChainsFrom(below, nodes[k], levels)));
  }

  lemma {:induction false} GatheredBelow<N, E>(below: N -> seq<N>, report: N -> seq<E>, n: N, k: nat, levels: nat)
    requires k <= |below(n)|
    ensures Gather(ReportAt(below, report, n), ChainsBelow(below, below(n)[..k], levels))
         == Reports(Telling(below, report), below(n)[..k], levels)
  {
    if k > 0 {
      GatheredBelow(below, report, n, k - 1, levels);
      GatheredStep(below, report, n, k - 1, levels);
      ReportsPrefix(Telling(below, report), below(n), k - 1, levels);
    }
  }

  lemma GatheredBelowAll<N, E>(below: N -> seq<N>, report: N -> seq<E>, n: N, levels: nat)
    ensures Gather(ReportAt(below, report, n), ChainsBelow(below, below(n), levels))
         == Reports(Telling(below, report), below(n), levels)
  {
    GatheredBelow(below, report, n, |below(n)|, levels);
    assert below(n)[..|below(n)|] == below(n);
  }

  lemma GatheredFrom<N, E>(below: N -> seq<N>, report: N -> seq<E>, n: N, levels: nat)
    ensures Gather(ReportAt(below, report, n), ChainsFrom(below, n, 0)) == ReportAt(below, report, n)([])
    ensures Gather(ReportAt(below, report, n), ChainsFrom(below, n, levels + 1))
         == ReportAt(below, report, n)([]) + Reports(Telling(below, report), below(n), levels)
  {
    var f, rest := ReportAt(below, report, n), ChainsBelow(below, below(n), levels);
    GatherFirst(f, []);
    GatherFirst(f, rest);
    GatheredBelowAll(below, report, n, levels);
    assert ChainsFrom(below, n, levels + 1) == [[]] + rest;
  }

  lemma TellingTells<N(!new), E>(below: N -> seq<N>, report: N -> seq<E>)
    ensures Tells(below, report, Telling(below, report))
  {
    forall n, levels: nat ensures TellsAt(below, report, Telling(below, report), n, levels) {
      GatheredFrom(below, report, n, if levels == 0 then 0 else levels - 1);
      ReportAtRoot(below, report, n);
    }
  }
}
