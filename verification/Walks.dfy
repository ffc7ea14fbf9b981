/** What bounded walks share: a walk is the list of effects it asks for, applied to an
    accumulator in order up to the first failure. */
module Walks {
  import opened Prelude

  datatype Reached<+A, +F> = Ok(acc: A) | Raised(failure: F)

  /** Effects applied in order up to the first failure. */
  function ApplyAll<A, E, F>(apply: (A, E) -> Reached<A, F>, a: A, effects: seq<E>): Reached<A, F>
  {
    if effects == [] then Ok(a)
    else
      var before := ApplyAll(apply, a, effects[..|effects| - 1]);
      if before.Raised? then before else apply(before.acc, effects[|effects| - 1])
  }

  lemma {:induction false} ApplyAllConcat<A, E, F>(apply: (A, E) -> Reached<A, F>, a: A, first: seq<E>, second: seq<E>)
    ensures ApplyAll(apply, a, first + second)
         == if ApplyAll(apply, a, first).Raised? then ApplyAll(apply, a, first)
            else ApplyAll(apply, ApplyAll(apply, a, first).acc, second)
    decreases |second|
  {
    if second == [] {
      assert first + second == first;
    } else {
      var front := second[..|second| - 1];
      ApplyAllConcat(apply, a, first, front);
      assert (first + second)[..|first + second| - 1] == first + front;
    }
  }

  lemma ApplySingle<A, E, F>(apply: (A, E) -> Reached<A, F>, a: A, e: E)
    ensures ApplyAll(apply, a, [e]) == apply(a, e)
  {
    assert [e][..0] == [];
  }

  /** The first effect, and the rest. */
  lemma ApplyFirst<A, E, F>(apply: (A, E) -> Reached<A, F>, a: A, effects: seq<E>)
    requires effects != []
    ensures ApplyAll(apply, a, effects)
         == if apply(a, effects[0]).Raised? then apply(a, effects[0])
            else ApplyAll(apply, apply(a, effects[0]).acc, effects[1..])
  {
    ApplySingle(apply, a, effects[0]);
    ApplyAllConcat(apply, a, [effects[0]], effects[1..]);
    assert effects == [effects[0]] + effects[1..];
  }

  /** The names that the items of a listing have, where they have one. */
  function Names<T(==)>(name: T -> Option<string>, items: seq<T>): set<string>
  {
    set x | x in items && name(x).Some? :: name(x).value
  }

  lemma NamesStep<T>(name: T -> Option<string>, items: seq<T>, n: nat)
    requires n < |items|
    ensures Names(name, items[..n + 1])
         == Names(name, items[..n]) + if name(items[n]).Some? then {name(items[n]).value} else {}
  {
    assert items[..n + 1] == items[..n] + [items[n]];
  }
}
