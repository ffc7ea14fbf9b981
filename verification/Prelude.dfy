/** Values shared by every component: optional values, object references, the
    order in which Python sorts tuples of strings, and a stable sort by key. */
module Prelude {

  datatype Option<+T> = None | Some(value: T)

  /** The reference by which the facades name one another's objects. */
  datatype Ref = Ref(objectType: string, objectId: string, objectVersion: string, objectSha256: string)

  /** Lexicographic "less or equal" by code point: the order of Python's `str`. */
  predicate TextLeq(a: string, b: string)
  {
    if a == [] then true
    else if b == [] then false
    else if a[0] != b[0] then a[0] < b[0]
    else TextLeq(a[1..], b[1..])
  }

  /** Up to position `k` the texts agree, and there `a` ends or has the lower character. */
  ghost predicate LowerAt(a: string, b: string, k: nat)
  {
    && k <= |a| && k <= |b| && (forall i :: 0 <= i < k ==> a[i] == b[i])
    && (k == |a| || (k < |b| && a[k] < b[k]))
  }

  lemma {:induction false} TextLeqIff(a: string, b: string)
    ensures TextLeq(a, b) <==> exists k: nat :: LowerAt(a, b, k)
  {
    if a == [] || b == [] || a[0] != b[0] {
      if TextLeq(a, b) { assert LowerAt(a, b, 0); }
    } else {
      TextLeqIff(a[1..], b[1..]);
      if k: nat :| LowerAt(a[1..], b[1..], k) {
        forall i | 0 <= i < k + 1 ensures a[i] == b[i] { assert i > 0 ==> a[1..][i - 1] == b[1..][i - 1]; }
        assert LowerAt(a, b, k + 1);
      }
      if k: nat :| LowerAt(a, b, k) {
        assert k > 0 && LowerAt(a[1..], b[1..], k - 1);
      }
    }
  }

  lemma {:induction false} TextLeqReflexive(a: string)
    ensures TextLeq(a, a)
  {
    if a != [] {
      TextLeqReflexive(a[1..]);
    }
  }

  lemma {:induction false} TextLeqTotal(a: string, b: string)
    ensures TextLeq(a, b) || TextLeq(b, a)
  {
    if a != [] && b != [] && a[0] == b[0] {
      TextLeqTotal(a[1..], b[1..]);
    }
  }

  lemma {:induction false} TextLeqAntisymmetric(a: string, b: string)
    requires TextLeq(a, b) && TextLeq(b, a)
    ensures a == b
  {
    if a != [] && b != [] {
      TextLeqAntisymmetric(a[1..], b[1..]);
      assert a == [a[0]] + a[1..] && b == [b[0]] + b[1..];
    }
  }

  lemma {:induction false} TextLeqTransitive(a: string, b: string, c: string)
    requires TextLeq(a, b) && TextLeq(b, c)
    ensures TextLeq(a, c)
  {
    if a != [] && b != [] && c != [] && a[0] == b[0] == c[0] {
      TextLeqTransitive(a[1..], b[1..], c[1..]);
    }
  }

  /** A sort key: a Python tuple of strings. */
  type Key = seq<string>

  predicate KeyLeq(a: Key, b: Key)
  {
    if a == [] then true
    else if b == [] then false
    else if a[0] != b[0] then TextLeq(a[0], b[0])
    else KeyLeq(a[1..], b[1..])
  }

  lemma {:induction false} KeyLeqTotal(a: Key, b: Key)
    ensures KeyLeq(a, b) || KeyLeq(b, a)
  {
    if a != [] && b != [] {
      if a[0] == b[0] {
        KeyLeqTotal(a[1..], b[1..]);
      } else {
        TextLeqTotal(a[0], b[0]);
      }
    }
  }

  lemma {:induction false} KeyLeqAntisymmetric(a: Key, b: Key)
    requires KeyLeq(a, b) && KeyLeq(b, a)
    ensures a == b
  {
    if a != [] && b != [] {
      if a[0] != b[0] {
        TextLeqAntisymmetric(a[0], b[0]);
      }
      KeyLeqAntisymmetric(a[1..], b[1..]);
      assert a == [a[0]] + a[1..] && b == [b[0]] + b[1..];
    }
  }

  lemma {:induction false} KeyLeqTransitive(a: Key, b: Key, c: Key)
    requires KeyLeq(a, b) && KeyLeq(b, c)
    ensures KeyLeq(a, c)
  {
    if a != [] && b != [] && c != [] {
      if a[0] == b[0] == c[0] {
        KeyLeqTransitive(a[1..], b[1..], c[1..]);
      } else {
        if a[0] == b[0] { TextLeqReflexive(a[0]); }
        if b[0] == c[0] { TextLeqReflexive(b[0]); }
        TextLeqTransitive(a[0], b[0], c[0]);
        if a[0] == c[0] {
          TextLeqAntisymmetric(a[0], b[0]);
        }
      }
    }
  }

  ghost predicate SortedBy<T>(s: seq<T>, key: T -> Key)
  {
    forall i, j :: 0 <= i < j < |s| ==> KeyLeq(key(s[i]), key(s[j]))
  }

  ghost predicate DistinctKeys<T>(s: seq<T>, key: T -> Key)
  {
    forall i, j :: 0 <= i < j < |s| ==> key(s[i]) != key(s[j])
  }

  ghost predicate Distinct<T>(s: seq<T>)
  {
    forall i, j :: 0 <= i < j < |s| ==> s[i] != s[j]
  }

  lemma DistinctExtends<T>(s: seq<T>, x: T)
    ensures Distinct(s + [x]) <==> Distinct(s) && x !in s
  {
    var t := s + [x];
    assert forall i :: 0 <= i < |s| ==> t[i] == s[i];
    if Distinct(t) {
      forall i | 0 <= i < |s| ensures s[i] != x { assert t[i] != t[|s|]; }
      forall i, j | 0 <= i < j < |s| ensures s[i] != s[j] { assert t[i] != t[j]; }
    }
  }

  function Insert<T>(x: T, s: seq<T>, key: T -> Key): seq<T>
  {
    if s == [] || KeyLeq(key(x), key(s[0])) then [x] + s
    else [s[0]] + Insert(x, s[1..], key)
  }

  /** Python's `sorted(s, key=key)`. */
  function Sort<T>(s: seq<T>, key: T -> Key): seq<T>
  {
    if s == [] then [] else Insert(s[0], Sort(s[1..], key), key)
  }

  lemma {:induction false} InsertPermutes<T>(x: T, s: seq<T>, key: T -> Key)
    ensures multiset(Insert(x, s, key)) == multiset{x} + multiset(s)
  {
    if s != [] && !KeyLeq(key(x), key(s[0])) {
      InsertPermutes(x, s[1..], key);
      assert s == [s[0]] + s[1..];
    }
  }

  lemma {:induction false} InsertKeepsSorted<T>(x: T, s: seq<T>, key: T -> Key)
    requires SortedBy(s, key)
    ensures SortedBy(Insert(x, s, key), key)
  {
    var r := Insert(x, s, key);
    if s != [] && !KeyLeq(key(x), key(s[0])) {
      InsertKeepsSorted(x, s[1..], key);
      InsertPermutes(x, s[1..], key);
      var t := Insert(x, s[1..], key);
      forall j | 0 <= j < |t| ensures KeyLeq(key(s[0]), key(t[j])) {
        assert t[j] in multiset(t);
        assert t[j] == x || t[j] in s[1..];
        KeyLeqTotal(key(x), key(s[0]));
      }
    } else if s != [] {
      forall j | 0 <= j < |s| ensures KeyLeq(key(x), key(s[j])) {
        if j > 0 { KeyLeqTransitive(key(x), key(s[0]), key(s[j])); }
      }
    }
  }

  lemma {:induction false} SortSorts<T>(s: seq<T>, key: T -> Key)
    ensures SortedBy(Sort(s, key), key)
    ensures multiset(Sort(s, key)) == multiset(s)
  {
    if s != [] {
      SortSorts(s[1..], key);
      InsertKeepsSorted(s[0], Sort(s[1..], key), key);
      InsertPermutes(s[0], Sort(s[1..], key), key);
      assert s == [s[0]] + s[1..];
    }
  }

  lemma SortedSameHead<T>(a: seq<T>, b: seq<T>, key: T -> Key)
    requires SortedBy(a, key) && SortedBy(b, key)
    requires a != [] && b != [] && a[0] in b && b[0] in a
    requires DistinctKeys(a, key)
    ensures a[0] == b[0]
  {
    var i :| 0 <= i < |a| && a[i] == b[0];
    var j :| 0 <= j < |b| && b[j] == a[0];
    if i != 0 && j != 0 {
      KeyLeqAntisymmetric(key(a[0]), key(b[0]));
    }
  }

  /** A sequence with one element taken out. */
  function Without<T>(s: seq<T>, i: nat): (r: seq<T>)
    requires i < |s|
    ensures |r| == |s| - 1
  {
    s[..i] + s[i + 1..]
  }

  lemma MultisetWithout<T>(s: seq<T>, i: nat)
    requires i < |s|
    ensures multiset(Without(s, i)) == multiset(s) - multiset{s[i]}
  {
    assert s == s[..i] + ([s[i]] + s[i + 1..]);
  }

  /** The last element of one arrangement has a place in any other, and taking
      both out leaves arrangements of the same elements. */
  lemma PlaceOfLast<T>(a: seq<T>, b: seq<T>) returns (i: nat)
    requires multiset(a) == multiset(b) && a != []
    ensures i < |b| && b[i] == a[|a| - 1]
    ensures multiset(a[..|a| - 1]) == multiset(Without(b, i))
  {
    var n := |a| - 1;
    assert a[n] in multiset(b);
    i :| 0 <= i < |b| && b[i] == a[n];
    MultisetWithout(b, i);
    assert a == a[..n] + [a[n]];
  }

  lemma MultisetOfTail<T>(s: seq<T>)
    requires s != []
    ensures multiset(s[1..]) == multiset(s) - multiset{s[0]}
  {
    MultisetWithout(s, 0);
    assert Without(s, 0) == s[1..];
  }

  lemma TailKeepsOrder<T>(s: seq<T>, key: T -> Key)
    requires s != []
    ensures SortedBy(s, key) ==> SortedBy(s[1..], key)
    ensures DistinctKeys(s, key) ==> DistinctKeys(s[1..], key)
  {
    var t := s[1..];
    assert forall i :: 0 <= i < |t| ==> t[i] == s[i + 1];
  }

  lemma SameHeadAndTail<T>(a: seq<T>, b: seq<T>)
    requires a != [] && b != [] && a[0] == b[0] && a[1..] == b[1..]
    ensures a == b
  {
    assert a == [a[0]] + a[1..] && b == [b[0]] + b[1..];
  }

  /** Of two sorted arrangements of the same elements, the heads agree and the tails
      are again arrangements of the same elements. */
  lemma SortedHeads<T>(a: seq<T>, b: seq<T>, key: T -> Key)
    requires SortedBy(a, key) && SortedBy(b, key) && DistinctKeys(a, key)
    requires multiset(a) == multiset(b) && a != []
    ensures b != [] && a[0] == b[0] && multiset(a[1..]) == multiset(b[1..])
  {
    assert |a| == |multiset(a)| == |multiset(b)| == |b|;
    assert a[0] in multiset(b) && b[0] in multiset(a);
    SortedSameHead(a, b, key);
    MultisetOfTail(a);
    MultisetOfTail(b);
  }

  /** With distinct keys there is only one sorted arrangement, so any two
      sources of the same elements sort to the same sequence. */
  lemma {:induction false} SortedArrangementUnique<T>(a: seq<T>, b: seq<T>, key: T -> Key)
    requires SortedBy(a, key) && SortedBy(b, key)
    requires multiset(a) == multiset(b)
    requires DistinctKeys(a, key)
    ensures a == b
  {
    if a == [] {
      assert |b| == |multiset(b)| == |multiset(a)| == 0;
    } else {
      SortedHeads(a, b, key);
      TailKeepsOrder(a, key);
      TailKeepsOrder(b, key);
      SortedArrangementUnique(a[1..], b[1..], key);
      SameHeadAndTail(a, b);
    }
  }

  function RefKey(r: Ref): Key { [r.objectType, r.objectId, r.objectVersion, r.objectSha256] }

  /** `_sorted_refs`: duplicates dropped, then sorted. */
  function SortedRefs(refs: seq<Ref>): seq<Ref> { Sort(Deduplicated(refs), RefKey) }

  function Deduplicated(refs: seq<Ref>): seq<Ref>
  {
    if refs == [] then []
    else
      var front, last := refs[..|refs| - 1], refs[|refs| - 1];
      if last in front then Deduplicated(front) else Deduplicated(front) + [last]
  }

  lemma {:induction false} DeduplicatedSameElements(refs: seq<Ref>, ref: Ref)
    ensures ref in Deduplicated(refs) <==> ref in refs
  {
    if refs != [] {
      var front, last := refs[..|refs| - 1], refs[|refs| - 1];
      assert refs == front + [last];
      DeduplicatedSameElements(front, ref);
    }
  }

  lemma SortedRefsSameElements(refs: seq<Ref>, ref: Ref)
    ensures ref in SortedRefs(refs) <==> ref in refs
  {
    DeduplicatedSameElements(refs, ref);
    SortSorts(Deduplicated(refs), RefKey);
    assert ref in Deduplicated(refs) <==> ref in multiset(Deduplicated(refs));
    assert ref in SortedRefs(refs) <==> ref in multiset(SortedRefs(refs));
  }

  /** The key of a plain string among strings. */
  function TextKey(s: string): Key { [s] }

  lemma SortedTextsSameElements(texts: seq<string>, t: string)
    ensures t in Sort(texts, TextKey) <==> t in texts
  {
    SortSorts(texts, TextKey);
    assert t in texts <==> t in multiset(texts);
    assert t in Sort(texts, TextKey) <==> t in multiset(Sort(texts, TextKey));
  }
}
