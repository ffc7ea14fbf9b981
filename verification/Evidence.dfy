/** Evidence references of an annotation: what its payload cites, at any depth,
    against the evidence it lists. */
module Evidence {
  import opened Prelude

  datatype Json =
    | Object(fields: seq<Field>)
    | List(items: seq<Json>)
    | Str(text: string)
    | Scalar(token: int)

  datatype Field = Field(key: string, child: Json)

  const SUFFIX := "_evidence_ref_ids"

  /** `key.endswith("_evidence_ref_ids")`. */
  predicate IsRefKey(key: string)
  {
    |key| >= |SUFFIX| && key[|key| - |SUFFIX|..] == SUFFIX
  }

  function Strings(items: seq<Json>): set<string>
  {
    set v | v in items && v.Str? :: v.text
  }

  // ------------------------------------------------------------------- collecting

  /** Everything a value cites. A reference list is taken as it is: what it holds
      besides strings is not looked into. */
  function Refs(v: Json): set<string>
    decreases v, 0
  {
    match v
    case Object(fields) => FieldRefs(fields)
    case List(items) => ItemRefs(items)
    case _ => {}
  }

  function FieldRef(key: string, child: Json): set<string>
    decreases child, 1
  {
    if IsRefKey(key) && child.List? then Strings(child.items) else Refs(child)
  }

  function FieldRefs(fields: seq<Field>): set<string>
    decreases fields, 0
  {
    if fields == [] then {}
    else
      var last := fields[|fields| - 1];
      FieldRefs(fields[..|fields| - 1]) + FieldRef(last.key, last.child)
  }

  function ItemRefs(items: seq<Json>): set<string>
    decreases items, 0
  {
    if items == [] then {} else ItemRefs(items[..|items| - 1]) + Refs(items[|items| - 1])
  }

  /** `_payload_evidence_refs`: recursion with a growing set. */
  method CollectRefs(v: Json) returns (found: set<string>)
    ensures found == Refs(v)
    decreases v
  {
    found := {};
    match v {
      case Object(fields) =>
        for i := 0 to |fields|
          invariant found == FieldRefs(fields[..i])
        {
          assert fields[..i + 1][..i] == fields[..i];
          var Field(key, child) := fields[i];
          if IsRefKey(key) && child.List? {
            found := found + Strings(child.items);
          } else {
            var more := CollectRefs(child);
            found := found + more;
          }
        }
        assert fields[..|fields|] == fields;
      case List(items) =>
        for i := 0 to |items|
          invariant found == ItemRefs(items[..i])
        {
          assert items[..i + 1][..i] == items[..i];
          var more := CollectRefs(items[i]);
          found := found + more;
        }
        assert items[..|items|] == items;
      case Str(_) =>
      case Scalar(_) =>
    }
  }

  // ---------------------------------------------------------- citing, by position

  /** Following `path` through objects and lists leads to the string `id` in a
      reference list. */
  ghost predicate CitesAt(v: Json, path: seq<nat>, id: string)
    decreases |path|
  {
    path != [] &&
    match v
    case Object(fields) =>
      path[0] < |fields| &&
      var Field(key, child) := fields[path[0]];
      if IsRefKey(key) && child.List? then
        |path| == 2 && path[1] < |child.items| && child.items[path[1]] == Str(id)
      else CitesAt(child, path[1..], id)
    case List(items) => path[0] < |items| && CitesAt(items[path[0]], path[1..], id)
    case _ => false
  }

  lemma {:induction false} FieldRefsHas(fields: seq<Field>, id: string)
    ensures id in FieldRefs(fields) <==> exists i :: 0 <= i < |fields| && id in FieldRef(fields[i].key, fields[i].child)
  {
    if fields != [] {
      var n := |fields| - 1;
      FieldRefsHas(fields[..n], id);
      if i :| 0 <= i < n && id in FieldRef(fields[..n][i].key, fields[..n][i].child) {
        assert fields[..n][i] == fields[i];
      }
      if i :| 0 <= i < |fields| && id in FieldRef(fields[i].key, fields[i].child) {
        assert i < n ==> fields[..n][i] == fields[i];
      }
    }
  }

  lemma {:induction false} ItemRefsHas(items: seq<Json>, id: string)
    ensures id in ItemRefs(items) <==> exists i :: 0 <= i < |items| && id in Refs(items[i])
  {
    if items != [] {
      var n := |items| - 1;
      ItemRefsHas(items[..n], id);
      if i :| 0 <= i < n && id in Refs(items[..n][i]) {
        assert items[..n][i] == items[i];
      }
      if i :| 0 <= i < |items| && id in Refs(items[i]) {
        assert i < n ==> items[..n][i] == items[i];
      }
    }
  }

  /** Whatever is collected is cited somewhere. */
  lemma {:induction false} CollectedIsCited(v: Json, id: string) returns (path: seq<nat>)
    requires id in Refs(v)
    ensures CitesAt(v, path, id)
    decreases v
  {
    match v {
      case Object(fields) =>
        FieldRefsHas(fields, id);
        var i :| 0 <= i < |fields| && id in FieldRef(fields[i].key, fields[i].child);
        var child := fields[i].child;
        if IsRefKey(fields[i].key) && child.List? {
          var x :| x in child.items && x.Str? && x.text == id;
          var j :| 0 <= j < |child.items| && child.items[j] == x;
          path := [i, j];
        } else {
          var rest := CollectedIsCited(child, id);
          path := [i] + rest;
          assert path[1..] == rest;
        }
      case List(items) =>
        ItemRefsHas(items, id);
        var i :| 0 <= i < |items| && id in Refs(items[i]);
        var rest := CollectedIsCited(items[i], id);
        path := [i] + rest;
        assert path[1..] == rest;
    }
  }

  /** Whatever is cited, at any depth, is collected. */
  lemma {:induction false} CitedIsCollected(v: Json, path: seq<nat>, id: string)
    requires CitesAt(v, path, id)
    ensures id in Refs(v)
    decreases |path|
  {
    match v
    case Object(fields) =>
      var Field(key, child) := fields[path[0]];
      if IsRefKey(key) && child.List? {
        assert child.items[path[1]] in child.items;
      } else {
        CitedIsCollected(child, path[1..], id);
      }
      assert id in FieldRef(fields[path[0]].key, fields[path[0]].child);
      FieldRefsHas(fields, id);
    case List(items) =>
      CitedIsCollected(items[path[0]], path[1..], id);
      ItemRefsHas(items, id);
  }

  ghost predicate Cites(v: Json, id: string)
  {
    exists path: seq<nat> :: CitesAt(v, path, id)
  }

  /** The recursive collection finds exactly what some path leads to. */
  lemma {:induction false} CollectsExactlyTheCited(v: Json, id: string)
    ensures id in Refs(v) <==> Cites(v, id)
  {
    if id in Refs(v) {
      var path := CollectedIsCited(v, id);
      assert CitesAt(v, path, id);
    }
    if Cites(v, id) {
      var path: seq<nat> :| CitesAt(v, path, id);
      CitedIsCollected(v, path, id);
    }
  }

  // ----------------------------------------------------------------- listed evidence

  /** An element of the evidence list; the id is None if it is not a string. */
  datatype Item = NotAnObject | Item(id: Option<string>, approximate: bool)

  predicate HasId(x: Item, id: string) { x.Item? && x.id == Some(id) }

  function Ids(evidence: seq<Item>): set<string>
  {
    set x | x in evidence && x.Item? && x.id.Some? :: x.id.value
  }

  datatype EvidenceError = IdsNotUnique | CitesMissing | OnlyApproximate

  ghost predicate AllApproximate(evidence: seq<Item>)
  {
    forall x :: x in evidence && x.Item? ==> x.approximate
  }

  /** `_validate_evidence` reports nothing. */
  ghost predicate EvidenceOk(evidence: Option<seq<Item>>, payload: Json, highRisk: bool)
  {
    evidence.Some? ==>
      && |Ids(evidence.value)| == |evidence.value|
      && Refs(payload) <= Ids(evidence.value)
      && !(highRisk && evidence.value != [] && AllApproximate(evidence.value))
  }

  method CheckEvidence(evidence: Option<seq<Item>>, payload: Json, highRisk: bool) returns (errors: seq<EvidenceError>)
    ensures errors == [] <==> EvidenceOk(evidence, payload, highRisk)
  {
    errors := [];
    if evidence.None? { return; }
    var list := evidence.value;
    var byId := Ids(list);
    if |byId| != |list| { errors := errors + [IdsNotUnique]; }
    var referenced := CollectRefs(payload);
    var missing := referenced - byId;
    assert forall x :: x in missing <==> x in Refs(payload) && x !in byId;
    if missing != {} {
      errors := errors + [CitesMissing];
    }
    if highRisk && list != [] && (forall x :: x in list && x.Item? ==> x.approximate) {
      errors := errors + [OnlyApproximate];
    }
  }

  lemma IdsAppend(front: seq<Item>, last: Item)
    ensures Ids(front + [last]) == Ids(front) + if last.Item? && last.id.Some? then {last.id.value} else {}
  {
    assert forall x :: x in front + [last] <==> x in front || x == last;
  }

  lemma {:induction false} IdsBound(evidence: seq<Item>)
    ensures |Ids(evidence)| <= |evidence|
  {
    if evidence != [] {
      var front, last := evidence[..|evidence| - 1], evidence[|evidence| - 1];
      IdsBound(front);
      assert evidence == front + [last];
      IdsAppend(front, last);
    }
  }

  /** As many ids as pieces: by counting, no two pieces share an id. */
  lemma {:induction false} IdsAreDistinct(evidence: seq<Item>, i: nat, j: nat)
    requires |Ids(evidence)| == |evidence| && i < j < |evidence|
    ensures !SameId(evidence[i], evidence[j])
  {
    var front, last := evidence[..|evidence| - 1], evidence[|evidence| - 1];
    IdsBound(front);
    assert evidence == front + [last];
    IdsAppend(front, last);
    if j < |front| {
      IdsAreDistinct(front, i, j);
    } else {
      assert front[i] in front;
    }
  }

  predicate SameId(x: Item, y: Item) { x.Item? && y.Item? && x.id.Some? && x.id == y.id }

  /** In a record without evidence errors, every id its payload cites, on whatever
      path, is the id of exactly one listed piece of evidence; and a high-risk
      conclusion with evidence has a piece that is not approximate. */
  lemma CitationsAreListedOnce(evidence: seq<Item>, payload: Json, highRisk: bool, path: seq<nat>, id: string)
    requires EvidenceOk(Some(evidence), payload, highRisk) && CitesAt(payload, path, id)
    ensures exists i :: 0 <= i < |evidence| && HasId(evidence[i], id)
                     && forall j :: 0 <= j < |evidence| && HasId(evidence[j], id) ==> j == i
    ensures highRisk ==> exists x :: x in evidence && x.Item? && !x.approximate
  {
    CitedIsCollected(payload, path, id);
    assert id in Ids(evidence);
    var x :| x in evidence && x.Item? && x.id == Some(id);
    var i :| 0 <= i < |evidence| && evidence[i] == x;
    forall j | 0 <= j < |evidence| && HasId(evidence[j], id) ensures j == i {
      if i < j { IdsAreDistinct(evidence, i, j); }
      if j < i { IdsAreDistinct(evidence, j, i); }
    }
    assert HasId(evidence[i], id);
  }
}
