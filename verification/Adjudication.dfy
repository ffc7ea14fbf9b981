/** Validation of annotation bundles: ids, adjudications and gold coverage. */
module Adjudication {
  import opened Prelude
  import E = Evidence

  /** A field of a JSON object: missing or null, a string, or some other value. */
  datatype Value = Missing | Text(text: string) | Other(token: int)

  datatype Ruling = Ruling(decision: Value, adjudicatorId: Value, inputIds: Option<seq<string>>)

  datatype RulingField = Absent | NotAnObject | Given(ruling: Ruling)

  /** A record of the bundle. `otherErrors` is what the schema, canary, contract and
      per-type validators report about it. */
  datatype Record = Record(
    annotationId: Value,
    annotationType: Value,
    status: Value,
    canaryId: Value,
    subjectRef: Value,
    subjectSha: Value,
    annotatorId: Value,
    adjudication: RulingField,
    evidence: Option<seq<E.Item>>,
    payload: E.Json,
    otherErrors: nat)

  datatype Error =
    | EmptyGoldBundle
    | DuplicateId(record: nat)
    | OtherError(record: nat)
    | EvidenceError(record: nat)
    | NotGold(record: nat)
    | WrongDecision(record: nat)
    | AdjudicatesOwnRecord(record: nat)
    | TooFewInputs(record: nat)
    | UnknownInput(record: nat, input: nat)
    | ReferencesItself(record: nat, input: nat)
    | InputNotSubmitted(record: nat, input: nat)
    | InputMismatch(record: nat, input: nat)
    | AdjudicatesOwnInput(record: nat)
    | SharedAnnotator(record: nat)

  const ADJUDICATED := Text("ADJUDICATED")
  const SUPERSEDED := Text("SUPERSEDED")
  const SUBMITTED := Text("SUBMITTED")

  predicate IsRuling(r: Record) { r.status == ADJUDICATED && r.adjudication.Given? }

  predicate HighRisk(r: Record) { r.annotationType == Text("SAFETY") || r.annotationType == Text("RELEASE") }

  /** What is checked of a record on its own. */
  ghost predicate RecordOk(r: Record)
  {
    r.otherErrors == 0 && E.EvidenceOk(r.evidence, r.payload, HighRisk(r))
  }

  /** `records_by_id`: the position of the last record with each id. */
  function ById(records: seq<Record>): (m: map<string, nat>)
    ensures forall id :: id in m ==> m[id] < |records| && records[m[id]].annotationId == Text(id)
  {
    if records == [] then map[]
    else
      var n := |records| - 1;
      var rest := ById(records[..n]);
      if records[n].annotationId.Text? then rest[records[n].annotationId.text := n] else rest
  }

  /** `adjudication_input_ids`: every id some adjudicated record names as input. */
  function AllInputIds(records: seq<Record>): set<string>
  {
    if records == [] then {}
    else
      var last := records[|records| - 1];
      AllInputIds(records[..|records| - 1])
        + if IsRuling(last) && last.adjudication.ruling.inputIds.Some?
          then (set id | id in last.adjudication.ruling.inputIds.value) else {}
  }

  predicate SameSubject(a: Record, b: Record)
  {
    && a.annotationType == b.annotationType && a.canaryId == b.canaryId
    && a.subjectRef == b.subjectRef && a.subjectSha == b.subjectSha
  }

  /** Input `id` of the ruling at `i` is another, submitted record on its subject. */
  predicate InputOk(records: seq<Record>, byId: map<string, nat>, i: nat, id: string)
    requires i < |records| && forall x :: x in byId ==> byId[x] < |records|
  {
    && id in byId && byId[id] != i
    && var source := records[byId[id]];
       source.status == SUBMITTED && source.adjudication.Absent? && SameSubject(source, records[i])
  }

  /** The annotators of the inputs that were found. */
  function InputAnnotators(records: seq<Record>, byId: map<string, nat>, i: nat, ids: seq<string>): set<string>
    requires i < |records| && forall x :: x in byId ==> byId[x] < |records|
  {
    if ids == [] then {}
    else
      var id := ids[|ids| - 1];
      InputAnnotators(records, byId, i, ids[..|ids| - 1])
        + if id in byId && byId[id] != i && records[byId[id]].annotatorId.Text?
          then {records[byId[id]].annotatorId.text} else {}
  }

  function RequiredInputs(r: Record): nat { if HighRisk(r) then 2 else 1 }

  ghost predicate InputsOk(records: seq<Record>, byId: map<string, nat>, i: nat, ids: seq<string>)
    requires i < |records| && forall x :: x in byId ==> byId[x] < |records|
  {
    var annotators := InputAnnotators(records, byId, i, ids);
    var field := records[i].adjudication;
    && |ids| >= RequiredInputs(records[i])
    && (forall k :: 0 <= k < |ids| ==> InputOk(records, byId, i, ids[k]))
    && !(field.Given? && field.ruling.adjudicatorId.Text? && field.ruling.adjudicatorId.text in annotators)
    && |annotators| == |ids|
  }

  /** `_validate_adjudication` reports nothing. */
  ghost predicate RulingOk(records: seq<Record>, byId: map<string, nat>, i: nat)
    requires i < |records| && forall x :: x in byId ==> byId[x] < |records|
  {
    IsRuling(records[i]) ==>
      var ruling := records[i].adjudication.ruling;
      && ruling.decision in {Text("ACCEPT"), Text("REVISE")}
      && ruling.adjudicatorId != records[i].annotatorId
      && (ruling.inputIds.Some? ==> InputsOk(records, byId, i, ruling.inputIds.value))
  }

  ghost predicate GoldOk(records: seq<Record>, i: nat)
    requires i < |records|
  {
    || records[i].status in {ADJUDICATED, SUPERSEDED}
    || (records[i].annotationId.Text? && records[i].annotationId.text in AllInputIds(records))
  }

  ghost predicate DistinctIds(records: seq<Record>)
  {
    forall i, j :: 0 <= i < j < |records| && records[i].annotationId.Text? ==>
      records[i].annotationId != records[j].annotationId
  }

  /** What it means for a bundle to be valid. */
  ghost predicate BundleOk(records: seq<Record>, gold: bool)
  {
    && (gold ==> records != [])
    && DistinctIds(records)
    && (forall i :: 0 <= i < |records| ==> RecordOk(records[i]))
    && (gold ==> forall i :: 0 <= i < |records| ==> GoldOk(records, i))
    && (forall i :: 0 <= i < |records| ==> RulingOk(records, ById(records), i))
  }

  /** The error is one of input `n`, and it is reported. */
  ghost predicate InputError(records: seq<Record>, byId: map<string, nat>, i: nat, ids: seq<string>, e: Error)
    requires i < |records| && forall x :: x in byId ==> byId[x] < |records|
  {
    match e
    case UnknownInput(k, n) => k == i && n < |ids| && ids[n] !in byId
    case ReferencesItself(k, n) => k == i && n < |ids| && ids[n] in byId && byId[ids[n]] == i
    case InputNotSubmitted(k, n) =>
      && k == i && n < |ids| && ids[n] in byId && byId[ids[n]] != i
      && !(records[byId[ids[n]]].status == SUBMITTED && records[byId[ids[n]]].adjudication.Absent?)
    case InputMismatch(k, n) =>
      && k == i && n < |ids| && ids[n] in byId && byId[ids[n]] != i
      && !SameSubject(records[byId[ids[n]]], records[i])
    case _ => false
  }

  /** Errors of the ruling itself. */
  ghost predicate OwnError(records: seq<Record>, i: nat, ruling: Ruling, e: Error)
    requires i < |records|
  {
    || (e == WrongDecision(i) && ruling.decision !in {Text("ACCEPT"), Text("REVISE")})
    || (e == AdjudicatesOwnRecord(i) && ruling.adjudicatorId == records[i].annotatorId)
    || (e == TooFewInputs(i) && ruling.inputIds.Some? && |ruling.inputIds.value| < RequiredInputs(records[i]))
  }

  /** Errors about who submitted the inputs. */
  ghost predicate AnnotatorError(i: nat, adjudicator: Value, annotators: set<string>, count: nat, e: Error)
  {
    || (e == AdjudicatesOwnInput(i) && adjudicator.Text? && adjudicator.text in annotators)
    || (e == SharedAnnotator(i) && |annotators| != count)
  }

  /** What `_validate_adjudication` reports. */
  ghost predicate RulingError(records: seq<Record>, byId: map<string, nat>, i: nat, e: Error)
    requires i < |records| && forall x :: x in byId ==> byId[x] < |records|
  {
    && IsRuling(records[i])
    && var ruling := records[i].adjudication.ruling;
       || OwnError(records, i, ruling, e)
       || (ruling.inputIds.Some?
           && var ids := ruling.inputIds.value;
              || InputError(records, byId, i, ids, e)
              || AnnotatorError(i, ruling.adjudicatorId, InputAnnotators(records, byId, i, ids), |ids|, e))
  }

  /** What the first pass reports about a record. */
  ghost predicate FirstError(records: seq<Record>, gold: bool, i: nat, e: Error)
    requires i < |records|
  {
    match e
    case DuplicateId(k) =>
      k == i && records[i].annotationId.Text? && records[i].annotationId.text in ById(records[..i])
    case OtherError(k) => k == i && records[i].otherErrors > 0
    case EvidenceError(k) => k == i && !E.EvidenceOk(records[i].evidence, records[i].payload, HighRisk(records[i]))
    case NotGold(k) => k == i && gold && !GoldOk(records, i)
    case _ => false
  }

  /** Everything the validation reports. */
  ghost predicate Reported(records: seq<Record>, gold: bool, e: Error)
  {
    || (e == EmptyGoldBundle && gold && records == [])
    || (exists i :: 0 <= i < |records| && FirstError(records, gold, i, e))
    || (exists i :: 0 <= i < |records| && RulingError(records, ById(records), i, e))
  }

  // ----------------------------------------------------------------- the passes

  lemma InputsOkIff(records: seq<Record>, byId: map<string, nat>, i: nat, ids: seq<string>)
    requires i < |records| && forall x :: x in byId ==> byId[x] < |records|
    ensures (forall k :: 0 <= k < |ids| ==> InputOk(records, byId, i, ids[k]))
       <==> forall e :: !InputError(records, byId, i, ids, e)
  {
    if forall e :: !InputError(records, byId, i, ids, e) {
      forall k | 0 <= k < |ids| ensures InputOk(records, byId, i, ids[k]) {
        assert !InputError(records, byId, i, ids, UnknownInput(i, k));
        assert !InputError(records, byId, i, ids, ReferencesItself(i, k));
        assert !InputError(records, byId, i, ids, InputNotSubmitted(i, k));
        assert !InputError(records, byId, i, ids, InputMismatch(i, k));
      }
    }
  }

  method CheckInputs(records: seq<Record>, byId: map<string, nat>, i: nat, ids: seq<string>)
    returns (errors: seq<Error>, annotators: set<string>)
    requires i < |records| && forall x :: x in byId ==> byId[x] < |records|
    ensures errors == [] <==> forall k :: 0 <= k < |ids| ==> InputOk(records, byId, i, ids[k])
    ensures forall e :: e in errors <==> InputError(records, byId, i, ids, e)
    ensures annotators == InputAnnotators(records, byId, i, ids)
  {
    errors, annotators := [], {};
    for k := 0 to |ids|
      invariant forall e :: e in errors <==> InputError(records, byId, i, ids[..k], e)
      invariant annotators == InputAnnotators(records, byId, i, ids[..k])
    {
      assert ids[..k + 1][..k] == ids[..k];
      var id := ids[k];
      if id !in byId {
        errors := errors + [UnknownInput(i, k)];
      } else if byId[id] == i {
        errors := errors + [ReferencesItself(i, k)];
      } else {
        var source := records[byId[id]];
        if source.status != SUBMITTED || !source.adjudication.Absent? {
          errors := errors + [InputNotSubmitted(i, k)];
        }
        if !SameSubject(source, records[i]) {
          errors := errors + [InputMismatch(i, k)];
        }
        if source.annotatorId.Text? {
          annotators := annotators + {source.annotatorId.text};
        }
      }
    }
    assert ids[..|ids|] == ids;
    InputsOkIff(records, byId, i, ids);
    EmptyIff(errors);
  }

  lemma EmptyIff(errors: seq<Error>)
    ensures errors == [] <==> forall e :: e !in errors
  {
    if errors != [] { assert errors[0] in errors; }
  }

  lemma RulingOkIff(records: seq<Record>, byId: map<string, nat>, i: nat)
    requires i < |records| && forall x :: x in byId ==> byId[x] < |records|
    ensures RulingOk(records, byId, i) <==> forall e :: !RulingError(records, byId, i, e)
  {
    if IsRuling(records[i]) {
      var inputIds := records[i].adjudication.ruling.inputIds;
      if inputIds.Some? { InputsOkIff(records, byId, i, inputIds.value); }
      if RulingOk(records, byId, i) {
        forall e ensures !RulingError(records, byId, i, e) {}
      } else if forall e :: !RulingError(records, byId, i, e) {
        assert !RulingError(records, byId, i, WrongDecision(i));
        assert !RulingError(records, byId, i, AdjudicatesOwnRecord(i));
        assert !RulingError(records, byId, i, TooFewInputs(i));
        assert !RulingError(records, byId, i, AdjudicatesOwnInput(i));
        assert !RulingError(records, byId, i, SharedAnnotator(i));
        if inputIds.Some? {
          forall e | InputError(records, byId, i, inputIds.value, e) ensures RulingError(records, byId, i, e) {}
        }
        assert false;
      }
    }
  }

  method CheckRuling(records: seq<Record>, byId: map<string, nat>, i: nat) returns (errors: seq<Error>)
    requires i < |records| && forall x :: x in byId ==> byId[x] < |records|
    ensures errors == [] <==> RulingOk(records, byId, i)
    ensures forall e :: e in errors <==> RulingError(records, byId, i, e)
  {
    errors := [];
    RulingOkIff(records, byId, i);
    if !IsRuling(records[i]) { return; }
    var ruling := records[i].adjudication.ruling;
    if ruling.decision !in {Text("ACCEPT"), Text("REVISE")} { errors := errors + [WrongDecision(i)]; }
    if ruling.adjudicatorId == records[i].annotatorId { errors := errors + [AdjudicatesOwnRecord(i)]; }
    if ruling.inputIds.None? {
      EmptyIff(errors);
      return;
    }
    var ids := ruling.inputIds.value;
    if |ids| < RequiredInputs(records[i]) { errors := errors + [TooFewInputs(i)]; }
    assert forall e :: e in errors <==> OwnError(records, i, ruling, e);
    var inputErrors, annotators := CheckInputs(records, byId, i, ids);
    errors := errors + inputErrors;
    assert forall e :: e in errors <==> OwnError(records, i, ruling, e) || InputError(records, byId, i, ids, e);
    if ruling.adjudicatorId.Text? && ruling.adjudicatorId.text in annotators {
      errors := errors + [AdjudicatesOwnInput(i)];
    }
    if |annotators| != |ids| { errors := errors + [SharedAnnotator(i)]; }
    EmptyIff(errors);
  }

  /** What the first pass checks of one record. */
  ghost predicate FirstOk(records: seq<Record>, gold: bool, i: nat)
    requires i < |records|
  {
    && (records[i].annotationId.Text? ==> records[i].annotationId.text !in ById(records[..i]))
    && RecordOk(records[i])
    && (gold ==> GoldOk(records, i))
  }

  method CheckFirst(records: seq<Record>, byId: map<string, nat>, inputIds: set<string>, gold: bool, i: nat)
    returns (errors: seq<Error>)
    requires i < |records| && byId == ById(records[..i]) && inputIds == AllInputIds(records)
    ensures errors == [] <==> FirstOk(records, gold, i)
    ensures forall e :: e in errors <==> FirstError(records, gold, i, e)
  {
    var r := records[i];
    errors := [];
    if r.annotationId.Text? && r.annotationId.text in byId { errors := errors + [DuplicateId(i)]; }
    if r.otherErrors > 0 { errors := errors + [OtherError(i)]; }
    var evidenceErrors := E.CheckEvidence(r.evidence, r.payload, HighRisk(r));
    if evidenceErrors != [] { errors := errors + [EvidenceError(i)]; }
    if gold && r.status !in {ADJUDICATED, SUPERSEDED}
       && !(r.annotationId.Text? && r.annotationId.text in inputIds)
    {
      errors := errors + [NotGold(i)];
    }
  }

  /** The first pass over the records, which also fills `records_by_id`. */
  method FirstPass(records: seq<Record>, inputIds: set<string>, gold: bool)
    returns (errors: seq<Error>, byId: map<string, nat>)
    requires inputIds == AllInputIds(records)
    ensures byId == ById(records)
    ensures errors == [] <==>
              && DistinctIds(records)
              && (forall i :: 0 <= i < |records| ==> RecordOk(records[i]))
              && (gold ==> forall i :: 0 <= i < |records| ==> GoldOk(records, i))
    ensures forall e :: e in errors <==> exists i :: 0 <= i < |records| && FirstError(records, gold, i, e)
  {
    errors, byId := [], map[];
    for i := 0 to |records|
      invariant byId == ById(records[..i])
      invariant errors == [] <==> AllFirstOk(records, gold, i)
      invariant forall e :: e in errors <==> exists j :: 0 <= j < i && FirstError(records, gold, j, e)
    {
      assert records[..i + 1][..i] == records[..i];
      var more := CheckFirst(records, byId, inputIds, gold, i);
      errors := errors + more;
      if records[i].annotationId.Text? {
        byId := byId[records[i].annotationId.text := i];
      }
    }
    assert records[..|records|] == records;
    AllFirstOkIff(records, gold, |records|);
    FirstPassChecksAll(records, gold);
  }

  ghost predicate AllFirstOk(records: seq<Record>, gold: bool, n: nat)
    requires n <= |records|
  {
    n > 0 ==> AllFirstOk(records, gold, n - 1) && FirstOk(records, gold, n - 1)
  }

  lemma {:induction false} AllFirstOkIff(records: seq<Record>, gold: bool, n: nat)
    requires n <= |records|
    ensures AllFirstOk(records, gold, n) <==> forall j :: 0 <= j < n ==> FirstOk(records, gold, j)
  {
    if n > 0 {
      AllFirstOkIff(records, gold, n - 1);
    }
  }

  method CollectInputIds(records: seq<Record>) returns (ids: set<string>)
    ensures ids == AllInputIds(records)
  {
    ids := {};
    for i := 0 to |records|
      invariant ids == AllInputIds(records[..i])
    {
      assert records[..i + 1][..i] == records[..i];
      var r := records[i];
      if IsRuling(r) && r.adjudication.ruling.inputIds.Some? {
        ids := ids + set id | id in r.adjudication.ruling.inputIds.value;
      }
    }
    assert records[..|records|] == records;
  }

  /** `validate_records`: no errors exactly for valid bundles, and otherwise exactly
      those there are. */
  method ValidateRecords(records: seq<Record>, gold: bool) returns (errors: seq<Error>)
    ensures errors == [] <==> BundleOk(records, gold)
    ensures forall e :: e in errors <==> Reported(records, gold, e)
  {
    var inputIds := CollectInputIds(records);
    var first, byId := FirstPass(records, inputIds, gold);
    var second := SecondPass(records, byId);
    errors := (if gold && records == [] then [EmptyGoldBundle] else []) + first + second;
  }

  /** The second pass, over the adjudications. */
  method SecondPass(records: seq<Record>, byId: map<string, nat>) returns (errors: seq<Error>)
    requires forall x :: x in byId ==> byId[x] < |records|
    ensures errors == [] <==> forall i :: 0 <= i < |records| ==> RulingOk(records, byId, i)
    ensures forall e :: e in errors <==> exists i :: 0 <= i < |records| && RulingError(records, byId, i, e)
  {
    errors := [];
    for i := 0 to |records|
      invariant errors == [] <==> forall j :: 0 <= j < i ==> RulingOk(records, byId, j)
      invariant forall e :: e in errors <==> exists j :: 0 <= j < i && RulingError(records, byId, j, e)
    {
      var more := CheckRuling(records, byId, i);
      errors := errors + more;
    }
  }

  lemma {:induction false} KnownIds(records: seq<Record>, id: string)
    ensures id in ById(records) <==> exists j :: 0 <= j < |records| && records[j].annotationId == Text(id)
  {
    if records != [] {
      var n := |records| - 1;
      KnownIds(records[..n], id);
      if j :| 0 <= j < |records| && records[j].annotationId == Text(id) {
        assert j < n ==> records[..n][j].annotationId == Text(id);
      }
      if j :| 0 <= j < n && records[..n][j].annotationId == Text(id) {
        assert records[j].annotationId == Text(id);
      }
    }
  }

  /** Ids are distinct exactly when each is new at its position. */
  lemma DistinctIffFresh(records: seq<Record>)
    ensures DistinctIds(records) <==>
              forall i :: 0 <= i < |records| && records[i].annotationId.Text? ==>
                records[i].annotationId.text !in ById(records[..i])
  {
    forall i | 0 <= i < |records| && records[i].annotationId.Text?
      ensures records[i].annotationId.text in ById(records[..i])
         <==> exists j :: 0 <= j < i && records[j].annotationId == records[i].annotationId
    {
      var front, id := records[..i], records[i].annotationId.text;
      KnownIds(front, id);
      if j :| 0 <= j < |front| && front[j].annotationId == Text(id) {
        assert records[j].annotationId == Text(id);
      }
      if j :| 0 <= j < i && records[j].annotationId == Text(id) {
        assert front[j].annotationId == Text(id);
      }
    }
  }

  lemma FirstPassChecksAll(records: seq<Record>, gold: bool)
    ensures (forall i :: 0 <= i < |records| ==> FirstOk(records, gold, i)) <==>
              && DistinctIds(records)
              && (forall i :: 0 <= i < |records| ==> RecordOk(records[i]))
              && (gold ==> forall i :: 0 <= i < |records| ==> GoldOk(records, i))
  {
    DistinctIffFresh(records);
    if forall i :: 0 <= i < |records| ==> FirstOk(records, gold, i) {
      forall i | 0 <= i < |records|
        ensures records[i].annotationId.Text? ==> records[i].annotationId.text !in ById(records[..i])
        ensures RecordOk(records[i]) && (gold ==> GoldOk(records, i))
      {
        assert FirstOk(records, gold, i);
      }
    }
  }

  // ------------------------------------------------------- what a valid bundle is

  /** The shape the schemas prescribe for the fields used here. */
  ghost predicate WellShaped(records: seq<Record>)
  {
    forall i :: 0 <= i < |records| ==>
      && records[i].annotationId.Text? && records[i].annotatorId.Text?
      && (records[i].status == ADJUDICATED ==>
            && records[i].adjudication.Given?
            && records[i].adjudication.ruling.adjudicatorId.Text?
            && records[i].adjudication.ruling.inputIds.Some?)
  }

  /** The position of the record that input `k` of the ruling at `i` names. */
  ghost function InputAt(records: seq<Record>, i: nat, k: nat): (j: nat)
    requires i < |records| && WellShaped(records) && records[i].status == ADJUDICATED
    requires k < |records[i].adjudication.ruling.inputIds.value|
    requires records[i].adjudication.ruling.inputIds.value[k] in ById(records)
    ensures j < |records|
  {
    ById(records)[records[i].adjudication.ruling.inputIds.value[k]]
  }

  lemma {:induction false} AnnotatorsBound(records: seq<Record>, byId: map<string, nat>, i: nat, ids: seq<string>)
    requires i < |records| && forall x :: x in byId ==> byId[x] < |records|
    ensures |InputAnnotators(records, byId, i, ids)| <= |ids|
  {
    if ids != [] {
      AnnotatorsBound(records, byId, i, ids[..|ids| - 1]);
    }
  }

  lemma {:induction false} AnnotatorOfInput(records: seq<Record>, byId: map<string, nat>, i: nat, ids: seq<string>,
                                            k: nat)
    requires i < |records| && (forall x :: x in byId ==> byId[x] < |records|) && k < |ids|
    requires ids[k] in byId && byId[ids[k]] != i && records[byId[ids[k]]].annotatorId.Text?
    ensures records[byId[ids[k]]].annotatorId.text in InputAnnotators(records, byId, i, ids)
  {
    if k < |ids| - 1 {
      AnnotatorOfInput(records, byId, i, ids[..|ids| - 1], k);
    }
  }

  /** As many annotators as inputs: by counting, no annotator comes twice. */
  lemma {:induction false} AnnotatorsAreDistinct(records: seq<Record>, byId: map<string, nat>, i: nat, ids: seq<string>,
                                                 a: nat, b: nat)
    requires i < |records| && forall x :: x in byId ==> byId[x] < |records|
    requires forall k :: 0 <= k < |ids| ==>
               ids[k] in byId && byId[ids[k]] != i && records[byId[ids[k]]].annotatorId.Text?
    requires |InputAnnotators(records, byId, i, ids)| == |ids|
    requires a < b < |ids|
    ensures records[byId[ids[a]]].annotatorId != records[byId[ids[b]]].annotatorId
  {
    var front, n := ids[..|ids| - 1], |ids| - 1;
    AnnotatorsBound(records, byId, i, front);
    if b < n {
      AnnotatorsAreDistinct(records, byId, i, front, a, b);
    } else {
      AnnotatorOfInput(records, byId, i, front, a);
    }
  }

  /** A sound adjudication: its inputs are pairwise distinct submitted records on
      the same subject, from pairwise distinct annotators none of whom is the
      adjudicator, and there are enough of them. */
  ghost predicate SoundRuling(records: seq<Record>, i: nat)
    requires i < |records| && WellShaped(records) && records[i].status == ADJUDICATED
  {
    var ruling := records[i].adjudication.ruling;
    var ids := ruling.inputIds.value;
    && ruling.adjudicatorId != records[i].annotatorId
    && |ids| >= (if HighRisk(records[i]) then 2 else 1)
    && (forall k :: 0 <= k < |ids| ==> ids[k] in ById(records))
    && (forall k :: 0 <= k < |ids| ==>
          var source := records[InputAt(records, i, k)];
          && InputAt(records, i, k) != i
          && source.status == SUBMITTED && source.adjudication.Absent? && SameSubject(source, records[i])
          && source.annotatorId != ruling.adjudicatorId)
    && (forall a, b :: 0 <= a < b < |ids| ==>
          && ids[a] != ids[b]
          && records[InputAt(records, i, a)].annotatorId != records[InputAt(records, i, b)].annotatorId)
  }

  lemma InputsAreApart(records: seq<Record>, byId: map<string, nat>, i: nat, ids: seq<string>)
    requires WellShaped(records) && i < |records| && forall x :: x in byId ==> byId[x] < |records|
    requires InputsOk(records, byId, i, ids)
    ensures forall a, b :: 0 <= a < b < |ids| ==>
              && ids[a] in byId && ids[b] in byId && ids[a] != ids[b]
              && records[byId[ids[a]]].annotatorId != records[byId[ids[b]]].annotatorId
  {
    assert forall k :: 0 <= k < |ids| ==> InputOk(records, byId, i, ids[k]);
    forall a, b | 0 <= a < b < |ids|
      ensures ids[a] in byId && ids[b] in byId && ids[a] != ids[b]
      ensures records[byId[ids[a]]].annotatorId != records[byId[ids[b]]].annotatorId
    {
      AnnotatorsAreDistinct(records, byId, i, ids, a, b);
    }
  }

  lemma ValidRulingIsSound(records: seq<Record>, gold: bool, i: nat)
    requires WellShaped(records) && BundleOk(records, gold)
    requires i < |records| && records[i].status == ADJUDICATED
    ensures SoundRuling(records, i)
  {
    var byId := ById(records);
    var ruling := records[i].adjudication.ruling;
    var ids := ruling.inputIds.value;
    assert RulingOk(records, byId, i);
    InputsAreApart(records, byId, i, ids);
    forall k | 0 <= k < |ids|
      ensures ids[k] in byId && InputOk(records, byId, i, ids[k])
      ensures records[byId[ids[k]]].annotatorId != ruling.adjudicatorId
    {
      AnnotatorOfInput(records, byId, i, ids, k);
    }
  }

  /** Adjudications never chain: no input is itself adjudicated. */
  lemma AdjudicationsDoNotChain(records: seq<Record>, gold: bool, i: nat, k: nat)
    requires WellShaped(records) && BundleOk(records, gold)
    requires i < |records| && records[i].status == ADJUDICATED
    requires k < |records[i].adjudication.ruling.inputIds.value|
    ensures records[i].adjudication.ruling.inputIds.value[k] in ById(records)
    ensures records[InputAt(records, i, k)].status != ADJUDICATED
  {
    ValidRulingIsSound(records, gold, i);
  }

  lemma {:induction false} InputIdHasRuling(records: seq<Record>, id: string)
    requires id in AllInputIds(records)
    ensures exists j :: 0 <= j < |records| && IsRuling(records[j])
                     && records[j].adjudication.ruling.inputIds.Some?
                     && id in records[j].adjudication.ruling.inputIds.value
  {
    var n := |records| - 1;
    if id in AllInputIds(records[..n]) {
      InputIdHasRuling(records[..n], id);
      var j :| 0 <= j < n && IsRuling(records[..n][j]) && records[..n][j].adjudication.ruling.inputIds.Some?
            && id in records[..n][j].adjudication.ruling.inputIds.value;
      assert records[j] == records[..n][j];
    } else {
      assert IsRuling(records[n]);
    }
  }

  /** In a valid gold bundle every record that is neither adjudicated nor
      superseded is an input of some sound adjudication. */
  lemma GoldRecordsAreAdjudicated(records: seq<Record>, i: nat) returns (j: nat)
    requires WellShaped(records) && BundleOk(records, true)
    requires i < |records| && records[i].status !in {ADJUDICATED, SUPERSEDED}
    ensures j < |records| && records[j].status == ADJUDICATED && SoundRuling(records, j)
    ensures records[i].annotationId.text in records[j].adjudication.ruling.inputIds.value
  {
    assert GoldOk(records, i);
    var id := records[i].annotationId.text;
    InputIdHasRuling(records, id);
    j :| 0 <= j < |records| && IsRuling(records[j]) && records[j].adjudication.ruling.inputIds.Some?
      && id in records[j].adjudication.ruling.inputIds.value;
    ValidRulingIsSound(records, true, j);
  }

  /** In a valid bundle every id that a payload cites, on whatever path, is the id of
      exactly one piece of evidence listed in the same record. */
  lemma ValidCitationsAreListed(records: seq<Record>, gold: bool, i: nat, path: seq<nat>, id: string)
    requires BundleOk(records, gold) && i < |records| && records[i].evidence.Some?
    requires E.CitesAt(records[i].payload, path, id)
    ensures
      var evidence := records[i].evidence.value;
      exists j :: 0 <= j < |evidence| && E.HasId(evidence[j], id)
              && forall k :: 0 <= k < |evidence| && E.HasId(evidence[k], id) ==> k == j
  {
    assert RecordOk(records[i]);
    E.CitationsAreListedOnce(records[i].evidence.value, records[i].payload, HighRisk(records[i]), path, id);
  }
}
