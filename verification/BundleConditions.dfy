/** When a bundle of annotations is valid, said of its records alone. */
module BundleConditions {
  import opened Prelude
  import E = Evidence
  import opened Adjudication

  /** The evidence listed has one id each, every id cited at any depth is one of them, and
      a safety or release record does not rest on approximate evidence alone. */
  ghost predicate EvidenceStands(r: Record)
  {
    r.evidence.Some? ==>
      var evidence := r.evidence.value;
      && OneEach(evidence)
      && (forall id :: E.Cites(r.payload, id) ==> exists i :: 0 <= i < |evidence| && E.HasId(evidence[i], id))
      && (r.annotationType in {Text("SAFETY"), Text("RELEASE")} && evidence != [] ==>
            exists i :: 0 <= i < |evidence| && !evidence[i].approximate)
  }

  /** The record at `j` is what input `k` of the adjudication at `i` calls for: another
      record with that id, submitted, not itself adjudicated, about the same subject. */
  ghost predicate IsInput(records: seq<Record>, i: nat, id: string, j: nat)
    requires i < |records|
  {
    && j < |records| && j != i && records[j].annotationId == Text(id)
    && records[j].status == Text("SUBMITTED") && records[j].adjudication.Absent?
    && records[j].annotationType == records[i].annotationType && records[j].canaryId == records[i].canaryId
    && records[j].subjectRef == records[i].subjectRef && records[j].subjectSha == records[i].subjectSha
  }

  /** The inputs are the records at these positions: each submitted by somebody other than
      the adjudicator, and no two by the same annotator. */
  ghost predicate InputsAre(records: seq<Record>, i: nat, adjudicator: Value, ids: seq<string>, at: seq<nat>)
    requires i < |records|
  {
    && |at| == |ids|
    && (forall k :: 0 <= k < |ids| ==>
          && IsInput(records, i, ids[k], at[k])
          && records[at[k]].annotatorId.Text? && records[at[k]].annotatorId != adjudicator)
    && (forall k, l :: 0 <= k < l < |ids| ==> records[at[k]].annotatorId != records[at[l]].annotatorId)
  }

  ghost predicate InputsStand(records: seq<Record>, i: nat, adjudicator: Value, ids: seq<string>)
    requires i < |records|
  {
    && |ids| >= (if records[i].annotationType in {Text("SAFETY"), Text("RELEASE")} then 2 else 1)
    && exists at :: InputsAre(records, i, adjudicator, ids, at)
  }

  ghost predicate RulingStands(records: seq<Record>, i: nat)
    requires i < |records|
  {
    records[i].status == Text("ADJUDICATED") && records[i].adjudication.Given? ==>
      var ruling := records[i].adjudication.ruling;
      && ruling.decision in {Text("ACCEPT"), Text("REVISE")}
      && ruling.adjudicatorId != records[i].annotatorId
      && (ruling.inputIds.Some? ==> InputsStand(records, i, ruling.adjudicatorId, ruling.inputIds.value))
  }

  /** The adjudication at `j` names the record at `i` among its inputs. */
  ghost predicate IsTakenUpBy(records: seq<Record>, i: nat, j: nat)
    requires i < |records|
  {
    && j < |records| && records[j].status == Text("ADJUDICATED") && records[j].adjudication.Given?
    && records[j].adjudication.ruling.inputIds.Some? && records[i].annotationId.Text?
    && records[i].annotationId.text in records[j].adjudication.ruling.inputIds.value
  }

  ghost predicate GoldStands(records: seq<Record>, i: nat)
    requires i < |records|
  {
    || records[i].status in {Text("ADJUDICATED"), Text("SUPERSEDED")}
    || exists j :: IsTakenUpBy(records, i, j)
  }

  ghost predicate BundleStands(records: seq<Record>, gold: bool)
  {
    && (gold ==> records != [])
    && (forall i, j :: 0 <= i < j < |records| && records[i].annotationId.Text? ==>
          records[i].annotationId != records[j].annotationId)
    && (forall i :: 0 <= i < |records| ==>
          && records[i].otherErrors == 0 && EvidenceStands(records[i]) && RulingStands(records, i)
          && (gold ==> GoldStands(records, i)))
  }

  // ------------------------------------------------------------------- evidence

  /** A field holds references exactly when its name ends so. */
  lemma RefKeyIff(key: string)
    ensures E.IsRefKey(key) <==> exists n: nat :: n <= |key| && key == key[..n] + "_evidence_ref_ids"
  {
    var suffix := "_evidence_ref_ids";
    if E.IsRefKey(key) {
      var n := |key| - |suffix|;
      assert key == key[..n] + key[n..];
    }
    if n: nat :| n <= |key| && key == key[..n] + suffix {
      assert |key| == n + |suffix| && key[n..] == suffix;
    }
  }

  ghost predicate OneEach(evidence: seq<E.Item>)
  {
    && (forall i :: 0 <= i < |evidence| ==> evidence[i].Item? && evidence[i].id.Some?)
    && (forall i, j :: 0 <= i < j < |evidence| ==> evidence[i].id != evidence[j].id)
  }

  lemma OneEachStep(front: seq<E.Item>, last: E.Item)
    ensures OneEach(front + [last]) <==>
              OneEach(front) && last.Item? && last.id.Some? && last.id.value !in E.Ids(front)
  {
    var all := front + [last];
    assert all[|front|] == last && forall i :: 0 <= i < |front| ==> all[i] == front[i];
    if last.Item? && last.id.Some? { CitedIsListedIff(front, last.id.value); }
  }

  lemma {:induction false} IdsAreOneEachIff(evidence: seq<E.Item>)
    ensures |E.Ids(evidence)| == |evidence| <==> OneEach(evidence)
  {
    if evidence != [] {
      var front, last := evidence[..|evidence| - 1], evidence[|evidence| - 1];
      assert evidence == front + [last];
      E.IdsBound(front);
      E.IdsAppend(front, last);
      IdsAreOneEachIff(front);
      OneEachStep(front, last);
    }
  }

  lemma ApproximateIff(evidence: seq<E.Item>)
    requires forall i :: 0 <= i < |evidence| ==> evidence[i].Item?
    ensures !E.AllApproximate(evidence) <==> exists i :: 0 <= i < |evidence| && !evidence[i].approximate
  {
    if x :| x in evidence && x.Item? && !x.approximate {
      var i :| 0 <= i < |evidence| && evidence[i] == x;
    }
    if i :| 0 <= i < |evidence| && !evidence[i].approximate {
      assert evidence[i] in evidence;
    }
  }

  lemma CitedIsListedIff(evidence: seq<E.Item>, id: string)
    ensures id in E.Ids(evidence) <==> exists i :: 0 <= i < |evidence| && E.HasId(evidence[i], id)
  {
    if id in E.Ids(evidence) {
      var x :| x in evidence && x.Item? && x.id == Some(id);
      var i :| 0 <= i < |evidence| && evidence[i] == x;
      assert E.HasId(evidence[i], id);
    }
    if i :| 0 <= i < |evidence| && E.HasId(evidence[i], id) {
      assert evidence[i] in evidence;
    }
  }

  lemma EvidenceStandsIff(r: Record)
    ensures E.EvidenceOk(r.evidence, r.payload, HighRisk(r)) <==> EvidenceStands(r)
  {
    if r.evidence.Some? {
      var evidence := r.evidence.value;
      IdsAreOneEachIff(evidence);
      forall id ensures id in E.Refs(r.payload) <==> E.Cites(r.payload, id) {
        E.CollectsExactlyTheCited(r.payload, id);
      }
      forall id ensures id in E.Ids(evidence) <==> exists i :: 0 <= i < |evidence| && E.HasId(evidence[i], id) {
        CitedIsListedIff(evidence, id);
      }
      if forall i :: 0 <= i < |evidence| ==> evidence[i].Item? { ApproximateIff(evidence); }
    }
  }

  // --------------------------------------------------------------- adjudications

  lemma {:induction false} AnnotatorsAre(records: seq<Record>, byId: map<string, nat>, i: nat, ids: seq<string>,
                                         t: string)
    requires i < |records| && forall x :: x in byId ==> byId[x] < |records|
    requires forall k :: 0 <= k < |ids| ==> ids[k] in byId && byId[ids[k]] != i
    ensures t in InputAnnotators(records, byId, i, ids) <==>
              exists k :: 0 <= k < |ids| && records[byId[ids[k]]].annotatorId == Text(t)
  {
    if ids != [] {
      var n := |ids| - 1;
      AnnotatorsAre(records, byId, i, ids[..n], t);
      assert forall k :: 0 <= k < n ==> ids[..n][k] == ids[k];
      if k :| 0 <= k < |ids| && records[byId[ids[k]]].annotatorId == Text(t) {
        assert k < n ==> records[byId[ids[..n][k]]].annotatorId == Text(t);
      }
    }
  }

  /** As many annotators as inputs: one each, and no one twice. */
  lemma {:induction false} AnnotatorsCountIff(records: seq<Record>, byId: map<string, nat>, i: nat, ids: seq<string>)
    requires i < |records| && forall x :: x in byId ==> byId[x] < |records|
    requires forall k :: 0 <= k < |ids| ==> ids[k] in byId && byId[ids[k]] != i
    ensures |InputAnnotators(records, byId, i, ids)| == |ids| <==>
              && (forall k :: 0 <= k < |ids| ==> records[byId[ids[k]]].annotatorId.Text?)
              && (forall k, l :: 0 <= k < l < |ids| ==>
                    records[byId[ids[k]]].annotatorId != records[byId[ids[l]]].annotatorId)
  {
    if ids != [] {
      var n := |ids| - 1;
      var annotator := records[byId[ids[n]]].annotatorId;
      AnnotatorsCountIff(records, byId, i, ids[..n]);
      AnnotatorsBound(records, byId, i, ids[..n]);
      assert forall k :: 0 <= k < n ==> ids[..n][k] == ids[k];
      if annotator.Text? { AnnotatorsAre(records, byId, i, ids[..n], annotator.text); }
    }
  }

  lemma IdNames(records: seq<Record>, id: string, j: nat)
    requires DistinctIds(records)
    ensures j < |records| && records[j].annotationId == Text(id) <==> id in ById(records) && ById(records)[id] == j
  {
    if j < |records| && records[j].annotationId == Text(id) {
      KnownIds(records, id);
    }
  }

  lemma InputIff(records: seq<Record>, i: nat, id: string, j: nat)
    requires DistinctIds(records) && i < |records|
    ensures IsInput(records, i, id, j) <==> InputOk(records, ById(records), i, id) && ById(records)[id] == j
  {
    IdNames(records, id, j);
  }

  /** The inputs at the positions that their ids stand for. */
  lemma FoundInputsIff(records: seq<Record>, byId: map<string, nat>, i: nat, adjudicator: Value, ids: seq<string>,
                       at: seq<nat>)
    requires i < |records| && (forall x :: x in byId ==> byId[x] < |records|) && |at| == |ids|
    requires forall k :: 0 <= k < |ids| ==> IsInput(records, i, ids[k], at[k])
    requires forall k :: 0 <= k < |ids| ==> ids[k] in byId && byId[ids[k]] == at[k]
    ensures InputsAre(records, i, adjudicator, ids, at) <==>
              && (adjudicator.Text? ==> adjudicator.text !in InputAnnotators(records, byId, i, ids))
              && |InputAnnotators(records, byId, i, ids)| == |ids|
  {
    AnnotatorsCountIff(records, byId, i, ids);
    if adjudicator.Text? { AnnotatorsAre(records, byId, i, ids, adjudicator.text); }
  }

  lemma PositionsOf(records: seq<Record>, i: nat, ids: seq<string>) returns (at: seq<nat>)
    requires DistinctIds(records) && i < |records|
    requires forall k :: 0 <= k < |ids| ==> InputOk(records, ById(records), i, ids[k])
    ensures |at| == |ids|
    ensures forall k :: 0 <= k < |ids| ==>
              IsInput(records, i, ids[k], at[k]) && ids[k] in ById(records) && ById(records)[ids[k]] == at[k]
  {
    var byId := ById(records);
    at := seq(|ids|, k requires 0 <= k < |ids| => byId[ids[k]]);
    forall k | 0 <= k < |ids| ensures IsInput(records, i, ids[k], at[k]) { InputIff(records, i, ids[k], at[k]); }
  }

  lemma PositionsAre(records: seq<Record>, i: nat, ids: seq<string>, at: seq<nat>)
    requires DistinctIds(records) && i < |records| && |at| == |ids|
    requires forall k :: 0 <= k < |ids| ==> IsInput(records, i, ids[k], at[k])
    ensures forall k :: 0 <= k < |ids| ==>
              InputOk(records, ById(records), i, ids[k]) && ById(records)[ids[k]] == at[k]
  {
    forall k | 0 <= k < |ids|
      ensures InputOk(records, ById(records), i, ids[k]) && ById(records)[ids[k]] == at[k]
    {
      InputIff(records, i, ids[k], at[k]);
    }
  }

  lemma SoundInputsStand(records: seq<Record>, i: nat, ids: seq<string>)
    requires DistinctIds(records) && i < |records| && records[i].adjudication.Given?
    requires InputsOk(records, ById(records), i, ids)
    ensures InputsStand(records, i, records[i].adjudication.ruling.adjudicatorId, ids)
  {
    var byId, adjudicator := ById(records), records[i].adjudication.ruling.adjudicatorId;
    var at := PositionsOf(records, i, ids);
    FoundInputsIff(records, byId, i, adjudicator, ids, at);
  }

  lemma StandingInputsAreSound(records: seq<Record>, i: nat, ids: seq<string>, at: seq<nat>)
    requires DistinctIds(records) && i < |records| && records[i].adjudication.Given?
    requires InputsAre(records, i, records[i].adjudication.ruling.adjudicatorId, ids, at)
    requires |ids| >= RequiredInputs(records[i])
    ensures InputsOk(records, ById(records), i, ids)
  {
    PositionsAre(records, i, ids, at);
    FoundInputsIff(records, ById(records), i, records[i].adjudication.ruling.adjudicatorId, ids, at);
  }

  lemma InputsIff(records: seq<Record>, i: nat, ids: seq<string>)
    requires DistinctIds(records) && i < |records| && records[i].adjudication.Given?
    ensures InputsOk(records, ById(records), i, ids) <==>
              InputsStand(records, i, records[i].adjudication.ruling.adjudicatorId, ids)
  {
    if InputsOk(records, ById(records), i, ids) { SoundInputsStand(records, i, ids); }
    if InputsStand(records, i, records[i].adjudication.ruling.adjudicatorId, ids) {
      var at :| InputsAre(records, i, records[i].adjudication.ruling.adjudicatorId, ids, at);
      StandingInputsAreSound(records, i, ids, at);
    }
  }

  lemma {:induction false} InputIdsAre(records: seq<Record>, id: string)
    ensures id in AllInputIds(records) <==>
              exists j :: && 0 <= j < |records| && IsRuling(records[j])
                          && records[j].adjudication.ruling.inputIds.Some?
                          && id in records[j].adjudication.ruling.inputIds.value
  {
    if id in AllInputIds(records) {
      InputIdHasRuling(records, id);
    } else if records != [] {
      var n := |records| - 1;
      InputIdsAre(records[..n], id);
      assert forall j :: 0 <= j < n ==> records[..n][j] == records[j];
    }
  }

  lemma GoldIff(records: seq<Record>, i: nat)
    requires i < |records|
    ensures GoldOk(records, i) <==> GoldStands(records, i)
  {
    if records[i].annotationId.Text? {
      var id := records[i].annotationId.text;
      InputIdsAre(records, id);
      if id in AllInputIds(records) {
        var j :| && 0 <= j < |records| && IsRuling(records[j]) && records[j].adjudication.ruling.inputIds.Some?
                 && id in records[j].adjudication.ruling.inputIds.value;
        assert IsTakenUpBy(records, i, j);
      }
    }
  }

  /** The validator reports nothing exactly for the bundles that stand. */
  lemma BundleOkIff(records: seq<Record>, gold: bool)
    ensures BundleOk(records, gold) <==> BundleStands(records, gold)
  {
    forall i | 0 <= i < |records|
      ensures RecordOk(records[i]) <==> records[i].otherErrors == 0 && EvidenceStands(records[i])
      ensures GoldOk(records, i) <==> GoldStands(records, i)
      ensures DistinctIds(records) ==> (RulingOk(records, ById(records), i) <==> RulingStands(records, i))
    {
      EvidenceStandsIff(records[i]);
      GoldIff(records, i);
      if DistinctIds(records) && IsRuling(records[i]) && records[i].adjudication.ruling.inputIds.Some? {
        InputsIff(records, i, records[i].adjudication.ruling.inputIds.value);
      }
    }
  }
}
