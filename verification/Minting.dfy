/** What a Wikidata publication leaves in the archive, whether or not it went through. */
module Minting {
  import opened Basics
  import opened Rows
  import opened Publication
  import opened Protocol
  import opened Enrichment
  import opened Identity
  import opened Admission
  import opened Retention
  import opened Wikidata
  import Ed = Editorial
  import F = Featured

  // ---- Any publication -------------------------------------------------------------------

  /** A publication reads the governance tables and the decisions, and writes neither. */
  lemma {:induction false} RunKeepsDecisions(w: World, next: Continuation)
    requires w.files.Valid() && (next.Continue? ==> InRange(w, next.phase))
    ensures var w' := RunToEnd(w, next).0; w'.selections == w.selections && w'.gov == w.gov
    decreases if next.Continue? then Publication.Ahead(next.phase) + 1 else 0
  {
    if next.Continue? {
      var (w', next') := Advance(w, next.phase);
      RunKeepsDecisions(w', next');
    }
  }

  lemma PublishKeepsDecisions(w: World, req: Request)
    requires w.files.Valid()
    ensures Publish(w, req).0.selections == w.selections
  {
    RunKeepsDecisions(Start(w, req).0, Start(w, req).1);
  }

  /** No row but a new DRAFT of the request's. */
  predicate OnlyDrafted(rows: seq<Manifest>, rows': seq<Manifest>, req: Request) {
    || rows' == rows
    || (|rows'| == |rows| + 1 && rows'[..|rows|] == rows && IsOwn(rows'[|rows|], rows, req)
        && rows'[|rows|].status.Draft?)
  }

  lemma {:induction false} RunFails(rows: seq<Manifest>, w: World, ph: Phase)
    requires w.files.Valid() && InRange(w, ph) && Within(rows, w, ph)
    ensures var (w', outcome) := RunToEnd(w, Continue(ph));
      !outcome.Returned? ==> OnlyDrafted(rows, w'.rows, ph.req) && w'.profiles == w.profiles && w'.index == w.index
    decreases Publication.Ahead(ph)
  {
    AdvanceWithin(rows, w, ph);
    StepFails(rows, w, ph);
    var (w', next) := Advance(w, ph);
    if next.Continue? { RunFails(rows, w', next.phase); }
  }

  lemma StepFails(rows: seq<Manifest>, w: World, ph: Phase)
    requires w.files.Valid() && InRange(w, ph) && Within(rows, w, ph)
    ensures var (w', next) := Advance(w, ph);
      && (next.Continue? || !next.outcome.Returned? ==> w'.profiles == w.profiles && w'.index == w.index)
      && (next.Done? && !next.outcome.Returned? ==> OnlyDrafted(rows, w'.rows, ph.req))
  {
  }

  /** A publication that does not return publishes nothing, and what it leaves is at most its own pending manifest. */
  lemma FailurePublishesNothing(w: World, req: Request)
    requires w.files.Valid()
    ensures var (w', outcome) := Publish(w, req);
      !outcome.Returned? ==> OnlyDrafted(w.rows, w'.rows, req) && w'.profiles == w.profiles && w'.index == w.index
  {
    var (w1, next) := Start(w, req);
    StartWithin(w, req);
    if next.Continue? { RunFails(w.rows, w1, next.phase); }
  }

  /** The manifest a publication returned holds the request's payload, on evidence that fits it. */
  lemma ReturnedFits(w: World, req: Request)
    requires w.files.Valid() && RequestFits(req) && forall i :: 0 <= i < |w.rows| ==> RowFits(w.rows[i])
    ensures var (w', outcome) := Publish(w, req);
      outcome.Returned? ==>
        outcome.id < |w'.rows| && w'.rows[outcome.id].hash == Hash(req.payload) && RowFits(w'.rows[outcome.id])
  {
    var (w1, next) := Start(w, req);
    var (w', outcome) := Publish(w, req);
    StartWithin(w, req);
    if next.Continue? && outcome.Returned? {
      RunFinishes(w.rows, w1, next.phase);
      FinishedFits(w.rows, w'.rows, req, outcome.id);
    }
  }

  lemma FinishedFits(rows: seq<Manifest>, rows': seq<Manifest>, req: Request, id: nat)
    requires Finishes(rows, rows', req, id) && RequestFits(req) && forall i :: 0 <= i < |rows| ==> RowFits(rows[i])
    ensures id < |rows'| && rows'[id].hash == Hash(req.payload) && RowFits(rows'[id])
  {
    if id < |rows| { assert RowFits(rows[id]); }
  }

  /** The request is answered by the newest published version, which has its content already. */
  predicate Reuses(w: World, req: Request) {
    var latest := Predecessor(w.rows, req.day);
    && latest.Some? && latest.value in w.profiles && !req.force
    && w.rows[latest.value].hash == Hash(req.payload)
  }

  /** What a version says and rests on, field by field as requested. */
  predicate AsRequested(m: Manifest, req: Request) {
    && m.day == req.day && m.hash.preimage == req.payload && m.supersedes == req.supersedes
    && m.tier == req.tier && m.evidence == req.evidence && m.featured == req.featured
  }

  /** A new version is what was asked for, and every earlier row is as it was. */
  predicate AddsVersion(rows: seq<Manifest>, rows': seq<Manifest>, req: Request) {
    && |rows'| == |rows| + 1 && rows'[..|rows|] == rows
    && AsRequested(rows'[|rows|], req) && rows'[|rows|].status.Published?
    && forall i :: 0 <= i < |rows| && rows[i].day == req.day ==> rows[i].version < rows'[|rows|].version
  }

  /** An earlier version answers: it was there, unpublished or published, under whatever metadata it had. */
  predicate AnsweredBy(rows: seq<Manifest>, rows': seq<Manifest>, req: Request, id: nat) {
    && id < |rows| && rows' == rows[id := rows[id].(status := Published)]
    && rows[id].day == req.day && rows[id].hash.preimage == req.payload
  }

  /**
    A publication that returns a version adds one exactly when the date has nothing pending and no newest version to
    reuse; the version added is the request's in every field. Any other version returned keeps what it had.
  */
  lemma NewVersionIsAsRequested(w: World, req: Request)
    requires w.files.Valid()
    ensures var (w', outcome) := Publish(w, req);
      outcome.Returned? ==>
        if !Reuses(w, req) && NonePending(w.rows, req.day)
        then outcome.id == |w.rows| && AddsVersion(w.rows, w'.rows, req)
        else AnsweredBy(w.rows, w'.rows, req, outcome.id)
  {
    var (w1, next) := Start(w, req);
    var (w', outcome) := Publish(w, req);
    StartWithin(w, req);
    if next.Continue? && outcome.Returned? {
      RunFinishes(w.rows, w1, next.phase);
      forall i: nat | i < |w.rows| && w.rows[i].day == req.day
        ensures w.rows[i].version <= MaxVersion(w.rows, req.day)
      {
        MaxVersionBounds(w.rows, req.day, i);
      }
    }
  }

  // ---- A Wikidata publication ------------------------------------------------------------

  /** The root's current decision for the recorded section of the date selects it. */
  predicate SelectedNow(selections: seq<Ed.Selection>, day: Day, root: Root) {
    match Ed.Latest(selections, day, RecordedOnThisDate, root)
    case Some(decision) => decision.status == Ed.Selected
    case None => false
  }

  /** A statement of the section is the candidate's own, or rests on a root still selected for it. */
  predicate OwnOrSelected(selections: seq<Ed.Selection>, cand: Candidate, root: Root) {
    root.Resolved? && (root.id in OwnRoots(cand) || SelectedNow(selections, cand.day, root))
  }

  /** The candidate's statements, with every survivor beside them when other events are admitted. */
  predicate ComposedOf(facts: Facts, w: World, cand: Candidate, recorded: seq<Enrichment.Recorded>) {
    if OthersOn(facts, w, cand) == {} then recorded == cand.ranked
    else recorded == cand.ranked + Surviving(w, cand) || recorded == Surviving(w, cand) + cand.ranked
  }

  lemma RecordedIsSelected(facts: Facts, w: World, selections: seq<Ed.Selection>, cand: Candidate,
                           recorded: seq<Enrichment.Recorded>, i: nat)
    requires ComposedOf(facts, w, cand, recorded) && i < |recorded|
    requires SameRecordedDecisions(w.selections, selections, cand.day)
    ensures OwnOrSelected(selections, cand, Resolved(recorded[i].root))
  {
    var x := recorded[i];
    if x in cand.ranked {
      var j :| 0 <= j < |cand.ranked| && cand.ranked[j] == x;
      assert cand.ranked[j].root in OwnRoots(cand);
    } else {
      assert x in Surviving(w, cand);
      var prev := Predecessor(w.rows, cand.day).value;
      SurvivorsAre(SectionOf(w.rows[prev].hash.preimage, RecordedOnThisDate), w.rows[prev].evidence,
                   SelectedRoots(w.selections, cand.day), OwnRoots(cand), x);
      SelectedRootsAre(w.selections, cand.day, x.root);
    }
  }

  /**
    Nothing a person has since rejected is published again: in the version a Wikidata publication minted, every
    recorded statement is the candidate's own, or its current decision, after the publication, is SELECTED.
  */
  lemma MintedSaysOnlyWhatIsSelected(facts: Facts, w: World, rulings: seq<Adjudication>, before: World, cand: Candidate,
                                     asking: Asking)
    requires Asked(facts, w, rulings, before, cand, asking) && forall i :: 0 <= i < |w.rows| ==> RowFits(w.rows[i])
    requires before == w.(selections := before.selections, index := before.index)
    requires SameRecordedDecisions(w.selections, before.selections, cand.day)
    ensures var (after, outcome) := Wikidata.Submitted(before, asking.req);
      outcome.Minted? ==>
        && outcome.id < |after.rows|
        && SectionOf(after.rows[outcome.id].hash.preimage, RecordedOnThisDate) == asking.section.statements
        && forall item :: item in after.rows[outcome.id].evidence && item.section.RecordedOnThisDate? ==>
             OwnOrSelected(after.selections, cand, item.root)
  {
    var (after, outcome) := Publish(before, asking.req);
    AskedFits(facts, w, rulings, before, cand, asking);
    ReturnedFits(before, asking.req);
    PublishKeepsDecisions(before, asking.req);
    if outcome.Returned? { FittingRowIsSelected(facts, w, rulings, before, cand, asking, after.rows[outcome.id]); }
  }

  lemma AskedFits(facts: Facts, w: World, rulings: seq<Adjudication>, before: World, cand: Candidate, asking: Asking)
    requires Asked(facts, w, rulings, before, cand, asking) && forall i :: 0 <= i < |w.rows| ==> RowFits(w.rows[i])
    ensures RequestFits(asking.req) && SectionOf(asking.req.payload, RecordedOnThisDate) == asking.section.statements
  {
    WikidataRequestFits(facts, rulings, w.rows, cand, Plan(asking.section.recorded, asking.section.statements),
                        asking.req);
  }

  lemma FittingRowIsSelected(facts: Facts, w: World, rulings: seq<Adjudication>, before: World, cand: Candidate,
                             asking: Asking, m: Manifest)
    requires Asked(facts, w, rulings, before, cand, asking) && RowFits(m) && m.hash == Hash(asking.req.payload)
    requires SameRecordedDecisions(w.selections, before.selections, cand.day)
    ensures forall item :: item in m.evidence && item.section.RecordedOnThisDate? ==>
      OwnOrSelected(before.selections, cand, item.root)
  {
    forall item | item in m.evidence && item.section.RecordedOnThisDate?
      ensures OwnOrSelected(before.selections, cand, item.root)
    {
      var k :| 0 <= k < |m.evidence| && m.evidence[k] == item;
      assert IsStatement(asking.req.payload.sections, item.section, item.index);
      RecordedIsSelected(facts, w, before.selections, cand, asking.section.recorded, item.index);
    }
  }

  /** A still selected foreign statement of a shared date's predecessor is carried into the request, whoever leads. */
  lemma SelectedIsCarried(facts: Facts, w: World, cand: Candidate, recorded: seq<Enrichment.Recorded>, prev: nat,
                          i: nat)
    requires ComposedOf(facts, w, cand, recorded) && OthersOn(facts, w, cand) != {}
    requires Predecessor(w.rows, cand.day) == Some(prev)
    requires var prior := SectionOf(w.rows[prev].hash.preimage, RecordedOnThisDate);
      i < |prior| && RecordedRow(w.rows[prev].evidence, i).Some?
      && RecordedRow(w.rows[prev].evidence, i).value.root.Resolved?
    requires var root := RecordedRow(w.rows[prev].evidence, i).value.root.id;
      root !in OwnRoots(cand) && SelectedNow(w.selections, cand.day, Resolved(root))
    ensures var prior := SectionOf(w.rows[prev].hash.preimage, RecordedOnThisDate);
      Enrichment.Recorded(prior[i], RecordedRow(w.rows[prev].evidence, i).value.root.id) in recorded
  {
    var prior := SectionOf(w.rows[prev].hash.preimage, RecordedOnThisDate);
    var root := RecordedRow(w.rows[prev].evidence, i).value.root.id;
    SelectedRootsAre(w.selections, cand.day, root);
    assert Survives(w.rows[prev].evidence, SelectedRoots(w.selections, cand.day), OwnRoots(cand), i);
    SurvivorsAre(prior, w.rows[prev].evidence, SelectedRoots(w.selections, cand.day), OwnRoots(cand),
                 Enrichment.Recorded(prior[i], root));
  }
}
