/** The publishers that may add a recorded event to a date, and the guards that keep the events it has. */
module Admission {
  import opened Basics
  import opened Disk
  import opened Editorial
  import opened Rows
  import opened Publication
  import opened Enrichment
  import opened Identity
  import E = EventGroups
  import F = Featured

  /** What resolution has established about events; fixed while publications go on. */
  datatype Facts = Facts(
    gov: Governance,
    anchors: map<nat, set<nat>>,      // resolved claim to the events whose time or location it is provenance of
    identityRoot: map<nat, nat>,      // event to its identity root
    catalog: F.Catalog, lineage: E.Lineage)

  predicate FactsOk(facts: Facts) {
    forall r :: r in facts.anchors ==>
      Resolved(r) in facts.gov.events && facts.anchors[r] <= facts.gov.events[Resolved(r)]
  }

  /** The resolved Wikidata candidate, with its recorded statements in editorial order. */
  datatype Candidate = Candidate(event: nat, claim: nat, day: Day, ranked: seq<Enrichment.Recorded>, own: set<nat>)

  /** Its statements rest on its own roots, and those are no other event's. */
  predicate CandidateSound(facts: Facts, cand: Candidate) {
    && (forall i :: 0 <= i < |cand.ranked| ==>
          && cand.ranked[i].root in cand.own
          && cand.ranked[i].statement.root == Resolved(cand.ranked[i].root)
          && (Resolved(cand.ranked[i].root) in facts.gov.events ==>
               facts.gov.events[Resolved(cand.ranked[i].root)] <= {cand.event}))
    && cand.event in facts.identityRoot
  }

  /** The ranking includes the occurrence, which ties the candidate to its event. */
  predicate HasOccurrence(facts: Facts, cand: Candidate) {
    exists i :: 0 <= i < |cand.ranked| && Rests(facts.gov, cand.ranked[i].root, cand.event)
  }

  predicate Rests(gov: Governance, root: nat, event: nat) {
    Resolved(root) in gov.events && event in gov.events[Resolved(root)]
  }

  // ---- Tier ------------------------------------------------------------------------------

  function SectionOf(payload: Payload, section: Section): seq<Statement> {
    if payload.Profile? && section in payload.sections then payload.sections[section] else []
  }

  /** The sections whose date-specific statements promote a page. */
  const EDITORIAL_SECTIONS := [CuratedClaims, DerivedComparisons, WonderAndProgress]

  /** derive_publication_tier. */
  function DeriveTier(payload: Payload): Tier {
    if SectionOf(payload, RecordedOnThisDate) != [] then Enriched
    else if exists k, i :: 0 <= k < |EDITORIAL_SECTIONS| && 0 <= i < |SectionOf(payload, EDITORIAL_SECTIONS[k])|
                           && SectionOf(payload, EDITORIAL_SECTIONS[k])[i].dateSpecific
    then PartiallyEnriched
    else ContextOnly
  }

  /** Something date-specific is curated, derived or found remarkable about the date. */
  predicate SaysSomethingSpecific(payload: Payload) {
    exists s :: s in SectionOf(payload, CuratedClaims) + SectionOf(payload, DerivedComparisons)
                  + SectionOf(payload, WonderAndProgress)
             && s.dateSpecific
  }

  /** Enriched by recorded content alone; otherwise promoted exactly by something date-specific. */
  lemma TierMeans(payload: Payload)
    ensures DeriveTier(payload).Enriched? <==> SectionOf(payload, RecordedOnThisDate) != []
    ensures DeriveTier(payload).PartiallyEnriched? <==>
      SectionOf(payload, RecordedOnThisDate) == [] && SaysSomethingSpecific(payload)
  {
    forall k, i | 0 <= k < |EDITORIAL_SECTIONS| && 0 <= i < |SectionOf(payload, EDITORIAL_SECTIONS[k])|
                  && SectionOf(payload, EDITORIAL_SECTIONS[k])[i].dateSpecific
      ensures SaysSomethingSpecific(payload)
    {
      assert SectionOf(payload, EDITORIAL_SECTIONS[k])[i] in SectionOf(payload, EDITORIAL_SECTIONS[k]);
    }
    if SectionOf(payload, RecordedOnThisDate) == [] && SaysSomethingSpecific(payload) {
      var k := SpecificSection(payload);
      var i :| 0 <= i < |SectionOf(payload, EDITORIAL_SECTIONS[k])|
            && SectionOf(payload, EDITORIAL_SECTIONS[k])[i].dateSpecific;
    }
  }

  lemma SpecificSection(payload: Payload) returns (k: nat)
    requires SaysSomethingSpecific(payload)
    ensures k < |EDITORIAL_SECTIONS|
    ensures exists i :: 0 <= i < |SectionOf(payload, EDITORIAL_SECTIONS[k])|
                     && SectionOf(payload, EDITORIAL_SECTIONS[k])[i].dateSpecific
  {
    var s :| s in SectionOf(payload, CuratedClaims) + SectionOf(payload, DerivedComparisons)
               + SectionOf(payload, WonderAndProgress)
          && s.dateSpecific;
    k := if s in SectionOf(payload, CuratedClaims) then 0
         else if s in SectionOf(payload, DerivedComparisons) then 1 else 2;
    assert s in SectionOf(payload, EDITORIAL_SECTIONS[k]);
  }

  // ---- Rows that carry what their payload says -------------------------------------------

  /** An artifact and its evidence agree: each statement mapped once, to the root it names, and the tier derived. */
  ghost predicate Fits(payload: Payload, evidence: seq<Evidence>, tier: Tier) {
    && payload.Profile?
    && Mapped(payload.sections, evidence) && RootsAgree(payload.sections, evidence)
    && tier == DeriveTier(payload)
  }

  ghost predicate RowFits(m: Manifest) {
    Fits(m.hash.preimage, m.evidence, m.tier)
  }

  ghost predicate RequestFits(req: Request) {
    Fits(req.payload, req.evidence, req.tier)
  }

  /** A manifest's events are a matter of its payload. */
  lemma SamePayloadSameEvents(gov: Governance, payload: Payload, evidence: seq<Evidence>, other: seq<Evidence>,
                              tier: Tier, tier': Tier)
    requires Fits(payload, evidence, tier) && Fits(payload, other, tier')
    ensures EventsBehind(gov, evidence) == EventsBehind(gov, other)
  {
    PayloadDecides(gov, payload, evidence, other, tier, tier');
    PayloadDecides(gov, payload, other, evidence, tier', tier);
  }

  lemma PayloadDecides(gov: Governance, payload: Payload, evidence: seq<Evidence>, other: seq<Evidence>, tier: Tier,
                       tier': Tier)
    requires Fits(payload, evidence, tier) && Fits(payload, other, tier')
    ensures EventsBehind(gov, evidence) <= EventsBehind(gov, other)
  {
    forall e | e in EventsBehind(gov, evidence) ensures e in EventsBehind(gov, other) {
      var i :| 0 <= i < |evidence| && RecordsEvent(gov, evidence[i], e);
      assert IsStatement(payload.sections, evidence[i].section, evidence[i].index);
      var k: nat :| Enrichment.Cites(other, k, evidence[i].section, evidence[i].index);
      assert RecordsEvent(gov, other[k], e);
    }
  }

  /** A page with events behind it is enriched. */
  lemma EventsMakeEnriched(gov: Governance, payload: Payload, evidence: seq<Evidence>, tier: Tier)
    requires Fits(payload, evidence, tier) && EventsBehind(gov, evidence) != {}
    ensures tier.Enriched?
  {
    var e :| e in EventsBehind(gov, evidence);
    var i :| 0 <= i < |evidence| && RecordsEvent(gov, evidence[i], e);
    assert IsStatement(payload.sections, evidence[i].section, evidence[i].index);
  }

  // ---- What each publisher asks for ------------------------------------------------------

  function Predecessor(rows: seq<Manifest>, day: Day): (r: Option<nat>)
    ensures r.Some? ==> r.value < |rows| && rows[r.value].day == day && rows[r.value].status.Published?
  {
    Newest(rows, day, Published, None)
  }

  /** The events behind a date's newest published manifest. */
  function AdmittedEvents(gov: Governance, rows: seq<Manifest>, day: Day): set<nat> {
    var prev := Predecessor(rows, day);
    if prev.Some? then EventsBehind(gov, rows[prev.value].evidence) else {}
  }

  function PriorSections(rows: seq<Manifest>, day: Day): Sections {
    var prev := Predecessor(rows, day);
    if prev.Some? && rows[prev.value].hash.preimage.Profile? then rows[prev.value].hash.preimage.sections else map[]
  }

  function PriorEvidence(rows: seq<Manifest>, day: Day): seq<Evidence> {
    var prev := Predecessor(rows, day);
    if prev.Some? then rows[prev.value].evidence else []
  }

  /** The recorded section the Wikidata publisher settled on. */
  datatype Plan = Plan(recorded: seq<Enrichment.Recorded>, statements: seq<Statement>)

  /** A current adjudication against every other admitted event, and something left of each of them. */
  ghost predicate Cleared(facts: Facts, rulings: seq<Adjudication>, cand: Candidate, others: set<nat>,
                          recorded: seq<Enrichment.Recorded>) {
    forall o :: o in others ==> AdjudicatedDistinct(rulings, cand.event, o) && Anchored(facts, recorded, o)
  }

  /** _event_has_surviving_evidence. */
  predicate Anchored(facts: Facts, recorded: seq<Enrichment.Recorded>, event: nat) {
    exists i :: 0 <= i < |recorded| && recorded[i].root in facts.anchors && event in facts.anchors[recorded[i].root]
  }

  /** Each recorded statement is the candidate's own or survived from the predecessor. */
  ghost predicate Composed(rows: seq<Manifest>, cand: Candidate, recorded: seq<Enrichment.Recorded>) {
    && (forall x :: x in cand.ranked ==> x in recorded)
    && (forall x :: x in recorded ==> x in cand.ranked || FromPrior(rows, cand.day, x))
  }

  ghost predicate FromPrior(rows: seq<Manifest>, day: Day, x: Enrichment.Recorded) {
    x.statement.root == Resolved(x.root)
    && exists k :: 0 <= k < |PriorEvidence(rows, day)| && PriorEvidence(rows, day)[k].section.RecordedOnThisDate?
                && PriorEvidence(rows, day)[k].root == Resolved(x.root)
  }

  ghost predicate WikidataAsks(facts: Facts, rulings: seq<Adjudication>, rows: seq<Manifest>, cand: Candidate,
                               plan: Plan, req: Request) {
    && CandidateSound(facts, cand) && HasOccurrence(facts, cand)
    && Composed(rows, cand, plan.recorded)
    && Cleared(facts, rulings, cand, AdmittedEvents(facts.gov, rows, cand.day) - {cand.event}, plan.recorded)
    && |plan.statements| == |plan.recorded|
    && (forall i :: 0 <= i < |plan.statements| ==> plan.statements[i].root == Resolved(plan.recorded[i].root))
    && req.day == cand.day && req.supersedes == Predecessor(rows, cand.day)
    && req.payload == Profile(cand.day, PriorSections(rows, cand.day)[RecordedOnThisDate := plan.statements])
    && req.evidence == Carried(PriorEvidence(rows, cand.day)) + Renumbered(plan.recorded)
    && req.tier == DeriveTier(req.payload)
  }

  /** publish_golden_profile: refuses a date that has any event but its own. */
  ghost predicate GoldenAsks(facts: Facts, rows: seq<Manifest>, golden: nat, req: Request) {
    && AdmittedEvents(facts.gov, rows, req.day) <= {golden}
    && req.supersedes == Predecessor(rows, req.day)
    && RequestFits(req) && EventsBehind(facts.gov, req.evidence) == {golden}
  }

  /** publish_context_profile: steps aside for anything richer than annual context. */
  ghost predicate ContextAsks(facts: Facts, rows: seq<Manifest>, req: Request) {
    && (var latest := Predecessor(rows, req.day); latest.Some? ==> rows[latest.value].tier.ContextOnly?)
    && req.supersedes.None? && RequestFits(req) && EventsBehind(facts.gov, req.evidence) == {}
  }

  lemma NoEventIsForeign(facts: Facts, rulings: seq<Adjudication>, rows: seq<Manifest>, cand: Candidate, plan: Plan,
                         req: Request, e: nat)
    requires WikidataAsks(facts, rulings, rows, cand, plan, req) && e in EventsBehind(facts.gov, req.evidence)
    ensures e in AdmittedEvents(facts.gov, rows, cand.day) + {cand.event}
  {
    var carried := Carried(PriorEvidence(rows, cand.day));
    CarriedKeeps(PriorEvidence(rows, cand.day));
    var i :| 0 <= i < |req.evidence| && RecordsEvent(facts.gov, req.evidence[i], e);
    assert req.evidence[i] !in carried;
    var x := plan.recorded[i - |carried|];
    assert x in plan.recorded && req.evidence[i].root == Resolved(x.root);
    if x !in cand.ranked { PriorEventIsAdmitted(facts, rows, cand.day, x, e); }
  }

  /** A statement that came from the predecessor brings no event the predecessor had not. */
  lemma PriorEventIsAdmitted(facts: Facts, rows: seq<Manifest>, day: Day, x: Enrichment.Recorded, e: nat)
    requires FromPrior(rows, day, x) && Rests(facts.gov, x.root, e)
    ensures e in AdmittedEvents(facts.gov, rows, day)
  {
    var prior := PriorEvidence(rows, day);
    var k :| 0 <= k < |prior| && prior[k].section.RecordedOnThisDate? && prior[k].root == Resolved(x.root);
    assert RecordsEvent(facts.gov, prior[k], e);
  }

  lemma NoEventIsLost(facts: Facts, rulings: seq<Adjudication>, rows: seq<Manifest>, cand: Candidate, plan: Plan,
                      req: Request, e: nat)
    requires FactsOk(facts) && WikidataAsks(facts, rulings, rows, cand, plan, req)
    requires e in AdmittedEvents(facts.gov, rows, cand.day) + {cand.event}
    ensures e in EventsBehind(facts.gov, req.evidence)
  {
    var carried := Carried(PriorEvidence(rows, cand.day));
    var i: nat;
    if e == cand.event {
      var j :| 0 <= j < |cand.ranked| && Rests(facts.gov, cand.ranked[j].root, cand.event);
      assert cand.ranked[j] in plan.recorded;
      i :| 0 <= i < |plan.recorded| && plan.recorded[i] == cand.ranked[j];
    } else {
      assert Anchored(facts, plan.recorded, e);
      i :| 0 <= i < |plan.recorded| && plan.recorded[i].root in facts.anchors
      && e in facts.anchors[plan.recorded[i].root];
    }
    assert req.evidence[|carried| + i] == Renumbered(plan.recorded)[i];
    assert RecordsEvent(facts.gov, req.evidence[|carried| + i], e);
  }

  /** The events of an enriched section: exactly the predecessor's, and the candidate. */
  lemma WikidataKeepsEvents(facts: Facts, rulings: seq<Adjudication>, rows: seq<Manifest>, cand: Candidate, plan: Plan,
                            req: Request)
    requires FactsOk(facts) && WikidataAsks(facts, rulings, rows, cand, plan, req)
    ensures EventsBehind(facts.gov, req.evidence) == AdmittedEvents(facts.gov, rows, cand.day) + {cand.event}
  {
    forall e | e in EventsBehind(facts.gov, req.evidence)
      ensures e in AdmittedEvents(facts.gov, rows, cand.day) + {cand.event}
    {
      NoEventIsForeign(facts, rulings, rows, cand, plan, req, e);
    }
    forall e | e in AdmittedEvents(facts.gov, rows, cand.day) + {cand.event}
      ensures e in EventsBehind(facts.gov, req.evidence)
    {
      NoEventIsLost(facts, rulings, rows, cand, plan, req, e);
    }
  }

  /** Enriching a predecessor whose rows fit its payload gives rows that fit the new one. */
  lemma WikidataRequestFits(facts: Facts, rulings: seq<Adjudication>, rows: seq<Manifest>, cand: Candidate, plan: Plan,
                            req: Request)
    requires WikidataAsks(facts, rulings, rows, cand, plan, req)
    requires forall i :: 0 <= i < |rows| ==> RowFits(rows[i])
    ensures RequestFits(req)
  {
    EnrichmentStaysMapped(PriorSections(rows, cand.day), PriorEvidence(rows, cand.day), plan.statements, plan.recorded);
    EnrichmentRootsAgree(PriorSections(rows, cand.day), PriorEvidence(rows, cand.day), plan.statements, plan.recorded);
  }

  lemma {:induction false} CountsSomething(evidence: seq<Evidence>, section: Section)
    ensures CountIn(evidence, section) > 0 <==> exists k :: 0 <= k < |evidence| && evidence[k].section == section
  {
    if evidence != [] {
      CountsSomething(evidence[1..], section);
      if k :| 0 <= k < |evidence| && evidence[k].section == section && k > 0 {
        assert evidence[1..][k - 1].section == section;
      }
      if k :| 0 <= k < |evidence[1..]| && evidence[1..][k].section == section {
        assert evidence[k + 1].section == section;
      }
    }
  }

  /** The statements of a section the evidence has rows for. */
  function RowsOf(evidence: seq<Evidence>, section: Section): set<nat> {
    set k: nat | k < |evidence| && evidence[k].section == section
  }

  lemma {:induction false} CountLast(evidence: seq<Evidence>, section: Section)
    requires evidence != []
    ensures var n := |evidence| - 1;
      CountIn(evidence, section) == CountIn(evidence[..n], section) + if evidence[n].section == section then 1 else 0
  {
    var n := |evidence| - 1;
    if n > 0 {
      CountLast(evidence[1..], section);
      assert evidence[1..][..n - 1] == evidence[..n][1..];
    }
  }

  lemma {:induction false} CountIsHowMany(evidence: seq<Evidence>, section: Section)
    ensures CountIn(evidence, section) == |RowsOf(evidence, section)|
  {
    if evidence != [] {
      var n := |evidence| - 1;
      CountLast(evidence, section);
      CountIsHowMany(evidence[..n], section);
      var front := RowsOf(evidence[..n], section);
      assert n !in front;
      if evidence[n].section == section {
        assert RowsOf(evidence, section) == front + {n};
      } else {
        assert RowsOf(evidence, section) == front;
      }
    }
  }

  /** An index row is of the manifest it names, under its tier, with each section's rows counted. */
  lemma IndexRowCounts(gov: Governance, selections: seq<Selection>, id: nat, m: Manifest)
    ensures var entry := Derive(gov, selections, id, m);
      && entry.manifest == id && entry.tier == m.tier
      && entry.sections.Keys == {RecordedOnThisDate, TypicalDayInThisYear, WiderHistoricalContext, CuratedClaims,
                                 DerivedComparisons, WonderAndProgress, EvidenceNotes}
      && (forall section :: section in entry.sections ==> entry.sections[section] == |RowsOf(m.evidence, section)|)
      && (entry.hasRecordedEvent <==> RowsOf(m.evidence, RecordedOnThisDate) != {})
  {
    forall section ensures CountIn(m.evidence, section) == |RowsOf(m.evidence, section)| {
      CountIsHowMany(m.evidence, section);
    }
  }

  /**
    The index's recorded-event flag, which the collision guard looks up, and the tier, which the context publisher
    looks at, are derived from different records; they say the same of every manifest whose evidence fits its page.
  */
  lemma RecordedFlagIsTheTier(gov: Governance, selections: seq<Selection>, id: nat, m: Manifest)
    requires RowFits(m)
    ensures Derive(gov, selections, id, m).hasRecordedEvent <==> m.tier.Enriched?
    ensures EventsBehind(gov, m.evidence) != {} ==> Derive(gov, selections, id, m).hasRecordedEvent
  {
    CountsSomething(m.evidence, RecordedOnThisDate);
    var sections := m.hash.preimage.sections;
    if k :| 0 <= k < |m.evidence| && m.evidence[k].section.RecordedOnThisDate? {
      assert IsStatement(sections, m.evidence[k].section, m.evidence[k].index);
    }
    if SectionOf(m.hash.preimage, RecordedOnThisDate) != [] {
      assert IsStatement(sections, RecordedOnThisDate, 0);
      var k: nat :| Enrichment.Cites(m.evidence, k, RecordedOnThisDate, 0);
    }
    if EventsBehind(gov, m.evidence) != {} { EventsMakeEnriched(gov, m.hash.preimage, m.evidence, m.tier); }
  }
}
