/** What a reader of a minted Wikidata page sees: who chose its headline, and which event leads. */
module SharedDates {
  import opened Basics
  import opened Disk
  import opened Rows
  import opened Publication
  import opened Enrichment
  import opened Identity
  import opened Admission
  import opened Retention
  import Runs
  import opened Faults
  import opened Wikidata
  import opened Minting
  import opened EventRendering
  import Ed = Editorial
  import E = EventGroups
  import F = Featured
  import FR = FeaturedRuns
  import L = Laggard
  import P = Protocol
  import Progress
  import ES = EventSections

  // ---- Who chose the headline ------------------------------------------------------------

  /** Governance calls each event's identity root the identity of that event. */
  predicate IdentitiesAgree(facts: Facts) {
    forall e :: e in facts.identityRoot ==>
      && Resolved(facts.identityRoot[e]) in facts.gov.identity
      && facts.gov.identity[Resolved(facts.identityRoot[e])] == e
  }

  /** The pending manifest a publication would resume is bound to another headline decision than the request's. */
  predicate ResumesAnother(w: World, req: Request) {
    var pending := Newest(w.rows, req.day, Draft, None);
    !Reuses(w, req) && pending.Some? && w.rows[pending.value].featured != req.featured
  }

  lemma {:induction false} RunResumes(w: World, ph: Phase)
    requires w.files.Valid() && InRange(w, ph)
    requires ph.Committed? || ph.Linked? || ph.Finalized? || ph.target.Resume?
    ensures var (_, outcome) := RunToEnd(w, Continue(ph));
      outcome.Returned? ==>
        outcome.id == if ph.Committed? || ph.Linked? || ph.Finalized? then ph.id else ph.target.id
    decreases Publication.Ahead(ph)
  {
    var (w', next) := Advance(w, ph);
    if next.Continue? { RunResumes(w', next.phase); }
  }

  /** A version returned carries the binding asked for, unless it is a pending one that was bound before. */
  lemma BindingIsAsRequested(w: World, req: Request)
    requires w.files.Valid()
    requires Reuses(w, req) ==> w.rows[Predecessor(w.rows, req.day).value].featured == req.featured
    ensures var (w', outcome) := Publish(w, req);
      outcome.Returned? ==>
        outcome.id < |w'.rows| && (w'.rows[outcome.id].featured == req.featured <==> !ResumesAnother(w, req))
  {
    var (w1, next) := Start(w, req);
    NewVersionIsAsRequested(w, req);
    var pending := Newest(w.rows, req.day, Draft, None);
    if pending.Some? {
      if next.Continue? { RunResumes(w1, next.phase); }
    } else {
      forall i | 0 <= i < |w.rows| && w.rows[i].day == req.day ensures !w.rows[i].status.Draft? {
        if w.rows[i].status.Draft? { NewestIsNewest(w.rows, req.day, Draft, None, i); }
      }
    }
  }

  /** The section's headline event is one of the request's. */
  lemma HeadlineIsAmongEvents(facts: Facts, w: World, rulings: seq<Adjudication>, before: World, cand: Candidate,
                              asking: Asking)
    requires FactsOk(facts) && Asked(facts, w, rulings, before, cand, asking) && OthersOn(facts, w, cand) != {}
    ensures asking.section.event in EventsBehind(facts.gov, asking.req.evidence)
  {
    WikidataKeepsEvents(facts, rulings, w.rows, cand, Plan(asking.section.recorded, asking.section.statements),
                        asking.req);
  }

  /**
    A minted version of a shared date reads as headlined by a person exactly when a person had chosen the date's
    headline; unless it resumed a pending version, which stays bound to the decision it was drafted under.
  */
  lemma MintedReadsAsChosen(facts: Facts, w: World, rulings: seq<Adjudication>, before: World, cand: Candidate,
                            asking: Asking)
    requires FactsOk(facts) && IdentitiesAgree(facts) && FR.KnownHand(w.selections, cand.day)
    requires Asked(facts, w, rulings, before, cand, asking) && forall i :: 0 <= i < |w.rows| ==> RowFits(w.rows[i])
    requires before == w.(selections := before.selections, index := before.index) && OthersOn(facts, w, cand) != {}
    ensures var (after, outcome) := Wikidata.Submitted(before, asking.req);
      outcome.Minted? ==>
        && outcome.id < |after.rows|
        && (after.rows[outcome.id].featured == asking.req.featured <==> !ResumesAnother(before, asking.req))
        && (!ResumesAnother(before, asking.req) ==>
             (FeaturedDecisionIsHuman(facts.gov, after.selections, after.rows[outcome.id]) <==>
              F.HumanChose(w.selections, cand.day)))
  {
    var (after, outcome) := Publish(before, asking.req);
    if outcome.Returned? {
      AskedFits(facts, w, rulings, before, cand, asking);
      ReturnedFits(before, asking.req);
      PublishKeepsDecisions(before, asking.req);
      BindingIsAsRequested(before, asking.req);
      HeadlineIsAmongEvents(facts, w, rulings, before, cand, asking);
      if !ResumesAnother(before, asking.req) {
        BoundReadsAsChosen(facts, w, before, cand, asking, after.rows[outcome.id]);
      }
    }
  }

  /** In a healthy archive a pending version of the same content is completed as it was drafted, binding included. */
  lemma ResumedKeepsItsBinding(w: World, req: Request)
    requires P.Safe(P.System(w, map[])) && ResumesAnother(w, req)
    requires w.rows[Newest(w.rows, req.day, Draft, None).value].hash == Hash(req.payload)
    ensures var (w', outcome) := Publish(w, req);
      var pending := Newest(w.rows, req.day, Draft, None).value;
      outcome == Returned(pending) && w'.rows == w.rows[pending := w.rows[pending].(status := Published)]
  {
    Progress.AdmittedPublicationIsServed(w, req);
    var (w1, next) := Start(w, req);
    RunResumes(w1, next.phase);
    NewVersionIsAsRequested(w, req);
  }

  /**
    It happens on any date, for any content and any two bindings: a publisher stops after its commit, and the next one,
    asking for the same page under another headline decision, publishes it under the first.
  */
  lemma AnotherBindingIsPublished(gov: Governance, selections: seq<Ed.Selection>, req: Request, other: Request)
    requires req.supersedes.None? && other == req.(featured := other.featured) && other.featured != req.featured
    ensures exists w: World :: L.Reachable(P.System(w, map[])) && PublishesUnder(w, other, req.featured)
  {
    var w := DraftLeftBehind(gov, selections, req);
    L.ReachableIsSafe(P.System(w, map[]));
    NewestIsNewest(w.rows, req.day, Draft, None, 0);
    ResumedKeepsItsBinding(w, other);
    assert PublishesUnder(w, other, req.featured);
  }

  /** From an empty archive: one publisher commits its pending version and dies. */
  lemma DraftLeftBehind(gov: Governance, selections: seq<Ed.Selection>, req: Request) returns (w: World)
    requires req.supersedes.None?
    ensures L.Reachable(P.System(w, map[])) && w.files.Valid()
    ensures |w.rows| == 1 && w.rows[0].status.Draft? && w.rows[0].day == req.day && w.rows[0].hash == Hash(req.payload)
    ensures w.rows[0].featured == req.featured
  {
    var empty := World([], [], map[], selections, gov, Files(map[], []));
    L.CommitFirst(empty, req);
    w := CommitFresh(empty, req, 1);
    L.ReachableIsSafe(P.System(w, map[0 := Committed(req, 0, true)]));
    CrashLeaves(w, Committed(req, 0, true));
  }

  lemma CrashLeaves(w: World, ph: Phase)
    requires L.Reachable(P.System(w, map[0 := ph])) && w.files.Valid()
    ensures L.Reachable(P.System(w, map[]))
  {
    var waiting := P.System(w, map[0 := ph]);
    assert P.Enabled(waiting, P.Crash(0));
    L.ReachOn(waiting, Runs.Publisher(P.Crash(0)));
    assert waiting.procs - {0} == map[];
  }

  ghost predicate PublishesUnder(w: World, req: Request, featured: Option<Binding>) {
    && w.files.Valid() && Publish(w, req).1.Returned? && Publish(w, req).1.id < |Publish(w, req).0.rows|
    && Publish(w, req).0.rows[Publish(w, req).1.id].featured == featured != req.featured
  }

  lemma BoundReadsAsChosen(facts: Facts, w: World, before: World, cand: Candidate, asking: Asking, m: Manifest)
    requires IdentitiesAgree(facts) && FR.KnownHand(w.selections, cand.day) && asking.section.Section?
    requires SharedAs(facts, w, before.selections, cand, asking.score, asking.rationale, asking.section)
    requires m.featured == asking.req.featured == asking.section.featured
    requires RequestFits(asking.req) && RowFits(m) && m.hash.preimage == asking.req.payload
    requires asking.section.event in EventsBehind(facts.gov, asking.req.evidence)
    ensures FeaturedDecisionIsHuman(facts.gov, before.selections, m) <==> F.HumanChose(w.selections, cand.day)
  {
    var others, section := OthersOn(facts, w, cand), asking.section;
    SamePayloadSameEvents(facts.gov, asking.req.payload, asking.req.evidence, m.evidence, asking.req.tier, m.tier);
    var e :| Wikidata.Settles(facts, asking.score, asking.rationale, w.selections, before.selections, cand, others, e)
          && e.Evaluated? && e.winner == facts.identityRoot[section.event]
          && section.featured.value == Binding(e.selection, e.version);
    FR.BindingTellsWhoChose(w.selections, before.selections, facts.catalog, asking.score, cand.day,
                            BallotRoots(facts, cand, others), asking.rationale, e, facts.gov, m);
  }

  // ---- Which event leads -----------------------------------------------------------------

  /** Of the listed events, this one alone traces to the release a root traces to. */
  predicate Claims(lineage: E.Lineage, listed: set<nat>, e: nat, root: nat) {
    && root in lineage.rootRelease && e in listed && From(lineage, e, lineage.rootRelease[root])
    && forall x :: x in listed && From(lineage, x, lineage.rootRelease[root]) ==> x == e
  }

  predicate From(lineage: E.Lineage, e: nat, release: nat) {
    e in lineage.eventRelease && lineage.eventRelease[e] == release
  }

  /** Over a list of distinct events, a claim is what stamping attributes. */
  lemma ClaimedIsAttributed(lineage: E.Lineage, ids: seq<nat>, listed: set<nat>, item: Evidence, e: nat)
    requires item.root.Resolved? && (forall x :: x in ids <==> x in listed)
    requires forall i, j :: 0 <= i < j < |ids| ==> ids[i] != ids[j]
    ensures Claims(lineage, listed, e, item.root.id) <==> E.Attributed(lineage, ids, item) == Some(e)
  {
    if Claims(lineage, listed, e, item.root.id) {
      var k :| 0 <= k < |ids| && ids[k] == e;
      forall j | 0 <= j < |ids| && E.TracesTo(lineage, ids, j, lineage.rootRelease[item.root.id]) ensures j == k {
        assert From(lineage, ids[j], lineage.rootRelease[item.root.id]);
      }
      assert E.Owns(lineage, ids, lineage.rootRelease[item.root.id], k);
    }
    if E.Attributed(lineage, ids, item) == Some(e) {
      var release := lineage.rootRelease[item.root.id];
      var k: nat :| E.Owns(lineage, ids, release, k) && ids[k] == e;
      forall x | x in listed && From(lineage, x, release) ensures x == e {
        var j :| 0 <= j < |ids| && ids[j] == x;
        assert E.TracesTo(lineage, ids, j, release);
      }
    }
  }

  /** The section's headline event claims one of its statements, and has a title. */
  predicate HeadlineSpeaks(facts: Facts, listed: set<nat>, section: Composition)
    requires section.Section?
  {
    && section.event in facts.lineage.titles
    && exists i :: 0 <= i < |section.recorded|
                && Claims(facts.lineage, listed, section.event, section.recorded[i].root)
  }

  /** Every statement of the section is claimed by some listed event that has a title. */
  predicate AllSpokenFor(facts: Facts, listed: set<nat>, section: Composition)
    requires section.Section?
  {
    forall i :: 0 <= i < |section.recorded| ==> SpokenFor(facts.lineage, listed, section.recorded[i].root)
  }

  predicate SpokenFor(lineage: E.Lineage, listed: set<nat>, root: nat) {
    exists e :: e in listed && e in lineage.titles && Claims(lineage, listed, e, root)
  }

  /** The candidate's event and the others on its date. */
  function Listed(facts: Facts, w: World, cand: Candidate): set<nat> {
    {cand.event} + OthersOn(facts, w, cand)
  }

  /** The list stamping went by, the order it gave, and each statement's owner. */
  lemma Stamping(facts: Facts, w: World, selections: seq<Ed.Selection>, cand: Candidate, score: F.Score,
                 rationale: string, section: Composition)
      returns (ids: seq<nat>, order: map<nat, nat>, owners: seq<Option<nat>>)
    requires RecordedAs(facts, w, selections, cand, score, rationale, section)
    ensures E.Ordering(order, section.event, ids)
    ensures E.StampedAs(section.statements, Statements(section.recorded), facts.lineage, owners, section.event, order)
    ensures forall i, e: nat :: 0 <= i < |section.recorded| ==>
      (owners[i] == Some(e) <==> Claims(facts.lineage, Listed(facts, w, cand), e, section.recorded[i].root))
  {
    var others := OthersOn(facts, w, cand);
    ids, order :| StampedBy(facts, cand, others, section, ids, order);
    owners := E.Owners(facts.lineage, ids, Renumbered(section.recorded));
    forall i, e: nat | 0 <= i < |section.recorded|
      ensures owners[i] == Some(e) <==> Claims(facts.lineage, Listed(facts, w, cand), e, section.recorded[i].root)
    {
      ClaimedIsAttributed(facts.lineage, ids, Listed(facts, w, cand), Renumbered(section.recorded)[i], e);
    }
  }

  /**
    When every statement has an event that speaks for it, the boundary accepts the section exactly when the
    headline's event speaks for one.
  */
  lemma SpokenForIsAccepted(facts: Facts, w: World, selections: seq<Ed.Selection>, cand: Candidate, score: F.Score,
                            rationale: string, section: Composition)
    requires RecordedAs(facts, w, selections, cand, score, rationale, section) && ES.TitlesOk(facts.lineage.titles)
    requires AllSpokenFor(facts, Listed(facts, w, cand), section) && section.recorded != []
    ensures AllStamped(section.statements)
    ensures Coherent(section.statements) <==> HeadlineSpeaks(facts, Listed(facts, w, cand), section)
  {
    var listed := Listed(facts, w, cand);
    var ids, order, owners := Stamping(facts, w, selections, cand, score, rationale, section);
    forall i | 0 <= i < |owners| ensures E.Grouped(facts.lineage, owners[i]) {
      assert SpokenFor(facts.lineage, listed, section.recorded[i].root);
      var e :| e in listed && e in facts.lineage.titles
            && Claims(facts.lineage, listed, e, section.recorded[i].root);
      assert owners[i] == Some(e);
    }
    var said := Statements(section.recorded);
    ES.StampsAgree(section.statements, said, facts.lineage, owners, section.event, order);
    ES.StampedIsCoherent(section.statements, said, facts.lineage, owners, section.event, ids, order);
    if i :| 0 <= i < |owners| && owners[i] == Some(section.event) {
      assert E.Grouped(facts.lineage, owners[i]);
      assert Claims(facts.lineage, listed, section.event, section.recorded[i].root);
    }
    if i :| 0 <= i < |section.recorded| && Claims(facts.lineage, listed, section.event, section.recorded[i].root) {
      assert owners[i] == Some(section.event);
    }
  }

  /** A statement the headline's event speaks for is stamped with its key and its title, as the lead. */
  lemma HeadlineIsStamped(facts: Facts, w: World, selections: seq<Ed.Selection>, cand: Candidate, score: F.Score,
                          rationale: string, section: Composition)
      returns (s: Statement)
    requires RecordedAs(facts, w, selections, cand, score, rationale, section)
    requires HeadlineSpeaks(facts, Listed(facts, w, cand), section)
    ensures s in section.statements && s.stamp.Some? && s.stamp.value.featured
    ensures s.stamp.value.key == facts.lineage.titles[section.event].0
    ensures s.stamp.value.title == facts.lineage.titles[section.event].1
  {
    var ids, order, owners := Stamping(facts, w, selections, cand, score, rationale, section);
    var i :| 0 <= i < |section.recorded|
          && Claims(facts.lineage, Listed(facts, w, cand), section.event, section.recorded[i].root);
    assert owners[i] == Some(section.event) && E.Grouped(facts.lineage, owners[i]);
    s := section.statements[i];
  }

  /** In a fully stamped section the boundary accepts, the event some statement names as the lead comes first. */
  lemma LeadComesFirst(statements: seq<Statement>, groups: seq<EventGroup>, collate: Collation, s: Statement)
    requires AllStamped(statements) && Coherent(statements) && IsGrouping(statements, groups, collate)
    requires s in statements && s.stamp.value.featured
    ensures groups != [] && groups[0].featured
    ensures groups[0].key == s.stamp.value.key && groups[0].title == s.stamp.value.title
  {
    ES.CoherentRendersInOrder(statements, groups, collate);
    assert Agrees(statements, s);
    assert Leads(statements, s.stamp.value.key);
    assert IsGroup(statements, groups[0]);
    assert Leads(statements, groups[0].key);
  }

  /**
    A minted page leads with the event of its headline decision: for whatever the boundary accepts fully stamped, if
    that event speaks for a statement, the first group is its own, under its title. On a shared date the decision is
    the one the request is bound to, currently the selection of that event's identity root.
  */
  lemma MintedLeadsWithItsHeadline(facts: Facts, w: World, rulings: seq<Adjudication>, before: World, cand: Candidate,
                                   asking: Asking, groups: seq<EventGroup>, collate: Collation)
    requires Asked(facts, w, rulings, before, cand, asking) && forall i :: 0 <= i < |w.rows| ==> RowFits(w.rows[i])
    requires before == w.(selections := before.selections, index := before.index)
    requires SameRecordedDecisions(w.selections, before.selections, cand.day)
    requires HeadlineSpeaks(facts, Listed(facts, w, cand), asking.section)
    ensures var (after, outcome) := Wikidata.Submitted(before, asking.req);
      outcome.Minted? ==>
        && outcome.id < |after.rows|
        && var page := SectionOf(after.rows[outcome.id].hash.preimage, RecordedOnThisDate);
           AllStamped(page) && Coherent(page) && IsGrouping(page, groups, collate) ==>
             && groups != [] && groups[0].featured
             && (groups[0].key, groups[0].title) == facts.lineage.titles[asking.section.event]
    ensures OthersOn(facts, w, cand) != {} ==>
      && asking.req.featured.Some? && asking.section.event in facts.identityRoot
      && F.Headline(before.selections, cand.day, facts.identityRoot[asking.section.event])
      && Ed.LatestIndex(before.selections, cand.day, FeaturedEvent, Resolved(facts.identityRoot[asking.section.event]))
         == Some(asking.req.featured.value.selection)
  {
    var (after, outcome) := Publish(before, asking.req);
    var section := asking.section;
    if outcome.Returned? {
      MintedSaysOnlyWhatIsSelected(facts, w, rulings, before, cand, asking);
      var s := HeadlineIsStamped(facts, w, before.selections, cand, asking.score, asking.rationale, section);
      var page := SectionOf(after.rows[outcome.id].hash.preimage, RecordedOnThisDate);
      if AllStamped(page) && Coherent(page) && IsGrouping(page, groups, collate) {
        LeadComesFirst(page, groups, collate, s);
      }
    }
    if OthersOn(facts, w, cand) != {} {
      HeadlineIsCurrent(facts, w, before.selections, cand, asking.score, asking.rationale, section);
    }
  }

  lemma HeadlineIsCurrent(facts: Facts, w: World, selections: seq<Ed.Selection>, cand: Candidate, score: F.Score,
                          rationale: string, section: Composition)
    requires section.Section? && SharedAs(facts, w, selections, cand, score, rationale, section)
    ensures F.Headline(selections, cand.day, facts.identityRoot[section.event])
    ensures Ed.LatestIndex(selections, cand.day, FeaturedEvent, Resolved(facts.identityRoot[section.event]))
      == Some(section.featured.value.selection)
  {
    var others := OthersOn(facts, w, cand);
    var e :| Wikidata.Settles(facts, score, rationale, w.selections, selections, cand, others, e)
          && e.Evaluated? && e.winner == facts.identityRoot[section.event]
          && section.featured.value == Binding(e.selection, e.version);
    if e.changed {
      FR.ChoiceLeavesOneHeadline(w.selections, selections, cand.day, BallotRoots(facts, cand, others), e.winner,
                                 F.STANDING_FEATURED_EVENT_RULE, rationale);
    }
  }
}
