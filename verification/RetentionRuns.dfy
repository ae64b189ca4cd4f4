/** Runs of context, golden and Wikidata publications, with everything that may happen between them. */
module RetentionRuns {
  import opened Basics
  import opened Disk
  import opened Editorial
  import opened Rows
  import opened Publication
  import opened Protocol
  import opened Reconcile
  import opened Convergence
  import opened Recovery
  import opened CoverageSteps
  import opened Identity
  import opened Admission
  import opened Retention
  import F = Featured
  import Runs

  datatype Desk = Desk(w: World, rulings: seq<Adjudication>)

  /** A publication goes `steps` file and database steps and then stops, finished or crashed. */
  datatype Act =
    | Wikidata(cand: Candidate, plan: Plan, req: Request, steps: nat)
    | Golden(event: nat, req: Request, steps: nat)
    | Context(req: Request, steps: nat)
    | Answer(times: map<nat, F.Span>, a: nat, b: nat, answer: Identity.Answer)
    | Editorial(selections: seq<Selection>, index: map<Day, Entry>)     // any decisions, any index
    | Mend(aged: set<Path>)
    | Damage(files: Files)                                              // any bytes lost or changed

  function Attempted(w: World, req: Request, steps: nat): World
    requires w.files.Valid()
  {
    var (w', next) := Start(w, req);
    Attempt(w', next, steps)
  }

  ghost predicate Does(facts: Facts, s: Desk, act: Act, s': Desk) {
    match act
    case Wikidata(cand, plan, req, steps) =>
      WikidataAsks(facts, s.rulings, s.w.rows, cand, plan, req) && Publishes(s, req, steps, s')
    case Golden(event, req, steps) => GoldenAsks(facts, s.w.rows, event, req) && Publishes(s, req, steps, s')
    case Context(req, steps) => ContextAsks(facts, s.w.rows, req) && Publishes(s, req, steps, s')
    case Answer(times, a, b, answer) =>
      Refuses(times, a, b, answer).None? && s' == s.(rulings := Answering(s.rulings, times[a].start, a, b, answer))
    case Editorial(selections, index) =>
      |s.w.selections| <= |selections| && s' == s.(w := s.w.(selections := selections, index := index))
    case Mend(aged) => s.w.files.Valid() && s' == s.(w := Repair(s.w, aged).0)
    case Damage(files) => files.Valid() && OnlyPartnersShare(files) && s' == s.(w := s.w.(files := files))
  }

  ghost predicate Publishes(s: Desk, req: Request, steps: nat, s': Desk) {
    s.w.files.Valid() && Bound(s.w, req.featured) && s' == s.(w := Attempted(s.w, req, steps))
  }

  ghost predicate Kept(facts: Facts, s: Desk) {
    && s.w.gov == facts.gov && Sound(s.w) && Profiled(s.w.rows, s.w.profiles)
    && Admitted(s.w.gov, s.w.rows, s.rulings)
  }

  /** Rows stay, published ones as they are. */
  ghost predicate PublishedStay(rows: seq<Manifest>, rows': seq<Manifest>) {
    && |rows| <= |rows'|
    && forall i :: 0 <= i < |rows| ==>
         && rows'[i].day == rows[i].day && rows'[i].version == rows[i].version && rows'[i].evidence == rows[i].evidence
         && (rows[i].status.Published? ==> rows'[i].status.Published?)
  }

  lemma PublicationIsKept(facts: Facts, s: Desk, req: Request, steps: nat, s': Desk)
    requires Kept(facts, s) && Publishes(s, req, steps, s')
    requires RequestFits(req) && Agreed(facts.gov, s.rulings, req.evidence)
    requires AdmittedEvents(facts.gov, s.w.rows, req.day) <= EventsBehind(facts.gov, req.evidence)
    ensures Kept(facts, s') && PublishedStay(s.w.rows, s'.w.rows)
  {
    var (w', next) := Start(s.w, req);
    StartWithin(s.w, req);
    StartAloneKeeps(s.w, req);
    AttemptKeeps(w', next, steps);
    if next.Continue? {
      AttemptEffect(s.w.rows, w', next.phase, steps);
      EffectStaysAdmitted(facts.gov, s.w.rows, s'.w.rows, s.rulings, req);
      EffectStays(s.w.rows, s'.w.rows, req);
    }
  }

  lemma EffectStays(rows: seq<Manifest>, rows': seq<Manifest>, req: Request)
    requires Effect(rows, rows', req)
    ensures PublishedStay(rows, rows')
  {
    if |rows'| > |rows| {
      forall i | 0 <= i < |rows| ensures rows'[i] == rows[i] { assert rows'[..|rows|][i] == rows[i]; }
    }
  }

  /** The Wikidata publisher asks only for what history permits. */
  lemma WikidataIsAgreed(facts: Facts, s: Desk, cand: Candidate, plan: Plan, req: Request)
    requires Kept(facts, s) && FactsOk(facts) && WikidataAsks(facts, s.rulings, s.w.rows, cand, plan, req)
    ensures Agreed(facts.gov, s.rulings, req.evidence)
  {
    WikidataKeepsEvents(facts, s.rulings, s.w.rows, cand, plan, req);
    var admitted := AdmittedEvents(facts.gov, s.w.rows, cand.day);
    AdmittedAreAgreed(facts.gov, s.w.rows, s.rulings, cand.day);
    ClearedIsAgreed(s.rulings, admitted, cand.event);
  }

  ghost predicate OncePairwise(rulings: seq<Adjudication>, events: set<nat>) {
    forall a, b :: a in events && b in events && a != b ==> OnceDistinct(rulings, a, b)
  }

  lemma AdmittedAreAgreed(gov: Governance, rows: seq<Manifest>, rulings: seq<Adjudication>, day: Day)
    requires Admitted(gov, rows, rulings)
    ensures OncePairwise(rulings, AdmittedEvents(gov, rows, day))
  {
    var prev := Predecessor(rows, day);
    if prev.Some? {
      assert RowFits(rows[prev.value]);
      assert Agreed(gov, rulings, rows[prev.value].evidence);
    }
  }

  /** A candidate ruled distinct from each of them may stand beside events that were ruled distinct pairwise. */
  lemma ClearedIsAgreed(rulings: seq<Adjudication>, admitted: set<nat>, event: nat)
    requires OncePairwise(rulings, admitted)
    requires forall o :: o in admitted - {event} ==> AdjudicatedDistinct(rulings, event, o)
    ensures OncePairwise(rulings, admitted + {event})
  {
    forall a, b | a in admitted + {event} && b in admitted + {event} && a != b ensures OnceDistinct(rulings, a, b) {
      AdjudicationIsUnordered(rulings, a, b);
      if a == event {
        HistoryRemembers(rulings, rulings, a, b);
      } else if b == event {
        HistoryRemembers(rulings, rulings, b, a);
      }
    }
  }

  lemma ContextIsRetaining(facts: Facts, s: Desk, req: Request)
    requires Kept(facts, s) && ContextAsks(facts, s.w.rows, req)
    ensures AdmittedEvents(facts.gov, s.w.rows, req.day) == {}
  {
    var latest := Predecessor(s.w.rows, req.day);
    if latest.Some? && AdmittedEvents(facts.gov, s.w.rows, req.day) != {} {
      var m := s.w.rows[latest.value];
      assert RowFits(m);
      EventsMakeEnriched(facts.gov, m.hash.preimage, m.evidence, m.tier);
    }
  }

  lemma RepairIsKept(facts: Facts, s: Desk, aged: set<Path>)
    requires Kept(facts, s)
    ensures Kept(facts, s.(w := Repair(s.w, aged).0)) && PublishedStay(s.w.rows, Repair(s.w, aged).0.rows)
  {
    RepairKeeps(s.w, aged);
    RepairRulesRows(s.w, aged);
    var w' := Repair(s.w, aged).0;
    assert w'.gov == s.w.gov by { RepairEffect(s.w, aged); }
    SettlingStaysAdmitted(s.w.gov, s.w.rows, w'.rows, s.rulings);
    forall i: nat | i < |s.w.rows| && w'.rows[i].status.Published? ensures i in w'.profiles {
      assert w'.rows[i] == AsRepaired(s.w.files, s.w.rows[i]);
    }
  }

  lemma ActIsKept(facts: Facts, s: Desk, act: Act, s': Desk)
    requires FactsOk(facts) && Kept(facts, s) && Does(facts, s, act, s')
    ensures Kept(facts, s') && PublishedStay(s.w.rows, s'.w.rows) && s.rulings <= s'.rulings
  {
    match act
    case Wikidata(cand, plan, req, steps) =>
      WikidataIsAgreed(facts, s, cand, plan, req);
      WikidataKeepsEvents(facts, s.rulings, s.w.rows, cand, plan, req);
      WikidataRequestFits(facts, s.rulings, s.w.rows, cand, plan, req);
      PublicationIsKept(facts, s, req, steps, s');
    case Golden(event, req, steps) => PublicationIsKept(facts, s, req, steps, s');
    case Context(req, steps) =>
      ContextIsRetaining(facts, s, req);
      PublicationIsKept(facts, s, req, steps, s');
    case Answer(times, a, b, answer) =>
      AnswerGoverns(s.rulings, times, a, b, answer);
      RulingsStayAdmitted(facts.gov, s.w.rows, s.rulings, s'.rulings);
    case Editorial(selections, index) =>
      forall i: nat | i < |s.w.rows| ensures Bound(s'.w, s.w.rows[i].featured) {
        assert Bound(s.w, s.w.rows[i].featured);
      }
    case Mend(aged) => RepairIsKept(facts, s, aged);
    case Damage(files) =>
      forall i: nat | i < |s.w.rows| ensures Bound(s'.w, s.w.rows[i].featured) {
        assert Bound(s.w, s.w.rows[i].featured);
      }
  }

  // ---- Whole runs ------------------------------------------------------------------------

  ghost predicate IsCareer(facts: Facts, desks: seq<Desk>, acts: seq<Act>) {
    && |desks| == |acts| + 1
    && forall i :: 0 <= i < |acts| ==> Does(facts, desks[i], acts[i], desks[i + 1])
  }

  ghost predicate Unpublished(facts: Facts, s: Desk) {
    s.w.gov == facts.gov && s.w.rows == [] && s.w.profiles == [] && s.w.files.Valid() && OnlyPartnersShare(s.w.files)
  }

  lemma {:induction false} CareerIsKept(facts: Facts, desks: seq<Desk>, acts: seq<Act>, n: nat)
    requires FactsOk(facts) && IsCareer(facts, desks, acts) && Unpublished(facts, desks[0]) && n < |desks|
    ensures Kept(facts, desks[n])
  {
    if n > 0 {
      CareerIsKept(facts, desks, acts, n - 1);
      assert Does(facts, desks[n - 1], acts[n - 1], desks[n]);
      ActIsKept(facts, desks[n - 1], acts[n - 1], desks[n]);
    }
  }

  lemma StayOn(a: seq<Manifest>, b: seq<Manifest>, c: seq<Manifest>)
    requires PublishedStay(a, b) && PublishedStay(b, c)
    ensures PublishedStay(a, c)
  {
  }

  /**
    Over any run, with artifacts lost and manifests withdrawn in it, rows stay, and a date's versions run from 1 to its
    newest with no gap and no reuse, at most the newest pending.
  */
  lemma {:induction false} CareerIsDisciplined(facts: Facts, desks: seq<Desk>, acts: seq<Act>, i: nat, j: nat, day: Day)
    requires FactsOk(facts) && IsCareer(facts, desks, acts) && Unpublished(facts, desks[0]) && i <= j < |desks|
    ensures Runs.Disciplined(desks[j].w.rows, day) && PublishedStay(desks[i].w.rows, desks[j].w.rows)
    decreases j
  {
    CareerIsKept(facts, desks, acts, j);
    Runs.RowsAreDisciplined(desks[j].w.rows, day);
    if i < j {
      CareerIsDisciplined(facts, desks, acts, i, j - 1, day);
      CareerIsKept(facts, desks, acts, j - 1);
      assert Does(facts, desks[j - 1], acts[j - 1], desks[j]);
      ActIsKept(facts, desks[j - 1], acts[j - 1], desks[j]);
      StayOn(desks[i].w.rows, desks[j - 1].w.rows, desks[j].w.rows);
    }
  }

  /** A version, once used, is never given out again, whatever became of its manifest. */
  lemma NeverReused(facts: Facts, desks: seq<Desk>, acts: seq<Act>, i: nat, j: nat, id: nat, req: Request)
    requires FactsOk(facts) && IsCareer(facts, desks, acts) && Unpublished(facts, desks[0]) && i <= j < |desks|
    requires id < |desks[i].w.rows| && desks[i].w.rows[id].day == req.day
    ensures var next := Start(desks[j].w, req).1;
      next.Continue? && next.phase.target.Fresh? ==> desks[i].w.rows[id].version < next.phase.target.version
  {
    CareerIsDisciplined(facts, desks, acts, i, j, req.day);
    MaxVersionBounds(desks[j].w.rows, req.day, id);
  }

  /** Between two states that keep their published rows, a date's events only grow. */
  lemma EventsGrow(facts: Facts, s: Desk, s': Desk, day: Day)
    requires Kept(facts, s) && Kept(facts, s') && PublishedStay(s.w.rows, s'.w.rows)
    ensures AdmittedEvents(facts.gov, s.w.rows, day) <= AdmittedEvents(facts.gov, s'.w.rows, day)
  {
    var prev := Predecessor(s.w.rows, day);
    if prev.Some? { NewestHasAll(facts.gov, s'.w.rows, s'.rulings, prev.value); }
  }

  /**
    Over any run of context, golden and Wikidata publications, each crashing wherever it likes, with repairs,
    lost files, adjudications, editorial decisions and any index in between: the events behind a date's newest
    published manifest never shrink.
  */
  lemma {:induction false} EventsAreRetained(facts: Facts, desks: seq<Desk>, acts: seq<Act>, i: nat, j: nat, day: Day)
    requires FactsOk(facts) && IsCareer(facts, desks, acts) && Unpublished(facts, desks[0]) && i <= j < |desks|
    ensures AdmittedEvents(facts.gov, desks[i].w.rows, day) <= AdmittedEvents(facts.gov, desks[j].w.rows, day)
    decreases j
  {
    if i < j {
      EventsAreRetained(facts, desks, acts, i, j - 1, day);
      CareerIsKept(facts, desks, acts, j - 1);
      CareerIsKept(facts, desks, acts, j);
      assert Does(facts, desks[j - 1], acts[j - 1], desks[j]);
      ActIsKept(facts, desks[j - 1], acts[j - 1], desks[j]);
      EventsGrow(facts, desks[j - 1], desks[j], day);
    }
  }

  /**
    Every two events behind any manifest a run has published or left pending were once ruled distinct by a
    person, whichever was admitted first, and however stale the coverage index the publishers consulted.
  */
  lemma CoPublicationWasAdjudicated(facts: Facts, desks: seq<Desk>, acts: seq<Act>, n: nat, id: nat, a: nat, b: nat)
    requires FactsOk(facts) && IsCareer(facts, desks, acts) && Unpublished(facts, desks[0]) && n < |desks|
    requires id < |desks[n].w.rows| && !desks[n].w.rows[id].status.Withdrawn? && a != b
    requires a in EventsBehind(facts.gov, desks[n].w.rows[id].evidence)
    requires b in EventsBehind(facts.gov, desks[n].w.rows[id].evidence)
    ensures OnceDistinct(desks[n].rulings, a, b)
  {
    CareerIsKept(facts, desks, acts, n);
    assert Agreed(facts.gov, desks[n].rulings, desks[n].w.rows[id].evidence);
  }

  /** The manifest a publication returned is the date's newest, with its request's events. */
  lemma ReturnedIsNewest(facts: Facts, s: Desk, req: Request)
    requires Kept(facts, s) && RequestFits(req)
    ensures var (w', outcome) := Publish(s.w, req);
      outcome.Returned? ==>
        Predecessor(w'.rows, req.day) == Some(outcome.id)
        && EventsBehind(facts.gov, w'.rows[outcome.id].evidence) == EventsBehind(facts.gov, req.evidence)
  {
    var (w1, next) := Start(s.w, req);
    var (w', outcome) := Publish(s.w, req);
    StartWithin(s.w, req);
    if next.Done? && outcome.Returned? {
      ReturnedRow(facts.gov, s.w.rows, outcome.id, req);
    } else if outcome.Returned? {
      RunFinishes(s.w.rows, w1, next.phase);
      FinishedIsNewest(s.w.rows, w'.rows, req, outcome.id);
      if outcome.id < |s.w.rows| { ReturnedRow(facts.gov, s.w.rows, outcome.id, req); }
    }
  }

  lemma ReturnedRow(gov: Governance, rows: seq<Manifest>, id: nat, req: Request)
    requires id < |rows| && RowFits(rows[id]) && rows[id].hash == Hash(req.payload) && RequestFits(req)
    ensures EventsBehind(gov, rows[id].evidence) == EventsBehind(gov, req.evidence)
  {
    SamePayloadSameEvents(gov, req.payload, rows[id].evidence, req.evidence, rows[id].tier, req.tier);
  }

  lemma FinishedIsNewest(rows: seq<Manifest>, rows': seq<Manifest>, req: Request, id: nat)
    requires VersionsFollow(rows) && Finishes(rows, rows', req, id)
    requires forall i: nat :: i < |rows| ==> NewestIfDraft(rows, i)
    ensures Predecessor(rows', req.day) == Some(id)
  {
    assert id < |rows'| && Matches(rows', id, req.day, Published, None);
    NewestIsNewest(rows', req.day, Published, None, id);
    var newest := Predecessor(rows', req.day).value;
    forall i: nat | i < |rows'| && i != id && rows'[i].day == req.day ensures rows'[i].version < rows'[id].version {
      if id < |rows| {
        assert NewestIfDraft(rows, id);
        VersionsIncrease(rows, i, id);
      } else {
        assert rows'[..|rows|][i] == rows[i];
        MaxVersionBounds(rows, req.day, i);
      }
    }
  }

  /** A successful Wikidata publication makes the date's events exactly the predecessor's and the candidate. */
  lemma WikidataAdmitsExactlyTheCandidate(facts: Facts, s: Desk, cand: Candidate, plan: Plan, req: Request)
    requires FactsOk(facts) && Kept(facts, s) && WikidataAsks(facts, s.rulings, s.w.rows, cand, plan, req)
    ensures var (w', outcome) := Publish(s.w, req);
      outcome.Returned? ==>
        AdmittedEvents(facts.gov, w'.rows, cand.day) == AdmittedEvents(facts.gov, s.w.rows, cand.day) + {cand.event}
  {
    WikidataRequestFits(facts, s.rulings, s.w.rows, cand, plan, req);
    WikidataKeepsEvents(facts, s.rulings, s.w.rows, cand, plan, req);
    ReturnedIsNewest(facts, s, req);
  }

  /**
    The guards read before publication takes its lock. A publisher that checked an earlier state publishes its
    own events and no others: it keeps the date's events exactly when they were among its own.
  */
  lemma StalePublicationKeepsOnlyItsOwn(facts: Facts, s: Desk, req: Request)
    requires Kept(facts, s) && RequestFits(req)
    ensures var (w', outcome) := Publish(s.w, req);
      outcome.Returned? ==>
        (AdmittedEvents(facts.gov, s.w.rows, req.day) <= AdmittedEvents(facts.gov, w'.rows, req.day) <==>
           AdmittedEvents(facts.gov, s.w.rows, req.day) <= EventsBehind(facts.gov, req.evidence))
  {
    ReturnedIsNewest(facts, s, req);
  }

  /** A pending manifest of the date already has every event its published ones have. */
  lemma PendingHasAll(gov: Governance, rows: seq<Manifest>, rulings: seq<Adjudication>, id: nat)
    requires Admitted(gov, rows, rulings) && id < |rows| && rows[id].status.Draft? && NewestIfDraft(rows, id)
    ensures AdmittedEvents(gov, rows, rows[id].day) <= EventsBehind(gov, rows[id].evidence)
  {
    var newest := Predecessor(rows, rows[id].day);
    if newest.Some? { assert Retains(gov, rows, newest.value, id); }
  }

  /** What is returned without a new row has every event the date had. */
  lemma NothingLostWithoutANewRow(facts: Facts, s: Desk, req: Request)
    requires Kept(facts, s) && RequestFits(req)
    ensures var next := Start(s.w, req).1;
      (if next.Done? then next.outcome.Returned? else next.phase.target.Resume?) ==>
        AdmittedEvents(facts.gov, s.w.rows, req.day) <= EventsBehind(facts.gov, req.evidence)
  {
    var next := Start(s.w, req).1;
    StartWithin(s.w, req);
    if next.Done? && next.outcome.Returned? {
      ReturnedRow(facts.gov, s.w.rows, next.outcome.id, req);
    } else if next.Continue? && next.phase.target.Resume? {
      PendingHasAll(facts.gov, s.w.rows, s.rulings, next.phase.target.id);
      ReturnedRow(facts.gov, s.w.rows, next.phase.target.id, req);
    }
  }

  /**
    What the single successor slot adds to the guards, which kept the events of the page they read: a publisher that
    has fallen behind can only cost the date events when no page since has named the one it read as its predecessor.
  */
  lemma StaleLossNeedsAnUnclaimedSlot(facts: Facts, read: Desk, s: Desk, req: Request, p: nat)
    requires Kept(facts, s) && PublishedStay(read.w.rows, s.w.rows) && RequestFits(req)
    requires Predecessor(read.w.rows, req.day) == Some(p) && req.supersedes == Some(p)
    requires AdmittedEvents(facts.gov, read.w.rows, req.day) <= EventsBehind(facts.gov, req.evidence)
    ensures var (w', outcome) := Publish(s.w, req);
      outcome.Returned? && !(AdmittedEvents(facts.gov, s.w.rows, req.day) <=
                             AdmittedEvents(facts.gov, w'.rows, req.day)) ==>
        && Predecessor(s.w.rows, req.day) != Some(p)
        && forall i :: 0 <= i < |s.w.rows| ==> s.w.rows[i].supersedes != Some(p)
  {
    StalePublicationKeepsOnlyItsOwn(facts, s, req);
    NothingLostWithoutANewRow(facts, s, req);
  }
}
