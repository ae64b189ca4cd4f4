/**
  publish_wikidata_event: guard, survivors, headline, groups, then publication; and the answer that opens the
  guard.
*/
module Wikidata {
  import opened Basics
  import opened Rows
  import opened Publication
  import opened Enrichment
  import opened Identity
  import opened Admission
  import opened MergeReview
  import opened Retention
  import E = EventGroups
  import F = Featured
  import Ed = Editorial

  /** One session of the Wikidata publisher: the archive, the adjudications and the review queue. */
  class WikidataPublisher {
    const facts: Facts
    const score: F.Score
    var w: World
    var rulings: seq<Adjudication>
    var tasks: seq<MergeTask>

    constructor (facts: Facts, score: F.Score, w: World, rulings: seq<Adjudication>, tasks: seq<MergeTask>)
      ensures this.facts == facts && this.score == score && this.w == w && this.rulings == rulings
      ensures this.tasks == tasks
    {
      this.facts, this.score, this.w, this.rulings, this.tasks := facts, score, w, rulings, tasks;
    }

    /** _collision_adjudication: an unresolved candidate, or a manifest with no other event, is never waved through. */
    method CollisionAdjudication(event: Option<nat>, manifest: nat) returns (bypass: bool,
                                 blocking: Option<Adjudication>)
      requires manifest < |w.rows|
      ensures bypass <==> event.Some? && GuardOpen(rulings, event.value, Others(facts, w, event.value, manifest))
      ensures blocking.Some? ==> !bypass && !Permits(blocking) && event.Some?
      ensures blocking.Some? ==>
        exists o ::
          o in Others(facts, w, event.value, manifest) && LatestAdjudication(rulings, event.value, o) == blocking
      ensures event.Some? && !bypass && blocking.None? ==>
        forall o :: o in Others(facts, w, event.value, manifest) ==>
          LatestAdjudication(rulings, event.value, o).None? || AdjudicatedDistinct(rulings, event.value, o)
    {
      bypass, blocking := false, None;
      if event.None? { return; }
      var others := Others(facts, w, event.value, manifest);
      if others == {} { return; }
      var left := others;
      bypass := true;
      while left != {}
        invariant left <= others
        invariant bypass <==> forall o :: o in others - left ==> AdjudicatedDistinct(rulings, event.value, o)
        invariant blocking.Some? ==> !bypass && !Permits(blocking)
        invariant blocking.Some? ==> exists o :: o in others && LatestAdjudication(rulings, event.value, o) == blocking
        invariant blocking.None? ==>
          forall o :: o in others - left ==>
            LatestAdjudication(rulings, event.value, o).None? || AdjudicatedDistinct(rulings, event.value, o)
        decreases left
      {
        var o :| o in left;
        var decision := LatestAdjudication(rulings, event.value, o);
        if !Permits(decision) {
          bypass := false;
          if decision.Some? && blocking.None? { blocking := decision; }
        }
        assert others - (left - {o}) == (others - left) + {o};
        assert AdjudicatedDistinct(rulings, event.value, o) <==> Permits(decision);
        left := left - {o};
      }
    }

    /** _ensure_merge_review_task. */
    method EnsureMergeReviewTask(claim: nat, manifest: nat, events: set<nat>) returns (task: nat)
      modifies this`tasks
      ensures (tasks, task) == EnsureTask(facts.gov, w.rows, old(tasks), claim, manifest, events)
    {
      ghost var before := tasks;
      for k := 0 to |tasks|
        invariant tasks == DismissedBefore(before, claim, k)
        invariant FirstReusable(facts.gov, w.rows, before, claim, events, 0) ==
            FirstReusable(facts.gov, w.rows, before, claim, events, k)
      {
        if tasks[k].claim != claim || !Active(tasks[k]) { continue; }
        if Concerns(facts.gov, w.rows, tasks[k], events) { return k; }
        tasks := tasks[k := tasks[k].(status := Dismissed)];
      }
      tasks := tasks + [MergeTask(claim, Some(manifest), Open)];
      task := |tasks| - 1;
    }

    /** _collision_outcome_if_blocked. */
    method CollisionOutcomeIfBlocked(event: Option<nat>, manifest: nat, claim: nat) returns (guard: Guard)
      requires manifest < |w.rows|
      modifies this`tasks
      ensures guard.Pass? <==> event.Some? && GuardOpen(rulings, event.value, Others(facts, w, event.value, manifest))
      ensures guard.Pass? ==> tasks == old(tasks)
      ensures !guard.Pass? ==> AsksAbout(facts, w, rulings, old(tasks), tasks, event, claim, manifest, Stopped(guard))
    {
      var bypass, blocking := CollisionAdjudication(event, manifest);
      if bypass { return Pass; }
      if blocking.Some? { return Blocked(blocking.value); }
      var task := EnsureMergeReviewTask(claim, manifest, EventsBehind(facts.gov, w.rows[manifest].evidence));
      guard := Referred(task);
    }

    /** The featured decision, recorded if the headline moves; the index follows each recorded decision. */
    method EvaluateHeadline(day: Day, ids: seq<nat>, rationale: string) returns (e: F.Evaluation)
      modifies this`w
      ensures F.Evaluates(old(w).selections, w.selections, facts.catalog, score, day, F.Ballot(ids), rationale, e)
      ensures Refreshed(old(w), w, day)
    {
      var log := new F.SelectionLog(w.selections);
      e := log.EvaluateFeaturedEvent(facts.catalog, score, day, ids, rationale);
      if log.rows != w.selections {
        w := w.(selections := log.rows);
        var served := Newest(w.rows, day, Published, Some(w.profiles));
        if served.Some? { w := IndexManifest(w, served.value); }
      }
    }

    /** The identity roots on the ballot: the candidate's, then the other admitted events'. */
    method BallotOf(cand: Candidate, others: set<nat>) returns (ids: seq<nat>)
      requires cand.event in facts.identityRoot
      ensures F.Ballot(ids) == BallotRoots(facts, cand, others)
    {
      ids := [facts.identityRoot[cand.event]];
      var left := others;
      while left != {}
        invariant left <= others
        invariant F.Ballot(ids) == {facts.identityRoot[cand.event]}
          + set o | o in others - left && o in facts.identityRoot :: facts.identityRoot[o]
        decreases left
      {
        var o :| o in left;
        assert others - (left - {o}) == (others - left) + {o};
        ghost var was := ids;
        if o in facts.identityRoot { ids := ids + [facts.identityRoot[o]]; }
        assert F.Ballot(ids) == F.Ballot(was) + if o in facts.identityRoot then {facts.identityRoot[o]} else {};
        left := left - {o};
      }
      assert others - left == others;
    }

    /** Which event leads, and the decision that says so. */
    method ChooseHeadline(cand: Candidate, others: set<nat>, rationale: string) returns (choice: Choice)
      requires cand.event in facts.identityRoot
      modifies this`w
      ensures Refreshed(old(w), w, cand.day)
      ensures choice.Chosen? <==> HeadlineSettles(facts, old(w).selections, cand, others)
      ensures choice.NoBallot? <==> |BallotRoots(facts, cand, others)| < 2
      ensures !choice.Chosen? ==> w == old(w)
      ensures SameRecordedDecisions(old(w).selections, w.selections, cand.day)
      ensures choice.Chosen? ==>
        SettledBy(facts, score, rationale, old(w).selections, w.selections, cand, others, choice.binding,
                  choice.featured)
    {
      var ids := BallotOf(cand, others);
      var e := EvaluateHeadline(cand.day, ids, rationale);
      EvaluationSpares(old(w).selections, w.selections, facts.catalog, score, cand.day, F.Ballot(ids), rationale, e);
      if e.Unresolved? { return Required; }
      if e.NoChoice? { return NoBallot; }
      var featured := cand.event;
      if e.winner != facts.identityRoot[cand.event] {
        featured :| featured in others && featured in facts.identityRoot && facts.identityRoot[featured] == e.winner;
      }
      choice := Chosen(featured, Binding(e.selection, e.version));
    }

    /** The candidate's statements and the survivors, the headline's side first, stamped with their events. */
    method Arrange(cand: Candidate, others: set<nat>, surviving: seq<Enrichment.Recorded>, binding: Option<Binding>,
                   featured: nat)
        returns (section: Composition)
      requires cand.event !in others
      ensures section.Section? && section.featured == binding && section.event == featured
      ensures section.recorded == HeadlineFirst(cand.ranked, surviving, featured == cand.event)
      ensures StampsOnly(section.recorded, section.statements) && StampedFor(facts, cand, others, section)
    {
      var recorded := if featured == cand.event then cand.ranked + surviving else surviving + cand.ranked;
      var admitted := Listed(cand.event, others);
      var stamped, order := E.StampRecordedEventGroups(Statements(recorded), Renumbered(recorded), facts.lineage,
                                                       featured, admitted);
      section := Section(recorded, stamped, binding, featured);
      assert StampedBy(facts, cand, others, section, admitted, order);
    }

    /** The recorded section when other events are already admitted: survivors, headline, order. */
    method ComposeShared(cand: Candidate, prev: nat, others: set<nat>, rationale: string) returns (r: Composition)
      requires Ready() && CandidateSound(facts, cand) && Predecessor(w.rows, cand.day) == Some(prev)
      requires cand.event !in others
      modifies this`w
      ensures Refreshed(old(w), w, cand.day)
      ensures !r.Section? ==> w == old(w)
      ensures r.Section? <==>
        Carries(facts, old(w), cand, others) && HeadlineSettles(facts, old(w).selections, cand, others)
      ensures r.Failed? <==> (!Verifies(old(w).files, old(w).rows[prev])
                              || (Carries(facts, old(w), cand, others) && |BallotRoots(facts, cand, others)| < 2))
      ensures SameRecordedDecisions(old(w).selections, w.selections, cand.day)
      ensures r.Section? ==> Composed(w.rows, cand, r.recorded) && StampsOnly(r.recorded, r.statements)
      ensures r.Section? ==> AllAnchored(facts, r.recorded, others)
      ensures r.Section? ==>
        && r.featured.Some?
        && SettledBy(facts, score, rationale, old(w).selections, w.selections, cand, others, r.featured.value, r.event)
      ensures r.Section? ==> r.recorded == HeadlineFirst(cand.ranked, Surviving(old(w), cand), r.event == cand.event)
      ensures r.Section? ==> StampedFor(facts, cand, others, r)
    {
      if !Verifies(w.files, w.rows[prev]) { return Failed; }
      var surviving := SurvivorsOf(cand, prev);
      if !AllAnchored(facts, surviving, others) { return HeadlineRequired; }
      var choice := ChooseHeadline(cand, others, rationale);
      if choice.Required? { return HeadlineRequired; }
      if choice.NoBallot? { return Failed; }
      r := Arrange(cand, others, surviving, Some(choice.binding), choice.featured);
      SharedIsComposed(facts, w.rows, cand, others, surviving, choice.featured == cand.event);
    }

    /**
      The predecessor's recorded statements that are not the candidate's and are still selected: all of them, in
      order.
    */
    method SurvivorsOf(cand: Candidate, prev: nat) returns (surviving: seq<Enrichment.Recorded>)
      requires Ready() && Predecessor(w.rows, cand.day) == Some(prev)
      ensures surviving == Surviving(w, cand)
      ensures forall x :: x in surviving ==> FromPrior(w.rows, cand.day, x)
    {
      var m := w.rows[prev];
      var selected := SelectedRoots(w.selections, cand.day);
      var prior := SectionOf(m.hash.preimage, RecordedOnThisDate);
      surviving := SurvivingRecordedStatements(prior, m.evidence, selected, OwnRoots(cand));
      SurvivorsCompose(w.rows, cand.day, prev, prior, selected, OwnRoots(cand), surviving);
    }

    /** The date's index row names another event's manifest: this candidate may need leave to stand beside it. */
    method GuardDate(resolved: Option<Candidate>, claim: nat, day: Day,
                     own: set<nat>) returns (stop: Option<WikidataOutcome>)
      modifies this`tasks
      ensures stop.Some? <==> CollisionStops(facts, w, rulings, resolved, day, own)
      ensures stop.None? ==> tasks == old(tasks)
      ensures stop.Some? ==>
        && AsksAPerson(stop.value)
        && AsksAbout(facts, w, rulings, old(tasks), tasks, EventOf(resolved), claim, w.index[day].manifest, stop.value)
    {
      var collision := PublishedRecordedEventOn(w, day);
      if collision.None? || IsOwnManifest(w, collision.value, own) { return None; }
      var guard := CollisionOutcomeIfBlocked(EventOf(resolved), collision.value, claim);
      stop := if guard.Pass? then None else Some(Stopped(guard));
    }

    /** The candidate is resolved, and its events leave it a way to stand on the date. */
    method GuardOthers(cand: Candidate, claim: nat) returns (stop: Option<WikidataOutcome>)
      modifies this`tasks
      ensures stop.Some? <==> OthersStop(facts, w, rulings, cand)
      ensures stop.None? ==> tasks == old(tasks)
      ensures stop.Some? ==>
        && AsksAPerson(stop.value)
        && AsksAbout(facts, w, rulings, old(tasks), tasks, Some(cand.event), claim, Predecessor(w.rows, cand.day).value,
                     stop.value)
    {
      var prev := Predecessor(w.rows, cand.day);
      if prev.None? || OthersOn(facts, w, cand) == {} { return None; }
      var guard := CollisionOutcomeIfBlocked(Some(cand.event), prev.value, claim);
      stop := if guard.Pass? then None else Some(Stopped(guard));
    }

    /** The recorded section of the version to mint, or why there is none. */
    method SettleSection(cand: Candidate, rationale: string) returns (stop: Option<WikidataOutcome>,
                         section: Composition)
      requires Ready() && CandidateSound(facts, cand) && !OthersStop(facts, w, rulings, cand)
      modifies this`w
      ensures Refreshed(old(w), w, cand.day)
      ensures SameRecordedDecisions(old(w).selections, w.selections, cand.day)
      ensures stop.Some? ==> (stop.value.FeaturedEventRequired? || stop.value.Raised?) && w == old(w)
      ensures stop.None? && !PriorReadable(old(w), cand.day) ==> w == old(w)
      ensures stop == Some(FeaturedEventRequired) <==> HeadlineOpen(facts, old(w), cand)
      ensures stop.None? <==> SectionSettles(facts, old(w), cand)
      ensures stop.None? ==>
        section.Section? && SectionCleared(facts, rulings, w.rows, cand, section.recorded, section.statements)
      ensures stop.None? ==>
        RecordedAs(facts, old(w), w.selections, cand, score, rationale, section)
    {
      if OthersOn(facts, w, cand) == {} {
        section := Arrange(cand, {}, [], None, cand.event);
        assert section.recorded == cand.ranked;
        AloneIsCleared(facts, rulings, w, cand, section.recorded, section.statements);
        return None, section;
      }
      stop, section := SettleShared(cand, rationale);
    }

    method SettleShared(cand: Candidate, rationale: string) returns (stop: Option<WikidataOutcome>,
                        section: Composition)
      requires Ready() && CandidateSound(facts, cand) && OthersOn(facts, w, cand) != {}
      requires GuardOpen(rulings, cand.event, OthersOn(facts, w, cand))
      modifies this`w
      ensures Refreshed(old(w), w, cand.day)
      ensures SameRecordedDecisions(old(w).selections, w.selections, cand.day)
      ensures stop.Some? ==> (stop.value.FeaturedEventRequired? || stop.value.Raised?) && w == old(w)
      ensures stop.None? && !PriorReadable(old(w), cand.day) ==> w == old(w)
      ensures stop == Some(FeaturedEventRequired) <==> HeadlineOpen(facts, old(w), cand)
      ensures stop.None? <==> SectionSettles(facts, old(w), cand)
      ensures stop.None? ==>
        section.Section? && SectionCleared(facts, rulings, w.rows, cand, section.recorded, section.statements)
      ensures stop.None? ==>
        RecordedAs(facts, old(w), w.selections, cand, score, rationale, section)
    {
      var others := OthersOn(facts, w, cand);
      section := ComposeShared(cand, Predecessor(w.rows, cand.day).value, others, rationale);
      if section.HeadlineRequired? { return Some(FeaturedEventRequired), section; }
      if section.Failed? { return Some(Raised), section; }
      SharedIsSettled(facts, rulings, old(w), w.selections, cand, score, rationale, section);
      stop := None;
    }

    /**
      publish_wikidata_event. The ghost results are what it asked the publication spine for, and of which state: it
      asks exactly when nothing it checks stands in the way, and otherwise leaves the archive as it was.
    */
    method PublishWikidataEvent(resolved: Option<Candidate>, claim: nat, day: Day, own: set<nat>, force: bool,
                                rationale: string)
        returns (outcome: WikidataOutcome, ghost asking: Asking, ghost before: World)
      requires Ready()
      requires resolved.Some? ==>
        CandidateSound(facts, resolved.value) && resolved.value.day == day && resolved.value.own == own
      modifies this
      ensures rulings == old(rulings)
      ensures Refreshed(old(w), before, day)
      ensures SameRecordedDecisions(old(w).selections, before.selections, day)
      ensures forall cand :: resolved == Some(cand) && GoesAhead(facts, old(w), rulings, resolved, day, own) ==>
        Asked(facts, old(w), rulings, before, cand, asking)
      ensures asking.score == score && asking.rationale == rationale && asking.force == force
      ensures if GoesAhead(facts, old(w), rulings, resolved, day, own)
        then before.files.Valid() && (w, outcome) == Submitted(before, asking.req)
        else w == before == old(w) && !outcome.Minted?
      ensures outcome.FeaturedEventRequired? <==> AwaitsHeadline(facts, old(w), rulings, resolved, day, own)
      ensures AsksAPerson(outcome) <==> MustAsk(facts, old(w), rulings, resolved, day, own)
      ensures forall asked :: asked == outcome && AsksAPerson(asked) ==>
        Asks(facts, old(w), rulings, old(tasks), tasks, resolved, claim, day, own, asked)
      ensures !AsksAPerson(outcome) ==> tasks == old(tasks)
    {
      var stop, section := Decide(resolved, claim, day, own, rationale);
      before := w;
      var request := Request(day, Bytes(""), ContextOnly, [], None, None, false);
      if stop.Some? { outcome := stop.value; } else { outcome, request := Ask(resolved.value, section, force); }
      asking := Asking(score, rationale, force, section, request);
    }

    /** Every check but the predecessor's artifact, and the section to publish when all of them pass. */
    method Decide(resolved: Option<Candidate>, claim: nat, day: Day, own: set<nat>, rationale: string)
        returns (stop: Option<WikidataOutcome>, section: Composition)
      requires Ready()
      requires resolved.Some? ==>
        CandidateSound(facts, resolved.value) && resolved.value.day == day && resolved.value.own == own
      modifies this
      ensures rulings == old(rulings) && Refreshed(old(w), w, day)
      ensures SameRecordedDecisions(old(w).selections, w.selections, day)
      ensures stop.None? <==> ChecksPass(facts, old(w), rulings, resolved, day, own)
      ensures stop.Some? ==> !stop.value.Minted? && w == old(w)
      ensures stop.None? && !PriorReadable(old(w), day) ==> w == old(w)
      ensures stop == Some(FeaturedEventRequired) <==>
        AwaitsHeadline(facts, old(w), rulings, resolved, day, own)
      ensures stop.Some? && AsksAPerson(stop.value) <==> MustAsk(facts, old(w), rulings, resolved, day, own)
      ensures forall outcome :: stop == Some(outcome) && AsksAPerson(outcome) ==>
        Asks(facts, old(w), rulings, old(tasks), tasks, resolved, claim, day, own, outcome)
      ensures !(stop.Some? && AsksAPerson(stop.value)) ==> tasks == old(tasks)
      ensures stop.None? ==>
        && section.Section?
        && SectionCleared(facts, rulings, w.rows, resolved.value, section.recorded, section.statements)
      ensures forall cand :: stop.None? && resolved == Some(cand) ==>
        RecordedAs(facts, old(w), w.selections, cand, score, rationale, section)
    {
      section := HeadlineRequired;
      stop := GuardDate(resolved, claim, day, own);
      if stop.Some? { return; }
      if resolved.None? || !HasOccurrence(facts, resolved.value) { return Some(Raised), section; }
      stop := GuardOthers(resolved.value, claim);
      if stop.Some? { return; }
      stop, section := SettleSection(resolved.value, rationale);
    }

    /** The successor of a predecessor that reads back goes to the publication spine. */
    method Ask(cand: Candidate, section: Composition, force: bool) returns (outcome: WikidataOutcome, request: Request)
      requires section.Section? && CandidateSound(facts, cand) && HasOccurrence(facts, cand) && w.files.Valid()
      requires SectionCleared(facts, rulings, w.rows, cand, section.recorded, section.statements)
      modifies this`w
      ensures if PriorReadable(old(w), cand.day)
        then (w, outcome) == Submitted(old(w), request)
        else w == old(w) && outcome == Raised
      ensures Requested(facts, old(w), rulings, cand, force, section, request)
    {
      request := Successor(w.rows, cand, section.recorded, section.statements, section.featured, force);
      SuccessorAsks(facts, rulings, w.rows, cand, Plan(section.recorded, section.statements), request);
      var prev := Predecessor(w.rows, cand.day);
      if prev.Some? && !Verifies(w.files, w.rows[prev.value]) { return Raised, request; }
      var (after, result) := Submitted(w, request);
      w, outcome := after, result;
    }

    /**
      resolve_merge_review: one person's answer about the collision becomes the current answer about every event
      behind it, citing the task that asked, and no other pair's; or nothing changes.
    */
    method ResolveMergeReview(event: Option<nat>, claim: nat, day: Day, own: set<nat>, times: map<nat, F.Span>,
                              decision: IdentityDecision, survivor: Option<nat>, reviewer: string, rationale: string)
        returns (ok: bool, task: nat)
      modifies this`rulings, this`tasks
      ensures ok <==>
        event.Some? && CollidingEvents(facts, w, day, own) != {}
        && WasAsked(facts, w, old(tasks), claim, CollidingEvents(facts, w, day, own))
                      && Accepts(times, event.value, CollidingEvents(facts, w, day, own),
                                 Identity.Answer(decision, survivor, reviewer, rationale, None))
      ensures !ok ==> rulings == old(rulings) && tasks == old(tasks)
      ensures ok ==>
        && task < |old(tasks)| && AskedAbout(facts, w, old(tasks)[task], claim, CollidingEvents(facts, w, day, own))
        && tasks == Closed(old(tasks), task)
        && AllAnswered(old(rulings), rulings, event.value, CollidingEvents(facts, w, day, own),
                       Identity.Answer(decision, survivor, reviewer, rationale, Some(task)))
    {
      ok, task := false, 0;
      var events := CollidingEvents(facts, w, day, own);
      if event.None? || events == {} { return; }
      var asked := TaskToAnswer(claim, events);
      if asked.None? { return; }
      task := asked.value;
      var before := rulings;
      var answer := Identity.Answer(decision, survivor, reviewer, rationale, Some(asked.value));
      TaskHasNoSay(times, event.value, events, Identity.Answer(decision, survivor, reviewer, rationale, None),
                   Some(task));
      var answered := AnswerAll(times, event.value, events, answer);
      if !answered {
        rulings := before;
        return;
      }
      if Active(tasks[task]) { tasks := tasks[task := tasks[task].(status := MergeReview.Resolved)]; }
      ok := true;
    }

    /** The task that asked: an active one when there is one, else the last one answered. */
    method TaskToAnswer(claim: nat, events: set<nat>) returns (task: Option<nat>)
      ensures task.Some? <==> WasAsked(facts, w, tasks, claim, events)
      ensures task.Some? ==> task.value < |tasks| && AskedAbout(facts, w, tasks[task.value], claim, events)
      ensures task.Some? && !Active(tasks[task.value]) ==>
        forall k :: 0 <= k < |tasks| && AskedAbout(facts, w, tasks[k], claim, events) ==>
          !Active(tasks[k]) && k <= task.value
    {
      task := None;
      for k := 0 to |tasks|
        invariant task.Some? ==> task.value < k && AskedAbout(facts, w, tasks[task.value], claim, events)
        invariant forall j :: 0 <= j < k && AskedAbout(facts, w, tasks[j], claim, events) ==>
          task.Some? && j <= task.value && !Active(tasks[j])
      {
        if AskedAbout(facts, w, tasks[k], claim, events) {
          task := Some(k);
          if Active(tasks[k]) { return; }
        }
      }
    }

    method AnswerAll(times: map<nat, F.Span>, event: nat, events: set<nat>, answer: Identity.Answer) returns (ok: bool)
      modifies this`rulings
      ensures ok <==> Accepts(times, event, events, answer)
      ensures ok ==> AllAnswered(old(rulings), rulings, event, events, answer)
    {
      ghost var first := rulings;
      var left := events;
      assert events - left == {};
      while left != {}
        invariant left <= events
        invariant Accepts(times, event, events - left, answer)
        invariant AllAnswered(first, rulings, event, events - left, answer)
        decreases left
      {
        var o :| o in left;
        ghost var was := rulings;
        var answered := AnswerOne(times, event, o, answer);
        if !answered {
          assert !Accepted(times, event, o, answer);
          return false;
        }
        OneMoreAnswered(first, was, rulings, event, events - left, o, answer);
        assert events - (left - {o}) == (events - left) + {o};
        left := left - {o};
      }
      assert events - left == events;
      ok := true;
    }

    method AnswerOne(times: map<nat, F.Span>, event: nat, o: nat, answer: Identity.Answer) returns (ok: bool)
      modifies this`rulings
      ensures ok <==> Accepted(times, event, o, answer)
      ensures ok ==> Answered(old(rulings), rulings, event, o, answer) && AnsweredOne(rulings, event, o, answer)
    {
      ghost var was := rulings;
      var log := new AdjudicationLog(rulings);
      var recording := log.RecordIdentityAdjudication(times, event, o, answer);
      if recording.RefusedBecause? { return false; }
      AnswerGoverns(was, times, event, o, answer);
      rulings := log.rows;
      ok := true;
    }

    ghost predicate Ready()
      reads this
    {
      w.gov == facts.gov && w.files.Valid() && forall i :: 0 <= i < |w.rows| ==> RowFits(w.rows[i])
    }
  }

  // ---- What the publisher checks ---------------------------------------------------------

  /** The events a manifest publishes besides the candidate's own. */
  function Others(facts: Facts, w: World, event: nat, manifest: nat): set<nat>
    requires manifest < |w.rows|
  {
    EventsBehind(facts.gov, w.rows[manifest].evidence) - {event}
  }

  /** The events of the date's newest published manifest, besides the candidate's. */
  function OthersOn(facts: Facts, w: World, cand: Candidate): set<nat> {
    AdmittedEvents(facts.gov, w.rows, cand.day) - {cand.event}
  }

  /** published_recorded_event_on: what the coverage index, stale or not, says is published. */
  function PublishedRecordedEventOn(w: World, day: Day): (manifest: Option<nat>)
    ensures manifest.Some? ==> manifest.value < |w.rows|
  {
    if day in w.index && w.index[day].hasRecordedEvent
    && w.index[day].manifest < |w.rows| then Some(w.index[day].manifest) else None
  }

  /** _manifest_is_wikidata_event. */
  predicate IsOwnManifest(w: World, manifest: nat, own: set<nat>)
    requires manifest < |w.rows|
  {
    exists i :: 0 <= i < |w.rows[manifest].evidence| && OwnRoot(w.rows[manifest].evidence[i].root, own)
  }

  /** The events of the manifest the date's index row names; none when there is none, or it is the candidate's own. */
  function CollidingEvents(facts: Facts, w: World, day: Day, own: set<nat>): set<nat> {
    var at := PublishedRecordedEventOn(w, day);
    if at.None? || IsOwnManifest(w, at.value, own) then {} else EventsBehind(facts.gov, w.rows[at.value].evidence)
  }

  /** The date publishes another recorded event, and this candidate has no leave to stand beside it. */
  ghost predicate CollisionStops(facts: Facts, w: World, rulings: seq<Adjudication>, resolved: Option<Candidate>,
                                 day: Day, own: set<nat>) {
    var collision := PublishedRecordedEventOn(w, day);
    && collision.Some? && !IsOwnManifest(w, collision.value, own)
    && !(resolved.Some? && GuardOpen(rulings, resolved.value.event,
                                     Others(facts, w, resolved.value.event, collision.value)))
  }

  /** The manifest the index row names has a statement at one of these roots. */
  predicate Shares(w: World, day: Day, own: set<nat>) {
    day in w.index && w.index[day].manifest < |w.rows|
    && exists r, item :: r in own && item in w.rows[w.index[day].manifest].evidence && item.root == Basics.Resolved(r)
  }

  /**
    The guard stops a candidate exactly where the index, right or wrong, says a recorded event is published by a
    manifest that shares no root with it, unless it is resolved and every other event there is ruled distinct from it.
  */
  lemma CollisionStopsExactly(facts: Facts, w: World, rulings: seq<Adjudication>, resolved: Option<Candidate>, day: Day,
                              own: set<nat>)
    ensures CollisionStops(facts, w, rulings, resolved, day, own) <==>
      && day in w.index && w.index[day].hasRecordedEvent && w.index[day].manifest < |w.rows|
      && !Shares(w, day, own)
      && !(resolved.Some? && (var events := EventsBehind(facts.gov, w.rows[w.index[day].manifest].evidence);
                              events - {resolved.value.event} != {}
                              && forall o :: o in events && o != resolved.value.event ==>
                                   AdjudicatedDistinct(rulings, resolved.value.event, o)))
    ensures CollidingEvents(facts, w, day, own) ==
      if day in w.index && w.index[day].hasRecordedEvent && w.index[day].manifest < |w.rows| && !Shares(w, day, own)
      then EventsBehind(facts.gov, w.rows[w.index[day].manifest].evidence) else {}
  {
    if day in w.index && w.index[day].manifest < |w.rows| {
      var manifest := w.index[day].manifest;
      SharesIsOwn(w, day, manifest, own);
      if resolved.Some? {
        assert Others(facts, w, resolved.value.event, manifest) ==
          EventsBehind(facts.gov, w.rows[manifest].evidence) - {resolved.value.event};
      }
    }
  }

  lemma SharesIsOwn(w: World, day: Day, manifest: nat, own: set<nat>)
    requires day in w.index && w.index[day].manifest == manifest < |w.rows|
    ensures Shares(w, day, own) <==> IsOwnManifest(w, manifest, own)
  {
    var evidence := w.rows[manifest].evidence;
    if i :| 0 <= i < |evidence| && OwnRoot(evidence[i].root, own) {
      assert evidence[i].root.id in own && evidence[i] in evidence;
      assert evidence[i].root == Basics.Resolved(evidence[i].root.id);
    }
    if r, item :| r in own && item in evidence && item.root == Basics.Resolved(r) {
      var i :| 0 <= i < |evidence| && evidence[i] == item;
      assert OwnRoot(evidence[i].root, own);
    }
  }

  /** Decisions recorded on a date: its index row, if it is served, is derived again, and nothing else changes. */
  predicate Refreshed(w: World, w': World, day: Day) {
    && w' == w.(selections := w'.selections, index := w'.index)
    && var served := Newest(w.rows, day, Published, Some(w.profiles));
       w'.index == if w'.selections == w.selections || served.None? then w.index
                   else w.index[day := Derive(w.gov, w'.selections, served.value, w.rows[served.value])]
  }

  function EventOf(resolved: Option<Candidate>): Option<nat> {
    if resolved.Some? then Some(resolved.value.event) else None
  }

  /**
    What a person is shown: the current ruling that stands against one of the manifest's other events, or, when none
    does, the task that asks about them.
  */
  ghost predicate AsksAbout(facts: Facts, w: World, rulings: seq<Adjudication>, tasks: seq<MergeTask>,
                            tasks': seq<MergeTask>, event: Option<nat>, claim: nat, manifest: nat,
                            outcome: WikidataOutcome)
  {
    && manifest < |w.rows|
    && match outcome
       case BlockedByAdjudication(decision) =>
         && tasks' == tasks && event.Some? && !Permits(Some(decision))
         && exists o :: o in Others(facts, w, event.value, manifest)
                     && LatestAdjudication(rulings, event.value, o) == Some(decision)
       case DeferredToMergeReview(task) =>
         && (event.Some? ==>
              forall o :: o in Others(facts, w, event.value, manifest) ==>
                LatestAdjudication(rulings, event.value, o).None? || AdjudicatedDistinct(rulings, event.value, o))
         && (tasks', task) == EnsureTask(facts.gov, w.rows, tasks, claim, manifest,
                                         EventsBehind(facts.gov, w.rows[manifest].evidence))
       case _ => false
  }

  /** About the manifest the index names, when that one stops the candidate, and else about the newest published. */
  ghost predicate Asks(facts: Facts, w: World, rulings: seq<Adjudication>, tasks: seq<MergeTask>,
                       tasks': seq<MergeTask>, resolved: Option<Candidate>, claim: nat, day: Day, own: set<nat>,
                       outcome: WikidataOutcome)
  {
    if CollisionStops(facts, w, rulings, resolved, day, own) then
      AsksAbout(facts, w, rulings, tasks, tasks', EventOf(resolved), claim, w.index[day].manifest, outcome)
    else
      && Predecessor(w.rows, day).Some?
      && AsksAbout(facts, w, rulings, tasks, tasks', EventOf(resolved), claim, Predecessor(w.rows, day).value, outcome)
  }

  /** The date's newest manifest has another event, and the leave to stand beside it was taken back. */
  ghost predicate OthersStop(facts: Facts, w: World, rulings: seq<Adjudication>, cand: Candidate) {
    OthersOn(facts, w, cand) != {} && !GuardOpen(rulings, cand.event, OthersOn(facts, w, cand))
  }

  /** A section can be composed: alone, or with something left of every other event and a headline among them. */
  ghost predicate SectionSettles(facts: Facts, w: World, cand: Candidate)
    requires cand.event in facts.identityRoot
  {
    var others := OthersOn(facts, w, cand);
    others != {} ==> Carries(facts, w, cand, others) && HeadlineSettles(facts, w.selections, cand, others)
  }

  /** A person has to answer first. */
  ghost predicate MustAsk(facts: Facts, w: World, rulings: seq<Adjudication>, resolved: Option<Candidate>, day: Day,
                          own: set<nat>) {
    || CollisionStops(facts, w, rulings, resolved, day, own)
    || (resolved.Some? && HasOccurrence(facts, resolved.value) && OthersStop(facts, w, rulings, resolved.value))
  }

  /** Nothing the publisher checks stands in the way of asking for a version. */
  ghost predicate GoesAhead(facts: Facts, w: World, rulings: seq<Adjudication>, resolved: Option<Candidate>, day: Day,
                            own: set<nat>)
    requires resolved.Some? ==> resolved.value.event in facts.identityRoot
  {
    ChecksPass(facts, w, rulings, resolved, day, own) && PriorReadable(w, resolved.value.day)
  }

  ghost predicate ChecksPass(facts: Facts, w: World, rulings: seq<Adjudication>, resolved: Option<Candidate>, day: Day,
                             own: set<nat>)
    requires resolved.Some? ==> resolved.value.event in facts.identityRoot
  {
    && !MustAsk(facts, w, rulings, resolved, day, own)
    && resolved.Some? && HasOccurrence(facts, resolved.value) && SectionSettles(facts, w, resolved.value)
  }

  /**
    Beside other events, on a predecessor that reads back: one of them has nothing left, or several candidates leave no
    headline to settle on.
  */
  ghost predicate HeadlineOpen(facts: Facts, w: World, cand: Candidate)
    requires cand.event in facts.identityRoot
  {
    var others := OthersOn(facts, w, cand);
    && others != {} && PriorReadable(w, cand.day)
    && !(AllAnchored(facts, Surviving(w, cand), others)
         && (|BallotRoots(facts, cand, others)| < 2 || HeadlineSettles(facts, w.selections, cand, others)))
  }

  /** No person has to answer about the collision, but one has to about the headline. */
  ghost predicate AwaitsHeadline(facts: Facts, w: World, rulings: seq<Adjudication>, resolved: Option<Candidate>,
                                 day: Day, own: set<nat>)
    requires resolved.Some? ==> resolved.value.event in facts.identityRoot
  {
    && !MustAsk(facts, w, rulings, resolved, day, own)
    && resolved.Some? && HasOccurrence(facts, resolved.value) && HeadlineOpen(facts, w, resolved.value)
  }

  predicate PriorReadable(w: World, day: Day) {
    var prev := Predecessor(w.rows, day);
    prev.Some? ==> Verifies(w.files, w.rows[prev.value])
  }

  /**
    The recorded section: the candidate's statements and what survives beside them, the headline's side first, each
    stamped with its event; `event` is the one that leads.
  */
  ghost predicate RecordedAs(facts: Facts, w: World, selections: seq<Ed.Selection>, cand: Candidate, score: F.Score,
                             rationale: string, section: Composition)
  {
    && section.Section? && StampsOnly(section.recorded, section.statements)
    && StampedFor(facts, cand, OthersOn(facts, w, cand), section)
    && if OthersOn(facts, w, cand) == {} then AloneAs(cand, section)
       else SharedAs(facts, w, selections, cand, score, rationale, section)
  }

  /** Only the candidate's event: its own statements, under no headline decision. */
  predicate AloneAs(cand: Candidate, section: Composition)
    requires section.Section?
  {
    section == Section(cand.ranked, section.statements, None, cand.event)
  }

  /** Beside other events: the survivors too, the side of the headline that an evaluation just settled leading. */
  ghost predicate SharedAs(facts: Facts, w: World, selections: seq<Ed.Selection>, cand: Candidate, score: F.Score,
                           rationale: string, section: Composition)
    requires section.Section?
  {
    && section.featured.Some?
    && section.recorded == HeadlineFirst(cand.ranked, Surviving(w, cand), section.event == cand.event)
    && SettledBy(facts, score, rationale, w.selections, selections, cand, OthersOn(facts, w, cand),
                 section.featured.value, section.event)
  }

  /** How a publication is asked for: by which score, why, whether forced; the recorded section, and the request. */
  datatype Asking = Asking(score: F.Score, rationale: string, force: bool, section: Composition, req: Request)

  /** What the publisher asks for, having read w and then recorded its headline. */
  ghost predicate Asked(facts: Facts, w: World, rulings: seq<Adjudication>, before: World, cand: Candidate,
                        asking: Asking) {
    && RecordedAs(facts, w, before.selections, cand, asking.score, asking.rationale, asking.section)
    && Requested(facts, w, rulings, cand, asking.force, asking.section, asking.req)
    && before.files.Valid()
  }

  /** The section put into the successor of the newest published manifest. */
  ghost predicate Requested(facts: Facts, w: World, rulings: seq<Adjudication>, cand: Candidate, force: bool,
                            section: Composition, req: Request)
  {
    && section.Section?
    && WikidataAsks(facts, rulings, w.rows, cand, Plan(section.recorded, section.statements), req)
    && req.featured == section.featured
    && (req.force <==> force || HeadlineMoved(w, cand.day, section.featured))
  }

  /** The date's newest published manifest is bound to another headline decision. */
  ghost predicate HeadlineMoved(w: World, day: Day, featured: Option<Binding>) {
    featured.Some?
    && exists i :: 0 <= i < |w.rows| && Predecessor(w.rows, day) == Some(i) && w.rows[i].featured != featured
  }

  /** The statements as stamped for the listed events, the candidate's and the others, the leading one featured. */
  ghost predicate StampedFor(facts: Facts, cand: Candidate, others: set<nat>, section: Composition)
    requires section.Section?
  {
    exists ids, order :: StampedBy(facts, cand, others, section, ids, order)
  }

  ghost predicate StampedBy(facts: Facts, cand: Candidate, others: set<nat>, section: Composition, ids: seq<nat>,
                            order: map<nat, nat>)
    requires section.Section?
  {
    && (forall e :: e in ids <==> e == cand.event || e in others)
    && (forall i, j :: 0 <= i < j < |ids| ==> ids[i] != ids[j])
    && E.Ordering(order, section.event, ids)
    && E.StampedAs(section.statements, Statements(section.recorded), facts.lineage,
                   E.Owners(facts.lineage, ids, Renumbered(section.recorded)), section.event, order)
  }

  /** The evaluation that settled the headline: its decision is the binding, its winner the leading event's root. */
  ghost predicate SettledBy(facts: Facts, score: F.Score, rationale: string, selections: seq<Ed.Selection>,
                            selections': seq<Ed.Selection>, cand: Candidate, others: set<nat>, binding: Binding,
                            event: nat)
  {
    && cand.event in facts.identityRoot
    && (event == cand.event || event in others) && event in facts.identityRoot
    && (facts.identityRoot[event] == facts.identityRoot[cand.event] ==> event == cand.event)
    && exists e :: Settles(facts, score, rationale, selections, selections', cand, others, e) && e.Evaluated?
                && e.winner == facts.identityRoot[event] && binding == Binding(e.selection, e.version)
  }

  ghost predicate Settles(facts: Facts, score: F.Score, rationale: string, selections: seq<Ed.Selection>,
                          selections': seq<Ed.Selection>, cand: Candidate, others: set<nat>, e: F.Evaluation)
    requires cand.event in facts.identityRoot
  {
    F.Evaluates(selections, selections', facts.catalog, score, cand.day, BallotRoots(facts, cand, others), rationale, e)
  }

  function Submitted(before: World, req: Request): (World, WikidataOutcome)
    requires before.files.Valid()
  {
    var (after, result) := Publish(before, req);
    (after, if result.Returned? then Minted(result.id) else Raised)
  }

  /** The candidate's own roots. */
  function OwnRoots(cand: Candidate): set<nat> {
    set i | 0 <= i < |cand.ranked| :: cand.ranked[i].root
  }

  /** What of the predecessor's recorded section goes into the successor. */
  function Surviving(w: World, cand: Candidate): seq<Enrichment.Recorded> {
    var prev := Predecessor(w.rows, cand.day);
    if prev.None? then []
    else Survivors(SectionOf(w.rows[prev.value].hash.preimage, RecordedOnThisDate), w.rows[prev.value].evidence,
                   SelectedRoots(w.selections, cand.day), OwnRoots(cand))
  }

  /** The headline's side first. */
  function HeadlineFirst(own: seq<Enrichment.Recorded>, surviving: seq<Enrichment.Recorded>,
                         leads: bool): seq<Enrichment.Recorded> {
    if leads then own + surviving else surviving + own
  }

  /** The identity roots of the candidate and of every other admitted event. */
  function BallotRoots(facts: Facts, cand: Candidate, others: set<nat>): set<nat>
    requires cand.event in facts.identityRoot
  {
    {facts.identityRoot[cand.event]} + set o | o in others && o in facts.identityRoot :: facts.identityRoot[o]
  }

  /** evaluate_featured_event names a winner: a valid ballot of two or more that no person's choice is missing from. */
  ghost predicate HeadlineSettles(facts: Facts, selections: seq<Ed.Selection>, cand: Candidate, others: set<nat>)
    requires cand.event in facts.identityRoot
  {
    var ballot := BallotRoots(facts, cand, others);
    && |ballot| >= 2 && F.BallotOk(facts.catalog, cand.day, ballot) && ballot <= facts.catalog.keys.Keys
    && !F.HumanOffBallot(selections, cand.day, ballot)
  }

  /** The predecessor reads back, and something of each other event survives. */
  ghost predicate Carries(facts: Facts, w: World, cand: Candidate, others: set<nat>) {
    && (var prev := Predecessor(w.rows, cand.day); prev.Some? && Verifies(w.files, w.rows[prev.value]))
    && AllAnchored(facts, Surviving(w, cand), others)
  }

  /** Whether a root's current decision puts it in the recorded section. */
  predicate StillSelected(selections: seq<Ed.Selection>, day: Day, root: nat) {
    var latest := Ed.Latest(selections, day, RecordedOnThisDate, Basics.Resolved(root));
    latest.Some? && latest.value.status.Selected?
  }

  ghost predicate SameRecordedDecisions(selections: seq<Ed.Selection>, selections': seq<Ed.Selection>, day: Day) {
    forall root :: Ed.Latest(selections', day, RecordedOnThisDate, root) ==
        Ed.Latest(selections, day, RecordedOnThisDate, root)
  }

  /** Choosing a headline decides nothing about the recorded section. */
  lemma EvaluationSpares(rows: seq<Ed.Selection>, rows': seq<Ed.Selection>, catalog: F.Catalog, score: F.Score,
                         day: Day,
                         ballot: set<nat>, rationale: string, e: F.Evaluation)
    requires F.Evaluates(rows, rows', catalog, score, day, ballot, rationale, e)
    ensures SameRecordedDecisions(rows, rows', day)
  {
  }

  lemma SelectedRootsAre(selections: seq<Ed.Selection>, day: Day, root: nat)
    ensures root in SelectedRoots(selections, day) <==> StillSelected(selections, day, root)
  {
    if StillSelected(selections, day, root) {
      var i := Ed.LatestIndex(selections, day, RecordedOnThisDate, Basics.Resolved(root)).value;
      assert selections[i].root.Resolved? && selections[i].root.id == root;
    }
  }

  /** A task, of any status, that asked this claim about exactly these events. */
  predicate WasAsked(facts: Facts, w: World, tasks: seq<MergeTask>, claim: nat, events: set<nat>) {
    exists k :: 0 <= k < |tasks| && AskedAbout(facts, w, tasks[k], claim, events)
  }

  predicate AskedAbout(facts: Facts, w: World, task: MergeTask, claim: nat, events: set<nat>) {
    task.claim == claim && Concerns(facts.gov, w.rows, task, events)
  }

  /** Asked means by a task of this very claim, whose subject manifest has these events and no others. */
  lemma AskedMeans(facts: Facts, w: World, tasks: seq<MergeTask>, claim: nat, events: set<nat>)
    ensures WasAsked(facts, w, tasks, claim, events) <==>
      exists task, i: nat :: task in tasks && task.claim == claim && task.context == Some(i) && i < |w.rows|
                          && EventsBehind(facts.gov, w.rows[i].evidence) == events
  {
    if k :| 0 <= k < |tasks| && AskedAbout(facts, w, tasks[k], claim, events) {
      assert tasks[k] in tasks && tasks[k].context == Some(tasks[k].context.value);
    }
    if task, i: nat :| task in tasks && task.claim == claim && task.context == Some(i) && i < |w.rows|
                       && EventsBehind(facts.gov, w.rows[i].evidence) == events {
      var k :| 0 <= k < |tasks| && tasks[k] == task;
      assert AskedAbout(facts, w, tasks[k], claim, events);
    }
  }

  /** No pair's answer would be refused. */
  predicate Accepts(times: map<nat, F.Span>, event: nat, events: set<nat>, answer: Identity.Answer) {
    forall o :: o in events ==> Accepted(times, event, o, answer)
  }

  predicate Accepted(times: map<nat, F.Span>, event: nat, o: nat, answer: Identity.Answer) {
    Refuses(times, event, o, answer).None?
  }

  /** Which task asked has no say in whether an answer is refused. */
  lemma TaskHasNoSay(times: map<nat, F.Span>, event: nat, events: set<nat>, answer: Identity.Answer, task: Option<nat>)
    ensures Accepts(times, event, events, answer) <==> Accepts(times, event, events, answer.(task := task))
  {
    forall o | o in events
      ensures Accepted(times, event, o, answer) <==> Accepted(times, event, o, answer.(task := task))
    {
    }
  }

  /** An active task is resolved by its answer; one answered before stays as it is. */
  function Closed(tasks: seq<MergeTask>, task: nat): seq<MergeTask>
    requires task < |tasks|
  {
    if Active(tasks[task]) then tasks[task := tasks[task].(status := MergeReview.Resolved)] else tasks
  }

  /** This answer is the current row about the pair. */
  predicate SaysNow(rulings: seq<Adjudication>, event: nat, o: nat, answer: Identity.Answer) {
    var latest := LatestFor(rulings, event, o);
    latest.Some? && Says(rulings[latest.value], answer)
  }

  /** Each of these pairs now has this answer, every other pair the row it had, and history only grew. */
  ghost predicate AllAnswered(rows: seq<Adjudication>, rows': seq<Adjudication>, event: nat, events: set<nat>,
                              answer: Identity.Answer) {
    && rows <= rows'
    && (forall o :: o in events ==> AnsweredOne(rows', event, o, answer))
    && (forall x: nat, y: nat :: Unasked(event, events, x, y) ==> SameRow(rows, rows', x, y))
  }

  predicate SameRow(rows: seq<Adjudication>, rows': seq<Adjudication>, x: nat, y: nat) {
    LatestFor(rows', x, y) == LatestFor(rows, x, y)
  }

  predicate AnsweredOne(rows: seq<Adjudication>, event: nat, o: nat, answer: Identity.Answer) {
    o != event && SaysNow(rows, event, o, answer) && (AdjudicatedDistinct(rows, event, o) <==>
         answer.decision.DistinctEvent?)
  }

  ghost predicate Unasked(event: nat, events: set<nat>, x: nat, y: nat) {
    forall o :: o in events ==> Canonical(x, y) != Canonical(event, o)
  }

  datatype Composition =
    | Section(recorded: seq<Enrichment.Recorded>, statements: seq<Statement>, featured: Option<Binding>, event: nat)
    | HeadlineRequired
    | Failed

  datatype WikidataOutcome =
    | Minted(id: nat)
    | BlockedByAdjudication(decision: Adjudication)
    | DeferredToMergeReview(task: nat)
    | FeaturedEventRequired
    | Raised

  predicate AsksAPerson(outcome: WikidataOutcome) {
    outcome.BlockedByAdjudication? || outcome.DeferredToMergeReview?
  }

  function Stopped(guard: Guard): WikidataOutcome
    requires !guard.Pass?
  {
    if guard.Blocked? then BlockedByAdjudication(guard.decision) else DeferredToMergeReview(guard.task)
  }

  /** The successor: the predecessor's other sections and their evidence, with the recorded section rebuilt. */
  function Successor(rows: seq<Manifest>, cand: Candidate, recorded: seq<Enrichment.Recorded>,
                     statements: seq<Statement>,
                    featured: Option<Binding>, force: bool): Request
  {
    var payload := Profile(cand.day, PriorSections(rows, cand.day)[RecordedOnThisDate := statements]);
    Request(cand.day, payload, DeriveTier(payload), Carried(PriorEvidence(rows, cand.day)) + Renumbered(recorded),
            featured, Predecessor(rows, cand.day), force || BindingMoved(rows, cand.day, featured))
  }

  /**
    The headline decision is not the one the predecessor was bound to: a new version, though nothing rendered
    changed.
  */
  predicate BindingMoved(rows: seq<Manifest>, day: Day, featured: Option<Binding>) {
    var prev := Predecessor(rows, day);
    featured.Some? && prev.Some? && rows[prev.value].featured != featured
  }

  ghost predicate SectionCleared(facts: Facts, rulings: seq<Adjudication>, rows: seq<Manifest>, cand: Candidate,
                          recorded: seq<Enrichment.Recorded>, statements: seq<Statement>)
  {
    && Composed(rows, cand, recorded) && StampsOnly(recorded, statements)
    && Cleared(facts, rulings, cand, AdmittedEvents(facts.gov, rows, cand.day) - {cand.event}, recorded)
  }

  lemma SuccessorAsks(facts: Facts, rulings: seq<Adjudication>, rows: seq<Manifest>, cand: Candidate, plan: Plan,
                      req: Request)
    requires CandidateSound(facts, cand) && HasOccurrence(facts, cand)
    requires SectionCleared(facts, rulings, rows, cand, plan.recorded, plan.statements)
    requires req == Successor(rows, cand, plan.recorded, plan.statements, req.featured, req.force)
    ensures WikidataAsks(facts, rulings, rows, cand, plan, req)
  {
    forall i | 0 <= i < |plan.recorded| ensures plan.statements[i].root == Basics.Resolved(plan.recorded[i].root) {
      var x := plan.recorded[i];
      assert x in plan.recorded;
      if x in cand.ranked {
        var j :| 0 <= j < |cand.ranked| && cand.ranked[j] == x;
      } else {
        assert FromPrior(rows, cand.day, x);
      }
    }
  }

  /** A date with no other event: nothing survives from elsewhere, and nothing has to. */
  lemma AloneIsCleared(facts: Facts, rulings: seq<Adjudication>, w: World, cand: Candidate,
                       recorded: seq<Enrichment.Recorded>, statements: seq<Statement>)
    requires OthersOn(facts, w, cand) == {} && recorded == cand.ranked && StampsOnly(recorded, statements)
    ensures SectionCleared(facts, rulings, w.rows, cand, recorded, statements)
  {
  }

  lemma OneMoreAnswered(rows: seq<Adjudication>, was: seq<Adjudication>, now: seq<Adjudication>, event: nat,
                        done: set<nat>,
                        o: nat, answer: Identity.Answer)
    requires AllAnswered(rows, was, event, done, answer) && Answered(was, now, event, o, answer) && o !in done
    requires AnsweredOne(now, event, o, answer)
    ensures AllAnswered(rows, now, event, done + {o}, answer)
  {
    forall x | x in done ensures AnsweredOne(now, event, x, answer) {
      assert AnsweredOne(was, event, x, answer);
      assert Canonical(event, x) != Canonical(event, o);
      assert LatestFor(now, event, x) == LatestFor(was, event, x);
    }
    forall x: nat, y: nat | Unasked(event, done + {o}, x, y) ensures SameRow(rows, now, x, y) {
      assert o in done + {o};
      assert forall d :: d in done ==> d in done + {o};
      assert Unasked(event, done, x, y) && SameRow(rows, was, x, y);
    }
  }

  datatype Choice = Chosen(featured: nat, binding: Binding) | Required | NoBallot

  /** Stamping changes nothing a statement rests on. */
  predicate StampsOnly(recorded: seq<Enrichment.Recorded>, statements: seq<Statement>) {
    && |statements| == |recorded|
    && forall i :: 0 <= i < |recorded| ==> statements[i] == recorded[i].statement.(stamp := statements[i].stamp)
  }

  /** The roots whose current recorded-section decision selects them. */
  function SelectedRoots(selections: seq<Ed.Selection>, day: Day): set<nat> {
    set i: nat
      | i < |selections| && selections[i].root.Resolved? && StillSelected(selections, day, selections[i].root.id)
      :: selections[i].root.id
  }

  method Listed(first: nat, others: set<nat>) returns (ids: seq<nat>)
    requires first !in others
    ensures forall e :: e in ids <==> e == first || e in others
    ensures forall i, j :: 0 <= i < j < |ids| ==> ids[i] != ids[j]
  {
    ids := [first];
    var left := others;
    while left != {}
      invariant left <= others
      invariant forall e :: e in ids <==> e == first || e in others - left
      invariant forall i, j :: 0 <= i < j < |ids| ==> ids[i] != ids[j]
      decreases left
    {
      var o :| o in left;
      ids, left := ids + [o], left - {o};
    }
  }

  /** What survives comes from the predecessor's recorded section, at the roots its evidence names. */
  lemma SurvivorsCompose(rows: seq<Manifest>, day: Day, prev: nat, prior: seq<Statement>, selected: set<nat>,
                         exclude: set<nat>,
                         surviving: seq<Enrichment.Recorded>)
    requires Predecessor(rows, day) == Some(prev) && RowFits(rows[prev])
    requires prior == SectionOf(rows[prev].hash.preimage, RecordedOnThisDate)
    requires surviving == Survivors(prior, rows[prev].evidence, selected, exclude)
    ensures forall x :: x in surviving ==> FromPrior(rows, day, x)
  {
    forall x | x in surviving ensures FromPrior(rows, day, x) {
      SurvivorsAre(prior, rows[prev].evidence, selected, exclude, x);
      var i :| 0 <= i < |prior| && Survives(rows[prev].evidence, selected, exclude, i)
            && x == Enrichment.Recorded(prior[i], RecordedRow(rows[prev].evidence, i).value.root.id);
      var row := RecordedRow(rows[prev].evidence, i).value;
      var k :| 0 <= k < |rows[prev].evidence| && rows[prev].evidence[k] == row;
      assert IsStatement(rows[prev].hash.preimage.sections, row.section, row.index);
      assert PriorEvidence(rows, day)[k] == row;
    }
  }

  predicate AllAnchored(facts: Facts, recorded: seq<Enrichment.Recorded>, others: set<nat>) {
    forall o :: o in others ==> Anchored(facts, recorded, o)
  }

  /** What was composed beside other events is what the publisher asks to have published. */
  lemma SharedIsSettled(facts: Facts, rulings: seq<Adjudication>, w: World, selections: seq<Ed.Selection>,
                        cand: Candidate, score: F.Score, rationale: string, section: Composition)
    requires section.Section? && Composed(w.rows, cand, section.recorded)
    requires StampsOnly(section.recorded, section.statements)
    requires AllAnchored(facts, section.recorded, OthersOn(facts, w, cand))
    requires StampedFor(facts, cand, OthersOn(facts, w, cand), section)
    requires SharedAs(facts, w, selections, cand, score, rationale, section)
    requires OthersOn(facts, w, cand) != {} && GuardOpen(rulings, cand.event, OthersOn(facts, w, cand))
    ensures SectionCleared(facts, rulings, w.rows, cand, section.recorded, section.statements)
    ensures RecordedAs(facts, w, selections, cand, score, rationale, section)
  {
  }

  /** The survivors and the candidate's statements, in either order, compose the section and keep every event. */
  lemma SharedIsComposed(facts: Facts, rows: seq<Manifest>, cand: Candidate, others: set<nat>,
                         surviving: seq<Enrichment.Recorded>, leads: bool)
    requires forall x :: x in surviving ==> FromPrior(rows, cand.day, x)
    requires AllAnchored(facts, surviving, others)
    ensures Composed(rows, cand, HeadlineFirst(cand.ranked, surviving, leads))
    ensures AllAnchored(facts, HeadlineFirst(cand.ranked, surviving, leads), others)
  {
    var recorded := HeadlineFirst(cand.ranked, surviving, leads);
    forall o | o in others ensures Anchored(facts, recorded, o) {
      assert Anchored(facts, surviving, o);
      AnchoredAmong(facts, surviving, recorded, o, if leads then |cand.ranked| else 0);
    }
  }

  lemma AnchoredAmong(facts: Facts, surviving: seq<Enrichment.Recorded>, recorded: seq<Enrichment.Recorded>,
                      event: nat, at: nat)
    requires Anchored(facts, surviving, event)
    requires at + |surviving| <= |recorded| && recorded[at..at + |surviving|] == surviving
    ensures Anchored(facts, recorded, event)
  {
    var i :| 0 <= i < |surviving| && surviving[i].root in facts.anchors && event in facts.anchors[surviving[i].root];
    assert recorded[at..at + |surviving|][i] == recorded[at + i];
  }

  predicate OwnRoot(root: Root, own: set<nat>) {
    root.Resolved? && root.id in own
  }
}
