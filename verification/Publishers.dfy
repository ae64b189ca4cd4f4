/** The golden and the annual-context publisher, each with the guard that keeps it from dropping events. */
module Publishers {
  import opened Basics
  import opened Rows
  import opened Publication
  import opened Protocol
  import opened CoverageSteps
  import opened Admission
  import opened Retention
  import opened RetentionRuns

  class DatePublishers {
    const facts: Facts
    var w: World

    constructor (facts: Facts, w: World)
      ensures this.facts == facts && this.w == w
    {
      this.facts, this.w := facts, w;
    }

    /** publish_golden_profile, from the multi-event guard on: None when it raises. */
    method PublishGoldenProfile(golden: nat, content: Request) returns (outcome: Option<Outcome>, ghost req: Request)
      requires w.gov == facts.gov && w.files.Valid()
      requires RequestFits(content) && EventsBehind(facts.gov, content.evidence) == {golden}
      modifies this
      ensures req == content.(supersedes := Predecessor(old(w).rows, content.day))
      ensures outcome.Some? <==> GoldenAsks(facts, old(w).rows, golden, req)
      ensures if outcome.Some? then (w, outcome.value) == Publish(old(w), req) else w == old(w)
    {
      var prev := Predecessor(w.rows, content.day);
      var asked := content.(supersedes := prev);
      req := asked;
      if prev.Some? && EventsBehind(w.gov, w.rows[prev.value].evidence) - {golden} != {} { return None, req; }
      var (after, result) := Publish(w, asked);
      w, outcome := after, Some(result);
    }

    /** publish_context_profile: a richer profile already published is returned as it is. */
    method PublishContextProfile(content: Request) returns (outcome: Outcome)
      requires w.gov == facts.gov && w.files.Valid()
      requires content.supersedes.None? && RequestFits(content) && EventsBehind(facts.gov, content.evidence) == {}
      modifies this
      ensures if StepsAside(old(w), content.day)
        then w == old(w) && outcome == Returned(Predecessor(old(w).rows, content.day).value)
        else (w, outcome) == Publish(old(w), content)
      ensures Profiled(old(w).rows, old(w).profiles) && w != old(w) ==> ContextAsks(facts, old(w).rows, content)
    {
      var latest := Predecessor(w.rows, content.day);
      if latest.Some? && !w.rows[latest.value].tier.ContextOnly? && latest.value in w.profiles {
        return Returned(latest.value);
      }
      var (after, result) := Publish(w, content);
      w, outcome := after, result;
    }
  }

  /** Where publish_context_profile stops: a richer manifest that still has its profile. */
  predicate StepsAside(w: World, day: Day) {
    var latest := Predecessor(w.rows, day);
    latest.Some? && !w.rows[latest.value].tier.ContextOnly? && latest.value in w.profiles
  }

  /** A context publication that returns leaves its date's newest manifest without events. */
  lemma ContextAdmitsNothing(facts: Facts, s: Desk, content: Request)
    requires s.w.gov == facts.gov && Sound(s.w) && Admitted(facts.gov, s.w.rows, s.rulings)
    requires RequestFits(content) && EventsBehind(facts.gov, content.evidence) == {}
    ensures var (w', outcome) := Publish(s.w, content);
      outcome.Returned? ==> AdmittedEvents(facts.gov, w'.rows, content.day) == {}
  {
    var (w1, next) := Start(s.w, content);
    var (w', outcome) := Publish(s.w, content);
    StartWithin(s.w, content);
    if next.Done? && outcome.Returned? {
      ReturnedRow(facts.gov, s.w.rows, outcome.id, content);
    } else if outcome.Returned? {
      RunFinishes(s.w.rows, w1, next.phase);
      FinishedIsNewest(s.w.rows, w'.rows, content, outcome.id);
      if outcome.id < |s.w.rows| { ReturnedRow(facts.gov, s.w.rows, outcome.id, content); }
    }
  }

  /**
    The context publisher looks for the richer profile, not the richer manifest. Where it goes ahead, the date keeps
    its events exactly when it had no manifest, or its newest manifest still has its profile row, or had no events:
    only a manifest that lost its profile row is buried.
  */
  lemma ContextBuriesAnUnprofiledManifest(facts: Facts, s: Desk, content: Request)
    requires s.w.gov == facts.gov && Sound(s.w) && Admitted(facts.gov, s.w.rows, s.rulings)
    requires RequestFits(content) && EventsBehind(facts.gov, content.evidence) == {}
    requires !StepsAside(s.w, content.day) && Publish(s.w, content).1.Returned?
    ensures var (before, latest) := (AdmittedEvents(facts.gov, s.w.rows, content.day),
                                     Predecessor(s.w.rows, content.day));
      AdmittedEvents(facts.gov, Publish(s.w, content).0.rows, content.day) == before <==>
        latest.None? || latest.value in s.w.profiles || before == {}
  {
    ContextAdmitsNothing(facts, s, content);
    if Predecessor(s.w.rows, content.day).Some? { GoingAheadHidesNothing(facts, s, content.day); }
  }

  lemma GoingAheadHidesNothing(facts: Facts, s: Desk, day: Day)
    requires Admitted(facts.gov, s.w.rows, s.rulings) && !StepsAside(s.w, day) && Predecessor(s.w.rows, day).Some?
    ensures Predecessor(s.w.rows, day).value in s.w.profiles ==> AdmittedEvents(facts.gov, s.w.rows, day) == {}
  {
    var m := s.w.rows[Predecessor(s.w.rows, day).value];
    assert RowFits(m);
    if EventsBehind(facts.gov, m.evidence) != {} {
      EventsMakeEnriched(facts.gov, m.hash.preimage, m.evidence, m.tier);
    }
  }
}
