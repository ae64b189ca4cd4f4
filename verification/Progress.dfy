/** Safety is not bought by failing: what succeeds in a healthy archive. */
module Progress {
  import opened Basics
  import opened Disk
  import opened Editorial
  import opened Rows
  import opened Publication
  import opened Coverage
  import opened Protocol
  import opened Reconcile
  import opened Convergence
  import opened Retention
  import R = RetentionRuns

  /** Whoever else is publishing, crashing or aborting, no step of an admitted publication fails. */
  lemma StepsNeverFail(s: System, pid: nat)
    requires Safe(s) && Enabled(s, Step(pid))
    ensures var next := Advance(s.w, s.procs[pid]).1; next.Continue? || next.outcome.Returned?
  {
    var w, ph := s.w, s.procs[pid];
    assert PhaseOk(w, ph);
    match ph
    case Staging(req, t) =>
      if t.Fresh? { NextVersionIsUnknown(w, req.day); } else { assert ArtifactOk(w.files, w.rows[t.id]); }
    case Finalized(req, id) =>
      assert ArtifactOk(w.files, w.rows[id]);
    case _ =>
  }

  /** Left alone, a publication under way returns, and indexes its manifest. */
  lemma {:induction false} RunReturns(s: System, pid: nat)
    requires Safe(s) && pid in s.procs && s.procs.Keys == {pid} && InRange(s.w, s.procs[pid])
    ensures var (w', outcome) := RunToEnd(s.w, Continue(s.procs[pid]));
      outcome.Returned? && Safe(System(w', map[])) && Indexes(w', s.procs[pid].req.day, outcome)
    decreases Publication.Ahead(s.procs[pid])
  {
    var ph := s.procs[pid];
    var (w1, next) := Advance(s.w, ph);
    StepsNeverFail(s, pid);
    NextKeepsSafe(s, Step(pid));
    var s1 := Next(s, Step(pid));
    assert PhaseOk(s.w, ph);
    if next.Continue? {
      assert s1.procs.Keys == {pid} && s1.procs[pid] == next.phase && next.phase.req == ph.req;
      RunReturns(s1, pid);
    } else {
      assert s1.procs == map[];
    }
  }

  predicate Indexes(w: World, day: Day, outcome: Outcome) {
    outcome.Returned? && outcome.id < |w.rows| && w.rows[outcome.id].day == day
    && FinalOf(w.rows[outcome.id]) in w.files.names && day in w.index
    && w.index[day] == Derive(w.gov, w.selections, outcome.id, w.rows[outcome.id])
  }

  /**
    In a healthy archive with nobody else on the date, a publication that is admitted ends with its page served:
    the returned manifest is the newest, its artifact reads back, and the date's index row is the one derived from it.
  */
  lemma AdmittedPublicationIsServed(w: World, req: Request)
    requires Safe(System(w, map[])) && Start(w, req).1.Continue?
    ensures var (w', outcome) := Publish(w, req);
      && outcome.Returned? && Safe(System(w', map[]))
      && LatestServed(w', req.day) == Some(outcome.id) && w'.rows[outcome.id].hash == Hash(req.payload)
      && Servable(w', req.day) && Agrees(w', req.day)
  {
    var s := System(w, map[]);
    var (w1, next) := Start(w, req);
    var (w', outcome) := Publish(w, req);
    assert Enabled(s, Begin(0, req));
    BeginKeepsSafe(s, 0, req);
    StartWithin(w, req);
    var s1 := Next(s, Begin(0, req));
    assert s1 == System(w1, map[0 := next.phase]) && s1.procs.Keys == {0};
    RunReturns(s1, 0);
    RunFinishes(w.rows, w1, next.phase);
    R.FinishedIsNewest(w.rows, w'.rows, req, outcome.id);
    ServedIsPredecessor(w', req.day);
  }

  /** In a safe archive the newest published manifest is the one served, unless damage took its artifact. */
  lemma ServedIsPredecessor(w: World, day: Day)
    requires Safe(System(w, map[]))
    ensures LatestServed(w, day) == Newest(w.rows, day, Published, None)
    ensures LatestServed(w, day).Some? ==>
      (Servable(w, day) <==> FinalOf(w.rows[LatestServed(w, day).value]) in w.files.names)
  {
    NewestFrame(w.rows, w.rows, day, Published, Some(w.profiles), None);
    if LatestServed(w, day).Some? { assert ArtifactOk(w.files, w.rows[LatestServed(w, day).value]); }
  }

  /** After a repair no pending manifest stands in a publisher's way. */
  lemma RepairUnblocks(w: World, aged: set<Path>, req: Request)
    requires RowsSound(w)
    ensures Start(Repair(w, aged).0, req).1 != Done(PendingConflict)
  {
    RepairConverges(w, aged);
    SettledIsOpen(Repair(w, aged).0, req);
  }

  lemma SettledIsOpen(w: World, req: Request)
    requires Settled(w)
    ensures Start(w, req).1 != Done(PendingConflict)
  {
    assert Newest(w.rows, req.day, Draft, None).None?;
  }
}
