/** A run in which a publication that finishes late puts an old version into the index. */
module Laggard {
  import opened Basics
  import opened Disk
  import opened Editorial
  import opened Rows
  import opened Publication
  import opened Coverage
  import opened Protocol
  import opened Retention
  import opened Runs
  import opened Progress
  import opened Faults

  ghost predicate Reachable(s: System) {
    exists states: seq<System>, events: seq<Event> :: Reaches(states, events, s)
  }

  ghost predicate Reaches(states: seq<System>, events: seq<Event>, s: System) {
    IsRun(states, events) && Runs.Fresh(states[0]) && states[|events|] == s
  }

  lemma FreshIsReachable(s: System)
    requires Runs.Fresh(s)
    ensures Reachable(s)
  {
    assert Reaches([s], [], s);
  }

  lemma ReachOn(s: System, e: Event)
    requires Reachable(s) && s.w.files.Valid() && Possible(s, e)
    ensures Reachable(After(s, e))
  {
    var states: seq<System>, events: seq<Event> :| Reaches(states, events, s);
    var (longer, more) := (states + [After(s, e)], events + [e]);
    forall i | 0 <= i < |more| ensures Leads(longer[i], more[i], longer[i + 1]) {
      if i < |events| { assert Leads(states[i], events[i], states[i + 1]); }
    }
    assert Reaches(longer, more, After(s, e));
  }

  lemma ReachableIsSafe(s: System)
    requires Reachable(s)
    ensures Safe(s)
  {
    var states: seq<System>, events: seq<Event> :| Reaches(states, events, s);
    FreshIsSafe(states[0]);
    RunIsSafe(states, events, |events|);
  }

  predicate OthersCommitted(s: System, pid: nat) {
    forall p :: p in s.procs && p != pid ==> !InPhaseOne(s.procs[p])
  }

  /** One publisher's next step, while every other one is past its commit. */
  lemma StepAlone(s: System, pid: nat)
    requires Reachable(s) && pid in s.procs && OthersCommitted(s, pid) && InRange(s.w, s.procs[pid])
    ensures s.w.files.Valid()
    ensures var (w', next) := Advance(s.w, s.procs[pid]);
      Reachable(System(w', Continued(s.procs, pid, next)))
  {
    ReachableIsSafe(s);
    assert Enabled(s, Step(pid));
    ReachOn(s, Publisher(Step(pid)));
  }

  lemma {:induction false} FinishAlone(s: System, pid: nat)
    requires Reachable(s) && pid in s.procs && OthersCommitted(s, pid) && InRange(s.w, s.procs[pid])
    ensures s.w.files.Valid() && Reachable(System(RunToEnd(s.w, Continue(s.procs[pid])).0, s.procs - {pid}))
    decreases Publication.Ahead(s.procs[pid])
  {
    StepAlone(s, pid);
    var (w', next) := Advance(s.w, s.procs[pid]);
    assert RunToEnd(s.w, Continue(s.procs[pid])) == RunToEnd(w', next);
    if next.Continue? {
      var s' := System(w', s.procs[pid := next.phase]);
      assert s'.procs - {pid} == s.procs - {pid};
      FinishAlone(s', pid);
    }
  }

  /** A second publisher comes and goes while the first stands still after its commit. */
  lemma PublishBeside(s: System, pid: nat, req: Request)
    requires Reachable(s) && pid !in s.procs && OthersCommitted(s, pid)
    ensures s.w.files.Valid() && Reachable(System(Publish(s.w, req).0, s.procs))
  {
    ReachableIsSafe(s);
    assert Enabled(s, Begin(pid, req));
    ReachOn(s, Publisher(Begin(pid, req)));
    var (w', next) := Start(s.w, req);
    if next.Continue? {
      var s' := System(w', s.procs[pid := next.phase]);
      FinishAlone(s', pid);
      assert s'.procs - {pid} == s.procs;
    } else {
      assert s.procs - {pid} == s.procs;
    }
  }

  /** The first publisher, left alone until it has committed. */
  lemma CommitFirst(w: World, req: Request)
    requires Runs.Fresh(System(w, map[])) && req.supersedes.None?
    ensures w.files.Valid()
    ensures Reachable(System(CommitFresh(w, req, 1), map[0 := Committed(req, 0, true)]))
  {
    var target := Target.Fresh(1);
    var temp := Temp(req.day, 1);
    var written := w.(files := w.files.Write(temp, req.payload));
    FreshIsReachable(System(w, map[]));
    assert Start(w, req) == (w, Continue(Staging(req, target)));
    ReachOn(System(w, map[]), Publisher(Begin(0, req)));
    assert Reachable(System(w, map[0 := Staging(req, target)]));
    StepAlone(System(w, map[0 := Staging(req, target)]), 0);
    NowAt(w, Staging(req, target), w, FinalAbsent(req, target));
    StepAlone(System(w, map[0 := FinalAbsent(req, target)]), 0);
    NowAt(w, FinalAbsent(req, target), w, TempProbed(req, target, true));
    StepAlone(System(w, map[0 := TempProbed(req, target, true)]), 0);
    NowAt(w, TempProbed(req, target, true), written, Staged(req, target, true, true));
    StepAlone(System(written, map[0 := Staged(req, target, true, true)]), 0);
    NowAt(written, Staged(req, target, true, true), CommitFresh(w, req, 1), Committed(req, 0, true));
  }

  lemma NowAt(w: World, ph: Phase, w': World, ph': Phase)
    requires w.files.Valid() && InRange(w, ph) && Advance(w, ph) == (w', Continue(ph'))
    ensures System(Advance(w, ph).0, Continued(map[0 := ph], 0, Advance(w, ph).1)) == System(w', map[0 := ph'])
  {
    assert map[0 := ph][0 := ph'] == map[0 := ph'];
  }

  /** Two more publications while the first waits: one completes its row for it, one publishes a newer version. */
  lemma Overtaken(w: World, req: Request, newer: Request)
    requires Safe(System(w, map[])) && |w.rows| == 1 && w.rows[0] == NewDraft(req, 1)
    requires req.day == newer.day && req.payload != newer.payload && newer.supersedes.None? && !req.force
    ensures var w2 := Publish(w, req).0;
      && w2.files.Valid()
      && var w3 := Publish(w2, newer).0;
         |w3.rows| == 2 && w3.rows[0] == w.rows[0].(status := Published)
         && w3.rows[1] == NewDraft(newer, 2).(status := Published)
  {
    CompletedBeside(w, req);
    var w2 := Publish(w, req).0;
    var none := Newest(w2.rows, req.day, Draft, None);
    assert none.None?;
    var (begun, next) := Start(w2, newer);
    assert next.Continue?;
    AdmittedPublicationIsServed(w2, newer);
    StartWithin(w2, newer);
    RunFinishes(w2.rows, begun, next.phase);
    var w3 := Publish(w2, newer).0;
    assert w3.rows[..1] == w2.rows;
    assert MaxVersion(w2.rows, req.day) == 1;
  }

  lemma CompletedBeside(w: World, req: Request)
    requires Safe(System(w, map[])) && |w.rows| == 1 && w.rows[0] == NewDraft(req, 1) && !req.force
    ensures var w2 := Publish(w, req).0;
      Safe(System(w2, map[])) && w2.rows == [w.rows[0].(status := Published)]
  {
    NewestIsNewest(w.rows, req.day, Draft, None, 0);
    var (begun, next) := Start(w, req);
    assert next.Continue?;
    AdmittedPublicationIsServed(w, req);
    StartWithin(w, req);
    RunFinishes(w.rows, begun, next.phase);
    assert !NonePending(w.rows, req.day);
  }

  /** The first publisher wakes up: promotion finds its artifact in place. */
  lemma WakeUp(w: World, req: Request)
    requires Reachable(System(w, map[0 := Committed(req, 0, true)]))
    requires 0 < |w.rows| && w.rows[0].status.Published?
    ensures exists files :: Reachable(System(w.(files := files), map[0 := Finalized(req, 0)]))
  {
    var s := System(w, map[0 := Committed(req, 0, true)]);
    ReachableIsSafe(s);
    assert PhaseOk(w, s.procs[0]);
    PromotionNeverFails(s, 0);
    StepAlone(s, 0);
    NowAt(w, s.procs[0], w, Linked(req, 0, true));
    var files := w.files.Unlink(TempOf(w.rows[0]));
    StepAlone(System(w, map[0 := Linked(req, 0, true)]), 0);
    NowAt(w, Linked(req, 0, true), w.(files := files), Finalized(req, 0));
  }

  /**
    On any date and for any two contents: a publisher commits, another resumes and completes its manifest, a newer
    version is published, and the first publisher's completion then puts the old version into the index.
  */
  lemma LaggardCanMisindex(gov: Governance, selections: seq<Selection>, req: Request, newer: Request)
    requires req.day == newer.day && req.payload != newer.payload
    requires req.supersedes.None? && newer.supersedes.None? && !req.force
    ensures exists s: System :: Reachable(s) && Misindexes(s, 0, req.day)
  {
    var w := World([], [], map[], selections, gov, Files(map[], []));
    CommitFirst(w, req);
    var w1 := CommitFresh(w, req, 1);
    var waiting := map[0 := Committed(req, 0, true)];
    ReachableIsSafe(System(w1, waiting));
    PublishBeside(System(w1, waiting), 1, req);
    var w2 := Publish(w1, req).0;
    PublishBeside(System(w2, waiting), 1, newer);
    var w3 := Publish(w2, newer).0;
    Overtaken(w1, req, newer);
    WakeUp(w3, req);
    var files :| Reachable(System(w3.(files := files), map[0 := Finalized(req, 0)]));
    ItsTurn(System(w3.(files := files), map[0 := Finalized(req, 0)]), req);
  }

  ghost predicate Misindexes(s: System, pid: nat, day: Day) {
    s.w.files.Valid() && Enabled(s, Step(pid)) && s.procs[pid].Finalized? && !Agrees(Next(s, Step(pid)).w, day)
  }

  lemma ItsTurn(s: System, req: Request)
    requires Reachable(s) && s.procs == map[0 := Finalized(req, 0)] && |s.w.rows| == 2
    requires s.w.rows[0].version == 1 && s.w.rows[1].version == 2
    requires s.w.rows[1].status.Published? && s.w.rows[1].day == req.day
    ensures Misindexes(s, 0, req.day)
  {
    ReachableIsSafe(s);
    LaggardIndexesItself(s, 0);
  }
}
