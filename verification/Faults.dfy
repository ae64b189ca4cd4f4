/** Where the protocol's promises stop: the interleavings and failures the run theorems exclude. */
module Faults {
  import opened Basics
  import opened Disk
  import opened Editorial
  import opened Rows
  import opened Publication
  import opened Coverage
  import opened Protocol
  import opened Reconcile
  import opened Convergence
  import opened Recovery
  import opened CoverageSteps
  import opened Runs

  /** finalize() when the link raises something other than "exists" or "not found": the temp still goes. */
  function FailedPromotion(w: World, id: nat): World
    requires id < |w.rows|
  {
    w.(files := w.files.Unlink(TempOf(w.rows[id])))
  }

  /**
    A pending manifest survives a failed promotion exactly when its payload had already been promoted.
    Otherwise its only copy is gone and the next repair withdraws it.
  */
  lemma FailedPromotionLosesUnpromotedDraft(s: System, id: nat)
    requires Safe(s) && id < |s.w.rows| && s.w.rows[id].status.Draft?
    ensures var w' := FailedPromotion(s.w, id);
      && (Recoverable(w'.files, s.w.rows[id]) <==> s.w.files.Exists(FinalOf(s.w.rows[id])))
      && (!s.w.files.Exists(FinalOf(s.w.rows[id])) ==> RepairPending(w', id).0.rows[id].status.Withdrawn?)
  {
    assert ArtifactOk(s.w.files, s.w.rows[id]);
  }

  /** A publisher's first five steps on a date with no pending manifest: lock to committed DRAFT. */
  function CommitFresh(w: World, req: Request, version: nat): World
    requires w.files.Valid()
  {
    var written := w.(files := w.files.Write(Temp(req.day, version), req.payload));
    written.(rows := w.rows + [NewDraft(req, version)])
  }

  lemma OneStep(w: World, ph: Phase, steps: nat)
    requires w.files.Valid() && InRange(w, ph)
    ensures Attempt(w, Continue(ph), steps + 1) == Attempt(Advance(w, ph).0, Advance(w, ph).1, steps)
  {
  }

  /** The four steps of a publisher alone on a date with no pending manifest, from its lock to its commit. */
  lemma FreshPublisherCommits(w: World, req: Request, version: nat)
    requires w.files.Valid() && !w.files.Exists(Final(req.day, version))
    ensures Attempt(w, Continue(Staging(req, Target.Fresh(version))), 4) == CommitFresh(w, req, version)
  {
    var (target, temp) := (Target.Fresh(version), Temp(req.day, version));
    var staged := Staged(req, target, true, !w.files.Exists(temp));
    var written := w.(files := w.files.Write(temp, req.payload));
    OneStep(w, Staging(req, target), 3);
    OneStep(w, FinalAbsent(req, target), 2);
    OneStep(w, TempProbed(req, target, staged.created), 1);
    OneStep(written, staged, 0);
  }

  /** A discard that comes after the rollback's lock was given up. */
  function LateDiscard(w: World, day: Day, version: nat): World {
    w.(files := w.files.Unlink(Temp(day, version)))
  }

  ghost predicate AllRecoverable(w: World) {
    forall i :: 0 <= i < |w.rows| && w.rows[i].status.Draft? ==> Recoverable(w.files, w.rows[i])
  }

  predicate HasFinal(w: World, i: nat)
    requires i < |w.rows|
  {
    FinalOf(w.rows[i]) in w.files.names
  }

  /** A late discard costs nothing exactly when every pending manifest of that version has its final artifact. */
  lemma LateDiscardSparesThePromoted(w: World, day: Day, version: nat)
    requires RowsOk(w.rows) && FilesOk(w)
    ensures AllRecoverable(LateDiscard(w, day, version)) <==>
      forall i: nat :: i < |w.rows| && w.rows[i].status.Draft? && FinalOf(w.rows[i]) == Final(day, version) ==>
        HasFinal(w, i)
  {
    var late := LateDiscard(w, day, version);
    forall i: nat | i < |w.rows| && w.rows[i].status.Draft?
      ensures Recoverable(late.files, w.rows[i]) <==>
        (w.rows[i].day == day && w.rows[i].version == version ==> HasFinal(w, i))
    {
      assert ArtifactOk(w.files, w.rows[i]);
    }
    forall i: nat | i < |w.rows| && w.rows[i].status.Draft? && AllRecoverable(late)
      ensures Recoverable(late.files, w.rows[i])
    {
      assert late.rows[i] == w.rows[i];
    }
  }

  /**
    Rolling back and discarding must be one step. If another publisher is admitted with new content and commits
    between the two, the first one's late discard deletes the only copy of what was just committed: both worked at
    the same version, and the first still believes it created the temp.
  */
  lemma SplitDiscardLosesDraft(s: System, pid: nat, req: Request)
    requires Safe(s) && pid in s.procs && s.procs[pid].Staged? && s.procs[pid].target.Fresh?
    requires s.procs[pid].created && s.procs[pid].req.day == req.day
    requires Start(s.w, req).1.Continue?
    ensures var v := s.procs[pid].target.version;
      var committed := Attempt(s.w, Start(s.w, req).1, 4);
      var late := LateDiscard(committed, req.day, v);
      && committed.rows == s.w.rows + [NewDraft(req, v)]
      && Recoverable(committed.files, NewDraft(req, v)) && !Recoverable(late.files, NewDraft(req, v))
      && RepairPending(late, |s.w.rows|).0.rows[|s.w.rows|].status.Withdrawn?
  {
    var v := s.procs[pid].target.version;
    assert PhaseOk(s.w, s.procs[pid]);
    NextVersionIsUnknown(s.w, req.day);
    assert Start(s.w, req).1 == Continue(Staging(req, Target.Fresh(v))) by {
      var pending := Newest(s.w.rows, req.day, Draft, None);
      assert pending.None?;
    }
    FreshPublisherCommits(s.w, req, v);
    LateDiscardOfCommitted(s.w, req, v);
  }

  lemma LateDiscardOfCommitted(w: World, req: Request, v: nat)
    requires w.files.Valid() && !w.files.Exists(Final(req.day, v))
    ensures var committed := CommitFresh(w, req, v);
      var late := LateDiscard(committed, req.day, v);
      && Recoverable(committed.files, NewDraft(req, v)) && !Recoverable(late.files, NewDraft(req, v))
      && RepairPending(late, |w.rows|).0.rows[|w.rows|].status.Withdrawn?
  {
  }

  predicate Succeeds(rows: seq<Manifest>, i: nat, p: nat)
    requires i < |rows|
  {
    rows[i].supersedes == Some(p)
  }

  /** A predecessor is an earlier manifest of the same date. */
  ghost predicate PredecessorsPrecede(rows: seq<Manifest>) {
    forall i: nat :: i < |rows| ==> PrecededAt(rows, i)
  }

  predicate PrecededAt(rows: seq<Manifest>, i: nat)
    requires i < |rows|
  {
    rows[i].supersedes.Some? ==> rows[i].supersedes.value < i && rows[rows[i].supersedes.value].day == rows[i].day
  }

  /**
    With nothing pending, a publisher naming the newest published manifest, as the golden and Wikidata publishers do,
    is admitted exactly when no withdrawn manifest had named it before: withdrawing a correction does not give its
    predecessor's one successor slot back.
  */
  lemma WithdrawnSuccessorSpendsTheSlot(w: World, p: nat, req: Request)
    requires Settled(w) && VersionsFollow(w.rows) && PredecessorsPrecede(w.rows)
    requires Newest(w.rows, req.day, Published, None) == Some(p) && p in w.profiles && req.supersedes == Some(p)
    requires w.rows[p].hash != Hash(req.payload) || req.force
    ensures Start(w, req).1.Continue? <==>
      !exists i: nat :: i < |w.rows| && Succeeds(w.rows, i, p) && w.rows[i].status.Withdrawn?
    ensures !Start(w, req).1.Continue? ==> Start(w, req) == (w, Done(Refused))
  {
    var pending := Newest(w.rows, req.day, Draft, None);
    assert pending.None?;
    forall i: nat | i < |w.rows| && Succeeds(w.rows, i, p) ensures w.rows[i].status.Withdrawn? {
      assert PrecededAt(w.rows, i);
      VersionsIncrease(w.rows, p, i);
      if w.rows[i].status.Published? { NewestIsNewest(w.rows, req.day, Published, None, i); }
    }
    assert MaySupersede(w, req.day, req.supersedes) <==> forall i: nat :: i < |w.rows| ==> !Succeeds(w.rows, i, p);
  }

  /** So a repair decides it: the slot is spent by what it withdraws, and by what was withdrawn before. */
  lemma RepairMaySpendTheSlot(w: World, aged: set<Path>, p: nat, req: Request)
    requires TablesOk(w.rows, w.profiles) && w.files.Valid() && OnlyPartnersShare(w.files)
    requires var w' := Repair(w, aged).0;
      Newest(w'.rows, req.day, Published, None) == Some(p) && (w'.rows[p].hash != Hash(req.payload) || req.force)
    requires req.supersedes == Some(p)
    ensures Start(Repair(w, aged).0, req).1.Continue? <==>
      !exists i: nat :: i < |w.rows| && Succeeds(w.rows, i, p) && AsRepaired(w.files, w.rows[i]).status.Withdrawn?
  {
    var w' := Repair(w, aged).0;
    TablesAreSound(w);
    RepairConverges(w, aged);
    RepairMakesSafe(w, aged);
    RepairRulesRows(w, aged);
    forall i: nat | i < |w.rows| ensures PrecededAt(w'.rows, i) {
      assert SuccessorOk(w'.rows, w'.profiles, i);
    }
    WithdrawnSuccessorSpendsTheSlot(w', p, req);
    forall i: nat | i < |w.rows|
      ensures Succeeds(w'.rows, i, p) && w'.rows[i].status.Withdrawn? <==>
        Succeeds(w.rows, i, p) && AsRepaired(w.files, w.rows[i]).status.Withdrawn?
    {
      assert w'.rows[i] == AsRepaired(w.files, w.rows[i]);
    }
  }

  /**
    A publication that finishes late indexes its own manifest. The date's row is then right exactly when no
    newer version was published while it was between its commit and its completion.
  */
  lemma LaggardIndexesItself(s: System, pid: nat)
    requires Safe(s) && Enabled(s, Step(pid)) && s.procs[pid].Finalized?
    ensures var (w', day, id) := (Next(s, Step(pid)).w, s.procs[pid].req.day, s.procs[pid].id);
      && w'.index[day].manifest == id
      && (Agrees(w', day) <==>
            forall i: nat :: i < |s.w.rows| && s.w.rows[i].day == day && s.w.rows[i].status.Published? ==>
              s.w.rows[i].version <= s.w.rows[id].version)
  {
    var (req, id) := (s.procs[pid].req, s.procs[pid].id);
    assert PhaseOk(s.w, s.procs[pid]);
    assert ArtifactOk(s.w.files, s.w.rows[id]) && s.w.files.Holds(FinalOf(s.w.rows[id]), req.payload);
    var w' := Complete(s.w, id);
    assert Next(s, Step(pid)).w == w';
    assert id in w'.profiles && Matches(w'.rows, id, req.day, Published, Some(w'.profiles));
    NewestIsNewest(w'.rows, req.day, Published, Some(w'.profiles), id);
    var served := LatestServed(w', req.day).value;
    if i: nat :|
      i < |s.w.rows| && Matches(s.w.rows, i, req.day, Published, None) && s.w.rows[id].version < s.w.rows[i].version
    {
      NewestIsNewest(w'.rows, req.day, Published, Some(w'.profiles), i);
    } else if served != id {
      if served < id { VersionsIncrease(s.w.rows, served, id); } else { VersionsIncrease(s.w.rows, id, served); }
    }
  }
}
