/** Repair makes any archive safe again, whatever happened to its files, and costs an undamaged one nothing. */
module Recovery {
  import opened Basics
  import opened Disk
  import opened Editorial
  import opened Rows
  import opened Publication
  import opened Coverage
  import opened Protocol
  import opened Reconcile
  import opened Convergence

  // ---- Who shares an inode ---------------------------------------------------------------

  lemma SettleShares(files: Files, m: Manifest)
    requires files.Valid() && OnlyPartnersShare(files)
    ensures SettleFiles(files, m).Valid() && OnlyPartnersShare(SettleFiles(files, m))
  {
    if Corrupt(files, m) { QuarantineShares(files, FinalOf(m)); }
    var cleared := QuarantineIfCorrupt(files, m);
    if !Verifies(files, m) && cleared.Exists(TempOf(m)) {
      if cleared.Holds(TempOf(m), m.hash.preimage) {
        LinkShares(cleared, TempOf(m), FinalOf(m));
        UnlinkShares(cleared.Link(TempOf(m), FinalOf(m)), TempOf(m));
      } else {
        QuarantineShares(cleared, TempOf(m));
      }
    }
  }

  lemma QuarantineAllShares(files: Files, strays: set<Path>)
    requires files.Valid() && OnlyPartnersShare(files) && strays <= files.names.Keys
    ensures OnlyPartnersShare(QuarantineAll(files, strays))
  {
    forall p, q ensures MayShare(QuarantineAll(files, strays), p, q) {
      assert MayShare(files, p, q);
    }
  }

  /** Dropping names keeps what the remaining ones read, and who shares. */
  lemma SweepFrame(files: Files, gone: set<Path>)
    requires files.Valid() && OnlyPartnersShare(files)
    ensures var swept := files.(names := files.names - gone);
      && swept.Valid() && OnlyPartnersShare(swept)
      && forall p :: p !in gone ==> files.SameAt(swept, p)
  {
    var swept := files.(names := files.names - gone);
    forall p, q ensures MayShare(swept, p, q) {
      assert MayShare(files, p, q);
    }
  }

  predicate Distinct(ids: seq<nat>) {
    forall i, j :: 0 <= i < j < |ids| ==> ids[i] != ids[j]
  }

  /** What neither pass disturbs: who shares an inode, and one profile per manifest. */
  ghost predicate Orderly(w: World) {
    w.files.Valid() && OnlyPartnersShare(w.files) && Distinct(w.profiles)
  }

  lemma {:induction false} PendingPassIsOrderly(w: World, k: nat)
    requires Orderly(w)
    ensures Orderly(PendingPass(w, k).0)
    decreases |w.rows| - k
  {
    if k < |w.rows| {
      if w.rows[k].status.Draft? {
        SettleShares(w.files, w.rows[k]);
        if !RepairPending(w, k).1 { PendingPassIsOrderly(RepairPending(w, k).0, k + 1); }
      } else {
        PendingPassIsOrderly(w, k + 1);
      }
    }
  }

  lemma {:induction false} PublishedPassIsOrderly(w: World, k: nat)
    requires Orderly(w)
    ensures Orderly(PublishedPass(w, k).0)
    decreases |w.rows| - k
  {
    if k < |w.rows| {
      if w.rows[k].status.Published? {
        if Corrupt(w.files, w.rows[k]) { QuarantineShares(w.files, FinalOf(w.rows[k])); }
        if !RepairPublished(w, k).1 { PublishedPassIsOrderly(RepairPublished(w, k).0, k + 1); }
      } else {
        PublishedPassIsOrderly(w, k + 1);
      }
    }
  }

  lemma ClearIsOrderly(w: World, before: seq<Manifest>, after: seq<Manifest>, report: Report, aged: set<Path>)
    requires Orderly(w)
    ensures Orderly(Clear(w, before, after, report, aged).0)
  {
    var strays := Strays(w.files, Uris(after, Published) + Uris(before, Draft));
    var cleared := QuarantineAll(w.files, strays);
    QuarantineAllFrame(w.files, strays, Final(0, 0));
    QuarantineAllShares(w.files, strays);
    SweepFrame(cleared, StaleTemps(cleared, aged));
  }

  lemma RepairIsOrderly(w: World, aged: set<Path>)
    requires Orderly(w)
    ensures Orderly(Repair(w, aged).0)
  {
    PendingPassIsOrderly(w, 0);
    var (w1, pending, raised1) := PendingPass(w, 0);
    if !raised1 {
      PublishedPassIsOrderly(w1, 0);
      var (w2, published, raised2) := PublishedPass(w1, 0);
      if !raised2 { ClearIsOrderly(w2, w.rows, w1.rows, Plus(pending, published), aged); }
    }
  }

  // ---- The tables and artifacts a repair leaves ------------------------------------------

  lemma TablesAreSound(w: World)
    requires TablesOk(w.rows, w.profiles) && w.files.Valid()
    ensures RowsSound(w)
  {
    forall i: nat | i < |w.rows| && w.rows[i].supersedes.Some? ensures w.rows[i].supersedes.value in w.profiles {
      assert SuccessorOk(w.rows, w.profiles, i);
    }
  }

  /** The verdict a repair passes on a manifest. */
  function AsRepaired(files: Files, m: Manifest): Manifest {
    if m.status.Draft? then m.(status := if Ready(files, m) then Published else Withdrawn) else m
  }

  /** Both passes and the clearing, seen at once. */
  ghost predicate RepairStages(w: World, w1: World, w2: World, w': World) {
    && PendingPassed(w, w1, 0) && PublishedPassed(w1, w2, 0) && w' == w2.(files := w'.files)
    && forall p: Path :: p.Final? && p in Uris(w1.rows, Published) + Uris(w.rows, Draft) ==>
      w2.files.SameAt(w'.files, p)
  }

  lemma RepairEffect(w: World, aged: set<Path>)
    requires RowsSound(w)
    ensures var w1 := PendingPass(w, 0).0; RepairStages(w, w1, PublishedPass(w1, 0).0, Repair(w, aged).0)
  {
    PendingPassOutcome(w, 0);
    var w1 := PendingPass(w, 0).0;
    PublishedPassOutcome(w1, 0);
    ClearingFrame(PublishedPass(w1, 0).0, Uris(w1.rows, Published) + Uris(w.rows, Draft), aged);
  }

  /** Every row ends as ruled; one that is published then had its profile already, or was just given it. */
  lemma RowEffect(w: World, w1: World, w2: World, w': World, i: nat)
    requires RepairStages(w, w1, w2, w') && i < |w.rows|
    ensures |w'.rows| == |w.rows| && w'.rows[i] == AsRepaired(w.files, w.rows[i])
    ensures w.rows[i].status.Draft? ==> (i in w'.profiles <==> Ready(w.files, w.rows[i]))
    ensures !w.rows[i].status.Draft? && !w.rows[i].status.Published? ==> (i in w'.profiles <==> i in w.profiles)
    ensures i in w.profiles ==> i in w'.profiles
  {
    assert PendingDone(w, w1, i, 0) && PublishedDone(w1, w2, i, 0);
  }

  /** The whole table after a repair. */
  lemma RepairRulesRows(w: World, aged: set<Path>)
    requires RowsSound(w)
    ensures var w' := Repair(w, aged).0;
      && |w'.rows| == |w.rows|
      && forall i: nat :: i < |w.rows| ==> w'.rows[i] == AsRepaired(w.files, w.rows[i])
    ensures var w' := Repair(w, aged).0;
      forall i: nat :: i < |w.rows| ==>
        (i in w.profiles ==> i in w'.profiles) && (w.rows[i].status.Draft? && w'.rows[i].status.Published? ==>
             i in w'.profiles)
  {
    RepairEffect(w, aged);
    var w1 := PendingPass(w, 0).0;
    forall i: nat | i < |w.rows|
      ensures Repair(w, aged).0.rows[i] == AsRepaired(w.files, w.rows[i])
      ensures i in w.profiles || (w.rows[i].status.Draft? && Ready(w.files, w.rows[i])) ==>
        i in Repair(w, aged).0.profiles
    {
      RowEffect(w, w1, PublishedPass(w1, 0).0, Repair(w, aged).0, i);
    }
  }

  /** What is published afterwards reads back exactly when it was ready before, and otherwise is gone. */
  lemma ArtifactEffect(w: World, w1: World, w2: World, w': World, i: nat)
    requires RepairStages(w, w1, w2, w') && i < |w.rows| && AsRepaired(w.files, w.rows[i]).status.Published?
    ensures w.rows[i].status.Draft? || Verifies(w.files, w.rows[i]) ==> Verifies(w'.files, w.rows[i])
    ensures !w.rows[i].status.Draft? && !Verifies(w.files, w.rows[i]) ==> !w'.files.Exists(FinalOf(w.rows[i]))
  {
    assert PendingDone(w, w1, i, 0) && PublishedDone(w1, w2, i, 0);
    assert FinalOf(w1.rows[i]) == FinalOf(w.rows[i]) && FinalOf(w.rows[i]) in Uris(w1.rows, Published);
  }

  /** From sound tables, one repair makes the archive safe, whatever the files were. */
  lemma RepairMakesSafe(w: World, aged: set<Path>)
    requires TablesOk(w.rows, w.profiles) && w.files.Valid() && OnlyPartnersShare(w.files)
    ensures Safe(System(Repair(w, aged).0, map[])) && |Repair(w, aged).0.rows| == |w.rows|
  {
    TablesAreSound(w);
    RepairConverges(w, aged);
    RepairRulesRows(w, aged);
    RepairIsOrderly(w, aged);
    SettledIsSafe(w, Repair(w, aged).0);
  }

  lemma SettledIsSafe(w: World, w': World)
    requires TablesOk(w.rows, w.profiles) && |w'.rows| == |w.rows| && RowsSound(w') && Settled(w') && Orderly(w')
    requires forall i: nat :: i < |w.rows| ==>
      && w'.rows[i] == AsRepaired(w.files, w.rows[i]) && (i in w.profiles ==> i in w'.profiles)
      && (w'.rows[i].status.Published? ==> i in w'.profiles)
    ensures Safe(System(w', map[]))
  {
    forall i: nat | i < |w'.rows| ensures SuccessorOk(w'.rows, w'.profiles, i) {
      assert SuccessorOk(w.rows, w.profiles, i);
    }
    SettledFilesAreOk(w');
  }

  lemma SettledFilesAreOk(w: World)
    requires VersionsFollow(w.rows) && Settled(w) && Orderly(w)
    ensures FilesOk(w)
  {
    forall i: nat | i < |w.rows| ensures ArtifactOk(w.files, w.rows[i]) {
      if w.rows[i].status.Published? { assert SettledRow(w, i); }
      if w.rows[i].status.Withdrawn? && w.files.Exists(FinalOf(w.rows[i])) {
        var j: nat :| j < |w.rows| && w.rows[j].status == Published && FinalOf(w.rows[j]) == FinalOf(w.rows[i]);
        VersionsIdentify(w.rows, i, j);
      }
    }
    forall d, v | Final(d, v) in w.files.names ensures Known(w.rows, d, v) {
      var i: nat :| i < |w.rows| && w.rows[i].status == Published && FinalOf(w.rows[i]) == Final(d, v);
      assert w.rows[i].day == d && w.rows[i].version == v;
    }
  }

  // ---- Repair of an undamaged archive ----------------------------------------------------

  lemma {:induction false} HealthyPending(w: World, k: nat)
    requires forall i: nat :: i < |w.rows| && w.rows[i].status.Draft? ==> Recoverable(w.files, w.rows[i])
    ensures ReportPendingFrom(w, k).abandoned == 0 && ReportPendingFrom(w, k).mismatches == 0
    decreases |w.rows| - k
  {
    if k < |w.rows| { HealthyPending(w, k + 1); }
  }

  /** Published manifests whose artifact does not read back: lost to damage that an earlier repair dealt with. */
  function Lost(w: World): set<nat> {
    LostFrom(w, 0)
  }

  function LostFrom(w: World, k: nat): set<nat> {
    set id: nat | k <= id < |w.rows| && IsLost(w, id)
  }

  predicate IsLost(w: World, id: nat)
    requires id < |w.rows|
  {
    w.rows[id].status.Published? && !Verifies(w.files, w.rows[id])
  }

  /** Row k is counted once. */
  lemma LostSplits(w: World, k: nat)
    requires k < |w.rows|
    ensures |LostFrom(w, k)| == (if IsLost(w, k) then 1 else 0) + |LostFrom(w, k + 1)|
    ensures PublishedAt(w, k).mismatches == if IsLost(w, k) then 1 else 0
    ensures PublishedAt(w, k).abandoned == 0 && PublishedAt(w, k).orphans == 0
  {
    var rest := LostFrom(w, k + 1);
    assert LostFrom(w, k) == if IsLost(w, k) then rest + {k} else rest;
    assert k !in rest;
  }

  lemma {:induction false} LostAreMismatches(w: World, k: nat)
    requires k <= |w.rows|
    ensures var report := ReportPublishedFrom(w, k);
      report.mismatches == |LostFrom(w, k)| && report.abandoned == 0 && report.orphans == 0
    decreases |w.rows| - k
  {
    if k == |w.rows| {
      assert LostFrom(w, k) == {};
    } else {
      LostSplits(w, k);
      DefectsAddUp(w, k);
      LostAreMismatches(w, k + 1);
    }
  }

  lemma {:induction false} PendingReportsNoOrphans(w: World, k: nat)
    ensures ReportPendingFrom(w, k).orphans == 0
    decreases |w.rows| - k
  {
    if k < |w.rows| { PendingReportsNoOrphans(w, k + 1); }
  }

  lemma SafeHasNoStrays(w: World)
    requires FilesOk(w)
    ensures Strays(w.files, Uris(w.rows, Published) + Uris(w.rows, Draft)) == {}
  {
    forall d, v | Final(d, v) in w.files.names ensures Final(d, v) in Uris(w.rows, Published) + Uris(w.rows, Draft) {
      assert Known(w.rows, d, v);
      var i: nat :| i < |w.rows| && w.rows[i].day == d && w.rows[i].version == v;
      assert FinalOf(w.rows[i]) == Final(d, v) && ArtifactOk(w.files, w.rows[i]);
    }
  }

  /**
    Repairing any safe archive, whatever its publishers crashed in the middle of, completes every pending
    manifest with its exact payload, withdraws and quarantines nothing, and reports the artifacts lost before.
  */
  lemma RepairCompletesEveryDraft(s: System, aged: set<Path>)
    requires Safe(s)
    ensures var (w', report, raised) := Repair(s.w, aged);
      && !raised && report.abandoned == 0 && report.mismatches == |Lost(s.w)| && report.orphans == 0
      && |w'.rows| == |s.w.rows| && Safe(System(w', map[]))
      && (forall i: nat :: i < |s.w.rows| ==> CompletedRow(s.w, w', i))
      && (forall d, v :: Final(d, v) in s.w.files.names ==> s.w.files.SameAt(w'.files, Final(d, v)))
  {
    var w1 := PendingPass(s.w, 0).0;
    var w' := Repair(s.w, aged).0;
    TablesAreSound(s.w);
    RepairConverges(s.w, aged);
    RepairMakesSafe(s.w, aged);
    RepairEffect(s.w, aged);
    SafeReports(s.w, aged);
    forall i: nat | i < |s.w.rows| ensures CompletedRow(s.w, w', i) {
      CompletesRow(s.w, w1, PublishedPass(w1, 0).0, w', i);
    }
    forall d, v | Final(d, v) in s.w.files.names ensures s.w.files.SameAt(w'.files, Final(d, v)) {
      FinalsStay(s.w, w', d, v);
    }
  }

  /** A pending manifest is published, any other is as it was, and what reads back is exactly what it was. */
  predicate CompletedRow(w: World, w': World, i: nat)
    requires i < |w.rows| && |w'.rows| == |w.rows|
  {
    && w'.rows[i] == (if w.rows[i].status.Draft? then w.rows[i].(status := Published) else w.rows[i])
    && (w.rows[i].status.Draft? ==> Verifies(w'.files, w'.rows[i]))
    && (w.rows[i].status.Published? ==> Verifies(w'.files, w.rows[i]) == Verifies(w.files, w.rows[i]))
  }

  lemma CompletesRow(w: World, w1: World, w2: World, w': World, i: nat)
    requires FilesOk(w) && RepairStages(w, w1, w2, w') && i < |w.rows|
    ensures |w'.rows| == |w.rows| && CompletedRow(w, w', i)
  {
    RowEffect(w, w1, w2, w', i);
    assert ArtifactOk(w.files, w.rows[i]);
    if AsRepaired(w.files, w.rows[i]).status.Published? { ArtifactEffect(w, w1, w2, w', i); }
  }

  lemma SafeReports(w: World, aged: set<Path>)
    requires FilesOk(w)
    ensures var dry := ReportOnly(w, aged); dry.abandoned == 0 && dry.mismatches == |Lost(w)| && dry.orphans == 0
  {
    forall i: nat | i < |w.rows| && w.rows[i].status.Draft? ensures Recoverable(w.files, w.rows[i]) {
      assert ArtifactOk(w.files, w.rows[i]);
    }
    HealthyPending(w, 0);
    LostAreMismatches(w, 0);
    PendingReportsNoOrphans(w, 0);
    SafeHasNoStrays(w);
  }

  lemma FinalsStay(w: World, w': World, day: Day, v: nat)
    requires FilesOk(w) && Final(day, v) in w.files.names && |w'.rows| == |w.rows|
    requires forall i: nat :: i < |w.rows| ==> CompletedRow(w, w', i)
    ensures w.files.SameAt(w'.files, Final(day, v))
  {
    assert Known(w.rows, day, v);
    var i: nat :| i < |w.rows| && w.rows[i].day == day && w.rows[i].version == v;
    assert CompletedRow(w, w', i) && ArtifactOk(w.files, w.rows[i]) && FinalOf(w.rows[i]) == Final(day, v);
  }
}
