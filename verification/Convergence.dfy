/** One repair settles any crashed archive, and reports exactly what a report-only run would. */
module Convergence {
  import opened Basics
  import opened Disk
  import opened Editorial
  import opened Rows
  import opened Publication
  import opened Coverage
  import opened Protocol
  import opened Reconcile

  /** Rows as publication leaves them; nothing is said about the files. */
  ghost predicate RowsSound(w: World) {
    && w.files.Valid()
    && VersionsFollow(w.rows)
    && (forall id: nat :: id in w.profiles ==> id < |w.rows| && w.rows[id].status.Published?)
    && (forall i :: 0 <= i < |w.rows| && w.rows[i].supersedes.Some? ==> w.rows[i].supersedes.value in w.profiles)
  }

  // ---- One manifest's files --------------------------------------------------------------

  predicate OwnName(m: Manifest, p: Path) {
    p == FinalOf(m) || p == TempOf(m)
  }

  /** Settling one manifest touches its own two names and the quarantine, nothing else. */
  lemma SettleFrame(files: Files, m: Manifest, p: Path)
    requires files.Valid() && !p.Quarantined? && !OwnName(m, p)
    ensures SettleFiles(files, m).Valid() && files.SameAt(SettleFiles(files, m), p)
  {
  }

  /** A ready payload ends at its final name; an unusable one leaves neither name behind. */
  lemma SettleOutcome(files: Files, m: Manifest)
    requires files.Valid()
    ensures var settled := SettleFiles(files, m);
      if Ready(files, m) then Verifies(settled, m)
      else !settled.Exists(FinalOf(m)) && !settled.Exists(TempOf(m))
  {
  }

  lemma SameAtReads(files: Files, files': Files, p: Path, payload: Payload)
    requires files.SameAt(files', p)
    ensures files.Holds(p, payload) == files'.Holds(p, payload) && files.Exists(p) == files'.Exists(p)
  {
  }

  /** Both names of a manifest read the same. */
  ghost predicate SameNames(files: Files, files': Files, m: Manifest) {
    files.SameAt(files', FinalOf(m)) && files.SameAt(files', TempOf(m))
  }

  // ---- The pending pass ------------------------------------------------------------------

  ghost predicate Untouched(w: World, w': World, i: nat)
    requires i < |w.rows| == |w'.rows|
  {
    && w'.rows[i] == w.rows[i] && SameNames(w.files, w'.files, w.rows[i])
    && (i in w'.profiles <==> i in w.profiles)
  }

  /** What the pass from k on has done to row i. */
  ghost predicate PendingDone(w: World, w': World, i: nat, k: nat)
    requires i < |w.rows| == |w'.rows|
  {
    if k <= i && w.rows[i].status.Draft? then
      if Ready(w.files, w.rows[i])
      then w'.rows[i] == w.rows[i].(status := Published) && Verifies(w'.files, w'.rows[i]) && i in w'.profiles
      else w'.rows[i] == w.rows[i].(status := Withdrawn) && !w'.files.Exists(FinalOf(w.rows[i])) && i !in w'.profiles
    else Untouched(w, w', i)
  }

  /** No manifest the pass from k on works on has this name. */
  ghost predicate NotPending(w: World, day: Day, version: nat, k: nat) {
    forall i :: k <= i < |w.rows| && w.rows[i].status.Draft? ==> w.rows[i].day != day || w.rows[i].version != version
  }

  ghost predicate PendingPassed(w: World, w': World, k: nat) {
    && |w'.rows| == |w.rows| && w'.gov == w.gov && w'.selections == w.selections && w'.files.Valid()
    && (forall i: nat :: i < |w.rows| ==> PendingDone(w, w', i, k))
    && (forall d, v :: NotPending(w, d, v, k) ==> w.files.SameAt(w'.files, Final(d, v)))
    && (forall id: nat :: id in w'.profiles ==> id < |w.rows|)
    && (forall id: nat :: id in w.profiles ==> id in w'.profiles)
  }

  /** One pending manifest, and nothing else. */
  lemma PendingStep(w: World, k: nat)
    requires RowsSound(w) && k < |w.rows| && w.rows[k].status.Draft?
    ensures var (w1, raised) := RepairPending(w, k);
      && !raised && RowsSound(w1) && |w1.rows| == |w.rows| && w1.gov == w.gov && w1.selections == w.selections
      && PendingDone(w, w1, k, k)
      && (forall i: nat :: i < |w.rows| && i != k ==> Untouched(w, w1, i))
      && (forall d, v :: w.rows[k].day != d || w.rows[k].version != v ==> w.files.SameAt(w1.files, Final(d, v)))
      && (forall id: nat :: id in w.profiles ==> id in w1.profiles)
  {
    var m := w.rows[k];
    var (w1, raised) := RepairPending(w, k);
    SettleOutcome(w.files, m);
    PublishKeepsVersions(w.rows, k, w1.rows[k].status);
    forall p: Path | !p.Quarantined? && !OwnName(m, p) ensures w1.files.Valid() && w.files.SameAt(w1.files, p) {
      SettleFrame(w.files, m, p);
    }
    SettleFrame(w.files, m, Final(m.day, m.version + 1));
    forall i: nat | i < |w.rows| && i != k ensures Untouched(w, w1, i) {
      if w.rows[i].day == m.day && w.rows[i].version == m.version { VersionsIdentify(w.rows, i, k); }
    }
  }

  lemma PublishKeepsVersions(rows: seq<Manifest>, id: nat, status: Status)
    requires VersionsFollow(rows) && id < |rows|
    ensures VersionsFollow(SetStatus(rows, id, status))
  {
    var rows' := SetStatus(rows, id, status);
    forall i | 0 <= i < |rows| ensures Follows(rows', i) {
      assert Follows(rows, i);
      MaxVersionIgnoresStatus(rows'[..i], rows[..i], rows[i].day);
    }
  }

  /** Reports depend only on what is still to be visited. */
  lemma {:induction false} ReportPendingFrame(w: World, w1: World, k: nat)
    requires |w.rows| == |w1.rows|
    requires forall i: nat :: k <= i < |w.rows| ==> Untouched(w, w1, i)
    ensures ReportPendingFrom(w1, k) == ReportPendingFrom(w, k)
    decreases |w.rows| - k
  {
    if k < |w.rows| {
      assert Untouched(w, w1, k);
      SameAtReads(w.files, w1.files, FinalOf(w.rows[k]), w.rows[k].hash.preimage);
      SameAtReads(w.files, w1.files, TempOf(w.rows[k]), w.rows[k].hash.preimage);
      ReportPendingFrame(w, w1, k + 1);
    }
  }

  lemma {:induction false} PendingPassOutcome(w: World, k: nat)
    requires RowsSound(w) && k <= |w.rows|
    ensures var (w', report, raised) := PendingPass(w, k);
      && !raised && RowsSound(w') && PendingPassed(w, w', k) && report == ReportPendingFrom(w, k)
    decreases |w.rows| - k
  {
    var w' := PendingPass(w, k).0;
    if k == |w.rows| {
      forall i: nat | i < |w.rows| ensures PendingDone(w, w', i, k) {}
    } else if !w.rows[k].status.Draft? {
      PendingPassOutcome(w, k + 1);
      forall i: nat | i < |w.rows| ensures PendingDone(w, w', i, k) {
        assert PendingDone(w, w', i, k + 1);
      }
      forall d, v | NotPending(w, d, v, k) ensures w.files.SameAt(w'.files, Final(d, v)) {
        assert NotPending(w, d, v, k + 1);
      }
    } else {
      var (w1, raised) := RepairPending(w, k);
      PendingStep(w, k);
      PendingPassOutcome(w1, k + 1);
      ReportPendingFrame(w, w1, k + 1);
      PendingPassCompose(w, w1, w', k);
    }
  }

  lemma PendingPassCompose(w: World, w1: World, w': World, k: nat)
    requires RowsSound(w) && k < |w.rows| == |w1.rows| && w.rows[k].status.Draft?
    requires w1.gov == w.gov && w1.selections == w.selections && PendingDone(w, w1, k, k)
    requires forall i: nat :: i < |w.rows| && i != k ==> Untouched(w, w1, i)
    requires forall d, v :: w.rows[k].day != d || w.rows[k].version != v ==> w.files.SameAt(w1.files, Final(d, v))
    requires forall id: nat :: id in w.profiles ==> id in w1.profiles
    requires PendingPassed(w1, w', k + 1)
    ensures PendingPassed(w, w', k)
  {
    forall i: nat | i < |w.rows| ensures PendingDone(w, w', i, k) {
      assert PendingDone(w1, w', i, k + 1);
      if i != k { assert Untouched(w, w1, i); }
    }
    forall d, v | NotPending(w, d, v, k) ensures w.files.SameAt(w'.files, Final(d, v)) {
      assert w.rows[k].day != d || w.rows[k].version != v;
      forall i | k + 1 <= i < |w1.rows| && w1.rows[i].status.Draft?
        ensures w1.rows[i].day != d || w1.rows[i].version != v
      {
        assert Untouched(w, w1, i);
      }
      assert NotPending(w1, d, v, k + 1);
    }
  }

  // ---- The published pass ----------------------------------------------------------------

  /** Recomputation is unmoved by a step that keeps a date's served manifest and its reading. */
  lemma ExpectedFrame(w: World, w1: World, day: Day)
    requires w1.rows == w.rows && w1.gov == w.gov && w1.selections == w.selections
    requires forall i: nat :: i < |w.rows| && w.rows[i].day == day ==>
      (i in w1.profiles <==> i in w.profiles) && Verifies(w1.files, w.rows[i]) == Verifies(w.files, w.rows[i])
    ensures Expected(w1, day) == Expected(w, day)
  {
    NewestFrame(w.rows, w1.rows, day, Published, Some(w.profiles), Some(w1.profiles));
  }

  ghost predicate PublishedDone(w: World, w': World, i: nat, k: nat)
    requires i < |w.rows| == |w'.rows|
  {
    if k <= i && w.rows[i].status.Published? then
      if Verifies(w.files, w.rows[i])
      then w'.rows[i] == w.rows[i] && Verifies(w'.files, w.rows[i]) && i in w'.profiles
      else w'.rows[i] == w.rows[i] && !w'.files.Exists(FinalOf(w.rows[i])) && Agrees(w', w.rows[i].day)
           && (i in w'.profiles <==> i in w.profiles)
    else Untouched(w, w', i)
  }

  ghost predicate NotPublished(w: World, day: Day, version: nat) {
    forall i :: 0 <= i < |w.rows| && w.rows[i].status.Published? ==>
      w.rows[i].day != day || w.rows[i].version != version
  }

  ghost predicate KeepsAgreement(w: World, w': World) {
    forall d :: Agrees(w, d) ==> Agrees(w', d)
  }

  ghost predicate PublishedPassed(w: World, w': World, k: nat) {
    && w'.rows == w.rows && w'.gov == w.gov && w'.selections == w.selections && w'.files.Valid()
    && (forall i: nat :: i < |w.rows| ==> PublishedDone(w, w', i, k))
    && (forall d, v :: NotPublished(w, d, v) ==> w.files.SameAt(w'.files, Final(d, v)))
    && KeepsAgreement(w, w')
    && (forall id: nat :: id in w.profiles ==> id in w'.profiles)
  }

  lemma PublishedStep(w: World, k: nat)
    requires RowsSound(w) && k < |w.rows| && w.rows[k].status.Published?
    ensures var (w1, raised) := RepairPublished(w, k);
      && !raised && RowsSound(w1) && w1.rows == w.rows && w1.gov == w.gov && w1.selections == w.selections
      && PublishedDone(w, w1, k, k)
      && (forall i: nat :: i < |w.rows| && i != k ==> Untouched(w, w1, i))
      && (forall d, v :: w.rows[k].day != d || w.rows[k].version != v ==> w.files.SameAt(w1.files, Final(d, v)))
      && (forall id: nat :: id in w.profiles ==> id in w1.profiles)
      && KeepsAgreement(w, w1)
  {
    var m := w.rows[k];
    var (w1, raised) := RepairPublished(w, k);
    var unindexed := w1.(index := w.index);
    forall i: nat | i < |w.rows| && i != k ensures Untouched(w, w1, i) {
      if w.rows[i].day == m.day && w.rows[i].version == m.version { VersionsIdentify(w.rows, i, k); }
    }
    forall i: nat | i < |w.rows| ensures Verifies(w1.files, w.rows[i]) == Verifies(w.files, w.rows[i]) {
      if i != k { assert Untouched(w, w1, i); }
    }
    forall d | Agrees(w, d) ensures Agrees(w1, d) {
      if d != m.day || !Verifies(w.files, m) { ExpectedFrame(w, unindexed, d); }
      if w1 != w { ReconcileAgrees(unindexed, m.day); }
    }
    if w1 != w { ReconcileAgrees(unindexed, m.day); }
  }

  lemma {:induction false} ReportPublishedFrame(w: World, w1: World, k: nat)
    requires w.rows == w1.rows
    requires forall i: nat :: k <= i < |w.rows| ==> Untouched(w, w1, i)
    ensures ReportPublishedFrom(w1, k) == ReportPublishedFrom(w, k)
    decreases |w.rows| - k
  {
    if k < |w.rows| {
      assert Untouched(w, w1, k);
      SameAtReads(w.files, w1.files, FinalOf(w.rows[k]), w.rows[k].hash.preimage);
      ReportPublishedFrame(w, w1, k + 1);
    }
  }

  lemma {:induction false} PublishedPassOutcome(w: World, k: nat)
    requires RowsSound(w) && k <= |w.rows|
    ensures var (w', report, raised) := PublishedPass(w, k);
      && !raised && RowsSound(w') && PublishedPassed(w, w', k) && report == ReportPublishedFrom(w, k)
    decreases |w.rows| - k
  {
    var w' := PublishedPass(w, k).0;
    if k == |w.rows| {
      forall i: nat | i < |w.rows| ensures PublishedDone(w, w', i, k) {}
    } else if !w.rows[k].status.Published? {
      PublishedPassOutcome(w, k + 1);
      forall i: nat | i < |w.rows| ensures PublishedDone(w, w', i, k) {
        assert PublishedDone(w, w', i, k + 1);
      }
    } else {
      var (w1, raised) := RepairPublished(w, k);
      PublishedStep(w, k);
      PublishedPassOutcome(w1, k + 1);
      ReportPublishedFrame(w, w1, k + 1);
      PublishedPassCompose(w, w1, w', k);
    }
  }

  lemma PublishedPassCompose(w: World, w1: World, w': World, k: nat)
    requires RowsSound(w) && k < |w.rows| && w.rows[k].status.Published?
    requires w1.rows == w.rows && w1.gov == w.gov && w1.selections == w.selections && PublishedDone(w, w1, k, k)
    requires forall i: nat :: i < |w.rows| && i != k ==> Untouched(w, w1, i)
    requires forall d, v :: w.rows[k].day != d || w.rows[k].version != v ==> w.files.SameAt(w1.files, Final(d, v))
    requires forall id: nat :: id in w.profiles ==> id in w1.profiles
    requires KeepsAgreement(w, w1) && PublishedPassed(w1, w', k + 1)
    ensures PublishedPassed(w, w', k)
  {
    forall i: nat | i < |w.rows| ensures PublishedDone(w, w', i, k) {
      assert PublishedDone(w1, w', i, k + 1);
      if i != k { UntouchedThenDone(w, w1, w', i, k); }
    }
    forall d, v | NotPublished(w, d, v) ensures w.files.SameAt(w'.files, Final(d, v)) {
      assert NotPublished(w1, d, v);
    }
  }

  lemma UntouchedThenDone(w: World, w1: World, w': World, i: nat, k: nat)
    requires i < |w.rows| == |w1.rows| == |w'.rows| && i != k
    requires Untouched(w, w1, i) && PublishedDone(w1, w', i, k + 1)
    ensures PublishedDone(w, w', i, k)
  {
  }

  // ---- The whole repair ------------------------------------------------------------------

  /** Nothing is left for a repair to do. */
  ghost predicate Settled(w: World) {
    && (forall i :: 0 <= i < |w.rows| ==> !w.rows[i].status.Draft?)
    && (forall i: nat :: i < |w.rows| && w.rows[i].status.Published? ==> SettledRow(w, i))
    && (forall d, v :: Final(d, v) in w.files.names ==> Final(d, v) in Uris(w.rows, Published))
  }

  /** A published manifest either reads back and has its profile, or is gone and not advertised. */
  ghost predicate SettledRow(w: World, i: nat)
    requires i < |w.rows|
  {
    if Verifies(w.files, w.rows[i]) then i in w.profiles
    else !w.files.Exists(FinalOf(w.rows[i])) && Agrees(w, w.rows[i].day)
  }

  /** What row k adds to a report on published manifests. */
  function PublishedAt(w: World, k: nat): Report
    requires k < |w.rows|
  {
    if w.rows[k].status.Published? then PublishedReport(w, k) else NOTHING
  }

  predicate SameDefects(a: Report, b: Report) {
    && a.missing == b.missing && a.mismatches == b.mismatches
    && a.orphans == b.orphans == 0 && a.completed == b.completed == 0 && a.abandoned == b.abandoned == 0
  }

  lemma RowAddsNoDefect(w: World, w1: World, k: nat)
    requires PendingPassed(w, w1, 0) && k < |w.rows|
    ensures SameDefects(PublishedAt(w, k), PublishedAt(w1, k))
  {
    assert PendingDone(w, w1, k, 0);
    if !w.rows[k].status.Draft? {
      SameAtReads(w.files, w1.files, FinalOf(w.rows[k]), w.rows[k].hash.preimage);
    }
  }

  lemma DefectsAddUp(w: World, k: nat)
    requires k < |w.rows|
    ensures var (now, rest, all) := (PublishedAt(w, k), ReportPublishedFrom(w, k + 1), ReportPublishedFrom(w, k));
      && all.missing == now.missing + rest.missing && all.mismatches == now.mismatches + rest.mismatches
      && all.orphans == now.orphans + rest.orphans && all.completed == now.completed + rest.completed
      && all.abandoned == now.abandoned + rest.abandoned
  {
  }

  /** Completing a pending manifest adds a healthy one and no defect. */
  lemma {:induction false} CompletionAddsNoDefect(w: World, w1: World, k: nat)
    requires PendingPassed(w, w1, 0)
    ensures SameDefects(ReportPublishedFrom(w, k), ReportPublishedFrom(w1, k))
    decreases |w.rows| - k
  {
    if k < |w.rows| {
      RowAddsNoDefect(w, w1, k);
      DefectsAddUp(w, k);
      DefectsAddUp(w1, k);
      CompletionAddsNoDefect(w, w1, k + 1);
    }
  }

  /** Both modes find the same strays: repair only moves names some manifest accounts for. */
  lemma SameStrays(w: World, w1: World, w2: World)
    requires PendingPassed(w, w1, 0) && PublishedPassed(w1, w2, 0)
    ensures Strays(w2.files, Uris(w1.rows, Published) + Uris(w.rows, Draft))
         == Strays(w.files, Uris(w.rows, Published) + Uris(w.rows, Draft))
  {
    var known := Uris(w.rows, Published) + Uris(w.rows, Draft);
    forall p ensures p in Uris(w1.rows, Published) + Uris(w.rows, Draft) <==> p in known {
      if p in Uris(w1.rows, Published) {
        var i: nat :| i < |w1.rows| && w1.rows[i].status == Published && FinalOf(w1.rows[i]) == p;
        assert PendingDone(w, w1, i, 0);
      }
      if p in Uris(w.rows, Published) {
        var i: nat :| i < |w.rows| && w.rows[i].status == Published && FinalOf(w.rows[i]) == p;
        assert PendingDone(w, w1, i, 0);
      }
    }
    assert Uris(w1.rows, Published) + Uris(w.rows, Draft) == known;
    forall d, v | Final(d, v) !in known ensures Final(d, v) in w2.files.names <==> Final(d, v) in w.files.names {
      forall i: nat | i < |w.rows| && (w.rows[i].status.Draft? || w.rows[i].status.Published?)
        ensures FinalOf(w.rows[i]) != Final(d, v)
      {
      }
      assert NotPending(w, d, v, 0);
      forall i: nat | i < |w1.rows| && w1.rows[i].status.Published?
        ensures w1.rows[i].day != d || w1.rows[i].version != v
      {
        assert PendingDone(w, w1, i, 0);
      }
      assert NotPublished(w1, d, v);
    }
  }

  lemma QuarantineAllFrame(files: Files, strays: set<Path>, p: Path)
    requires files.Valid() && strays <= files.names.Keys && (forall s :: s in strays ==> s.Final?)
    ensures QuarantineAll(files, strays).Valid()
    ensures p in strays ==> p !in QuarantineAll(files, strays).names
    ensures p !in strays && !p.Quarantined? ==> files.SameAt(QuarantineAll(files, strays), p)
  {
  }

  /** Clearing strays and sweeping temps leaves every accounted-for artifact as it was. */
  lemma ClearingFrame(w2: World, known: set<Path>, aged: set<Path>)
    requires w2.files.Valid()
    ensures var cleared := QuarantineAll(w2.files, Strays(w2.files, known));
      var w3 := w2.(files := cleared.(names := cleared.names - StaleTemps(cleared, aged)));
      && w3.files.Valid()
      && (forall d, v :: Final(d, v) in known ==> w2.files.SameAt(w3.files, Final(d, v)))
      && (forall d, v :: Final(d, v) in w3.files.names ==> Final(d, v) in known)
  {
    var strays := Strays(w2.files, known);
    forall p ensures QuarantineAll(w2.files, strays).Valid()
      && (p in strays ==> p !in QuarantineAll(w2.files, strays).names)
      && (p !in strays && !p.Quarantined? ==> w2.files.SameAt(QuarantineAll(w2.files, strays), p))
    {
      QuarantineAllFrame(w2.files, strays, p);
    }
    QuarantineAllFrame(w2.files, strays, Final(0, 0));
  }

  /** Neither pass raises, so repair is both of them and the clearing. */
  lemma RepairIsThreefold(w: World, aged: set<Path>)
    requires RowsSound(w)
    ensures var (w1, pending, _) := PendingPass(w, 0);
      var (w2, published, _) := PublishedPass(w1, 0);
      && PendingPassed(w, w1, 0) && PublishedPassed(w1, w2, 0) && RowsSound(w2)
      && pending == ReportPendingFrom(w, 0) && published == ReportPublishedFrom(w1, 0)
      && Repair(w, aged) == Clear(w2, w.rows, w1.rows, Plus(pending, published), aged)
  {
    PendingPassOutcome(w, 0);
    PublishedPassOutcome(PendingPass(w, 0).0, 0);
  }

  lemma RepairEndsSettled(w: World, aged: set<Path>)
    requires RowsSound(w)
    ensures var (w', _, raised) := Repair(w, aged); !raised && RowsSound(w') && Settled(w')
  {
    RepairIsThreefold(w, aged);
    var w1 := PendingPass(w, 0).0;
    RepairSettles(w, w1, PublishedPass(w1, 0).0, aged);
  }

  /** Both modes count alike, but for the manifests that already had all they needed. */
  predicate CountsAlike(report: Report, dry: Report) {
    && report.completed == dry.completed && report.abandoned == dry.abandoned
    && report.mismatches == dry.mismatches && report.missing == dry.missing && report.orphans == dry.orphans
  }

  lemma RepairCountsAlike(w: World, aged: set<Path>)
    requires RowsSound(w)
    ensures CountsAlike(Repair(w, aged).1, ReportOnly(w, aged))
  {
    RepairIsThreefold(w, aged);
    var w1 := PendingPass(w, 0).0;
    CompletionAddsNoDefect(w, w1, 0);
    SameStrays(w, w1, PublishedPass(w1, 0).0);
  }

  /**
    From any crashed state, with any damage to the files, one repair raises nothing, leaves nothing
    to do, and counts what a report-only run of the same state counts.
  */
  lemma RepairConverges(w: World, aged: set<Path>)
    requires RowsSound(w)
    ensures var (w', report, raised) := Repair(w, aged);
      !raised && RowsSound(w') && Settled(w') && CountsAlike(report, ReportOnly(w, aged))
  {
    RepairEndsSettled(w, aged);
    RepairCountsAlike(w, aged);
  }

  lemma RepairSettles(w: World, w1: World, w2: World, aged: set<Path>)
    requires PendingPassed(w, w1, 0) && PublishedPassed(w1, w2, 0) && RowsSound(w2)
    ensures var known := Uris(w1.rows, Published) + Uris(w.rows, Draft);
      var cleared := QuarantineAll(w2.files, Strays(w2.files, known));
      var w3 := w2.(files := cleared.(names := cleared.names - StaleTemps(cleared, aged)));
      RowsSound(w3) && Settled(w3)
  {
    var known := Uris(w1.rows, Published) + Uris(w.rows, Draft);
    var cleared := QuarantineAll(w2.files, Strays(w2.files, known));
    var w3 := w2.(files := cleared.(names := cleared.names - StaleTemps(cleared, aged)));
    ClearingFrame(w2, known, aged);
    forall i: nat | i < |w3.rows| ensures !w3.rows[i].status.Draft? {
      assert PendingDone(w, w1, i, 0);
    }
    forall i: nat | i < |w3.rows| && w3.rows[i].status.Published?
      ensures w2.files.SameAt(w3.files, FinalOf(w3.rows[i]))
      ensures Verifies(w3.files, w3.rows[i]) == Verifies(w2.files, w3.rows[i])
    {
      assert FinalOf(w1.rows[i]) in Uris(w1.rows, Published);
    }
    forall i: nat | i < |w3.rows| && w3.rows[i].status.Published? ensures SettledRow(w3, i) {
      assert PublishedDone(w1, w2, i, 0);
      ServedFrame(w2, w3, w3.rows[i].day);
    }
    forall d, v | Final(d, v) in w3.files.names ensures Final(d, v) in Uris(w3.rows, Published) {
      KnownArtifactIsPublished(w, w1, w2, Final(d, v));
    }
  }

  /** An accounted-for artifact still on disk after both passes belongs to a published manifest. */
  lemma KnownArtifactIsPublished(w: World, w1: World, w2: World, p: Path)
    requires PendingPassed(w, w1, 0) && PublishedPassed(w1, w2, 0)
    requires p in Uris(w1.rows, Published) + Uris(w.rows, Draft)
    ensures p in w2.files.names ==> p in Uris(w1.rows, Published)
  {
    if p in Uris(w.rows, Draft) {
      var i: nat :| i < |w.rows| && w.rows[i].status == Draft && FinalOf(w.rows[i]) == p;
      assert PendingDone(w, w1, i, 0);
      assert PublishedDone(w1, w2, i, 0);
      assert FinalOf(w1.rows[i]) == p;
    }
  }

  /** Recomputation reads no file but the served manifest's artifact. */
  lemma ServedFrame(w: World, w': World, day: Day)
    requires w'.rows == w.rows && w'.profiles == w.profiles && w'.gov == w.gov && w'.selections == w.selections
    requires forall i: nat :: i < |w.rows| && w.rows[i].status.Published? ==>
      Verifies(w'.files, w.rows[i]) == Verifies(w.files, w.rows[i])
    ensures Expected(w', day) == Expected(w, day)
  {
  }

  // ---- A second repair -------------------------------------------------------------------

  lemma {:induction false} SettledPendingPass(w: World, k: nat)
    requires Settled(w)
    ensures PendingPass(w, k) == (w, NOTHING, false)
    decreases |w.rows| - k
  {
    if k < |w.rows| { SettledPendingPass(w, k + 1); }
  }

  lemma {:induction false} SettledPublishedPass(w: World, k: nat)
    requires Settled(w)
    ensures PublishedPass(w, k).0 == w && !PublishedPass(w, k).2
    decreases |w.rows| - k
  {
    if k < |w.rows| {
      if w.rows[k].status.Published? {
        assert SettledRow(w, k);
        assert RepairPublished(w, k).0.index == w.index;
      }
      SettledPublishedPass(w, k + 1);
    }
  }

  lemma SettledHasNoStrays(w: World)
    requires Settled(w)
    ensures Strays(w.files, Uris(w.rows, Published) + Uris(w.rows, Draft)) == {}
    ensures QuarantineAll(w.files, {}) == w.files
  {
    forall p ensures p !in Strays(w.files, Uris(w.rows, Published) + Uris(w.rows, Draft)) {
      assert p.Final? && p in w.files.names ==> Final(p.day, p.version) in Uris(w.rows, Published);
    }
    NoStrays(w.files, Uris(w.rows, Published) + Uris(w.rows, Draft));
  }

  lemma SettledPasses(w: World)
    requires Settled(w)
    ensures PendingPass(w, 0) == (w, NOTHING, false) && PublishedPass(w, 0).0 == w && !PublishedPass(w, 0).2
    ensures PublishedPass(w, 0).1.completed == 0 && PublishedPass(w, 0).1.abandoned == 0
    ensures PublishedPass(w, 0).1.orphans == 0
  {
    SettledPendingPass(w, 0);
    SettledPublishedPass(w, 0);
    SettledReport(w, 0);
  }

  /** A settled archive is a fixed point, but for staging temps that have grown old. */
  lemma SecondRepairIsIdle(w: World, aged: set<Path>)
    requires Settled(w)
    ensures var (w', report, raised) := Repair(w, aged);
      && !raised && report.completed == 0 && report.abandoned == 0 && report.orphans == 0
      && w' == w.(files := w.files.(names := w.files.names - StaleTemps(w.files, aged)))
  {
    SettledPasses(w);
    SettledHasNoStrays(w);
    IdlePasses(w, aged);
  }

  lemma IdlePasses(w: World, aged: set<Path>)
    requires PendingPass(w, 0) == (w, NOTHING, false) && PublishedPass(w, 0).0 == w && !PublishedPass(w, 0).2
    requires Strays(w.files, Uris(w.rows, Published) + Uris(w.rows, Draft)) == {}
    requires QuarantineAll(w.files, {}) == w.files
    ensures var (w', report, raised) := Repair(w, aged);
      && w' == w.(files := w.files.(names := w.files.names - StaleTemps(w.files, aged))) && !raised
      && report == Plus(Plus(NOTHING, PublishedPass(w, 0).1), NOTHING.(stale := |StaleTemps(w.files, aged)|))
  {
    ClearAfterIdle(w, PublishedPass(w, 0).1, aged);
  }

  lemma ClearAfterIdle(w: World, published: Report, aged: set<Path>)
    requires Strays(w.files, Uris(w.rows, Published) + Uris(w.rows, Draft)) == {}
    requires QuarantineAll(w.files, {}) == w.files
    ensures Clear(w, w.rows, w.rows, Plus(NOTHING, published), aged) ==
      (w.(files := w.files.(names := w.files.names - StaleTemps(w.files, aged))),
       Plus(Plus(NOTHING, published), NOTHING.(stale := |StaleTemps(w.files, aged)|)), false)
  {
  }

  lemma NoStrays(files: Files, known: set<Path>)
    requires Strays(files, known) <= {}
    ensures Strays(files, known) == {} && QuarantineAll(files, {}) == files
  {
    assert QuarantineAll(files, {}).names == files.names;
  }

  lemma {:induction false} SettledReport(w: World, k: nat)
    requires Settled(w)
    ensures PublishedPass(w, k).1.completed == 0 && PublishedPass(w, k).1.abandoned == 0
    ensures PublishedPass(w, k).1.orphans == 0
    decreases |w.rows| - k
  {
    if k < |w.rows| {
      if w.rows[k].status.Published? {
        assert SettledRow(w, k);
        assert RepairPublished(w, k).0.index == w.index;
      }
      SettledReport(w, k + 1);
    }
  }

  // ---- Repair destroys no bytes ----------------------------------------------------------

  /** Every inode a name reached is still reached by some name, and no block was rewritten. */
  ghost predicate KeepsBytes(files: Files, files': Files) {
    files'.blocks == files.blocks && files.names.Values <= files'.names.Values
  }

  lemma RenameKeepsBytes(files: Files, from: Path, to: Path)
    requires from in files.names && to !in files.names
    ensures KeepsBytes(files, files.Rename(from, to))
  {
    var files' := files.Rename(from, to);
    forall n | n in files.names.Values ensures n in files'.names.Values {
      var p :| p in files.names && files.names[p] == n;
      assert (if p == from then to else p) in files'.names.Keys;
      assert files'.names[if p == from then to else p] == n;
    }
  }

  lemma SettleKeepsBytes(files: Files, m: Manifest)
    ensures KeepsBytes(files, SettleFiles(files, m))
  {
    var cleared := QuarantineIfCorrupt(files, m);
    if Corrupt(files, m) {
      RenameKeepsBytes(files, FinalOf(m), Quarantined(FinalOf(m), FreeSuffix(files.names.Keys, FinalOf(m), 0)));
    }
    if !Verifies(files, m) && cleared.Exists(TempOf(m)) {
      if cleared.Holds(TempOf(m), m.hash.preimage) {
        assert SettleFiles(files, m).names == cleared.Rename(TempOf(m), FinalOf(m)).names;
        RenameKeepsBytes(cleared, TempOf(m), FinalOf(m));
      } else {
        RenameKeepsBytes(cleared, TempOf(m), Quarantined(TempOf(m), FreeSuffix(cleared.names.Keys, TempOf(m), 0)));
      }
    }
  }

  lemma {:induction false} PendingPassKeepsBytes(w: World, k: nat)
    ensures KeepsBytes(w.files, PendingPass(w, k).0.files)
    decreases |w.rows| - k
  {
    if k < |w.rows| {
      if w.rows[k].status.Draft? {
        SettleKeepsBytes(w.files, w.rows[k]);
        if !RepairPending(w, k).1 { PendingPassKeepsBytes(RepairPending(w, k).0, k + 1); }
      } else {
        PendingPassKeepsBytes(w, k + 1);
      }
    }
  }

  lemma {:induction false} PublishedPassKeepsBytes(w: World, k: nat)
    ensures KeepsBytes(w.files, PublishedPass(w, k).0.files)
    decreases |w.rows| - k
  {
    if k < |w.rows| {
      if w.rows[k].status.Published? {
        var m := w.rows[k];
        if Corrupt(w.files, m) {
          RenameKeepsBytes(w.files, FinalOf(m), Quarantined(FinalOf(m), FreeSuffix(w.files.names.Keys, FinalOf(m), 0)));
        }
        if !RepairPublished(w, k).1 { PublishedPassKeepsBytes(RepairPublished(w, k).0, k + 1); }
      } else {
        PublishedPassKeepsBytes(w, k + 1);
      }
    }
  }

  lemma QuarantineAllKeepsBytes(files: Files, strays: set<Path>)
    requires strays <= files.names.Keys
    ensures KeepsBytes(files, QuarantineAll(files, strays))
  {
    var files' := QuarantineAll(files, strays);
    forall n | n in files.names.Values ensures n in files'.names.Values {
      var p :| p in files.names && files.names[p] == n;
      var q := if p in strays then Quarantined(p, FreeSuffix(files.names.Keys, p, 0)) else p;
      assert q in files'.names.Keys && files'.names[q] == n;
    }
  }

  /** Bad and stray artifacts are moved aside, never deleted: without a sweep every byte survives. */
  lemma RepairDestroysNothing(w: World)
    ensures KeepsBytes(w.files, Repair(w, {}).0.files)
  {
    PendingPassKeepsBytes(w, 0);
    var (w1, _, raised1) := PendingPass(w, 0);
    if !raised1 {
      PublishedPassKeepsBytes(w1, 0);
      var (w2, _, raised2) := PublishedPass(w1, 0);
      if !raised2 {
        var strays := Strays(w2.files, Uris(w1.rows, Published) + Uris(w.rows, Draft));
        QuarantineAllKeepsBytes(w2.files, strays);
        var cleared := QuarantineAll(w2.files, strays);
        assert cleared.names - StaleTemps(cleared, {}) == cleared.names;
      }
    }
  }
}
