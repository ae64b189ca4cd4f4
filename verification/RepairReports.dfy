/** What a repair sweeps, and that both modes count exactly what they found. */
module RepairReports {
  import opened Basics
  import opened Disk
  import opened Rows
  import opened Publication
  import opened Protocol
  import opened Reconcile
  import opened Convergence

  // ---- Staging temps ---------------------------------------------------------------------

  /** A pass leaves the temps of no pending manifest of its own alone. */
  lemma {:induction false} PendingPassSpares(w: World, k: nat, day: Day, version: nat)
    requires w.files.Valid() && NotPending(w, day, version, k)
    ensures var files' := PendingPass(w, k).0.files; files'.Valid() && w.files.SameAt(files', Temp(day, version))
    decreases |w.rows| - k
  {
    if k < |w.rows| {
      if w.rows[k].status.Draft? {
        SettleFrame(w.files, w.rows[k], Temp(day, version));
        var (w1, raised) := RepairPending(w, k);
        if !raised { PendingPassSpares(w1, k + 1, day, version); }
      } else {
        PendingPassSpares(w, k + 1, day, version);
      }
    }
  }

  lemma {:induction false} PublishedPassSpares(w: World, k: nat, day: Day, version: nat)
    requires w.files.Valid()
    ensures var files' := PublishedPass(w, k).0.files; files'.Valid() && w.files.SameAt(files', Temp(day, version))
    decreases |w.rows| - k
  {
    if k < |w.rows| {
      if w.rows[k].status.Published? {
        var (w1, raised) := RepairPublished(w, k);
        assert w1.files.Valid() && w.files.SameAt(w1.files, Temp(day, version));
        if !raised { PublishedPassSpares(w1, k + 1, day, version); }
      } else {
        PublishedPassSpares(w, k + 1, day, version);
      }
    }
  }

  /** The staging temps among these names that are on disk. */
  function TempsAmong(files: Files, aged: set<Path>): set<Path> {
    set p | p in aged && p.Temp? && p in files.names
  }

  lemma AgedTempsAreStale(files: Files, aged: set<Path>)
    ensures StaleTemps(files, aged) == TempsAmong(files, aged)
  {
  }

  /** The last stage removes the old temps, counts them, and leaves the rest. */
  lemma ClearSweeps(w: World, before: seq<Manifest>, after: seq<Manifest>, report: Report, aged: set<Path>)
    requires w.files.Valid()
    ensures var (w', told, _) := Clear(w, before, after, report, aged);
      && (forall d, v :: Temp(d, v) in aged ==> Temp(d, v) !in w'.files.names)
      && (forall d, v :: Temp(d, v) !in aged ==> w.files.SameAt(w'.files, Temp(d, v)))
      && told.stale == report.stale + |TempsAmong(w.files, aged)|
  {
    var strays := Strays(w.files, Uris(after, Published) + Uris(before, Draft));
    var cleared := QuarantineAll(w.files, strays);
    forall d, v ensures w.files.SameAt(cleared, Temp(d, v)) { QuarantineAllFrame(w.files, strays, Temp(d, v)); }
    assert StaleTemps(cleared, aged) == TempsAmong(w.files, aged);
  }

  /**
    A repair that ends removes every old staging temp, and none that is not old but those of the manifests it settled:
    any other is there afterwards, with the same bytes, exactly when it was there before.
  */
  lemma SweepIsExact(w: World, aged: set<Path>)
    requires w.files.Valid()
    ensures var (w', _, raised) := Repair(w, aged);
      !raised ==>
        && (forall d, v :: Temp(d, v) in aged ==> Temp(d, v) !in w'.files.names)
        && (forall d, v :: Temp(d, v) !in aged && NotPending(w, d, v, 0) ==> w.files.SameAt(w'.files, Temp(d, v)))
  {
    var (w1, pending, raised1) := PendingPass(w, 0);
    PendingPassValid(w, 0);
    if !raised1 {
      var (w2, published, raised2) := PublishedPass(w1, 0);
      PublishedPassSpares(w1, 0, 0, 0);
      if !raised2 {
        ClearSweeps(w2, w.rows, w1.rows, Plus(pending, published), aged);
        forall d, v | Temp(d, v) !in aged && NotPending(w, d, v, 0)
          ensures w.files.SameAt(w2.files, Temp(d, v))
        {
          PendingPassSpares(w, 0, d, v);
          PublishedPassSpares(w1, 0, d, v);
        }
      }
    }
  }

  lemma {:induction false} PendingPassValid(w: World, k: nat)
    requires w.files.Valid()
    ensures PendingPass(w, k).0.files.Valid()
    decreases |w.rows| - k
  {
    if k < |w.rows| {
      if w.rows[k].status.Draft? {
        SettleFrame(w.files, w.rows[k], Temp(w.rows[k].day, w.rows[k].version + 1));
        var (w1, raised) := RepairPending(w, k);
        if !raised { PendingPassValid(w1, k + 1); }
      } else {
        PendingPassValid(w, k + 1);
      }
    }
  }

  /** A temp the passes leave: its pending manifest, if it has one, needs nothing from it. */
  predicate TempLeft(w: World, k: nat, p: Path) {
    && p.Temp? && p in w.files.names
    && forall i: nat :: k <= i < |w.rows| ==> !NeedsTemp(w, i, p)
  }

  /** A pending manifest's own temp, when its final artifact does not read back. */
  predicate NeedsTemp(w: World, i: nat, p: Path)
    requires i < |w.rows|
  {
    w.rows[i].status.Draft? && TempOf(w.rows[i]) == p && !Verifies(w.files, w.rows[i])
  }

  /** The old temps the passes leave. */
  function Unclaimed(w: World, aged: set<Path>): set<Path> {
    set p | p in aged && TempLeft(w, 0, p)
  }

  lemma {:induction false} PendingPassTemps(w: World, k: nat, p: Path)
    requires RowsSound(w) && k <= |w.rows| && p.Temp?
    ensures p in PendingPass(w, k).0.files.names <==> TempLeft(w, k, p)
    decreases |w.rows| - k
  {
    if k < |w.rows| {
      if w.rows[k].status.Draft? {
        var (w1, raised) := RepairPending(w, k);
        PendingStep(w, k);
        PendingPassTemps(w1, k + 1, p);
        TempAfterStep(w, w1, k, p);
      } else {
        PendingPassTemps(w, k + 1, p);
      }
    }
  }

  lemma TempAfterStep(w: World, w1: World, k: nat, p: Path)
    requires RowsSound(w) && k < |w.rows| == |w1.rows| && w.rows[k].status.Draft? && p.Temp?
    requires w1 == RepairPending(w, k).0 && forall i: nat :: i < |w.rows| && i != k ==> Untouched(w, w1, i)
    ensures TempLeft(w1, k + 1, p) <==> TempLeft(w, k, p)
  {
    var m := w.rows[k];
    if p == TempOf(m) {
      forall i: nat | k < i < |w.rows| ensures !NeedsTemp(w1, i, p) && !NeedsTemp(w, i, p) {
        assert Untouched(w, w1, i);
        if TempOf(w.rows[i]) == p { VersionsIdentify(w.rows, i, k); }
      }
      assert p in w1.files.names <==> p in w.files.names && !NeedsTemp(w, k, p);
    } else {
      SettleFrame(w.files, m, p);
      forall i: nat | k < i < |w.rows| ensures NeedsTemp(w1, i, p) == NeedsTemp(w, i, p) {
        assert Untouched(w, w1, i);
        SameAtReads(w.files, w1.files, FinalOf(w.rows[i]), w.rows[i].hash.preimage);
      }
    }
  }

  /** From sound rows, the sweep counts the old temps the two passes had no use for. */
  lemma SweepIsCounted(w: World, aged: set<Path>)
    requires RowsSound(w)
    ensures Repair(w, aged).1.stale == |Unclaimed(w, aged)|
  {
    var w1, w2, told := LastStage(w, aged);
    ClearSweeps(w2, w.rows, w1.rows, told, aged);
    PassesLeave(w, w1, aged);
  }

  /** What the last stage is given: what the passes left, and a report that counts no temp. */
  lemma LastStage(w: World, aged: set<Path>) returns (w1: World, w2: World, told: Report)
    requires RowsSound(w)
    ensures w1 == PendingPass(w, 0).0 && w1.files.Valid() && w2 == PublishedPass(w1, 0).0 && w2.files.Valid()
    ensures told.stale == 0 && Repair(w, aged) == Clear(w2, w.rows, w1.rows, told, aged)
  {
    RepairIsThreefold(w, aged);
    w1 := PendingPass(w, 0).0;
    w2 := PublishedPass(w1, 0).0;
    told := Plus(PendingPass(w, 0).1, PublishedPass(w1, 0).1);
    PendingTellsNoMore(w, 0);
    PublishedTellsNoMore(w1, 0);
  }

  lemma PassesLeave(w: World, w1: World, aged: set<Path>)
    requires RowsSound(w) && w1 == PendingPass(w, 0).0 && w1.files.Valid()
    ensures TempsAmong(PublishedPass(w1, 0).0.files, aged) == Unclaimed(w, aged)
  {
    forall p: Path | p.Temp? ensures p in PublishedPass(w1, 0).0.files.names <==> TempLeft(w, 0, p) {
      PendingPassTemps(w, 0, p);
      PublishedPassSpares(w1, 0, p.day, p.version);
    }
  }

  // ---- The other counts ------------------------------------------------------------------

  /** What can be said of a pending manifest's payload and artifact, and of a published one's artifact and profile. */
  datatype Finding = Recoverable | Lost | Spoilt | Unreadable | Unprofiled | Sound

  predicate Found(w: World, i: nat, finding: Finding)
    requires i < |w.rows|
  {
    var m := w.rows[i];
    match finding
    case Recoverable => m.status.Draft? && Ready(w.files, m)
    case Lost => m.status.Draft? && !Ready(w.files, m)
    case Spoilt => m.status.Draft? && Corrupt(w.files, m)
    case Unreadable => m.status.Published? && !Verifies(w.files, m)
    case Unprofiled => m.status.Published? && Verifies(w.files, m) && i !in w.profiles
    case Sound => m.status.Published? && Verifies(w.files, m) && i in w.profiles
  }

  /** The rows from k on of which this is true. */
  function Among(k: nat, n: nat, p: nat -> bool): set<nat> {
    set i: nat | k <= i < n && p(i)
  }

  lemma AmongNext(k: nat, n: nat, p: nat -> bool)
    requires k < n
    ensures |Among(k, n, p)| == |Among(k + 1, n, p)| + if p(k) then 1 else 0
  {
    assert Among(k, n, p) == Among(k + 1, n, p) + if p(k) then {k} else {};
  }

  function Finder(w: World, finding: Finding): nat -> bool {
    (i: nat) => i < |w.rows| && Found(w, i, finding)
  }

  /** How many manifests, from row k on, it can be said of. */
  function CountFrom(w: World, k: nat, finding: Finding): nat {
    |Among(k, |w.rows|, Finder(w, finding))|
  }

  function HowMany(w: World, finding: Finding): nat {
    CountFrom(w, 0, finding)
  }

  lemma CountNext(w: World, k: nat, finding: Finding)
    requires k < |w.rows|
    ensures CountFrom(w, k, finding) == CountFrom(w, k + 1, finding) + if Found(w, k, finding) then 1 else 0
  {
    AmongNext(k, |w.rows|, Finder(w, finding));
  }

  predicate OfPending(finding: Finding) {
    finding.Recoverable? || finding.Lost? || finding.Spoilt?
  }

  /** The count a report keeps of it. */
  function Told(report: Report, finding: Finding): nat {
    match finding
    case Recoverable => report.completed
    case Lost => report.abandoned
    case Spoilt | Unreadable => report.mismatches
    case Unprofiled => report.missing
    case Sound => report.healthy
  }

  lemma {:induction false} PendingCounts(w: World, k: nat, finding: Finding)
    requires k <= |w.rows| && OfPending(finding)
    ensures Told(ReportPendingFrom(w, k), finding) == CountFrom(w, k, finding)
    decreases |w.rows| - k
  {
    if k < |w.rows| {
      PendingCounts(w, k + 1, finding);
      CountNext(w, k, finding);
    }
  }

  lemma PublishedSplits(w: World, k: nat)
    requires k < |w.rows|
    ensures ReportPublishedFrom(w, k) == Plus(PublishedAt(w, k), ReportPublishedFrom(w, k + 1))
  {
    var rest := ReportPublishedFrom(w, k + 1);
    if w.rows[k].status.Published? {
      var report := PublishedReport(w, k);
      assert ReportPublishedFrom(w, k) == Plus(report, rest);
    } else {
      PlusNothing(rest);
      assert ReportPublishedFrom(w, k) == rest;
    }
  }

  lemma PlusNothing(report: Report)
    ensures Plus(NOTHING, report) == report
  {
  }

  lemma PublishedFinds(w: World, k: nat, finding: Finding)
    requires k < |w.rows| && !OfPending(finding)
    ensures Told(PublishedAt(w, k), finding) == if Found(w, k, finding) then 1 else 0
  {
  }

  lemma {:induction false} PublishedCounts(w: World, k: nat, finding: Finding)
    requires k <= |w.rows| && !OfPending(finding)
    ensures Told(ReportPublishedFrom(w, k), finding) == CountFrom(w, k, finding)
    decreases |w.rows| - k
  {
    if k < |w.rows| {
      PublishedCounts(w, k + 1, finding);
      CountNext(w, k, finding);
      PublishedTells(w, k, finding);
    }
  }

  lemma PublishedTells(w: World, k: nat, finding: Finding)
    requires k < |w.rows| && !OfPending(finding)
    ensures Told(ReportPublishedFrom(w, k), finding) ==
      Told(ReportPublishedFrom(w, k + 1), finding) + if Found(w, k, finding) then 1 else 0
  {
    PublishedSplits(w, k);
    PublishedFinds(w, k, finding);
    ToldAddsUp(PublishedAt(w, k), ReportPublishedFrom(w, k + 1), finding);
  }

  lemma ToldAddsUp(a: Report, b: Report, finding: Finding)
    ensures Told(Plus(a, b), finding) == Told(a, finding) + Told(b, finding)
  {
  }

  /** Neither pass counts what the other one looks for, or what the clearing does. */
  lemma {:induction false} PendingTellsNoMore(w: World, k: nat)
    ensures var report := ReportPendingFrom(w, k);
      report.missing == 0 && report.orphans == 0 && report.stale == 0 && report.healthy == 0
    decreases |w.rows| - k
  {
    if k < |w.rows| { PendingTellsNoMore(w, k + 1); }
  }

  /** No pending manifest, stray or temp. */
  predicate OnlyPublished(report: Report) {
    report.completed == 0 && report.abandoned == 0 && report.orphans == 0 && report.stale == 0
  }

  lemma {:induction false} PublishedTellsNoMore(w: World, k: nat)
    ensures OnlyPublished(ReportPublishedFrom(w, k))
    decreases |w.rows| - k
  {
    if k < |w.rows| {
      PublishedTellsNoMore(w, k + 1);
      PublishedSplits(w, k);
      OnlyPublishedAt(w, k, ReportPublishedFrom(w, k + 1));
    }
  }

  lemma OnlyPublishedAt(w: World, k: nat, rest: Report)
    requires k < |w.rows| && OnlyPublished(rest)
    ensures OnlyPublished(Plus(PublishedAt(w, k), rest))
  {
  }

  /** An artifact no published or pending manifest names. */
  predicate Stray(w: World, p: Path) {
    && p.Final? && p in w.files.names
    && forall i :: 0 <= i < |w.rows| && !w.rows[i].status.Withdrawn? ==> FinalOf(w.rows[i]) != p
  }

  function StraysOf(w: World): set<Path> {
    set p | p in w.files.names && Stray(w, p)
  }

  lemma StraysAreUnnamed(w: World)
    ensures Strays(w.files, Uris(w.rows, Published) + Uris(w.rows, Draft)) == StraysOf(w)
  {
    var known := Uris(w.rows, Published) + Uris(w.rows, Draft);
    forall p ensures p in Strays(w.files, known) <==> p in StraysOf(w) {
      if p in known {
        var i :| 0 <= i < |w.rows| && !w.rows[i].status.Withdrawn? && FinalOf(w.rows[i]) == p;
      }
    }
  }

  /** Both assessments, each finding counted. */
  lemma PassesCount(w: World, w1: World)
    ensures var (pending, published) := (ReportPendingFrom(w, 0), ReportPublishedFrom(w1, 0));
      && pending == Report(HowMany(w, Recoverable), HowMany(w, Lost), 0, 0, HowMany(w, Spoilt), 0, 0)
      && published == Report(0, 0, HowMany(w1, Unprofiled), 0, HowMany(w1, Unreadable), 0, HowMany(w1, Sound))
  {
    PendingTellsNoMore(w, 0);
    PublishedTellsNoMore(w1, 0);
    PendingCounts(w, 0, Recoverable);
    PendingCounts(w, 0, Lost);
    PendingCounts(w, 0, Spoilt);
    PublishedCounts(w1, 0, Unreadable);
    PublishedCounts(w1, 0, Unprofiled);
    PublishedCounts(w1, 0, Sound);
  }

  /** What a report says of the manifests is so. */
  predicate Counts(w: World, report: Report) {
    && report.completed == HowMany(w, Recoverable) && report.abandoned == HowMany(w, Lost)
    && report.missing == HowMany(w, Unprofiled) && report.mismatches == HowMany(w, Spoilt) + HowMany(w, Unreadable)
  }

  lemma PassesAddUp(w: World, pending: Report, published: Report, clearing: Report)
    requires pending == Report(HowMany(w, Recoverable), HowMany(w, Lost), 0, 0, HowMany(w, Spoilt), 0, 0)
    requires published == Report(0, 0, HowMany(w, Unprofiled), 0, HowMany(w, Unreadable), 0, HowMany(w, Sound))
    requires clearing == NOTHING.(orphans := clearing.orphans, stale := clearing.stale)
    ensures var report := Plus(Plus(pending, published), clearing);
      Counts(w, report) && report.healthy == HowMany(w, Sound)
  {
  }

  /** Each count of a report-only run is the number of things it is a count of. */
  lemma ReportCounts(w: World, aged: set<Path>)
    ensures Counts(w, ReportOnly(w, aged)) && ReportOnly(w, aged).healthy == HowMany(w, Sound)
  {
    var clearing := ReportIsThreefold(w, aged);
    PassesCount(w, w);
    PassesAddUp(w, ReportPendingFrom(w, 0), ReportPublishedFrom(w, 0), clearing);
  }

  lemma ReportIsThreefold(w: World, aged: set<Path>) returns (clearing: Report)
    ensures ReportOnly(w, aged) == Plus(Plus(ReportPendingFrom(w, 0), ReportPublishedFrom(w, 0)), clearing)
    ensures clearing == NOTHING.(orphans := clearing.orphans, stale := clearing.stale)
  {
    var strays := Strays(w.files, Uris(w.rows, Published) + Uris(w.rows, Draft));
    clearing := NOTHING.(orphans := |strays|, stale := |StaleTemps(w.files, aged)|);
  }

  /** What a report-only run says it would clear: the artifacts nothing names, and every old temp. */
  lemma ClearingCounts(w: World, aged: set<Path>)
    ensures ReportOnly(w, aged).orphans == |StraysOf(w)| && ReportOnly(w, aged).stale == |TempsAmong(w.files, aged)|
  {
    StraysAreUnnamed(w);
    AgedTempsAreStale(w.files, aged);
    PendingTellsNoMore(w, 0);
    PublishedTellsNoMore(w, 0);
  }

  /**
    From sound rows a repair counts the same, told of the archive it found; but it sweeps no temp it has just promoted
    or set aside, and finds the manifests it completed sound.
  */
  lemma RepairCounts(w: World, aged: set<Path>)
    requires RowsSound(w)
    ensures var report := Repair(w, aged).1;
      && Counts(w, report) && report.orphans == |StraysOf(w)| && report.stale == |Unclaimed(w, aged)|
      && report.healthy == HowMany(w, Sound) + HowMany(w, Recoverable)
  {
    RepairConverges(w, aged);
    ReportCounts(w, aged);
    ClearingCounts(w, aged);
    SweepIsCounted(w, aged);
    HealthyIsCounted(w, aged);
  }

  lemma HealthyIsCounted(w: World, aged: set<Path>)
    requires RowsSound(w)
    ensures Repair(w, aged).1.healthy == HowMany(w, Sound) + HowMany(w, Recoverable)
  {
    RepairIsThreefold(w, aged);
    var w1 := PendingPass(w, 0).0;
    PassesCount(w, w1);
    CompletedAreSound(w, w1);
  }

  lemma CompletedAreSound(w: World, w1: World)
    requires PendingPassed(w, w1, 0)
    ensures HowMany(w1, Sound) == HowMany(w, Sound) + HowMany(w, Recoverable)
  {
    var n := |w.rows|;
    var (sound, recoverable) := (Among(0, n, Finder(w, Sound)), Among(0, n, Finder(w, Recoverable)));
    forall i: nat ensures i in Among(0, n, Finder(w1, Sound)) <==> i in sound + recoverable {
      if i < n {
        assert PendingDone(w, w1, i, 0);
        if !w.rows[i].status.Draft? {
          SameAtReads(w.files, w1.files, FinalOf(w.rows[i]), w.rows[i].hash.preimage);
        }
      }
    }
    assert Among(0, n, Finder(w1, Sound)) == sound + recoverable && sound !! recoverable;
  }
}
