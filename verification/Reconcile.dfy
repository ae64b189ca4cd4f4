/**
  Recovery for every interrupted-publication state. Pending manifests are completed or withdrawn,
  published ones verified, strays quarantined; report-only unless repairing.
*/
module Reconcile {
  import opened Basics
  import opened Disk
  import opened Editorial
  import opened Rows
  import opened Publication
  import opened Coverage

  datatype Report = Report(
    completed: nat, abandoned: nat, missing: nat, orphans: nat, mismatches: nat, stale: nat, healthy: nat)

  const NOTHING := Report(0, 0, 0, 0, 0, 0, 0)

  function Plus(a: Report, b: Report): Report {
    Report(a.completed + b.completed, a.abandoned + b.abandoned, a.missing + b.missing, a.orphans + b.orphans,
           a.mismatches + b.mismatches, a.stale + b.stale, a.healthy + b.healthy)
  }

  /** The pending manifest's payload survives somewhere. */
  predicate Ready(files: Files, m: Manifest) {
    Verifies(files, m) || files.Holds(TempOf(m), m.hash.preimage)
  }

  /** A final artifact is there but fails its hash check. */
  predicate Corrupt(files: Files, m: Manifest) {
    files.Exists(FinalOf(m)) && !Verifies(files, m)
  }

  function QuarantineIfCorrupt(files: Files, m: Manifest): Files {
    if Corrupt(files, m) then Quarantine(files, FinalOf(m)) else files
  }

  /** What repair does to a pending manifest's two names. */
  function SettleFiles(files: Files, m: Manifest): Files {
    var cleared := QuarantineIfCorrupt(files, m);
    if Verifies(files, m) || !cleared.Exists(TempOf(m)) then cleared
    else if cleared.Holds(TempOf(m), m.hash.preimage)
    then cleared.Link(TempOf(m), FinalOf(m)).Unlink(TempOf(m))
    else Quarantine(cleared, TempOf(m))
  }

  /** _ensure_day_profile raises: the manifest supersedes one that has no day profile. */
  predicate Orphaned(w: World, id: nat)
    requires id < |w.rows|
  {
    id !in w.profiles && w.rows[id].supersedes.Some? && w.rows[id].supersedes.value !in w.profiles
  }

  function WithProfile(profiles: seq<nat>, id: nat): seq<nat> {
    if id in profiles then profiles else profiles + [id]
  }

  /** One pending manifest; the flag says the pass raised there. */
  function RepairPending(w: World, id: nat): (World, bool)
    requires id < |w.rows|
  {
    var m := w.rows[id];
    var settled := w.(files := SettleFiles(w.files, m));
    if !Ready(w.files, m) then (settled.(rows := SetStatus(w.rows, id, Withdrawn)), false)
    else if Orphaned(w, id) then (settled, true)
    else (ReconcileDate(settled.(rows := SetStatus(w.rows, id, Published), profiles := WithProfile(w.profiles, id)),
                        m.day), false)
  }

  function PendingReport(files: Files, m: Manifest): Report {
    Report(if Ready(files, m) then 1 else 0, if Ready(files, m) then 0 else 1, 0, 0,
           if Corrupt(files, m) then 1 else 0, 0, 0)
  }

  /** One published manifest. */
  function RepairPublished(w: World, id: nat): (World, bool)
    requires id < |w.rows|
  {
    var m := w.rows[id];
    if !Verifies(w.files, m) then (ReconcileDate(w.(files := QuarantineIfCorrupt(w.files, m)), m.day), false)
    else if id in w.profiles then (w, false)
    else if Orphaned(w, id) then (w, true)
    else (ReconcileDate(w.(profiles := WithProfile(w.profiles, id)), m.day), false)
  }

  function PublishedReport(w: World, id: nat): Report
    requires id < |w.rows|
  {
    if !Verifies(w.files, w.rows[id]) then NOTHING.(mismatches := 1)
    else if id !in w.profiles then NOTHING.(missing := 1)
    else NOTHING.(healthy := 1)
  }

  /** The passes over the rows from k on; a raise stops the pass. */
  function PendingPass(w: World, k: nat): (r: (World, Report, bool))
    ensures |r.0.rows| == |w.rows|
    decreases |w.rows| - k
  {
    if k >= |w.rows| then (w, NOTHING, false)
    else if !w.rows[k].status.Draft? then PendingPass(w, k + 1)
    else
      var report := PendingReport(w.files, w.rows[k]);
      var (w1, raised) := RepairPending(w, k);
      if raised then (w1, report, true)
      else
        var (w2, rest, later) := PendingPass(w1, k + 1);
        (w2, Plus(report, rest), later)
  }

  function PublishedPass(w: World, k: nat): (r: (World, Report, bool))
    ensures r.0.rows == w.rows
    decreases |w.rows| - k
  {
    if k >= |w.rows| then (w, NOTHING, false)
    else if !w.rows[k].status.Published? then PublishedPass(w, k + 1)
    else
      var report := PublishedReport(w, k);
      var (w1, raised) := RepairPublished(w, k);
      if raised then (w1, report, true)
      else
        var (w2, rest, later) := PublishedPass(w1, k + 1);
        (w2, Plus(report, rest), later)
  }

  /** The artifact names of the manifests with this status. */
  function Uris(rows: seq<Manifest>, status: Status): (uris: set<Path>)
    ensures forall p :: p in uris <==> exists i :: 0 <= i < |rows| && rows[i].status == status && FinalOf(rows[i]) == p
  {
    set m | m in rows && m.status == status :: FinalOf(m)
  }

  /** Final artifacts no published or pending manifest accounts for. */
  function Strays(files: Files, known: set<Path>): set<Path> {
    set p | p in files.names && p.Final? && p !in known
  }

  /** Move every stray aside, each to its own free quarantine name. */
  function QuarantineAll(files: Files, strays: set<Path>): Files {
    files.(names := map p |
      p in files.names.Keys - strays + set s | s in strays :: Quarantined(s, FreeSuffix(files.names.Keys, s, 0)) ::
        if p in files.names && p !in strays then files.names[p]
        else if p.Quarantined? && p.original in files.names then files.names[p.original] else 0)
  }

  /** Staging temps old enough to sweep. */
  function StaleTemps(files: Files, aged: set<Path>): set<Path> {
    set p | p in aged && p in files.names && p.Temp?
  }

  /** Clear strays and old temps; a name is accounted for by a row pending at first or published by now. */
  function Clear(w: World, before: seq<Manifest>, after: seq<Manifest>, report: Report, aged: set<Path>): (World,
                 Report, bool) {
    var strays := Strays(w.files, Uris(after, Published) + Uris(before, Draft));
    var cleared := QuarantineAll(w.files, strays);
    var stale := StaleTemps(cleared, aged);
    (w.(files := cleared.(names := cleared.names - stale)),
     Plus(report, NOTHING.(orphans := |strays|, stale := |stale|)), false)
  }

  /** reconcile_publications(repair=True). */
  function Repair(w: World, aged: set<Path>): (World, Report, bool) {
    var (w1, pending, raised1) := PendingPass(w, 0);
    if raised1 then (w1, pending, true)
    else
      var (w2, published, raised2) := PublishedPass(w1, 0);
      if raised2 then (w2, Plus(pending, published), true)
      else Clear(w2, w.rows, w1.rows, Plus(pending, published), aged)
  }

  function ReportPendingFrom(w: World, k: nat): Report
    decreases |w.rows| - k
  {
    if k >= |w.rows| then NOTHING
    else if w.rows[k].status.Draft? then Plus(PendingReport(w.files, w.rows[k]), ReportPendingFrom(w, k + 1))
    else ReportPendingFrom(w, k + 1)
  }

  function ReportPublishedFrom(w: World, k: nat): Report
    decreases |w.rows| - k
  {
    if k >= |w.rows| then NOTHING
    else if w.rows[k].status.Published? then Plus(PublishedReport(w, k), ReportPublishedFrom(w, k + 1))
    else ReportPublishedFrom(w, k + 1)
  }

  /** reconcile_publications(repair=False): the same assessment, nothing moved. */
  function ReportOnly(w: World, aged: set<Path>): Report {
    var strays := Strays(w.files, Uris(w.rows, Published) + Uris(w.rows, Draft));
    Plus(Plus(ReportPendingFrom(w, 0), ReportPublishedFrom(w, 0)),
         NOTHING.(orphans := |strays|, stale := |StaleTemps(w.files, aged)|))
  }
}
