/**
  Any number of publishers, interleaved file step by database step, any of which may crash or
  abort between two steps.
*/
module Protocol {
  import opened Basics
  import opened Disk
  import opened Editorial
  import opened Rows
  import opened Publication

  datatype System = System(w: World, procs: map<nat, Phase>)

  datatype Action =
    | Begin(pid: nat, req: Request)
    | Step(pid: nat)
    | Abort(pid: nat)      // phase one raises: rollback, then discard
    | Crash(pid: nat)      // the process dies; the database rolls back what it had not committed

  /** No publisher is inside phase one for this date. */
  predicate LockFree(s: System, day: Day) {
    forall pid :: pid in s.procs && InPhaseOne(s.procs[pid]) ==> s.procs[pid].req.day != day
  }

  function Continued(procs: map<nat, Phase>, pid: nat, next: Continuation): map<nat, Phase> {
    match next
    case Continue(ph) => procs[pid := ph]
    case Done(_) => procs - {pid}
  }

  /** Whether an action can fire: the lock is exclusive, and completion takes it again. */
  predicate Enabled(s: System, a: Action) {
    match a
    case Begin(pid, req) => pid !in s.procs && LockFree(s, req.day)
    case Step(pid) => pid in s.procs && InRange(s.w, s.procs[pid])
                      && (s.procs[pid].Finalized? ==> LockFree(s, s.procs[pid].req.day))
    case Abort(pid) => pid in s.procs && InPhaseOne(s.procs[pid]) && InRange(s.w, s.procs[pid])
    case Crash(pid) => pid in s.procs
  }

  function Next(s: System, a: Action): System
    requires s.w.files.Valid() && Enabled(s, a)
  {
    match a
    case Begin(pid, req) =>
      var (w, next) := Start(s.w, req);
      System(w, Continued(s.procs, pid, next))
    case Step(pid) =>
      var (w, next) := Advance(s.w, s.procs[pid]);
      System(w, Continued(s.procs, pid, next))
    case Abort(pid) => System(Discard(s.w, s.procs[pid]), s.procs - {pid})
    case Crash(pid) => s.(procs := s.procs - {pid})
  }

  // ---- What every step keeps -------------------------------------------------------------

  predicate Follows(rows: seq<Manifest>, i: nat)
    requires i < |rows|
  {
    rows[i].version == MaxVersion(rows[..i], rows[i].day) + 1
  }

  ghost predicate VersionsFollow(rows: seq<Manifest>) {
    forall i :: 0 <= i < |rows| ==> Follows(rows, i)
  }

  /** Versions follow each other without gap or reuse, and only the newest row can be a DRAFT. */
  ghost predicate RowsOk(rows: seq<Manifest>) {
    && VersionsFollow(rows)
    && (forall i: nat :: i < |rows| ==> NewestIfDraft(rows, i))
  }

  ghost predicate NewestIfDraft(rows: seq<Manifest>, i: nat)
    requires i < |rows|
  {
    rows[i].status.Draft? ==> forall j :: i < j < |rows| ==> rows[j].day != rows[i].day
  }

  /** Exactly the PUBLISHED manifests have a day profile, and each has one. */
  ghost predicate ProfilesOk(rows: seq<Manifest>, profiles: seq<nat>) {
    && (forall i, j :: 0 <= i < j < |profiles| ==> profiles[i] != profiles[j])
    && (forall id: nat :: id in profiles <==> id < |rows| && rows[id].status.Published?)
  }

  /** A predecessor is an earlier, profiled manifest of the same date, with one successor at most. */
  ghost predicate SuccessorsOk(rows: seq<Manifest>, profiles: seq<nat>) {
    forall i: nat :: i < |rows| ==> SuccessorOk(rows, profiles, i)
  }

  ghost predicate SuccessorOk(rows: seq<Manifest>, profiles: seq<nat>, i: nat)
    requires i < |rows|
  {
    rows[i].supersedes.Some? ==>
      && Precedes(rows, profiles, rows[i].supersedes.value, rows[i].day)
      && rows[i].supersedes.value < i
      && forall j :: 0 <= j < i ==> rows[j].supersedes != rows[i].supersedes
  }

  ghost predicate Precedes(rows: seq<Manifest>, profiles: seq<nat>, id: nat, day: Day) {
    id < |rows| && rows[id].day == day && id in profiles
  }

  ghost predicate TablesOk(rows: seq<Manifest>, profiles: seq<nat>) {
    RowsOk(rows) && ProfilesOk(rows, profiles) && SuccessorsOk(rows, profiles)
  }

  /** A DRAFT's exact payload is promoted, or still staged. */
  predicate Recoverable(files: Files, m: Manifest) {
    if files.Exists(FinalOf(m)) then Verifies(files, m) else files.Holds(TempOf(m), m.hash.preimage)
  }

  /** A PUBLISHED artifact reads back, or was lost and is gone; a WITHDRAWN one is gone. */
  predicate ArtifactOk(files: Files, m: Manifest) {
    match m.status
    case Draft => Recoverable(files, m)
    case Published => files.Exists(FinalOf(m)) ==> Verifies(files, m)
    case Withdrawn => !files.Exists(FinalOf(m))
  }

  predicate Known(rows: seq<Manifest>, day: Day, version: nat) {
    exists i :: 0 <= i < |rows| && rows[i].day == day && rows[i].version == version
  }

  ghost predicate FilesOk(w: World) {
    && w.files.Valid() && OnlyPartnersShare(w.files)
    && (forall i :: 0 <= i < |w.rows| ==> ArtifactOk(w.files, w.rows[i]))
    && (forall d, v :: Final(d, v) in w.files.names ==> Known(w.rows, d, v))
  }

  /** A phase-one target under the lock: still the next version, or still the pending DRAFT. */
  ghost predicate TargetOk(w: World, req: Request, target: Target) {
    match target
    case Fresh(v) =>
      && v == MaxVersion(w.rows, req.day) + 1
      && (forall i :: 0 <= i < |w.rows| && w.rows[i].day == req.day ==> !w.rows[i].status.Draft?)
      && (req.supersedes.Some? ==>
            && Precedes(w.rows, w.profiles, req.supersedes.value, req.day)
            && forall i :: 0 <= i < |w.rows| && w.rows[i].day == req.day ==> w.rows[i].supersedes != req.supersedes)
    case Resume(id) => OwnRow(w, req, id) && w.rows[id].status.Draft?
  }

  ghost predicate OwnRow(w: World, req: Request, id: nat) {
    id < |w.rows| && w.rows[id].day == req.day && w.rows[id].hash == Hash(req.payload)
  }

  /** The row a publisher committed: nothing withdraws it while its publisher lives. */
  ghost predicate LiveRow(w: World, req: Request, id: nat) {
    OwnRow(w, req, id) && !w.rows[id].status.Withdrawn?
  }

  ghost predicate PhaseOk(w: World, ph: Phase) {
    match ph
    case Staging(req, t) => TargetOk(w, req, t)
    case FinalAbsent(req, t) =>
      TargetOk(w, req, t)
    case TempProbed(req, t, created) =>
      TargetOk(w, req, t) && (t.Resume? && created ==> Final(req.day, TargetVersion(w, t)) in w.files.names)
    case Staged(req, t, temporary, created) =>
      && TargetOk(w, req, t)
      && (t.Resume? && (created || !temporary) ==> Final(req.day, TargetVersion(w, t)) in w.files.names)
      && (t.Fresh? ==> temporary && w.files.Holds(Temp(req.day, t.version), req.payload))
    case Committed(req, id, temporary) =>
      LiveRow(w, req, id) && (!temporary || w.rows[id].status.Published? ==> FinalOf(w.rows[id]) in w.files.names)
    case Linked(req, id, verified) =>
      LiveRow(w, req, id) && verified && FinalOf(w.rows[id]) in w.files.names
    case Finalized(req, id) =>
      LiveRow(w, req, id) && FinalOf(w.rows[id]) in w.files.names
  }

  ghost predicate LocksOk(s: System) {
    forall p, q :: p in s.procs && q in s.procs && p != q && InPhaseOne(s.procs[p]) && InPhaseOne(s.procs[q]) ==>
      s.procs[p].req.day != s.procs[q].req.day
  }

  ghost predicate Safe(s: System) {
    && TablesOk(s.w.rows, s.w.profiles) && FilesOk(s.w) && LocksOk(s)
    && forall pid :: pid in s.procs ==> PhaseOk(s.w, s.procs[pid])
  }

  // ---- Lemmas about rows -----------------------------------------------------------------

  lemma {:induction false} VersionsIncrease(rows: seq<Manifest>, i: nat, j: nat)
    requires VersionsFollow(rows)
    requires i < j < |rows| && rows[i].day == rows[j].day
    ensures rows[i].version < rows[j].version
  {
    assert Follows(rows, j);
    assert rows[..j][i] == rows[i];
    MaxVersionBounds(rows[..j], rows[i].day, i);
  }

  /** A version names one row of its date. */
  lemma VersionsIdentify(rows: seq<Manifest>, i: nat, j: nat)
    requires VersionsFollow(rows)
    requires i < |rows| && j < |rows| && rows[i].day == rows[j].day && rows[i].version == rows[j].version
    ensures i == j
  {
    if i < j { VersionsIncrease(rows, i, j); } else if j < i { VersionsIncrease(rows, j, i); }
  }

  lemma {:induction false} MaxVersionIgnoresStatus(rows: seq<Manifest>, other: seq<Manifest>, day: Day)
    requires |rows| == |other|
    requires forall i :: 0 <= i < |rows| ==> rows[i].day == other[i].day && rows[i].version == other[i].version
    ensures MaxVersion(rows, day) == MaxVersion(other, day)
  {
    if rows != [] {
      MaxVersionIgnoresStatus(rows[..|rows| - 1], other[..|rows| - 1], day);
    }
  }

  /** Appending a row extends the numbering of its own date and no other. */
  lemma MaxVersionAppend(rows: seq<Manifest>, m: Manifest, day: Day)
    ensures MaxVersion(rows + [m], day) ==
      if m.day == day && MaxVersion(rows, day) < m.version then m.version else MaxVersion(rows, day)
  {
    assert (rows + [m])[..|rows|] == rows;
  }

  // ---- What a step may do to the others --------------------------------------------------

  /** Rows are only added, or published once promoted, and no final artifact goes away. */
  ghost predicate Grows(w: World, w': World) {
    && |w.rows| <= |w'.rows|
    && (forall i :: 0 <= i < |w.rows| ==>
          || w'.rows[i] == w.rows[i]
          || (w.rows[i].status.Draft? && w'.rows[i] == w.rows[i].(status := Published)
              && FinalOf(w.rows[i]) in w'.files.names))
    && (forall id: nat :: id in w.profiles ==> id in w'.profiles)
    && (forall d, v :: Final(d, v) in w.files.names ==> Final(d, v) in w'.files.names)
  }

  /** The step left this date's rows alone. */
  ghost predicate RowsUntouched(w: World, w': World, day: Day) {
    && |w.rows| <= |w'.rows|
    && (forall i :: 0 <= i < |w.rows| && w.rows[i].day == day ==> w'.rows[i] == w.rows[i])
    && (forall i :: |w.rows| <= i < |w'.rows| ==> w'.rows[i].day != day)
    && MaxVersion(w'.rows, day) == MaxVersion(w.rows, day)
  }

  lemma PhaseFrame(w: World, w': World, ph: Phase)
    requires PhaseOk(w, ph) && Grows(w, w')
    requires InPhaseOne(ph) ==> RowsUntouched(w, w', ph.req.day)
    requires ph.Staged? && ph.target.Fresh? ==>
      w.files.SameAt(w'.files, Temp(ph.req.day, ph.target.version))
    ensures PhaseOk(w', ph)
  {
    if InPhaseOne(ph) && ph.target.Fresh? {
      forall i | 0 <= i < |w'.rows| && w'.rows[i].day == ph.req.day ensures !w'.rows[i].status.Draft? {
        assert i < |w.rows|;
      }
      if ph.req.supersedes.Some? {
        forall i | 0 <= i < |w'.rows| && w'.rows[i].day == ph.req.day
          ensures w'.rows[i].supersedes != ph.req.supersedes
        {
          assert i < |w.rows|;
        }
      }
    }
  }

  /** Replacing one publisher's phase keeps the locks exclusive when it takes no new lock. */
  lemma LocksFrame(s: System, procs: map<nat, Phase>, pid: nat)
    requires LocksOk(s) && procs.Keys <= s.procs.Keys + {pid}
    requires forall p :: p in procs && p != pid ==> procs[p] == s.procs[p]
    requires pid in procs && InPhaseOne(procs[pid]) ==>
      || (pid in s.procs && InPhaseOne(s.procs[pid]) && s.procs[pid].req.day == procs[pid].req.day)
      || LockFree(s, procs[pid].req.day)
    ensures LocksOk(System(s.w, procs))
  {
  }

  /** The step of one publisher, once its own phase and the shared state are known good. */
  lemma OthersFrame(s: System, w': World, procs: map<nat, Phase>, pid: nat)
    requires Safe(s) && Grows(s.w, w')
    requires forall p :: p in procs ==> p == pid || (p in s.procs && procs[p] == s.procs[p])
    requires pid in procs ==> PhaseOk(w', procs[pid])
    requires forall p :: p in procs && p != pid && InPhaseOne(procs[p]) ==>
      && RowsUntouched(s.w, w', procs[p].req.day)
      && (procs[p].Staged? && procs[p].target.Fresh? ==>
            s.w.files.SameAt(w'.files, Temp(procs[p].req.day, procs[p].target.version)))
    ensures forall p :: p in procs ==> PhaseOk(w', procs[p])
  {
    forall p | p in procs && p != pid ensures PhaseOk(w', procs[p]) {
      PhaseFrame(s.w, w', procs[p]);
    }
  }

  // ---- Each file and database step keeps the stores sound ---------------------------------

  /** Staging writes the target's own temp, and never a final artifact's bytes wrongly. */
  lemma WriteTempKeeps(w: World, req: Request, target: Target)
    requires RowsOk(w.rows) && FilesOk(w) && TargetOk(w, req, target)
    ensures var temp := Temp(req.day, TargetVersion(w, target));
      var w' := w.(files := w.files.Write(temp, req.payload));
      && FilesOk(w') && w'.files.Holds(temp, req.payload)
      && (forall d, v :: Final(d, v) in w.files.names <==> Final(d, v) in w'.files.names)
      && (forall q: Path :: q != temp && !Partners(temp, q) && !q.Quarantined? ==> w.files.SameAt(w'.files, q))
  {
    var v := TargetVersion(w, target);
    var temp := Temp(req.day, v);
    var w' := w.(files := w.files.Write(temp, req.payload));
    WriteShares(w.files, temp, req.payload);
    forall q: Path | q != temp && !Partners(temp, q) && !q.Quarantined? ensures w.files.SameAt(w'.files, q) {
      WriteFrame(w.files, temp, req.payload, q);
    }
    if target.Fresh? { NextVersionIsUnknown(w, req.day); }
    forall i | 0 <= i < |w.rows|
      ensures ArtifactOk(w'.files, w.rows[i])
    {
      if w.rows[i].day == req.day && w.rows[i].version == v {
        if target.Resume? { VersionsIdentify(w.rows, i, target.id); }
      } else {
        WriteFrame(w.files, temp, req.payload, FinalOf(w.rows[i]));
        WriteFrame(w.files, temp, req.payload, TempOf(w.rows[i]));
      }
    }
  }

  /** Promotion gives the version's payload its final name. */
  lemma LinkKeeps(w: World, id: nat)
    requires RowsOk(w.rows) && FilesOk(w) && id < |w.rows| && w.rows[id].status.Draft?
    requires w.files.Exists(TempOf(w.rows[id])) && !w.files.Exists(FinalOf(w.rows[id]))
    ensures var w' := w.(files := w.files.Link(TempOf(w.rows[id]), FinalOf(w.rows[id])));
      FilesOk(w') && Verifies(w'.files, w.rows[id])
  {
    var w' := w.(files := w.files.Link(TempOf(w.rows[id]), FinalOf(w.rows[id])));
    LinkShares(w.files, TempOf(w.rows[id]), FinalOf(w.rows[id]));
    forall i | 0 <= i < |w.rows|
      ensures ArtifactOk(w'.files, w.rows[i])
    {
      if w.rows[i].day == w.rows[id].day && w.rows[i].version == w.rows[id].version {
        VersionsIdentify(w.rows, i, id);
      }
    }
  }

  /** A temp may go once its version has a final artifact, or no manifest. */
  lemma UnlinkTempKeeps(w: World, day: Day, version: nat)
    requires RowsOk(w.rows) && FilesOk(w)
    requires Known(w.rows, day, version) ==> Final(day, version) in w.files.names
    ensures FilesOk(w.(files := w.files.Unlink(Temp(day, version))))
  {
    var w' := w.(files := w.files.Unlink(Temp(day, version)));
    UnlinkShares(w.files, Temp(day, version));
    forall i | 0 <= i < |w.rows|
      ensures ArtifactOk(w'.files, w.rows[i])
    {
      if w.rows[i].day == day && w.rows[i].version == version {
        assert Known(w.rows, day, version);
      }
    }
  }

  /** The next version has no row yet, so no final artifact either. */
  lemma NextVersionIsUnknown(w: World, day: Day)
    requires FilesOk(w)
    ensures !Known(w.rows, day, MaxVersion(w.rows, day) + 1)
    ensures Final(day, MaxVersion(w.rows, day) + 1) !in w.files.names
  {
    forall i | 0 <= i < |w.rows| && w.rows[i].day == day ensures w.rows[i].version <= MaxVersion(w.rows, day) {
      MaxVersionBounds(w.rows, day, i);
    }
    assert Final(day, MaxVersion(w.rows, day) + 1) in w.files.names ==> Known(w.rows, day, MaxVersion(w.rows, day) + 1);
  }

  lemma AppendKeepsRows(rows: seq<Manifest>, m: Manifest)
    requires RowsOk(rows) && m.status.Draft? && m.version == MaxVersion(rows, m.day) + 1
    requires forall i :: 0 <= i < |rows| && rows[i].day == m.day ==> !rows[i].status.Draft?
    ensures RowsOk(rows + [m])
  {
    var n := |rows|;
    assert (rows + [m])[..n] == rows;
    forall i | 0 <= i < n + 1 ensures Follows(rows + [m], i) {
      if i < n { assert Follows(rows, i) && (rows + [m])[..i] == rows[..i]; }
    }
    forall i: nat | i < n + 1 ensures NewestIfDraft(rows + [m], i) {
      if i < n { assert NewestIfDraft(rows, i); }
    }
  }

  lemma AppendKeepsFiles(w: World, m: Manifest)
    requires FilesOk(w) && m.status.Draft? && m.version == MaxVersion(w.rows, m.day) + 1
    requires w.files.Holds(TempOf(m), m.hash.preimage)
    ensures FilesOk(w.(rows := w.rows + [m]))
  {
    var rows := w.rows + [m];
    NextVersionIsUnknown(w, m.day);
    forall d, v | Final(d, v) in w.files.names ensures Known(rows, d, v) {
      assert Known(w.rows, d, v);
      var i :| 0 <= i < |w.rows| && w.rows[i].day == d && w.rows[i].version == v;
      assert rows[i].day == d && rows[i].version == v;
    }
  }

  lemma AppendKeepsSuccessors(w: World, m: Manifest)
    requires SuccessorsOk(w.rows, w.profiles)
    requires m.supersedes.Some? ==>
      && Precedes(w.rows, w.profiles, m.supersedes.value, m.day)
      && forall i :: 0 <= i < |w.rows| && w.rows[i].day == m.day ==> w.rows[i].supersedes != m.supersedes
    ensures SuccessorsOk(w.rows + [m], w.profiles)
  {
    var w' := w.(rows := w.rows + [m]);
    forall i: nat | i < |w'.rows| ensures SuccessorOk(w'.rows, w'.profiles, i) {
      if i < |w.rows| {
        assert SuccessorOk(w.rows, w.profiles, i);
      } else if m.supersedes.Some? {
        forall j: nat | j < i ensures w.rows[j].supersedes != m.supersedes {
          assert SuccessorOk(w.rows, w.profiles, j);
        }
      }
    }
  }

  lemma CommitDraftKeeps(w: World, req: Request, version: nat)
    requires TablesOk(w.rows, w.profiles) && FilesOk(w) && TargetOk(w, req, Fresh(version))
    requires w.files.Holds(Temp(req.day, version), req.payload)
    ensures var w' := w.(rows := w.rows + [NewDraft(req, version)]);
      && TablesOk(w'.rows, w'.profiles) && FilesOk(w') && Grows(w, w')
      && forall d :: d != req.day ==> RowsUntouched(w, w', d)
  {
    var m := NewDraft(req, version);
    AppendKeepsRows(w.rows, m);
    AppendKeepsFiles(w, m);
    AppendKeepsSuccessors(w, m);
    forall d | d != req.day ensures RowsUntouched(w, w.(rows := w.rows + [m]), d) {
      MaxVersionAppend(w.rows, m, d);
    }
  }

  lemma SetStatusKeepsFiles(w: World, rows: seq<Manifest>, id: nat)
    requires FilesOk(w) && id < |w.rows| && rows == SetStatus(w.rows, id, Published) && Verifies(w.files, w.rows[id])
    ensures FilesOk(w.(rows := rows))
  {
    forall d, v | Final(d, v) in w.files.names ensures Known(rows, d, v) {
      assert Known(w.rows, d, v);
      var i :| 0 <= i < |w.rows| && w.rows[i].day == d && w.rows[i].version == v;
      assert rows[i].day == d && rows[i].version == v;
    }
  }

  lemma SetStatusKeepsProfiles(w: World, w': World, id: nat)
    requires ProfilesOk(w.rows, w.profiles) && id < |w.rows| && w'.rows == SetStatus(w.rows, id, Published)
    requires w'.profiles == if id in w.profiles then w.profiles else w.profiles + [id]
    ensures ProfilesOk(w'.rows, w'.profiles)
  {
    assert forall k: nat :: k in w'.profiles <==> k in w.profiles || k == id;
  }

  lemma PublishKeepsRows(rows: seq<Manifest>, id: nat)
    requires RowsOk(rows) && id < |rows|
    ensures RowsOk(SetStatus(rows, id, Published))
    ensures forall d :: MaxVersion(SetStatus(rows, id, Published), d) == MaxVersion(rows, d)
  {
    var rows' := SetStatus(rows, id, Published);
    forall i | 0 <= i < |rows| ensures Follows(rows', i) {
      assert Follows(rows, i);
      MaxVersionIgnoresStatus(rows'[..i], rows[..i], rows[i].day);
    }
    forall i: nat | i < |rows| ensures NewestIfDraft(rows', i) {
      assert NewestIfDraft(rows, i);
    }
    forall d ensures MaxVersion(rows', d) == MaxVersion(rows, d) {
      MaxVersionIgnoresStatus(rows', rows, d);
    }
  }

  lemma CompleteKeeps(w: World, id: nat)
    requires TablesOk(w.rows, w.profiles) && FilesOk(w)
    requires id < |w.rows| && Verifies(w.files, w.rows[id]) && !w.rows[id].status.Withdrawn?
    ensures var w' := Complete(w, id);
      && TablesOk(w'.rows, w'.profiles) && FilesOk(w') && Grows(w, w')
      && forall d :: d != w.rows[id].day ==> RowsUntouched(w, w', d)
  {
    var w' := Complete(w, id);
    PublishKeepsRows(w.rows, id);
    SetStatusKeepsFiles(w, w'.rows, id);
    SetStatusKeepsProfiles(w, w', id);
    forall i: nat | i < |w'.rows| ensures SuccessorOk(w'.rows, w'.profiles, i) {
      assert SuccessorOk(w.rows, w.profiles, i);
    }
  }

  // ---- The inductive step ----------------------------------------------------------------

  lemma BeginKeepsSafe(s: System, pid: nat, req: Request)
    requires Safe(s) && Enabled(s, Begin(pid, req))
    ensures Safe(Next(s, Begin(pid, req)))
  {
    var (w', next) := Start(s.w, req);
    var s' := Next(s, Begin(pid, req));
    assert w'.rows == s.w.rows && w'.profiles == s.w.profiles && w'.files == s.w.files;
    assert FilesOk(w') && ProfilesOk(w'.rows, w'.profiles);
    forall i | 0 <= i < |s.w.rows| && s.w.rows[i].day == req.day && next.Continue? && next.phase.target.Fresh?
      ensures !s.w.rows[i].status.Draft?
    {
      if s.w.rows[i].status.Draft? { NewestIsNewest(s.w.rows, req.day, Draft, None, i); }
    }
    OthersFrame(s, w', s'.procs, pid);
    LocksFrame(s, s'.procs, pid);
  }

  lemma ProbeKeepsPhase(w: World, ph: Phase)
    requires FilesOk(w) && InRange(w, ph) && PhaseOk(w, ph) && (ph.Staging? || ph.FinalAbsent?)
    ensures var (w', next) := Advance(w, ph);
      && w' == w
      && (next.Continue? ==> PhaseOk(w, next.phase) && InPhaseOne(next.phase) && next.phase.req == ph.req)
  {
    if ph.FinalAbsent? && ph.target.Resume? {
      assert ArtifactOk(w.files, w.rows[ph.target.id]);
    }
    if ph.Staging? && ph.target.Fresh? { NextVersionIsUnknown(w, ph.req.day); }
  }

  /** Probes and failed checks change no store. */
  lemma ProbeKeepsSafe(s: System, pid: nat)
    requires Safe(s) && Enabled(s, Step(pid))
    requires s.procs[pid].Staging? || s.procs[pid].FinalAbsent?
    ensures Safe(Next(s, Step(pid)))
  {
    var s' := Next(s, Step(pid));
    ProbeKeepsPhase(s.w, s.procs[pid]);
    OthersFrame(s, s'.w, s'.procs, pid);
    LocksFrame(s, s'.procs, pid);
  }

  lemma WriteKeepsSafe(s: System, pid: nat)
    requires Safe(s) && Enabled(s, Step(pid)) && s.procs[pid].TempProbed?
    ensures Safe(Next(s, Step(pid)))
  {
    var s' := Next(s, Step(pid));
    var ph := s.procs[pid];
    WriteTempKeeps(s.w, ph.req, ph.target);
    OthersFrame(s, s'.w, s'.procs, pid);
    LocksFrame(s, s'.procs, pid);
  }

  lemma CommitKeepsSafe(s: System, pid: nat)
    requires Safe(s) && Enabled(s, Step(pid)) && s.procs[pid].Staged?
    ensures Safe(Next(s, Step(pid)))
  {
    var s' := Next(s, Step(pid));
    var ph := s.procs[pid];
    if ph.target.Fresh? { CommitDraftKeeps(s.w, ph.req, ph.target.version); }
    OthersFrame(s, s'.w, s'.procs, pid);
    LocksFrame(s, s'.procs, pid);
  }

  lemma PromoteKeepsPhase(w: World, ph: Phase)
    requires TablesOk(w.rows, w.profiles) && FilesOk(w) && InRange(w, ph) && PhaseOk(w, ph) && ph.Committed?
    ensures var (w', next) := Advance(w, ph);
      && w' == w.(files := w'.files) && FilesOk(w') && Grows(w, w')
      && (next.Continue? ==> PhaseOk(w', next.phase) && !InPhaseOne(next.phase) && next.phase.req == ph.req)
  {
    var m := w.rows[ph.id];
    if ph.temporary && w.files.Exists(TempOf(m)) && !w.files.Exists(FinalOf(m)) {
      LinkKeeps(w, ph.id);
    } else {
      assert ArtifactOk(w.files, m);
    }
  }

  lemma PromoteKeepsSafe(s: System, pid: nat)
    requires Safe(s) && Enabled(s, Step(pid)) && s.procs[pid].Committed?
    ensures Safe(Next(s, Step(pid)))
  {
    var s' := Next(s, Step(pid));
    PromoteKeepsPhase(s.w, s.procs[pid]);
    OthersFrame(s, s'.w, s'.procs, pid);
    LocksFrame(s, s'.procs, pid);
  }

  lemma UnlinkKeepsSafe(s: System, pid: nat)
    requires Safe(s) && Enabled(s, Step(pid)) && s.procs[pid].Linked?
    ensures Safe(Next(s, Step(pid)))
  {
    var s' := Next(s, Step(pid));
    var m := s.w.rows[s.procs[pid].id];
    UnlinkTempKeeps(s.w, m.day, m.version);
    TempOnlyMatters(s, pid, m.day, m.version);
    OthersFrame(s, s'.w, s'.procs, pid);
    LocksFrame(s, s'.procs, pid);
  }

  /** No other publisher is staging a new version under the name of one that has a row. */
  lemma TempOnlyMatters(s: System, pid: nat, day: Day, version: nat)
    requires Safe(s)
    requires Known(s.w.rows, day, version)
      || (pid in s.procs && InPhaseOne(s.procs[pid]) && s.procs[pid].req.day == day)
    ensures forall p :: p in s.procs && p != pid && s.procs[p].Staged? && s.procs[p].target.Fresh? ==>
      s.w.files.SameAt(s.w.files.Unlink(Temp(day, version)), Temp(s.procs[p].req.day, s.procs[p].target.version))
  {
    forall p | p in s.procs && p != pid && s.procs[p].Staged? && s.procs[p].target.Fresh?
      ensures Temp(s.procs[p].req.day, s.procs[p].target.version) != Temp(day, version)
    {
      NextVersionIsUnknown(s.w, s.procs[p].req.day);
    }
  }

  lemma CompleteKeepsSafe(s: System, pid: nat)
    requires Safe(s) && Enabled(s, Step(pid)) && s.procs[pid].Finalized?
    ensures Safe(Next(s, Step(pid)))
  {
    var s' := Next(s, Step(pid));
    var id := s.procs[pid].id;
    if s.w.files.Holds(FinalOf(s.w.rows[id]), s.procs[pid].req.payload) { CompleteKeeps(s.w, id); }
    OthersFrame(s, s'.w, s'.procs, pid);
    LocksFrame(s, s'.procs, pid);
  }

  lemma AbortKeepsSafe(s: System, pid: nat)
    requires Safe(s) && Enabled(s, Abort(pid))
    ensures Safe(Next(s, Abort(pid)))
  {
    var s' := Next(s, Abort(pid));
    var ph := s.procs[pid];
    if ph.Staged? && ph.temporary && ph.created {
      NextVersionIsUnknown(s.w, ph.req.day);
      UnlinkTempKeeps(s.w, ph.req.day, TargetVersion(s.w, ph.target));
      TempOnlyMatters(s, pid, ph.req.day, TargetVersion(s.w, ph.target));
    }
    OthersFrame(s, s'.w, s'.procs, pid);
    LocksFrame(s, s'.procs, pid);
  }

  /** Every action of every publisher keeps both stores sound. */
  lemma NextKeepsSafe(s: System, a: Action)
    requires Safe(s) && Enabled(s, a)
    ensures Safe(Next(s, a))
  {
    match a
    case Begin(pid, req) => BeginKeepsSafe(s, pid, req);
    case Abort(pid) => AbortKeepsSafe(s, pid);
    case Crash(pid) =>
      OthersFrame(s, s.w, s.procs - {pid}, pid);
      LocksFrame(s, s.procs - {pid}, pid);
    case Step(pid) =>
      match s.procs[pid]
      case Staging(_, _) => ProbeKeepsSafe(s, pid);
      case FinalAbsent(_, _) => ProbeKeepsSafe(s, pid);
      case TempProbed(_, _, _) => WriteKeepsSafe(s, pid);
      case Staged(_, _, _, _) => CommitKeepsSafe(s, pid);
      case Committed(_, _, _) => PromoteKeepsSafe(s, pid);
      case Linked(_, _, _) => UnlinkKeepsSafe(s, pid);
      case Finalized(_, _) => CompleteKeepsSafe(s, pid);
  }

  // ---- What the invariant buys -----------------------------------------------------------

  /** A final artifact, once linked, is never overwritten and never deleted by publication. */
  lemma FinalArtifactsArePermanent(s: System, a: Action, day: Day, version: nat)
    requires Safe(s) && Enabled(s, a) && Final(day, version) in s.w.files.names
    ensures s.w.files.SameAt(Next(s, a).w.files, Final(day, version))
  {
    if a.Step? && s.procs[a.pid].TempProbed? {
      var ph := s.procs[a.pid];
      var temp := Temp(ph.req.day, TargetVersion(s.w, ph.target));
      if Partners(temp, Final(day, version)) {
        WriteTempKeeps(s.w, ph.req, ph.target);
        if ph.target.Fresh? { NextVersionIsUnknown(s.w, ph.req.day); }
        else { assert ArtifactOk(s.w.files, s.w.rows[ph.target.id]); }
      } else {
        WriteFrame(s.w.files, temp, ph.req.payload, Final(day, version));
      }
    }
  }

  /** Promotion never fails: whoever gets there, the payload is at the temp or the final name. */
  lemma PromotionNeverFails(s: System, pid: nat)
    requires Safe(s) && pid in s.procs
    ensures s.procs[pid].Committed? && s.procs[pid].temporary ==>
      Advance(s.w, s.procs[pid]).1 == Continue(Linked(s.procs[pid].req, s.procs[pid].id, true))
    ensures s.procs[pid].Finalized? ==>
      Advance(s.w, s.procs[pid]).1 == Done(Returned(s.procs[pid].id))
  {
    var ph := s.procs[pid];
    if ph.Committed? || ph.Finalized? {
      var m := s.w.rows[ph.id];
      assert ArtifactOk(s.w.files, m);
    }
  }
}
