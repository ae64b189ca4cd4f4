/** Whole runs of the archive: interleaved publishers, crashes, damage, repairs and editorial decisions. */
module Runs {
  import opened Basics
  import opened Disk
  import opened Editorial
  import opened Rows
  import opened Publication
  import opened Coverage
  import opened Protocol
  import opened Reconcile
  import opened Recovery

  datatype Event =
    | Publisher(action: Action)
    | Recover(aged: set<Path>)                                    // repair, with no live publisher
    | Restore(files: Files, aged: set<Path>)                      // any files lost or changed, then repair
    | Decide(selections: seq<Selection>, index: map<Day, Entry>)  // governance writes decisions and index rows only

  ghost predicate Possible(s: System, e: Event) {
    match e
    case Publisher(a) => Enabled(s, a)
    case Recover(_) => s.procs == map[]
    case Restore(files, _) => s.procs == map[] && files.Valid() && OnlyPartnersShare(files)
    case Decide(_, _) => true
  }

  ghost function After(s: System, e: Event): System
    requires s.w.files.Valid() && Possible(s, e)
  {
    match e
    case Publisher(a) => Next(s, a)
    case Recover(aged) => s.(w := Repair(s.w, aged).0)
    case Restore(files, aged) => s.(w := Repair(s.w.(files := files), aged).0)
    case Decide(selections, index) => s.(w := s.w.(selections := selections, index := index))
  }

  /** A run: each state follows from the one before it. */
  ghost predicate IsRun(states: seq<System>, events: seq<Event>) {
    && |states| == |events| + 1
    && forall i :: 0 <= i < |events| ==> Leads(states[i], events[i], states[i + 1])
  }

  ghost predicate Leads(s: System, e: Event, s': System) {
    s.w.files.Valid() && Possible(s, e) && s' == After(s, e)
  }

  /** An archive nobody has published to. */
  predicate Fresh(s: System) {
    s.w.rows == [] && s.w.profiles == [] && s.w.files == Files(map[], []) && s.procs == map[]
  }

  /** No damage happened between these two states. */
  predicate Undamaged(events: seq<Event>, i: nat, j: nat)
    requires i <= j <= |events|
  {
    forall k :: i <= k < j ==> !events[k].Restore?
  }

  // ---- One event -------------------------------------------------------------------------

  /** Rows are never removed: one keeps its date, version, content and predecessor, and a decided one its status. */
  ghost predicate RowsEndure(rows: seq<Manifest>, rows': seq<Manifest>) {
    && |rows| <= |rows'|
    && forall i :: 0 <= i < |rows| ==>
         rows'[i] == rows[i] || (rows[i].status.Draft? && rows'[i] == rows[i].(status := rows'[i].status))
  }

  /** No pending manifest was withdrawn. */
  ghost predicate NoneWithdrawn(rows: seq<Manifest>, rows': seq<Manifest>) {
    |rows| <= |rows'| && forall i :: 0 <= i < |rows| && rows'[i].status.Withdrawn? ==> rows[i].status.Withdrawn?
  }

  ghost predicate FinalsEndure(files: Files, files': Files) {
    forall d, v :: Final(d, v) in files.names ==> files.SameAt(files', Final(d, v))
  }

  /** Every published artifact is there. */
  ghost predicate Whole(w: World) {
    forall i :: 0 <= i < |w.rows| && w.rows[i].status.Published? ==> FinalOf(w.rows[i]) in w.files.names
  }

  /** What an event without damage also keeps. */
  ghost predicate Harmless(w: World, w': World) {
    FinalsEndure(w.files, w'.files) && NoneWithdrawn(w.rows, w'.rows) && (Whole(w) ==> Whole(w'))
  }

  lemma NextIsHarmless(s: System, a: Action)
    requires Safe(s) && Enabled(s, a)
    ensures RowsEndure(s.w.rows, Next(s, a).w.rows) && Harmless(s.w, Next(s, a).w)
  {
    NextKeepsFinals(s, a);
    if a.Step? { assert PhaseOk(s.w, s.procs[a.pid]); }
  }

  lemma NextKeepsFinals(s: System, a: Action)
    requires Safe(s) && Enabled(s, a)
    ensures FinalsEndure(s.w.files, Next(s, a).w.files)
  {
    forall d, v | Final(d, v) in s.w.files.names ensures s.w.files.SameAt(Next(s, a).w.files, Final(d, v)) {
      FinalArtifactsArePermanent(s, a, d, v);
    }
  }

  lemma RecoverIsHarmless(s: System, aged: set<Path>)
    requires Safe(s)
    ensures var w' := Repair(s.w, aged).0;
      Safe(System(w', map[])) && RowsEndure(s.w.rows, w'.rows) && Harmless(s.w, w')
  {
    RepairCompletesEveryDraft(s, aged);
    var w' := Repair(s.w, aged).0;
    forall i: nat | i < |s.w.rows|
      ensures w'.rows[i] == if s.w.rows[i].status.Draft? then s.w.rows[i].(status := Published) else s.w.rows[i]
      ensures Whole(s.w) && w'.rows[i].status.Published? ==> FinalOf(w'.rows[i]) in w'.files.names
    {
      assert CompletedRow(s.w, w', i);
    }
  }

  lemma RestoreKeepsSafe(s: System, files: Files, aged: set<Path>)
    requires Safe(s) && Possible(s, Restore(files, aged))
    ensures Safe(After(s, Restore(files, aged))) && RowsEndure(s.w.rows, After(s, Restore(files, aged)).w.rows)
  {
    var damaged := s.w.(files := files);
    RepairMakesSafe(damaged, aged);
    TablesAreSound(damaged);
    RepairRulesRows(damaged, aged);
  }

  lemma EventKeepsSafe(s: System, e: Event)
    requires Safe(s) && Possible(s, e)
    ensures Safe(After(s, e)) && RowsEndure(s.w.rows, After(s, e).w.rows)
    ensures !e.Restore? ==> Harmless(s.w, After(s, e).w)
  {
    match e
    case Publisher(a) =>
      NextKeepsSafe(s, a);
      NextIsHarmless(s, a);
    case Recover(aged) => RecoverIsHarmless(s, aged);
    case Restore(files, aged) => RestoreKeepsSafe(s, files, aged);
    case Decide(_, _) =>
  }

  // ---- Every run -------------------------------------------------------------------------

  lemma FreshIsSafe(s: System)
    requires Fresh(s)
    ensures Safe(s) && Whole(s.w)
  {
  }

  lemma {:induction false} RunIsSafe(states: seq<System>, events: seq<Event>, i: nat)
    requires IsRun(states, events) && Safe(states[0]) && i < |states|
    ensures Safe(states[i])
  {
    if i > 0 {
      RunIsSafe(states, events, i - 1);
      assert Leads(states[i - 1], events[i - 1], states[i]);
      EventKeepsSafe(states[i - 1], events[i - 1]);
    }
  }

  /**
    At any point of any run, whatever was damaged and repaired before, every committed DRAFT has its exact payload
    at the temp or the final name, and if everything crashes there, one repair completes it.
  */
  lemma DraftsStayRecoverable(states: seq<System>, events: seq<Event>, i: nat, id: nat, aged: set<Path>)
    requires IsRun(states, events) && Fresh(states[0]) && i < |states|
    requires id < |states[i].w.rows| && states[i].w.rows[id].status.Draft?
    ensures Recoverable(states[i].w.files, states[i].w.rows[id])
    ensures var (w', report, raised) := Repair(states[i].w, aged);
      && !raised && report.abandoned == 0 && id < |w'.rows|
      && w'.rows[id] == states[i].w.rows[id].(status := Published) && Verifies(w'.files, w'.rows[id])
  {
    FreshIsSafe(states[0]);
    RunIsSafe(states, events, i);
    RepairCompletesEveryDraft(states[i], aged);
    assert ArtifactOk(states[i].w.files, states[i].w.rows[id]);
    assert CompletedRow(states[i].w, Repair(states[i].w, aged).0, id);
  }

  /**
    In every reachable state a PUBLISHED manifest has one day profile, and its artifact has its hash or is gone;
    it is there unless some damage came before.
  */
  lemma PublishedIsServed(states: seq<System>, events: seq<Event>, i: nat, id: nat)
    requires IsRun(states, events) && Fresh(states[0]) && i < |states|
    requires id < |states[i].w.rows| && states[i].w.rows[id].status.Published?
    ensures multiset(states[i].w.profiles)[id] == 1
    ensures Verifies(states[i].w.files, states[i].w.rows[id]) <==>
      FinalOf(states[i].w.rows[id]) in states[i].w.files.names
    ensures Undamaged(events, 0, i) ==> Verifies(states[i].w.files, states[i].w.rows[id])
  {
    FreshIsSafe(states[0]);
    RunIsSafe(states, events, i);
    OnceInDistinct(states[i].w.profiles, id);
    assert ArtifactOk(states[i].w.files, states[i].w.rows[id]);
    if Undamaged(events, 0, i) { HistoryEndures(states, events, 0, i); }
  }

  lemma {:induction false} OnceInDistinct(ids: seq<nat>, id: nat)
    requires Distinct(ids) && id in ids
    ensures multiset(ids)[id] == 1
  {
    var i :| 0 <= i < |ids| && ids[i] == id;
    assert ids == ids[..i] + [id] + ids[i + 1..];
    assert multiset(ids) == multiset(ids[..i]) + multiset{id} + multiset(ids[i + 1..]);
  }

  lemma HarmlessOn(a: World, b: World, c: World)
    requires Harmless(a, b) && Harmless(b, c)
    ensures Harmless(a, c)
  {
    FinalsCompose(a.files, b.files, c.files);
  }

  /**
    Over any run no row is reused or removed. Between damages a final artifact, once linked, is neither overwritten
    nor deleted, and nothing pending is withdrawn.
  */
  lemma {:induction false} HistoryEndures(states: seq<System>, events: seq<Event>, i: nat, j: nat)
    requires IsRun(states, events) && Fresh(states[0]) && i <= j < |states|
    ensures RowsEndure(states[i].w.rows, states[j].w.rows)
    ensures Undamaged(events, i, j) ==> Harmless(states[i].w, states[j].w)
    decreases j
  {
    FreshIsSafe(states[0]);
    RunIsSafe(states, events, i);
    if i < j {
      HistoryEndures(states, events, i, j - 1);
      RunIsSafe(states, events, j - 1);
      assert Leads(states[j - 1], events[j - 1], states[j]);
      EventKeepsSafe(states[j - 1], events[j - 1]);
      RowsCompose(states[i].w.rows, states[j - 1].w.rows, states[j].w.rows);
      if Undamaged(events, i, j) { HarmlessOn(states[i].w, states[j - 1].w, states[j].w); }
    }
  }

  lemma RowsCompose(a: seq<Manifest>, b: seq<Manifest>, c: seq<Manifest>)
    requires RowsEndure(a, b) && RowsEndure(b, c)
    ensures RowsEndure(a, c)
  {
  }

  lemma FinalsCompose(a: Files, b: Files, c: Files)
    requires FinalsEndure(a, b) && FinalsEndure(b, c)
    ensures FinalsEndure(a, c)
  {
    forall d, v | Final(d, v) in a.names ensures a.SameAt(c, Final(d, v)) {
      assert a.SameAt(b, Final(d, v)) && b.SameAt(c, Final(d, v));
    }
  }

  // ---- Version discipline ----------------------------------------------------------------

  /** A date's versions are exactly 1 to its newest, each held by one row; only the newest can be pending. */
  ghost predicate Disciplined(rows: seq<Manifest>, day: Day) {
    && (forall v: nat :: 1 <= v <= MaxVersion(rows, day) <==> Known(rows, day, v))
    && (forall i, j :: 0 <= i < j < |rows| && rows[i].day == day && rows[j].day == day ==>
          rows[i].version != rows[j].version && !rows[i].status.Draft?)
    && (forall i :: 0 <= i < |rows| && rows[i].day == day && rows[i].status.Draft? ==>
         rows[i].version == MaxVersion(rows, day))
  }

  lemma {:induction false} VersionExists(rows: seq<Manifest>, day: Day, v: nat)
    requires VersionsFollow(rows) && 1 <= v <= MaxVersion(rows, day)
    ensures Known(rows, day, v)
  {
    var n := |rows| - 1;
    assert Protocol.Follows(rows, n);
    if rows[n].day != day || rows[n].version != v {
      forall i | 0 <= i < n ensures Protocol.Follows(rows[..n], i) {
        assert Protocol.Follows(rows, i) && rows[..n][..i] == rows[..i];
      }
      VersionExists(rows[..n], day, v);
      var i :| 0 <= i < n && rows[..n][i].day == day && rows[..n][i].version == v;
      assert rows[i].day == day && rows[i].version == v;
    }
  }

  lemma RowsAreDisciplined(rows: seq<Manifest>, day: Day)
    requires VersionsFollow(rows) && forall i: nat :: i < |rows| ==> NewestIfDraft(rows, i)
    ensures Disciplined(rows, day)
  {
    forall v: nat ensures 1 <= v <= MaxVersion(rows, day) <==> Known(rows, day, v) {
      if 1 <= v <= MaxVersion(rows, day) { VersionExists(rows, day, v); }
      if i: nat :| i < |rows| && rows[i].day == day && rows[i].version == v {
        assert Protocol.Follows(rows, i);
        MaxVersionBounds(rows, day, i);
      }
    }
    forall i: nat, j: nat | i < j < |rows| && rows[i].day == day && rows[j].day == day
      ensures rows[i].version != rows[j].version && !rows[i].status.Draft?
    {
      VersionsIncrease(rows, i, j);
      assert NewestIfDraft(rows, i);
    }
    forall i: nat | i < |rows| && rows[i].day == day && rows[i].status.Draft?
      ensures rows[i].version == MaxVersion(rows, day)
    {
      DraftHasMaxVersion(rows, day, i);
    }
  }

  lemma DraftHasMaxVersion(rows: seq<Manifest>, day: Day, i: nat)
    requires VersionsFollow(rows) && i < |rows| && rows[i].day == day && rows[i].status.Draft? && NewestIfDraft(rows, i)
    ensures rows[i].version == MaxVersion(rows, day)
  {
    MaxVersionBounds(rows, day, i);
    assert Protocol.Follows(rows, i);
    VersionExists(rows, day, MaxVersion(rows, day));
    var top: nat :| top < |rows| && rows[top].day == day && rows[top].version == MaxVersion(rows, day);
    if top < i { VersionsIncrease(rows, top, i); }
  }

  /**
    In every reachable state, damage and withdrawals included, a date's versions run from 1 to its newest with no
    gap and no reuse, and at most one manifest is pending: the newest.
  */
  lemma VersionsAreConsecutive(states: seq<System>, events: seq<Event>, i: nat, day: Day)
    requires IsRun(states, events) && Fresh(states[0]) && i < |states|
    ensures Disciplined(states[i].w.rows, day)
  {
    FreshIsSafe(states[0]);
    RunIsSafe(states, events, i);
    RowsAreDisciplined(states[i].w.rows, day);
  }

  /** At most one DRAFT per date, and it is the date's newest version. */
  lemma DraftIsNewest(states: seq<System>, events: seq<Event>, i: nat, id: nat, other: nat)
    requires IsRun(states, events) && Fresh(states[0]) && i < |states|
    requires id < |states[i].w.rows| && states[i].w.rows[id].status.Draft?
    requires other < |states[i].w.rows| && other != id && states[i].w.rows[other].day == states[i].w.rows[id].day
    ensures !states[i].w.rows[other].status.Draft? && states[i].w.rows[other].version < states[i].w.rows[id].version
  {
    VersionsAreConsecutive(states, events, i, states[i].w.rows[id].day);
    MaxVersionBounds(states[i].w.rows, states[i].w.rows[id].day, other);
  }

  /** The version a publisher is given was never used before, by a withdrawn manifest included. */
  lemma NewVersionIsUnused(w: World, req: Request)
    ensures var next := Start(w, req).1;
      next.Continue? && next.phase.target.Fresh? ==>
        !Known(w.rows, req.day, next.phase.target.version)
  {
    forall i | 0 <= i < |w.rows| && w.rows[i].day == req.day ensures w.rows[i].version <= MaxVersion(w.rows, req.day) {
      MaxVersionBounds(w.rows, req.day, i);
    }
  }

  /**
    Over any run, withdrawals included, a new version is one more than every version the date ever had, in any
    earlier state.
  */
  lemma NeverReused(states: seq<System>, events: seq<Event>, i: nat, j: nat, id: nat, req: Request)
    requires IsRun(states, events) && Fresh(states[0]) && i <= j < |states|
    requires id < |states[i].w.rows| && states[i].w.rows[id].day == req.day
    ensures var next := Start(states[j].w, req).1;
      next.Continue? && next.phase.target.Fresh? ==> states[i].w.rows[id].version < next.phase.target.version
  {
    HistoryEndures(states, events, i, j);
    MaxVersionBounds(states[j].w.rows, req.day, id);
  }
}
