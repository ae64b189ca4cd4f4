/** What publication, governance and repair each do to the coverage index. */
module CoverageSteps {
  import opened Basics
  import opened Disk
  import opened Editorial
  import opened Rows
  import opened Publication
  import opened Coverage
  import opened Protocol
  import opened Reconcile
  import opened Convergence
  import opened Recovery

  /** The tables of any archive, however damaged its files: the index may be arbitrarily wrong. */
  ghost predicate Sound(w: World) {
    && RowsSound(w) && OnlyPartnersShare(w.files)
    && (forall i: nat :: i < |w.rows| ==> NewestIfDraft(w.rows, i))
    && (forall i: nat :: i < |w.rows| ==> Bound(w, w.rows[i].featured))
  }

  /** A manifest's featured binding names a decision already recorded. */
  predicate Bound(w: World, featured: Option<Binding>) {
    featured.Some? ==> featured.value.selection < |w.selections|
  }

  /**
    A step the index survives: dates that agreed with recomputation still do, a row leaves the index
    only when its date is re-derived, and a served date stays served.
  */
  ghost predicate Keeps(w: World, w': World) {
    && (forall d :: Agrees(w, d) ==> Agrees(w', d))
    && (forall d :: d in w.index && d !in w'.index ==> Agrees(w', d))
    && (forall d :: LatestServed(w, d).Some? ==> LatestServed(w', d).Some?)
  }

  lemma KeepsTransitive(a: World, b: World, c: World)
    requires Keeps(a, b) && Keeps(b, c)
    ensures Keeps(a, c)
  {
    forall d | d in a.index && d !in c.index ensures Agrees(c, d) {
      if d !in b.index { assert Agrees(b, d); }
    }
  }

  /** A step that changes neither the index nor anything recomputation reads. */
  lemma QuietKeeps(w: World, w': World)
    requires w'.index == w.index && forall d :: Expected(w', d) == Expected(w, d)
    requires forall d :: LatestServed(w, d).Some? ==> LatestServed(w', d).Some?
    ensures Keeps(w, w')
  {
  }

  /** File steps that leave every published artifact's reading alone are quiet. */
  lemma FileStepKeeps(w: World, w': World)
    requires w'.(files := w.files) == w
    requires forall i: nat :: i < |w.rows| && w.rows[i].status.Published? ==>
      Verifies(w'.files, w.rows[i]) == Verifies(w.files, w.rows[i])
    ensures Keeps(w, w')
  {
    forall d ensures Expected(w', d) == Expected(w, d) {
      ServedFrame(w, w', d);
    }
    QuietKeeps(w, w');
  }

  /** Re-deriving one date settles it and leaves the rest to what was known before. */
  lemma ReconcileKeeps(w: World, unindexed: World, day: Day)
    requires unindexed.index == w.index
    requires forall d :: d != day ==> Expected(unindexed, d) == Expected(w, d)
    requires forall d :: LatestServed(w, d).Some? ==> LatestServed(unindexed, d).Some?
    ensures Keeps(w, ReconcileDate(unindexed, day)) && Agrees(ReconcileDate(unindexed, day), day)
  {
    var w' := ReconcileDate(unindexed, day);
    ReconcileAgrees(unindexed, day);
    forall d ensures Expected(w', d) == Expected(unindexed, d) && LatestServed(w', d) == LatestServed(unindexed, d) {
    }
  }

  /** A date stays served when its published manifests keep their status and profile. */
  lemma StaysServed(w: World, w': World, d: Day)
    requires LatestServed(w, d).Some? && |w.rows| <= |w'.rows|
    requires forall i: nat :: i < |w.rows| && Matches(w.rows, i, d, Published, Some(w.profiles)) ==>
      Matches(w'.rows, i, d, Published, Some(w'.profiles))
    ensures LatestServed(w', d).Some?
  {
    NewestIsNewest(w'.rows, d, Published, Some(w'.profiles), LatestServed(w, d).value);
  }

  // ---- Publication -----------------------------------------------------------------------

  /** A publisher alone on its date, on whatever disk it finds. */
  ghost predicate Alone(w: World, ph: Phase) {
    && Bound(w, ph.req.featured)
    && match ph
       case Staging(req, t) => TargetAlone(w, req, t)
       case FinalAbsent(req, t) => TargetAlone(w, req, t) && Final(req.day, TargetVersion(w, t)) !in w.files.names
       case TempProbed(req, t, _) => TargetAlone(w, req, t) && Final(req.day, TargetVersion(w, t)) !in w.files.names
       case Staged(req, t, _, _) => TargetAlone(w, req, t)
       case Committed(req, id, _) => OwnRow(w, req, id) && w.rows[id].status.Draft?
       case Linked(req, id, _) => OwnRow(w, req, id) && w.rows[id].status.Draft?
       case Finalized(req, id) => OwnRow(w, req, id) && w.rows[id].status.Draft?
  }

  ghost predicate TargetAlone(w: World, req: Request, t: Target) {
    match t
    case Fresh(v) =>
      && v == MaxVersion(w.rows, req.day) + 1
      && (forall i :: 0 <= i < |w.rows| && w.rows[i].day == req.day ==> !w.rows[i].status.Draft?)
      && (req.supersedes.Some? ==> req.supersedes.value in w.profiles)
    case Resume(id) => OwnRow(w, req, id) && w.rows[id].status.Draft?
  }

  /** The newest manifest of a date, published with a profile, is the one served. */
  lemma NewestIsServed(w: World, id: nat)
    requires VersionsFollow(w.rows) && id < |w.rows| && Matches(w.rows, id, w.rows[id].day, Published, Some(w.profiles))
    requires forall i: nat :: i < |w.rows| && w.rows[i].day == w.rows[id].day && w.rows[i].status.Published? ==>
      w.rows[i].version <= w.rows[id].version
    ensures LatestServed(w, w.rows[id].day) == Some(id)
  {
    NewestIsNewest(w.rows, w.rows[id].day, Published, Some(w.profiles), id);
    VersionsIdentify(w.rows, LatestServed(w, w.rows[id].day).value, id);
  }

  lemma ReuseKeeps(w: World, id: nat)
    requires Sound(w) && id < |w.rows| && id in w.profiles && Verifies(w.files, w.rows[id])
    requires Newest(w.rows, w.rows[id].day, Published, None) == Some(id)
    ensures Sound(IndexManifest(w, id)) && Keeps(w, IndexManifest(w, id))
  {
    forall i: nat | i < |w.rows| && w.rows[i].day == w.rows[id].day && w.rows[i].status.Published?
      ensures w.rows[i].version <= w.rows[id].version
    {
      NewestIsNewest(w.rows, w.rows[id].day, Published, None, i);
    }
    NewestIsServed(w, id);
    assert IndexManifest(w, id) == ReconcileDate(w, w.rows[id].day);
    ReconcileKeeps(w, w, w.rows[id].day);
  }

  lemma WriteAloneKeeps(w: World, req: Request, t: Target)
    requires Sound(w) && TargetAlone(w, req, t) && Final(req.day, TargetVersion(w, t)) !in w.files.names
    ensures var w' := w.(files := w.files.Write(Temp(req.day, TargetVersion(w, t)), req.payload));
      && Sound(w') && Keeps(w, w') && Final(req.day, TargetVersion(w, t)) !in w'.files.names
  {
    var temp := Temp(req.day, TargetVersion(w, t));
    var w' := w.(files := w.files.Write(temp, req.payload));
    WriteShares(w.files, temp, req.payload);
    forall i: nat | i < |w.rows| && w.rows[i].status.Published?
      ensures Verifies(w'.files, w.rows[i]) == Verifies(w.files, w.rows[i])
    {
      if w.rows[i].day == req.day && w.rows[i].version == TargetVersion(w, t) {
        assert FinalOf(w.rows[i]) == Final(req.day, TargetVersion(w, t));
      } else {
        WriteFrame(w.files, temp, req.payload, FinalOf(w.rows[i]));
        SameAtReads(w.files, w'.files, FinalOf(w.rows[i]), w.rows[i].hash.preimage);
      }
    }
    FileStepKeeps(w, w');
  }

  lemma AppendAloneKeeps(w: World, req: Request, v: nat)
    requires Sound(w) && TargetAlone(w, req, Target.Fresh(v)) && Bound(w, req.featured)
    ensures var w' := w.(rows := w.rows + [NewDraft(req, v)]);
      Sound(w') && Keeps(w, w')
  {
    var m := NewDraft(req, v);
    var w' := w.(rows := w.rows + [m]);
    assert w'.rows[..|w.rows|] == w.rows;
    forall i | 0 <= i < |w'.rows| ensures Protocol.Follows(w'.rows, i) {
      if i < |w.rows| { assert Protocol.Follows(w.rows, i) && w'.rows[..i] == w.rows[..i]; }
    }
    forall i: nat | i < |w'.rows| ensures NewestIfDraft(w'.rows, i) {
      if i < |w.rows| { assert NewestIfDraft(w.rows, i); }
    }
    forall d ensures LatestServed(w', d) == LatestServed(w, d) {
    }
    QuietKeeps(w, w');
  }

  /** Completing the date's newest manifest makes it the one served, and indexes it. */
  lemma CompleteAloneKeeps(w: World, id: nat)
    requires Sound(w) && id < |w.rows| && w.rows[id].status.Draft? && Verifies(w.files, w.rows[id])
    ensures Sound(Complete(w, id)) && Keeps(w, Complete(w, id))
  {
    var day := w.rows[id].day;
    var published := w.(rows := SetStatus(w.rows, id, Published), profiles := WithProfile(w.profiles, id));
    PublishKeepsVersions(w.rows, id, Published);
    forall i: nat | i < |w.rows| ensures NewestIfDraft(published.rows, i) {
      assert NewestIfDraft(w.rows, i);
    }
    assert NewestIfDraft(w.rows, id);
    forall i: nat | i < |w.rows| && w.rows[i].day == day ensures published.rows[i].version <= w.rows[id].version {
      if i < id { VersionsIncrease(w.rows, i, id); }
    }
    NewestIsServed(published, id);
    assert Complete(w, id) == ReconcileDate(published, day);
    forall d | d != day ensures Expected(published, d) == Expected(w, d) {
      NewestFrame(w.rows, published.rows, d, Published, Some(w.profiles), Some(published.profiles));
    }
    forall d | LatestServed(w, d).Some? ensures LatestServed(published, d).Some? {
      StaysServed(w, published, d);
    }
    ReconcileKeeps(w, published, day);
  }

  lemma StartAloneKeeps(w: World, req: Request)
    requires Sound(w) && Bound(w, req.featured)
    ensures var (w', next) := Start(w, req);
      Sound(w') && Keeps(w, w') && (next.Continue? ==> Alone(w', next.phase))
  {
    var (w', next) := Start(w, req);
    var latest := Newest(w.rows, req.day, Published, None);
    if w' != w { ReuseKeeps(w, latest.value); }
    if next.Continue? && next.phase.target.Fresh? {
      forall i: nat | i < |w.rows| && w.rows[i].day == req.day ensures !w.rows[i].status.Draft? {
        if w.rows[i].status.Draft? { NewestIsNewest(w.rows, req.day, Draft, None, i); }
      }
    }
  }

  lemma AdvanceAloneKeeps(w: World, ph: Phase)
    requires Sound(w) && InRange(w, ph) && Alone(w, ph)
    ensures var (w', next) := Advance(w, ph);
      Sound(w') && Keeps(w, w') && (next.Continue? ==> Alone(w', next.phase))
  {
    match ph
    case Staging(req, t) =>
    case FinalAbsent(req, t) =>
    case TempProbed(req, t, _) => WriteAloneKeeps(w, req, t);
    case Staged(req, t, _, _) => if t.Fresh? { AppendAloneKeeps(w, req, t.version); }
    case Committed(req, id, temporary) => PromoteAloneKeeps(w, req, id, temporary);
    case Linked(req, id, _) =>
      UnlinkShares(w.files, TempOf(w.rows[id]));
      FileStepKeeps(w, Advance(w, ph).0);
    case Finalized(req, id) =>
      if w.files.Holds(FinalOf(w.rows[id]), req.payload) { FinishAloneKeeps(w, req, id); }
  }

  lemma FinishAloneKeeps(w: World, req: Request, id: nat)
    requires Sound(w) && OwnRow(w, req, id) && w.rows[id].status.Draft?
    requires w.files.Holds(FinalOf(w.rows[id]), req.payload)
    ensures Sound(Complete(w, id)) && Keeps(w, Complete(w, id))
  {
    CompleteAloneKeeps(w, id);
  }

  lemma PromoteAloneKeeps(w: World, req: Request, id: nat, temporary: bool)
    requires Sound(w) && OwnRow(w, req, id) && w.rows[id].status.Draft?
    ensures var (w', next) := Advance(w, Committed(req, id, temporary));
      Sound(w') && Keeps(w, w') && w'.rows == w.rows
  {
    var w' := Advance(w, Committed(req, id, temporary)).0;
    var m := w.rows[id];
    if w'.files != w.files {
      LinkShares(w.files, TempOf(m), FinalOf(m));
      forall i: nat | i < |w.rows| && w.rows[i].status.Published?
        ensures Verifies(w'.files, w.rows[i]) == Verifies(w.files, w.rows[i])
      {
        if w.rows[i].day == m.day && w.rows[i].version == m.version { VersionsIdentify(w.rows, i, id); }
      }
      FileStepKeeps(w, w');
    }
  }

  /** The first `steps` steps of a publication; fewer than it needs is a crash. */
  function Attempt(w: World, next: Continuation, steps: nat): World
    requires w.files.Valid() && (next.Continue? ==> InRange(w, next.phase))
    decreases steps
  {
    if next.Done? || steps == 0 then w
    else
      var (w', next') := Advance(w, next.phase);
      Attempt(w', next', steps - 1)
  }

  lemma {:induction false} AttemptKeeps(w: World, next: Continuation, steps: nat)
    requires Sound(w) && (next.Continue? ==> InRange(w, next.phase) && Alone(w, next.phase))
    ensures Sound(Attempt(w, next, steps)) && Keeps(w, Attempt(w, next, steps))
    decreases steps
  {
    if next.Continue? && steps > 0 {
      AdvanceAloneKeeps(w, next.phase);
      var (w', next') := Advance(w, next.phase);
      AttemptKeeps(w', next', steps - 1);
      KeepsTransitive(w, w', Attempt(w', next', steps - 1));
    }
  }

  // ---- Editorial decisions ---------------------------------------------------------------

  datatype Ruling = Ruling(day: Day, section: Section, root: Root, status: Decision, rank: Option<int>,
                           rationale: string, reviewer: string)

  function AfterRuling(w: World, r: Ruling): seq<Selection> {
    Record(w.selections, r.day, r.section, r.root, r.status, r.rank, r.rationale, r.reviewer)
  }

  /** record_editorial_selection with its index refresh, which does not read the artifact. */
  function Rule(w: World, r: Ruling): World {
    var after := w.(selections := AfterRuling(w, r));
    var served := LatestServed(w, r.day);
    if after.selections == w.selections || served.None? then after else IndexManifest(after, served.value)
  }

  /** Other dates' rows do not depend on this decision. */
  lemma RulingFrame(w: World, r: Ruling, d: Day)
    requires Sound(w) && d != r.day
    ensures Expected(w.(selections := AfterRuling(w, r)), d) == Expected(w, d)
  {
    RecordCurrent(w.selections, r.day, r.section, r.root, r.status, r.rank, r.rationale, r.reviewer);
    var served := LatestServed(w, d);
    if served.Some? {
      var m := w.rows[served.value];
      assert Bound(w, m.featured);
      DeriveFrame(w.gov, w.selections, AfterRuling(w, r), served.value, m);
    }
  }

  /**
    A recorded decision leaves its date's index row right exactly when the date can be served, or has no
    published profile and no row: the refresh re-indexes a date whose artifact no longer reads back.
  */
  lemma RulingAgreesIffServable(w: World, r: Ruling)
    requires AfterRuling(w, r) != w.selections
    ensures Agrees(Rule(w, r), r.day) <==>
      Servable(w, r.day) || (LatestServed(w, r.day).None? && r.day !in w.index)
  {
  }

  lemma RulingKeeps(w: World, r: Ruling)
    requires Sound(w)
    requires AfterRuling(w, r) == w.selections || Servable(w, r.day) || LatestServed(w, r.day).None?
    ensures Sound(Rule(w, r)) && Keeps(w, Rule(w, r))
  {
    var w' := Rule(w, r);
    RecordCurrent(w.selections, r.day, r.section, r.root, r.status, r.rank, r.rationale, r.reviewer);
    forall i: nat | i < |w.rows| ensures Bound(w', w.rows[i].featured) {
      assert Bound(w, w.rows[i].featured);
    }
    forall d | Agrees(w, d) ensures Agrees(w', d) {
      if d != r.day { RulingFrame(w, r, d); }
    }
  }

  // ---- Repair ----------------------------------------------------------------------------

  lemma RepairPendingKeeps(w: World, k: nat)
    requires Sound(w) && k < |w.rows| && w.rows[k].status.Draft?
    ensures Sound(RepairPending(w, k).0) && Keeps(w, RepairPending(w, k).0)
  {
    var m := w.rows[k];
    var w1 := RepairPending(w, k).0;
    PendingStep(w, k);
    SettleShares(w.files, m);
    forall i: nat | i < |w.rows| ensures NewestIfDraft(w1.rows, i) && Bound(w1, w1.rows[i].featured) {
      assert NewestIfDraft(w.rows, i) && Bound(w, w.rows[i].featured);
    }
    var unindexed := w1.(index := w.index);
    forall i: nat | i < |w.rows| && w.rows[i].status.Published?
      ensures w1.rows[i] == w.rows[i] && Verifies(w1.files, w.rows[i]) == Verifies(w.files, w.rows[i])
    {
      assert Untouched(w, w1, i);
    }
    forall d | !Ready(w.files, m) || d != m.day ensures Expected(unindexed, d) == Expected(w, d) {
      NewestFrame(w.rows, w1.rows, d, Published, Some(w.profiles), Some(w1.profiles));
    }
    forall d | LatestServed(w, d).Some? ensures LatestServed(unindexed, d).Some? {
      StaysServed(w, unindexed, d);
    }
    if Ready(w.files, m) { ReconcileKeeps(w, unindexed, m.day); } else { QuietKeeps(w, w1); }
  }

  lemma RepairPublishedKeeps(w: World, k: nat)
    requires Sound(w) && k < |w.rows| && w.rows[k].status.Published?
    ensures Sound(RepairPublished(w, k).0) && Keeps(w, RepairPublished(w, k).0)
  {
    var m := w.rows[k];
    var w1 := RepairPublished(w, k).0;
    PublishedStep(w, k);
    if Corrupt(w.files, m) { QuarantineShares(w.files, FinalOf(m)); }
    forall i: nat | i < |w.rows| ensures Bound(w1, w1.rows[i].featured) {
      assert Bound(w, w.rows[i].featured);
    }
    if w1 != w {
      var unindexed := w1.(index := w.index);
      forall i: nat | i < |w.rows| ensures Verifies(w1.files, w.rows[i]) == Verifies(w.files, w.rows[i]) {
        if i != k { assert Untouched(w, w1, i); }
      }
      forall d | d != m.day ensures Expected(unindexed, d) == Expected(w, d) {
        ExpectedFrame(w, unindexed, d);
      }
      forall d | LatestServed(w, d).Some? ensures LatestServed(unindexed, d).Some? {
        StaysServed(w, unindexed, d);
      }
      assert w1 == ReconcileDate(unindexed, m.day);
      ReconcileKeeps(w, unindexed, m.day);
    }
  }

  ghost predicate Holds(w: World, w': World) {
    Sound(w') && Keeps(w, w')
  }

  lemma HoldsOn(a: World, b: World, c: World)
    requires Holds(a, b) && Holds(b, c)
    ensures Holds(a, c)
  {
    KeepsTransitive(a, b, c);
  }

  lemma {:induction false} PendingPassKeeps(w: World, k: nat)
    requires Sound(w)
    ensures Holds(w, PendingPass(w, k).0)
    decreases |w.rows| - k
  {
    if k < |w.rows| {
      if w.rows[k].status.Draft? {
        var (w1, raised) := RepairPending(w, k);
        RepairPendingKeeps(w, k);
        assert Holds(w, w1);
        if !raised {
          PendingPassKeeps(w1, k + 1);
          HoldsOn(w, w1, PendingPass(w1, k + 1).0);
        }
      } else {
        PendingPassKeeps(w, k + 1);
      }
    }
  }

  lemma {:induction false} PublishedPassKeeps(w: World, k: nat)
    requires Sound(w)
    ensures Holds(w, PublishedPass(w, k).0)
    decreases |w.rows| - k
  {
    if k < |w.rows| {
      if w.rows[k].status.Published? {
        var (w1, raised) := RepairPublished(w, k);
        RepairPublishedKeeps(w, k);
        assert Holds(w, w1);
        if !raised {
          PublishedPassKeeps(w1, k + 1);
          HoldsOn(w, w1, PublishedPass(w1, k + 1).0);
        }
      } else {
        PublishedPassKeeps(w, k + 1);
      }
    }
  }

  /** Moving strays aside and sweeping temps is invisible to the index. */
  lemma ClearingKeeps(w: World, known: set<Path>, aged: set<Path>)
    requires Sound(w)
    requires forall i: nat :: i < |w.rows| && w.rows[i].status.Published? ==> FinalOf(w.rows[i]) in known
    ensures var cleared := QuarantineAll(w.files, Strays(w.files, known));
      var w' := w.(files := cleared.(names := cleared.names - StaleTemps(cleared, aged)));
      Sound(w') && Keeps(w, w')
  {
    var cleared := QuarantineAll(w.files, Strays(w.files, known));
    var w' := w.(files := cleared.(names := cleared.names - StaleTemps(cleared, aged)));
    ClearingFrame(w, known, aged);
    QuarantineAllFrame(w.files, Strays(w.files, known), Final(0, 0));
    QuarantineAllShares(w.files, Strays(w.files, known));
    SweepFrame(cleared, StaleTemps(cleared, aged));
    forall i: nat | i < |w.rows| && w.rows[i].status.Published?
      ensures Verifies(w'.files, w.rows[i]) == Verifies(w.files, w.rows[i])
    {
      SameAtReads(w.files, w'.files, FinalOf(w.rows[i]), w.rows[i].hash.preimage);
    }
    FileStepKeeps(w, w');
  }

  /** A repair never leaves the index further from the truth than it found it. */
  lemma RepairKeeps(w: World, aged: set<Path>)
    requires Sound(w)
    ensures Sound(Repair(w, aged).0) && Keeps(w, Repair(w, aged).0)
  {
    var w1 := PendingPass(w, 0).0;
    PendingPassKeeps(w, 0);
    PendingPassOutcome(w, 0);
    var w2 := PublishedPass(w1, 0).0;
    PublishedPassKeeps(w1, 0);
    PublishedPassOutcome(w1, 0);
    var known := Uris(w1.rows, Published) + Uris(w.rows, Draft);
    ClearingKeeps(w2, known, aged);
    KeepsTransitive(w, w1, w2);
    KeepsTransitive(w, w2, Repair(w, aged).0);
  }
}
