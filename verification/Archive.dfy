/** The store, the staged write and the archive session, as the objects that carry out the steps. */
module Archive {
  import opened Basics
  import opened Disk
  import opened Editorial
  import opened Rows
  import opened Publication
  import opened Coverage
  import opened Reconcile

  /** LocalFilesystemPublishedProfileStore. */
  class ProfileStore {
    var files: Files

    constructor (files: Files)
      ensures this.files == files
    {
      this.files := files;
    }

    /** read(storage_uri, expected_hash): false stands for the raised mismatch or missing file. */
    method Read(p: Path, expected: Hash) returns (ok: bool)
      ensures ok == files.Holds(p, expected.preimage)
    {
      ok := p in files.names && files.names[p] < |files.blocks| && files.blocks[files.names[p]] == expected.preimage;
    }

    /** Never destroys an existing final artifact; reuses the deterministic temp name. */
    method StageVersioned(day: Day, version: nat, payload: Payload) returns (staged: StagedProfileWrite?)
      requires files.Valid()
      modifies this
      ensures files.Valid()
      ensures staged == null <==>
        old(files).Exists(Final(day, version)) && !old(files).Holds(Final(day, version), payload)
      ensures staged != null ==>
        && fresh(staged) && staged.store == this && staged.day == day && staged.version == version
        && staged.payload == payload
        && staged.temporary == !old(files).Exists(Final(day, version)) && !staged.createdDestination
        && (staged.temporary ==> staged.createdTemporary == !old(files).Exists(Temp(day, version)))
      ensures files == if old(files).Exists(Final(day, version)) then old(files)
                       else old(files).Write(Temp(day, version), payload)
    {
      var destination := Final(day, version);
      if files.Exists(destination) {
        var ok := Read(destination, Hash(payload));
        if !ok { return null; }
        staged := new StagedProfileWrite(this, day, version, payload, false, true);
        return;
      }
      var temporary := Temp(day, version);
      var createdTemporary := !files.Exists(temporary);
      files := files.Write(temporary, payload);
      staged := new StagedProfileWrite(this, day, version, payload, true, createdTemporary);
    }

    /** Retaining a bad artifact never destroys one retained earlier. */
    method QuarantineArtifact(target: Path)
      requires files.Exists(target)
      modifies this
      ensures files == Quarantine(old(files), target)
    {
      var suffix := 0;
      ghost var last := FreeSuffix(files.names.Keys, target, 0);
      while files.Exists(Quarantined(target, suffix))
        invariant suffix <= last
        decreases last - suffix
      {
        suffix := suffix + 1;
      }
      files := files.Rename(target, Quarantined(target, suffix));
    }
  }

  /** A staged payload on its way to its final name. */
  class StagedProfileWrite {
    const store: ProfileStore
    const day: Day
    const version: nat
    const payload: Payload
    var temporary: bool
    var createdDestination: bool
    var createdTemporary: bool

    constructor (store: ProfileStore, day: Day, version: nat, payload: Payload, temporary: bool, createdTemporary: bool)
      ensures this.store == store && this.day == day && this.version == version && this.payload == payload
      ensures this.temporary == temporary && this.createdTemporary == createdTemporary && !createdDestination
    {
      this.store, this.day, this.version, this.payload := store, day, version, payload;
      this.temporary, this.createdTemporary, createdDestination := temporary, createdTemporary, false;
    }

    /** Promote by hard link; an existing destination counts only if it verifies; the temp always goes. */
    method Finalize() returns (raised: bool)
      requires store.files.Valid()
      modifies this, store
      ensures store.files.Valid()
      ensures !temporary && createdTemporary == old(createdTemporary)
      ensures !old(temporary) ==> !raised && store.files == old(store.files)
      ensures old(temporary) ==>
        var f, final, temp := old(store.files), Final(day, version), Temp(day, version);
        if f.Exists(temp) && !f.Exists(final)
        then !raised && createdDestination && store.files == f.Link(temp, final).Unlink(temp)
        else
          && raised == !f.Holds(final, payload)
          && createdDestination == old(createdDestination) && store.files == f.Unlink(temp)
    {
      raised := false;
      if !temporary { return; }
      var final, temp := Final(day, version), Temp(day, version);
      if store.files.Exists(temp) && !store.files.Exists(final) {
        store.files := store.files.Link(temp, final);
        createdDestination := true;
      } else {
        var ok := store.Read(final, Hash(payload));
        raised := !ok;
      }
      store.files := store.files.Unlink(temp);
      temporary := false;
    }

    /** Undo what this write created, and nothing an earlier interrupted publication left. */
    method Discard()
      modifies this, store
      ensures !temporary && !createdDestination
      ensures store.files ==
        var f := old(store.files);
        var g := if old(temporary) && old(createdTemporary) then f.Unlink(Temp(day, version)) else f;
        if old(createdDestination) then g.Unlink(Final(day, version)) else g
    {
      if temporary {
        if createdTemporary { store.files := store.files.Unlink(Temp(day, version)); }
        temporary := false;
      }
      if createdDestination {
        store.files := store.files.Unlink(Final(day, version));
        createdDestination := false;
      }
    }
  }

  /** One session over the tables, and the store beside them. */
  class ArchiveSession {
    var rows: seq<Manifest>
    var profiles: seq<nat>
    var index: map<Day, Entry>
    var selections: seq<Selection>
    const gov: Governance
    const store: ProfileStore

    constructor (w: World)
      ensures State() == w && fresh(store)
    {
      rows, profiles, index, selections, gov := w.rows, w.profiles, w.index, w.selections, w.gov;
      store := new ProfileStore(w.files);
    }

    function State(): World
      reads this, store
    {
      World(rows, profiles, index, selections, gov, store.files)
    }

    /** upsert_coverage_entry for one manifest. */
    method IndexCoverage(id: nat)
      requires id < |rows|
      modifies this`index
      ensures State() == IndexManifest(old(State()), id)
    {
      index := index[rows[id].day := Derive(gov, selections, id, rows[id])];
    }

    /** Two-phase, fail-closed publication. */
    method PublishDayProfile(req: Request) returns (outcome: Outcome)
      requires store.files.Valid()
      modifies this, store
      ensures (State(), outcome) == Publish(old(State()), req)
    {
      var latest := Newest(rows, req.day, Published, None);
      if latest.Some? && rows[latest.value].hash == Hash(req.payload) && !req.force && latest.value in profiles {
        var ok := store.Read(FinalOf(rows[latest.value]), Hash(req.payload));
        if !ok { return IntegrityFailure; }
        IndexCoverage(latest.value);
        return Returned(latest.value);
      }
      var pending := Newest(rows, req.day, Draft, None);
      var id: nat, version: nat;
      if pending.Some? {
        if rows[pending.value].hash != Hash(req.payload) { return PendingConflict; }
        id, version := pending.value, rows[pending.value].version;
      } else {
        if !MaySupersede(State(), req.day, req.supersedes) { return Refused; }
        id, version := |rows|, MaxVersion(rows, req.day) + 1;
      }
      ghost var target := if pending.Some? then Resume(id) else Fresh(version);
      ghost var began := State();
      assert Start(began, req) == (began, Continue(Staging(req, target)));
      var staged := store.StageVersioned(req.day, version, req.payload);
      if staged == null {
        assert State() == began;
        RunStep(began, Staging(req, target), began, Done(IntegrityFailure));
        return IntegrityFailure;
      }
      if pending.None? { rows := rows + [NewDraft(req, version)]; }
      ghost var committed := State();
      StagedAlone(began, req, target, committed, id, staged.temporary, staged.createdTemporary);
      outcome := CompletePublication(req, id, staged);
    }

    /** Phase two: promote, verify, then mark published, profile and index in one commit. */
    method CompletePublication(req: Request, id: nat, staged: StagedProfileWrite) returns (outcome: Outcome)
      requires store.files.Valid() && id < |rows| && staged.store == store
      requires staged.day == rows[id].day && staged.version == rows[id].version && staged.payload == req.payload
      modifies this, store, staged
      ensures (State(), outcome) == RunToEnd(old(State()), Continue(Committed(req, id, old(staged.temporary))))
    {
      FinishAlone(State(), req, id, staged.temporary);
      var raised := staged.Finalize();
      if raised { return IntegrityFailure; }
      var ok := store.Read(FinalOf(rows[id]), Hash(req.payload));
      if !ok { return IntegrityFailure; }
      rows := SetStatus(rows, id, Published);
      if id !in profiles { profiles := profiles + [id]; }
      IndexCoverage(id);
      outcome := Returned(id);
    }

    /** Re-derive one date's index row from what is servable. */
    method ReconcileCoverage(day: Day)
      modifies this`index
      ensures State() == ReconcileDate(old(State()), day)
    {
      var served := LatestServed(State(), day);
      if served.Some? {
        var servable := store.Read(FinalOf(rows[served.value]), rows[served.value].hash);
        if servable {
          IndexCoverage(served.value);
          return;
        }
      }
      index := index - {day};
    }

    /** Insert the day profile a published manifest lacks; raises when its predecessor has none either. */
    method EnsureDayProfile(id: nat) returns (raised: bool)
      requires id < |rows|
      modifies this`profiles
      ensures raised == Orphaned(old(State()), id)
      ensures profiles == if raised then old(profiles) else WithProfile(old(profiles), id)
    {
      if id in profiles { return false; }
      var supersedes := rows[id].supersedes;
      if supersedes.Some? && supersedes.value !in profiles { return true; }
      profiles := profiles + [id];
      raised := false;
    }

    /** One pending manifest: find its payload, promote it when repairing, and finish or withdraw. */
    method ReconcilePending(id: nat, repair: bool) returns (report: Report, raised: bool)
      requires store.files.Valid() && id < |rows|
      modifies this, store
      ensures store.files.Valid() && report == PendingReport(old(store.files), old(rows)[id])
      ensures repair ==> (State(), raised) == RepairPending(old(State()), id)
      ensures !repair ==> State() == old(State()) && !raised
    {
      ghost var w := State();
      var m := rows[id];
      var ready := store.Read(FinalOf(m), m.hash);
      var corrupt := store.files.Exists(FinalOf(m)) && !ready;
      raised := false;
      if corrupt && repair { store.QuarantineArtifact(FinalOf(m)); }
      if !ready && store.files.Exists(TempOf(m)) {
        ready := store.Read(TempOf(m), m.hash);
        if ready && repair {
          var staged := new StagedProfileWrite(store, m.day, m.version, m.hash.preimage, true, true);
          var _ := staged.Finalize();
        } else if repair {
          store.QuarantineArtifact(TempOf(m));
        }
      }
      report := Report(if ready then 1 else 0, if ready then 0 else 1, 0, 0, if corrupt then 1 else 0, 0, 0);
      if repair {
        assert store.files == SettleFiles(w.files, m);
        if ready {
          raised := EnsureDayProfile(id);
          if raised { return; }
          rows := SetStatus(rows, id, Published);
          ReconcileCoverage(m.day);
        } else {
          rows := SetStatus(rows, id, Withdrawn);
        }
      }
    }

    /** One published manifest: verify the artifact, then the profile row. */
    method ReconcilePublished(id: nat, repair: bool) returns (report: Report, raised: bool)
      requires store.files.Valid() && id < |rows|
      modifies this, store
      ensures store.files.Valid() && report == PublishedReport(old(State()), id)
      ensures repair ==> (State(), raised) == RepairPublished(old(State()), id)
      ensures !repair ==> State() == old(State()) && !raised
    {
      var m := rows[id];
      raised := false;
      var verifies := store.Read(FinalOf(m), m.hash);
      if !verifies {
        report := NOTHING.(mismatches := 1);
        if repair {
          if store.files.Exists(FinalOf(m)) { store.QuarantineArtifact(FinalOf(m)); }
          ReconcileCoverage(m.day);
        }
        return;
      }
      if id in profiles { return NOTHING.(healthy := 1), false; }
      report := NOTHING.(missing := 1);
      if repair {
        raised := EnsureDayProfile(id);
        if raised { return; }
        ReconcileCoverage(m.day);
      }
    }

    method QuarantineStrays(strays: set<Path>)
      requires strays <= store.files.names.Keys && (forall p :: p in strays ==> p.Final?)
      modifies store
      ensures store.files == QuarantineAll(old(store.files), strays)
    {
      ghost var before := store.files;
      var left := strays;
      QuarantineNone(before);
      while left != {}
        invariant left <= strays && store.files == QuarantineAll(before, strays - left)
        decreases |left|
      {
        var p :| p in left;
        QuarantineOneMore(before, strays - left, p);
        assert strays - (left - {p}) == (strays - left) + {p};
        store.QuarantineArtifact(p);
        left := left - {p};
      }
      assert strays - left == strays;
    }

    method ReconcileAllPending(repair: bool) returns (report: Report, raised: bool)
      requires store.files.Valid()
      modifies this, store
      ensures store.files.Valid()
      ensures repair ==> State() == PendingPass(old(State()), 0).0
      ensures repair ==> report == PendingPass(old(State()), 0).1 && raised == PendingPass(old(State()), 0).2
      ensures !repair ==> State() == old(State()) && !raised && report == ReportPendingFrom(old(State()), 0)
    {
      ghost var w0 := State();
      ghost var whole := PendingPass(w0, 0);
      report, raised := NOTHING, false;
      var k := 0;
      while k < |rows|
        invariant k <= |rows| && store.files.Valid() && !raised
        invariant repair ==> Resumes(whole, report, PendingPass(State(), k))
        invariant !repair ==> State() == w0 && ReportPendingFrom(w0, 0) == Plus(report, ReportPendingFrom(w0, k))
      {
        if repair { ResumePending(whole, report, State(), k); }
        if rows[k].status.Draft? {
          var one;
          one, raised := ReconcilePending(k, repair);
          report := Plus(report, one);
          if raised {
            assert State() == whole.0 && report == whole.1 && whole.2;
            return;
          }
        }
        k := k + 1;
      }
      PlusNothing(report);
      if repair {
        assert PendingPass(State(), k) == (State(), NOTHING, false);
        assert State() == whole.0 && report == whole.1 && !whole.2;
      }
    }

    method ReconcileAllPublished(repair: bool) returns (report: Report, raised: bool)
      requires store.files.Valid()
      modifies this, store
      ensures store.files.Valid()
      ensures repair ==> State() == PublishedPass(old(State()), 0).0
      ensures repair ==> report == PublishedPass(old(State()), 0).1 && raised == PublishedPass(old(State()), 0).2
      ensures !repair ==> State() == old(State()) && !raised && report == ReportPublishedFrom(old(State()), 0)
    {
      ghost var w0 := State();
      ghost var whole := PublishedPass(w0, 0);
      report, raised := NOTHING, false;
      var k := 0;
      while k < |rows|
        invariant k <= |rows| && store.files.Valid() && !raised
        invariant repair ==> Resumes(whole, report, PublishedPass(State(), k))
        invariant !repair ==> State() == w0 && ReportPublishedFrom(w0, 0) == Plus(report, ReportPublishedFrom(w0, k))
      {
        if repair { ResumePublished(whole, report, State(), k); }
        if rows[k].status.Published? {
          var one;
          one, raised := ReconcilePublished(k, repair);
          report := Plus(report, one);
          if raised {
            assert State() == whole.0 && report == whole.1 && whole.2;
            return;
          }
        }
        k := k + 1;
      }
      PlusNothing(report);
      if repair {
        assert PublishedPass(State(), k) == (State(), NOTHING, false);
        assert State() == whole.0 && report == whole.1 && !whole.2;
      }
    }

    /** Deterministic recovery for every interrupted-publication state; report-only unless repairing. */
    method ReconcilePublications(repair: bool, aged: set<Path>) returns (report: Report, raised: bool)
      requires store.files.Valid()
      modifies this, store
      ensures repair ==> (State(), report, raised) == Repair(old(State()), aged)
      ensures !repair ==> State() == old(State()) && !raised && report == ReportOnly(old(State()), aged)
    {
      var known := Uris(rows, Draft);
      report, raised := ReconcileAllPending(repair);
      if raised { return; }
      known := Uris(rows, Published) + known;
      var published;
      published, raised := ReconcileAllPublished(repair);
      report := Plus(report, published);
      if raised { return; }
      ghost var (passed, soFar) := (State(), report);
      var cleared := ClearStrays(repair, known, aged);
      report := Plus(report, cleared);
      ClearsAway(passed, old(rows), passed.rows, soFar, aged);
    }

    /** What no manifest accounts for goes to quarantine, and temps grown old go away. */
    method ClearStrays(repair: bool, known: set<Path>, aged: set<Path>) returns (cleared: Report)
      modifies store
      ensures repair ==> (State(), cleared) == ClearedAway(old(State()), known, aged)
      ensures !repair ==> State() == old(State())
      ensures !repair ==>
        cleared == NOTHING.(orphans := |Strays(store.files, known)|, stale := |StaleTemps(store.files, aged)|)
    {
      var strays := Strays(store.files, known);
      if repair { QuarantineStrays(strays); }
      var stale := StaleTemps(store.files, aged);
      if repair { store.files := store.files.(names := store.files.names - stale); }
      cleared := NOTHING.(orphans := |strays|, stale := |stale|);
    }
  }

  function ClearedAway(w: World, known: set<Path>, aged: set<Path>): (World, Report) {
    var strays := Strays(w.files, known);
    var files := QuarantineAll(w.files, strays);
    var stale := StaleTemps(files, aged);
    (w.(files := files.(names := files.names - stale)), NOTHING.(orphans := |strays|, stale := |stale|))
  }

  lemma ClearsAway(w: World, before: seq<Manifest>, after: seq<Manifest>, report: Report, aged: set<Path>)
    ensures var (w', cleared) := ClearedAway(w, Uris(after, Published) + Uris(before, Draft), aged);
      Clear(w, before, after, report, aged) == (w', Plus(report, cleared), false)
  {
  }

  /** A pass that has already reported `done` ends as the pass resumed from here does. */
  ghost predicate Resumes(whole: (World, Report, bool), done: Report, rest: (World, Report, bool)) {
    whole.0 == rest.0 && whole.1 == Plus(done, rest.1) && whole.2 == rest.2
  }

  lemma PlusNothing(report: Report)
    ensures Plus(report, NOTHING) == report && Plus(NOTHING, report) == report
  {
  }

  lemma ResumesThen(whole: (World, Report, bool), done: Report, pass: (World, Report, bool), one: Report,
                    rest: (World, Report, bool))
    requires Resumes(whole, done, pass) && pass == (rest.0, Plus(one, rest.1), rest.2)
    ensures Resumes(whole, Plus(done, one), rest)
  {
  }

  lemma ResumePending(whole: (World, Report, bool), done: Report, w: World, k: nat)
    requires k < |w.rows| && Resumes(whole, done, PendingPass(w, k))
    ensures if !w.rows[k].status.Draft? then Resumes(whole, done, PendingPass(w, k + 1))
            else
              var (w1, raised) := RepairPending(w, k);
              var now := Plus(done, PendingReport(w.files, w.rows[k]));
              if raised then whole == (w1, now, true) else Resumes(whole, now, PendingPass(w1, k + 1))
  {
    if w.rows[k].status.Draft? && !RepairPending(w, k).1 {
      ResumesThen(whole, done, PendingPass(w, k), PendingReport(w.files, w.rows[k]),
                  PendingPass(RepairPending(w, k).0, k + 1));
    }
  }

  lemma ResumePublished(whole: (World, Report, bool), done: Report, w: World, k: nat)
    requires k < |w.rows| && Resumes(whole, done, PublishedPass(w, k))
    ensures if !w.rows[k].status.Published? then Resumes(whole, done, PublishedPass(w, k + 1))
            else
              var (w1, raised) := RepairPublished(w, k);
              var now := Plus(done, PublishedReport(w, k));
              if raised then whole == (w1, now, true) else Resumes(whole, now, PublishedPass(w1, k + 1))
  {
    if w.rows[k].status.Published? && !RepairPublished(w, k).1 {
      ResumesThen(whole, done, PublishedPass(w, k), PublishedReport(w, k),
                  PublishedPass(RepairPublished(w, k).0, k + 1));
    }
  }

  lemma RunStep(w: World, ph: Phase, w': World, next: Continuation)
    requires w.files.Valid() && InRange(w, ph) && Advance(w, ph) == (w', next)
    ensures w'.files.Valid() && (next.Continue? ==> InRange(w', next.phase))
    ensures RunToEnd(w, Continue(ph)) == RunToEnd(w', next)
  {
  }

  /** From the lock to the commit, for a write that staged. */
  lemma StagedAlone(w: World, req: Request, target: Target, committed: World, id: nat, temporary: bool, created: bool)
    requires w.files.Valid() && InRange(w, Staging(req, target))
    requires target.Resume? ==> id == target.id
    requires target.Fresh? ==> id == |w.rows|
    requires var final, temp := Final(req.day, TargetVersion(w, target)), Temp(req.day, TargetVersion(w, target));
      && (w.files.Exists(final) ==> w.files.Holds(final, req.payload))
      && temporary == !w.files.Exists(final)
      && (temporary ==> created == !w.files.Exists(temp))
      && committed == w.(
           files := if temporary then w.files.Write(temp, req.payload) else w.files,
           rows := if target.Fresh? then w.rows + [NewDraft(req, target.version)] else w.rows)
    ensures committed.files.Valid() && InRange(committed, Committed(req, id, temporary))
    ensures RunToEnd(w, Continue(Staging(req, target))) == RunToEnd(committed, Continue(Committed(req, id, temporary)))
  {
    var temp := Temp(req.day, TargetVersion(w, target));
    if temporary {
      var written := w.(files := w.files.Write(temp, req.payload));
      RunStep(w, Staging(req, target), w, Continue(FinalAbsent(req, target)));
      RunStep(w, FinalAbsent(req, target), w, Continue(TempProbed(req, target, created)));
      RunStep(w, TempProbed(req, target, created), written, Continue(Staged(req, target, true, created)));
      CommitAlone(written, req, target, committed, id, true, created);
    } else {
      RunStep(w, Staging(req, target), w, Continue(Staged(req, target, false, true)));
      CommitAlone(w, req, target, committed, id, false, true);
    }
  }

  lemma CommitAlone(w: World, req: Request, target: Target, committed: World, id: nat, temporary: bool, created: bool)
    requires w.files.Valid() && InRange(w, Staged(req, target, temporary, created))
    requires target.Resume? ==> id == target.id
    requires target.Fresh? ==> id == |w.rows|
    requires committed == w.(rows := if target.Fresh? then w.rows + [NewDraft(req, target.version)] else w.rows)
    ensures InRange(committed, Committed(req, id, temporary))
    ensures RunToEnd(w, Continue(Staged(req, target, temporary, created)))
         == RunToEnd(committed, Continue(Committed(req, id, temporary)))
  {
    RunStep(w, Staged(req, target, temporary, created), committed, Continue(Committed(req, id, temporary)));
  }

  /** What finalize leaves on disk. */
  function Promoted(files: Files, m: Manifest, temporary: bool): Files {
    if !temporary then files
   
    else if files.Exists(TempOf(m)) && !files.Exists(FinalOf(m)) 
    then files.Link(TempOf(m), FinalOf(m)).Unlink(TempOf(m))
    else files.Unlink(TempOf(m))
  }

  /** Whether finalize raises. */
  predicate PromotionRaises(files: Files, m: Manifest, payload: Payload, temporary: bool) {
    temporary && !(files.Exists(TempOf(m)) && !files.Exists(FinalOf(m))) && !files.Holds(FinalOf(m), payload)
  }

  /** From the commit of phase one to the end. */
  lemma FinishAlone(w: World, req: Request, id: nat, temporary: bool)
    requires w.files.Valid() && id < |w.rows|
    ensures var promoted := w.(files := Promoted(w.files, w.rows[id], temporary));
      RunToEnd(w, Continue(Committed(req, id, temporary))) ==
        if PromotionRaises(w.files, w.rows[id], req.payload, temporary)
           || !promoted.files.Holds(FinalOf(w.rows[id]), req.payload)
        then (promoted, IntegrityFailure)
        else (Complete(promoted, id), Returned(id))
  {
    var m := w.rows[id];
    var promoted := w.(files := Promoted(w.files, m, temporary));
    var raises := PromotionRaises(w.files, m, req.payload, temporary);
    if !temporary {
      RunStep(w, Committed(req, id, temporary), w, Continue(Finalized(req, id)));
    } else {
      var linked := if w.files.Exists(TempOf(m)) && !w.files.Exists(FinalOf(m))
                    then w.(files := w.files.Link(TempOf(m), FinalOf(m))) else w;
      RunStep(w, Committed(req, id, temporary), linked, Continue(Linked(req, id, !raises)));
      RunStep(linked, Linked(req, id, !raises), promoted,
              if raises then Done(IntegrityFailure) else Continue(Finalized(req, id)));
    }
    if !raises {
      var holds := promoted.files.Holds(FinalOf(m), req.payload);
      RunStep(promoted, Finalized(req, id), if holds then Complete(promoted, id) else promoted,
              Done(if holds then Returned(id) else IntegrityFailure));
    }
  }

  lemma QuarantineNone(files: Files)
    ensures QuarantineAll(files, {}) == files
  {
    assert QuarantineAll(files, {}).names == files.names;
  }

  /** The quarantine name chosen for p depends only on what is already retained under p. */
  lemma FreeSuffixFrame(names: set<Path>, names': set<Path>, p: Path)
    requires forall j: nat :: Quarantined(p, j) in names <==> Quarantined(p, j) in names'
    ensures FreeSuffix(names, p, 0) == FreeSuffix(names', p, 0)
  {
    var a, b := FreeSuffix(names, p, 0), FreeSuffix(names', p, 0);
    assert a < b ==> Quarantined(p, a) in names';
    assert b < a ==> Quarantined(p, b) in names;
  }

  lemma QuarantineOneMore(files: Files, done: set<Path>, p: Path)
    requires p in files.names && p !in done && p.Final? && done <= files.names.Keys
    requires (forall s :: s in done ==> s.Final?)
    ensures p in QuarantineAll(files, done).names
    ensures Quarantine(QuarantineAll(files, done), p) == QuarantineAll(files, done + {p})
  {
    var now := QuarantineAll(files, done);
    FreeSuffixFrame(files.names.Keys, now.names.Keys, p);
    var one, all := Quarantine(now, p), QuarantineAll(files, done + {p});
    assert one.names.Keys == all.names.Keys;
    assert one.names == all.names;
  }
}
