/**
  Two-phase publication, one file or database step at a time. Phase one runs under the date's
  advisory lock and commits a DRAFT beside its staged payload; phase two promotes, verifies and
  commits PUBLISHED with the day profile and the index row.
*/
module Publication {
  import opened Basics
  import opened Disk
  import opened Editorial
  import opened Rows

  /** Both stores: the tables (a profile row is its manifest's id) and the files. */
  datatype World = World(
    rows: seq<Manifest>, profiles: seq<nat>, index: map<Day, Entry>,
    selections: seq<Selection>, gov: Governance, files: Files)

  /** What a publisher asks of publish_day_profile, after evidence validation. */
  datatype Request = Request(
    day: Day, payload: Payload, tier: Tier, evidence: seq<Evidence>, featured: Option<Binding>,
    supersedes: Option<nat>, force: bool)

  /** The manifest phase one works on: a new version, or the pending DRAFT with the same content. */
  datatype Target = Fresh(version: nat) | Resume(id: nat)

  datatype Phase =
    | Staging(req: Request, target: Target)                                   // locked, rows read
    | FinalAbsent(req: Request, target: Target)                               // destination did not exist
    | TempProbed(req: Request, target: Target, created: bool)                 // temp looked at
    | Staged(req: Request, target: Target, temporary: bool, created: bool)    // ready to commit
    | Committed(req: Request, id: nat, temporary: bool)                       // unlocked, before the link
    | Linked(req: Request, id: nat, verified: bool)                           // before the temp is unlinked
    | Finalized(req: Request, id: nat)                                        // before completion

  datatype Outcome =
    | Returned(id: nat)      // the day profile of this manifest
    | PendingConflict        // PendingPublicationError
    | Refused                // supersession invalid, or its slot already taken
    | IntegrityFailure       // a hash check failed, or the staged payload vanished

  datatype Continuation = Continue(phase: Phase) | Done(outcome: Outcome)

  predicate InPhaseOne(ph: Phase) {
    ph.Staging? || ph.FinalAbsent? || ph.TempProbed? || ph.Staged?
  }

  /** The newest row of a date with the given status, optionally only among rows with a profile. */
  function Newest(rows: seq<Manifest>, day: Day, status: Status, profiles: Option<seq<nat>>): (r: Option<nat>)
    ensures r.Some? ==> r.value < |rows| && Matches(rows, r.value, day, status, profiles)
  {
    if rows == [] then None
    else
      var n := |rows| - 1;
      var before := Newest(rows[..n], day, status, profiles);
      if Matches(rows, n, day, status, profiles) && (before.None? || rows[before.value].version <= rows[n].version)
      then Some(n)
      else before
  }

  lemma {:induction false} NewestIsNewest(rows: seq<Manifest>, day: Day, status: Status, profiles: Option<seq<nat>>,
                                          i: nat)
    requires i < |rows| && Matches(rows, i, day, status, profiles)
    ensures var r := Newest(rows, day, status, profiles);
      r.Some? && rows[i].version <= rows[r.value].version
  {
    if i < |rows| - 1 {
      assert Matches(rows[..|rows| - 1], i, day, status, profiles);
      NewestIsNewest(rows[..|rows| - 1], day, status, profiles, i);
    }
  }

  /** The newest row depends on nothing but which rows match, and their versions. */
  lemma {:induction false} NewestFrame(rows: seq<Manifest>, rows': seq<Manifest>, day: Day, status: Status,
                                       profiles: Option<seq<nat>>, profiles': Option<seq<nat>>)
    requires |rows| == |rows'|
    requires forall i: nat :: i < |rows| ==>
      Matches(rows, i, day, status, profiles) == Matches(rows', i, day, status, profiles')
    requires forall i: nat :: i < |rows| && Matches(rows, i, day, status, profiles) ==>
      rows[i].version == rows'[i].version
    ensures Newest(rows, day, status, profiles) == Newest(rows', day, status, profiles')
  {
    if rows != [] {
      var n := |rows| - 1;
      assert Matches(rows, n, day, status, profiles) == Matches(rows', n, day, status, profiles');
      forall i: nat | i < n
        ensures Matches(rows[..n], i, day, status, profiles) == Matches(rows'[..n], i, day, status, profiles')
        ensures Matches(rows[..n], i, day, status, profiles) ==> rows[..n][i].version == rows'[..n][i].version
      {
        assert Matches(rows, i, day, status, profiles) == Matches(rows', i, day, status, profiles');
      }
      NewestFrame(rows[..n], rows'[..n], day, status, profiles, profiles');
    }
  }

  predicate Matches(rows: seq<Manifest>, i: nat, day: Day, status: Status, profiles: Option<seq<nat>>)
    requires i < |rows|
  {
    rows[i].day == day && rows[i].status == status && (profiles.Some? ==> i in profiles.value)
  }

  /** max(version) over every row of the date, withdrawn ones included; 0 when there is none. */
  function MaxVersion(rows: seq<Manifest>, day: Day): nat {
    if rows == [] then 0
    else
      var n := |rows| - 1;
      var before := MaxVersion(rows[..n], day);
      if rows[n].day == day && before < rows[n].version then rows[n].version else before
  }

  lemma {:induction false} MaxVersionBounds(rows: seq<Manifest>, day: Day, i: nat)
    requires i < |rows| && rows[i].day == day
    ensures rows[i].version <= MaxVersion(rows, day)
  {
    if i < |rows| - 1 {
      MaxVersionBounds(rows[..|rows| - 1], day, i);
    }
  }

  /** The manifest a reader of the date is served. */
  function LatestServed(w: World, day: Day): Option<nat> {
    Newest(w.rows, day, Published, Some(w.profiles))
  }

  function FinalOf(m: Manifest): Path {
    Final(m.day, m.version)
  }

  function TempOf(m: Manifest): Path {
    Temp(m.day, m.version)
  }

  /** store.read(manifest.storage_uri, manifest.content_hash) succeeds. */
  predicate Verifies(files: Files, m: Manifest) {
    files.Holds(FinalOf(m), m.hash.preimage)
  }

  function IndexManifest(w: World, id: nat): World
    requires id < |w.rows|
  {
    w.(index := w.index[w.rows[id].day := Derive(w.gov, w.selections, id, w.rows[id])])
  }

  function SetStatus(rows: seq<Manifest>, id: nat, status: Status): seq<Manifest>
    requires id < |rows|
  {
    rows[id := rows[id].(status := status)]
  }

  /** _validate_profile_supersession, and the single-successor constraint over all rows. */
  predicate MaySupersede(w: World, day: Day, supersedes: Option<nat>) {
    supersedes.Some? ==>
      && supersedes.value < |w.rows|
      && w.rows[supersedes.value].status.Published?
      && w.rows[supersedes.value].day == day
      && supersedes.value in w.profiles
      && forall i :: 0 <= i < |w.rows| ==> w.rows[i].supersedes != supersedes
  }

  /** Take the lock, read the date's rows, and decide. */
  function Start(w: World, req: Request): (r: (World, Continuation))
    ensures r.0.files == w.files && |r.0.rows| == |w.rows|
    ensures r.1.Continue? ==> InRange(r.0, r.1.phase)
  {
    var latest := Newest(w.rows, req.day, Published, None);
    var pending := Newest(w.rows, req.day, Draft, None);
    if latest.Some? && w.rows[latest.value].hash == Hash(req.payload) && !req.force && latest.value in w.profiles then
      if Verifies(w.files, w.rows[latest.value])
      then (IndexManifest(w, latest.value), Done(Returned(latest.value)))
      else (w, Done(IntegrityFailure))
    else if pending.Some? then
      if w.rows[pending.value].hash == Hash(req.payload)
      then (w, Continue(Staging(req, Resume(pending.value))))
      else (w, Done(PendingConflict))
    else if !MaySupersede(w, req.day, req.supersedes) then (w, Done(Refused))
    else (w, Continue(Staging(req, Fresh(MaxVersion(w.rows, req.day) + 1))))
  }

  /** The ids a phase carries exist. */
  predicate InRange(w: World, ph: Phase) {
    match ph
    case Staging(_, t) => t.Resume? ==> t.id < |w.rows|
    case FinalAbsent(_, t) => t.Resume? ==> t.id < |w.rows|
    case TempProbed(_, t, _) => t.Resume? ==> t.id < |w.rows|
    case Staged(_, t, _, _) => t.Resume? ==> t.id < |w.rows|
    case Committed(_, id, _) => id < |w.rows|
    case Linked(_, id, _) => id < |w.rows|
    case Finalized(_, id) => id < |w.rows|
  }

  function TargetVersion(w: World, target: Target): nat
    requires target.Resume? ==> target.id < |w.rows|
  {
    match target
    case Fresh(v) => v
    case Resume(id) => w.rows[id].version
  }

  function NewDraft(req: Request, version: nat): Manifest {
    Manifest(req.day, version, Draft, Hash(req.payload), req.supersedes, req.tier, req.evidence, req.featured)
  }

  /** Mark published, insert the day profile when missing, index this manifest: one commit. */
  function Complete(w: World, id: nat): World
    requires id < |w.rows|
  {
    var published := w.(
      rows := SetStatus(w.rows, id, Published),
      profiles := if id in w.profiles then w.profiles else w.profiles + [id]);
    IndexManifest(published, id)
  }

  /** Steps still ahead of a publisher. */
  function Ahead(ph: Phase): nat {
    match ph
    case Staging(_, _) => 6
    case FinalAbsent(_, _) => 5
    case TempProbed(_, _, _) => 4
    case Staged(_, _, _, _) => 3
    case Committed(_, _, _) => 2
    case Linked(_, _, _) => 1
    case Finalized(_, _) => 0
  }

  /** One publisher's next step. */
  function Advance(w: World, ph: Phase): (r: (World, Continuation))
    requires w.files.Valid() && InRange(w, ph)
    ensures r.0.files.Valid()
    ensures r.1.Continue? ==> InRange(r.0, r.1.phase) && Ahead(r.1.phase) < Ahead(ph)
  {
    match ph
    case Staging(req, target) =>
      var final := Final(req.day, TargetVersion(w, target));
      if !w.files.Exists(final) then (w, Continue(FinalAbsent(req, target)))
      else if w.files.Holds(final, req.payload) then (w, Continue(Staged(req, target, false, true)))
      else (w, Done(IntegrityFailure))
    case FinalAbsent(req, target) =>
      (w, Continue(TempProbed(req, target, !w.files.Exists(Temp(req.day, TargetVersion(w, target))))))
    case TempProbed(req, target, created) =>
      (w.(files := w.files.Write(Temp(req.day, TargetVersion(w, target)), req.payload)),
       Continue(Staged(req, target, true, created)))
    case Staged(req, target, temporary, created) =>
      (match target
       case Fresh(v) => (w.(rows := w.rows + [NewDraft(req, v)]), Continue(Committed(req, |w.rows|, temporary)))
       case Resume(id) => (w, Continue(Committed(req, id, temporary))))
    case Committed(req, id, temporary) =>
      var final, temp := FinalOf(w.rows[id]), TempOf(w.rows[id]);
      if !temporary then (w, Continue(Finalized(req, id)))
      else if w.files.Exists(temp) && !w.files.Exists(final)
      then (w.(files := w.files.Link(temp, final)), Continue(Linked(req, id, true)))
      else (w, Continue(Linked(req, id, w.files.Holds(final, req.payload))))
    case Linked(req, id, verified) =>
      (w.(files := w.files.Unlink(TempOf(w.rows[id]))),
       if verified then Continue(Finalized(req, id)) else Done(IntegrityFailure))
    case Finalized(req, id) =>
      if w.files.Holds(FinalOf(w.rows[id]), req.payload) then (Complete(w, id), Done(Returned(id)))
      else (w, Done(IntegrityFailure))
  }

  /** What is left of a publication nobody else interferes with. */
  function RunToEnd(w: World, next: Continuation): (World, Outcome)
    requires w.files.Valid() && (next.Continue? ==> InRange(w, next.phase))
    decreases if next.Continue? then Ahead(next.phase) + 1 else 0
  {
    match next
    case Done(outcome) => (w, outcome)
    case Continue(ph) =>
      var (w', next') := Advance(w, ph);
      RunToEnd(w', next')
  }

  /** publish_day_profile, alone on its date and uninterrupted. */
  function Publish(w: World, req: Request): (World, Outcome)
    requires w.files.Valid()
  {
    var (w', next) := Start(w, req);
    RunToEnd(w', next)
  }

  /** Roll back and discard: the staged temp goes only if this transaction created it. */
  function Discard(w: World, ph: Phase): World
    requires InRange(w, ph)
  {
    if ph.Staged? && ph.temporary && ph.created
    then w.(files := w.files.Unlink(Temp(ph.req.day, TargetVersion(w, ph.target))))
    else w
  }
}
