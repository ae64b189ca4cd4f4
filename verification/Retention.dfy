/** Event retention over whole runs: what a date has admitted it never drops, and never without a person's leave. */
module Retention {
  import opened Basics
  import opened Disk
  import opened Editorial
  import opened Rows
  import opened Publication
  import opened Protocol
  import opened Reconcile
  import opened Convergence
  import opened CoverageSteps
  import opened Enrichment
  import opened Identity
  import opened Admission
  import F = Featured

  // ---- What every step keeps -------------------------------------------------------------

  /** A later manifest of a date, unless withdrawn, has every event an earlier published one has. */
  ghost predicate Retains(gov: Governance, rows: seq<Manifest>, i: nat, j: nat)
    requires i < |rows| && j < |rows|
  {
    i < j && rows[i].day == rows[j].day && rows[i].status.Published? && !rows[j].status.Withdrawn? ==>
      EventsBehind(gov, rows[i].evidence) <= EventsBehind(gov, rows[j].evidence)
  }

  /** A person once ruled every two events behind this manifest to be distinct. */
  ghost predicate Agreed(gov: Governance, rulings: seq<Adjudication>, evidence: seq<Evidence>) {
    forall a, b :: a in EventsBehind(gov, evidence) && b in EventsBehind(gov, evidence) && a != b ==>
      OnceDistinct(rulings, a, b)
  }

  ghost predicate Admitted(gov: Governance, rows: seq<Manifest>, rulings: seq<Adjudication>) {
    && (forall i: nat, j: nat :: i < |rows| && j < |rows| ==> Retains(gov, rows, i, j))
    && (forall i :: 0 <= i < |rows| ==>
         RowFits(rows[i]) && (!rows[i].status.Withdrawn? ==> Agreed(gov, rulings, rows[i].evidence)))
  }

  /** What publication can do to the rows: nothing, complete a pending manifest of its payload, or add its own. */
  ghost predicate Effect(rows: seq<Manifest>, rows': seq<Manifest>, req: Request) {
    || rows' == rows
    || (exists id: nat :: id < |rows| && Pends(rows, req, id) && rows' == SetStatus(rows, id, Published))
    || (NonePending(rows, req.day) && |rows'| == |rows| + 1 && rows'[..|rows|] == rows &&
        IsOwn(rows'[|rows|], rows, req))
  }

  predicate Pends(rows: seq<Manifest>, req: Request, id: nat)
    requires id < |rows|
  {
    rows[id].status.Draft? && rows[id].day == req.day && rows[id].hash == Hash(req.payload)
  }

  predicate NonePending(rows: seq<Manifest>, day: Day) {
    forall i :: 0 <= i < |rows| && rows[i].day == day ==> !rows[i].status.Draft?
  }

  /** What the request asked for, under the date's next version. */
  predicate IsOwn(m: Manifest, rows: seq<Manifest>, req: Request) {
    && m.day == req.day && m.hash == Hash(req.payload) && m.supersedes == req.supersedes
    && m.tier == req.tier && m.evidence == req.evidence && m.featured == req.featured
    && m.version == MaxVersion(rows, req.day) + 1 && !m.status.Withdrawn?
  }

  // ---- What a publication, crashed anywhere, leaves of the rows --------------------------

  /** The rows a publisher works on, relative to where it began. */
  ghost predicate Within(rows: seq<Manifest>, w: World, ph: Phase) {
    match ph
    case Staging(req, t) => w.rows == rows && Aims(rows, req, t)
    case FinalAbsent(req, t) => w.rows == rows && Aims(rows, req, t)
    case TempProbed(req, t, _) => w.rows == rows && Aims(rows, req, t)
    case Staged(req, t, _, _) => w.rows == rows && Aims(rows, req, t)
    case Committed(req, id, _) => Working(rows, w.rows, req, id)
    case Linked(req, id, _) => Working(rows, w.rows, req, id)
    case Finalized(req, id) => Working(rows, w.rows, req, id)
  }

  ghost predicate Aims(rows: seq<Manifest>, req: Request, t: Target) {
    match t
    case Fresh(v) => NonePending(rows, req.day) && v == MaxVersion(rows, req.day) + 1
    case Resume(id) => id < |rows| && Pends(rows, req, id)
  }

  ghost predicate Working(rows: seq<Manifest>, rows': seq<Manifest>, req: Request, id: nat) {
    || (rows' == rows && id < |rows| && Pends(rows, req, id))
    || (NonePending(rows, req.day) && id == |rows| && |rows'| == |rows| + 1 && rows'[..|rows|] == rows
        && IsOwn(rows'[|rows|], rows, req) && rows'[|rows|].status.Draft?)
  }

  lemma AdvanceWithin(rows: seq<Manifest>, w: World, ph: Phase)
    requires w.files.Valid() && InRange(w, ph) && Within(rows, w, ph)
    ensures var (w', next) := Advance(w, ph);
      && (next.Continue? ==> Within(rows, w', next.phase) && next.phase.req == ph.req)
      && (next.Done? ==> Effect(rows, w'.rows, ph.req))
      && (next.Done? && next.outcome.Returned? ==> Finishes(rows, w'.rows, ph.req, next.outcome.id))
      && (Profiled(w.rows, w.profiles) ==> Profiled(w'.rows, w'.profiles)) && w'.gov == w.gov
  {
  }

  /** A publication that returned: its manifest is published with its payload, and is the date's last row. */
  ghost predicate Finishes(rows: seq<Manifest>, rows': seq<Manifest>, req: Request, id: nat) {
    || (id < |rows| && Pends(rows, req, id) && rows' == SetStatus(rows, id, Published))
    || (NonePending(rows, req.day) && id == |rows| && |rows'| == |rows| + 1 && rows'[..|rows|] == rows
        && IsOwn(rows'[|rows|], rows, req) && rows'[|rows|].status.Published?)
  }

  ghost predicate Profiled(rows: seq<Manifest>, profiles: seq<nat>) {
    forall i: nat :: i < |rows| && rows[i].status.Published? ==> i in profiles
  }

  lemma {:induction false} AttemptEffect(rows: seq<Manifest>, w: World, ph: Phase, steps: nat)
    requires w.files.Valid() && InRange(w, ph) && Within(rows, w, ph) && Profiled(w.rows, w.profiles)
    ensures var w' := Attempt(w, Continue(ph), steps);
      Effect(rows, w'.rows, ph.req) && Profiled(w'.rows, w'.profiles) && w'.gov == w.gov
    decreases steps
  {
    if steps > 0 {
      AdvanceWithin(rows, w, ph);
      var (w', next) := Advance(w, ph);
      if next.Continue? { AttemptEffect(rows, w', next.phase, steps - 1); }
    }
  }

  lemma {:induction false} RunFinishes(rows: seq<Manifest>, w: World, ph: Phase)
    requires w.files.Valid() && InRange(w, ph) && Within(rows, w, ph)
    ensures var (w', outcome) := RunToEnd(w, Continue(ph));
      outcome.Returned? ==> Finishes(rows, w'.rows, ph.req, outcome.id)
    decreases Publication.Ahead(ph)
  {
    AdvanceWithin(rows, w, ph);
    var (w', next) := Advance(w, ph);
    if next.Continue? { RunFinishes(rows, w', next.phase); }
  }

  lemma StartWithin(w: World, req: Request)
    ensures var (w', next) := Start(w, req);
      && w'.rows == w.rows && w'.profiles == w.profiles && w'.gov == w.gov
      && (next.Continue? ==> Within(w.rows, w', next.phase) && next.phase.req == req)
      && (next.Done? && next.outcome.Returned? ==>
            Newest(w.rows, req.day, Published, None) == Some(next.outcome.id)
            && w.rows[next.outcome.id].hash == Hash(req.payload))
  {
    forall i: nat | i < |w.rows| && w.rows[i].day == req.day && w.rows[i].status.Draft?
      ensures Newest(w.rows, req.day, Draft, None).Some?
    {
      NewestIsNewest(w.rows, req.day, Draft, None, i);
    }
  }

  // ---- Rows that stay admitted -----------------------------------------------------------

  /** Every published manifest's events are among the newest one's. */
  lemma NewestHasAll(gov: Governance, rows: seq<Manifest>, rulings: seq<Adjudication>, i: nat)
    requires VersionsFollow(rows) && Admitted(gov, rows, rulings) && i < |rows| && rows[i].status.Published?
    ensures EventsBehind(gov, rows[i].evidence) <= AdmittedEvents(gov, rows, rows[i].day)
  {
    NewestIsNewest(rows, rows[i].day, Published, None, i);
    var j := Predecessor(rows, rows[i].day).value;
    if j < i { VersionsIncrease(rows, j, i); }
    assert Retains(gov, rows, i, j);
  }

  /** Completing or withdrawing what was pending leaves every row admitted. */
  ghost predicate Settles(rows: seq<Manifest>, rows': seq<Manifest>) {
    && |rows'| == |rows|
    && forall i :: 0 <= i < |rows| ==>
         rows'[i] == rows[i] || (rows[i].status.Draft? && rows'[i] == rows[i].(status := rows'[i].status))
  }

  lemma SettlingStaysAdmitted(gov: Governance, rows: seq<Manifest>, rows': seq<Manifest>, rulings: seq<Adjudication>)
    requires Admitted(gov, rows, rulings) && Settles(rows, rows')
    requires forall i: nat :: i < |rows| ==> NewestIfDraft(rows, i)
    ensures Admitted(gov, rows', rulings)
  {
    forall i: nat, j: nat | i < |rows'| && j < |rows'| ensures Retains(gov, rows', i, j) {
      assert Retains(gov, rows, i, j) && NewestIfDraft(rows, i);
    }
    forall i | 0 <= i < |rows'|
      ensures RowFits(rows'[i]) && (!rows'[i].status.Withdrawn? ==> Agreed(gov, rulings, rows'[i].evidence))
    {
      assert RowFits(rows[i]);
    }
  }

  lemma AppendStaysAdmitted(gov: Governance, rows: seq<Manifest>, m: Manifest, rulings: seq<Adjudication>)
    requires VersionsFollow(rows) && Admitted(gov, rows, rulings)
    requires RowFits(m) && Agreed(gov, rulings, m.evidence)
    requires AdmittedEvents(gov, rows, m.day) <= EventsBehind(gov, m.evidence)
    ensures Admitted(gov, rows + [m], rulings)
  {
    var rows' := rows + [m];
    forall i: nat, j: nat | i < |rows'| && j < |rows'| ensures Retains(gov, rows', i, j) {
      if j < |rows| && i < |rows| {
        assert Retains(gov, rows, i, j);
      } else if i < |rows| && rows[i].status.Published? {
        NewestHasAll(gov, rows, rulings, i);
      }
    }
  }

  /** A request that keeps the date's events, with leave for each pair of its own, leaves every row admitted. */
  lemma EffectStaysAdmitted(gov: Governance, rows: seq<Manifest>, rows': seq<Manifest>, rulings: seq<Adjudication>,
                            req: Request)
    requires VersionsFollow(rows) && Admitted(gov, rows, rulings) && Effect(rows, rows', req)
    requires forall i: nat :: i < |rows| ==> NewestIfDraft(rows, i)
    requires RequestFits(req) && Agreed(gov, rulings, req.evidence)
    requires AdmittedEvents(gov, rows, req.day) <= EventsBehind(gov, req.evidence)
    ensures Admitted(gov, rows', rulings)
  {
    if |rows'| == |rows| {
      assert Settles(rows, rows');
      SettlingStaysAdmitted(gov, rows, rows', rulings);
    } else {
      AppendStaysAdmitted(gov, rows, rows'[|rows|], rulings);
      assert rows' == rows + [rows'[|rows|]];
    }
  }

  lemma RulingsStayAdmitted(gov: Governance, rows: seq<Manifest>, rulings: seq<Adjudication>,
                            rulings': seq<Adjudication>)
    requires Admitted(gov, rows, rulings) && rulings <= rulings'
    ensures Admitted(gov, rows, rulings')
  {
    forall a, b | OnceDistinct(rulings, a, b) ensures OnceDistinct(rulings', a, b) {
      HistoryRemembers(rulings, rulings', a, b);
    }
  }
}
