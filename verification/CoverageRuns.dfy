/**
  Coverage equals recomputation: a rebuild that takes the archive one date at a time, while
  publications (one at a time per date), editorial decisions and repairs go on between its steps.
*/
module CoverageRuns {
  import opened Basics
  import opened Disk
  import opened Editorial
  import opened Rows
  import opened Publication
  import opened Coverage
  import opened Protocol
  import opened Reconcile
  import opened Convergence
  import opened Runs
  import opened CoverageSteps
  import opened Rebuild

  /** At most one publication in flight per date, and one rebuild. */
  datatype Busy = Busy(w: World, inFlight: map<Day, Phase>, rebuilder: Rebuilder)

  datatype Move =
    | Open(req: Request)          // a publication takes its date's lock
    | Proceed(day: Day)           // and makes its next step,
    | Die(day: Day)               // or crashes,
    | Retreat(day: Day)           // or aborts in phase one
    | Judge(ruling: Ruling)
    | Mend(aged: set<Path>)       // repair, with no live publisher
    | VisitDate(day: Day)         // the rebuild takes one date
    | TurnAround                  // the rebuild ends its first pass

  ghost predicate Can(b: Busy, m: Move) {
    match m
    case Open(req) => req.day !in b.inFlight && Bound(b.w, req.featured)
    case Proceed(day) => day in b.inFlight
    case Die(day) => day in b.inFlight
    case Retreat(day) => day in b.inFlight && InPhaseOne(b.inFlight[day])
    case Judge(r) => AfterRuling(b.w, r) == b.w.selections || Servable(b.w, r.day) || LatestServed(b.w, r.day).None?
    case Mend(_) => b.inFlight == map[]
    case VisitDate(day) => day in b.rebuilder.todo
    case TurnAround => b.rebuilder.Walking? && b.rebuilder.todo == {}
  }

  function NextInFlight(inFlight: map<Day, Phase>, day: Day, next: Continuation): map<Day, Phase> {
    match next
    case Continue(ph) => inFlight[day := ph]
    case Done(_) => inFlight - {day}
  }

  ghost function Moved(b: Busy, m: Move): Busy
    requires Good(b) && Can(b, m)
  {
    match m
    case Open(req) =>
      var (w, next) := Start(b.w, req);
      b.(w := w, inFlight := NextInFlight(b.inFlight, req.day, next))
    case Proceed(day) =>
      assert FlightOk(b, day);
      var (w, next) := Advance(b.w, b.inFlight[day]);
      b.(w := w, inFlight := NextInFlight(b.inFlight, day, next))
    case Die(day) => b.(inFlight := b.inFlight - {day})
    case Retreat(day) =>
      assert FlightOk(b, day);
      b.(w := Discard(b.w, b.inFlight[day]), inFlight := b.inFlight - {day})
    case Judge(r) => b.(w := Rule(b.w, r))
    case Mend(aged) => b.(w := Repair(b.w, aged).0)
    case VisitDate(day) =>
      var (w, r) := Visit(b.w, b.rebuilder, day);
      b.(w := w, rebuilder := r)
    case TurnAround => b.(rebuilder := Turn(b.w, b.rebuilder))
  }

  ghost predicate FlightOk(b: Busy, day: Day)
    requires day in b.inFlight
  {
    var ph := b.inFlight[day];
    ph.req.day == day && InRange(b.w, ph) && Alone(b.w, ph)
  }

  ghost predicate Good(b: Busy) {
    Sound(b.w) && forall day :: day in b.inFlight ==> FlightOk(b, day)
  }

  /** What the rebuild still has to look at: every date that does not agree is ahead of it. */
  ghost predicate OnTrack(w: World, r: Rebuilder, d: Day) {
    match r
    case Walking(todo, live, unreadable) =>
      && (d in live ==> Agrees(w, d))
      && (Agrees(w, d) || d in w.index || d in todo || d in unreadable)
    case Dropping(todo, _, _, _) => Agrees(w, d) || d in todo
  }

  ghost predicate OnCourse(b: Busy) {
    Good(b) && forall d :: OnTrack(b.w, b.rebuilder, d)
  }

  // ---- Publications of other dates -------------------------------------------------------

  /** One date's rows, its final names and the decisions bound so far are as they were. */
  ghost predicate DateSpared(w: World, w': World, day: Day) {
    && |w.rows| <= |w'.rows| && |w.selections| <= |w'.selections|
    && (forall i :: 0 <= i < |w.rows| ==> w'.rows[i].day == w.rows[i].day)
    && (forall i :: 0 <= i < |w.rows| && w.rows[i].day == day ==> w'.rows[i] == w.rows[i])
    && (forall i :: |w.rows| <= i < |w'.rows| ==> w'.rows[i].day != day)
    && (forall id :: id in w.profiles ==> id in w'.profiles)
    && (forall v :: Final(day, v) in w'.files.names ==> Final(day, v) in w.files.names)
  }

  lemma {:induction false} MaxVersionSpared(rows: seq<Manifest>, rows': seq<Manifest>, day: Day)
    requires |rows| <= |rows'|
    requires forall i :: 0 <= i < |rows| ==> rows'[i].day == rows[i].day
    requires forall i :: 0 <= i < |rows| && rows[i].day == day ==> rows'[i] == rows[i]
    requires forall i :: |rows| <= i < |rows'| ==> rows'[i].day != day
    ensures MaxVersion(rows', day) == MaxVersion(rows, day)
    decreases |rows'|
  {
    if rows' != [] {
      var n := |rows'| - 1;
      MaxVersionSpared(if |rows| == |rows'| then rows[..n] else rows, rows'[..n], day);
    }
  }

  lemma AloneSpared(w: World, w': World, ph: Phase)
    requires InRange(w, ph) && Alone(w, ph) && DateSpared(w, w', ph.req.day)
    ensures InRange(w', ph) && Alone(w', ph)
  {
    MaxVersionSpared(w.rows, w'.rows, ph.req.day);
  }

  lemma AdvanceSparesOthers(w: World, ph: Phase, day: Day)
    requires w.files.Valid() && InRange(w, ph) && Alone(w, ph) && day != ph.req.day
    ensures DateSpared(w, Advance(w, ph).0, day)
  {
  }

  lemma StartSparesOthers(w: World, req: Request, day: Day)
    ensures DateSpared(w, Start(w, req).0, day)
  {
  }

  lemma DiscardKeeps(w: World, ph: Phase)
    requires Sound(w) && InRange(w, ph)
    ensures Sound(Discard(w, ph)) && Keeps(w, Discard(w, ph))
  {
    var w' := Discard(w, ph);
    if w' != w {
      UnlinkShares(w.files, Temp(ph.req.day, TargetVersion(w, ph.target)));
      forall i: nat | i < |w.rows| ensures Bound(w', w.rows[i].featured) {
        assert Bound(w, w.rows[i].featured);
      }
      FileStepKeeps(w, w');
    }
  }

  lemma RulingSpares(w: World, r: Ruling, day: Day)
    ensures DateSpared(w, Rule(w, r), day)
  {
    RecordCurrent(w.selections, r.day, r.section, r.root, r.status, r.rank, r.rationale, r.reviewer);
  }

  // ---- Every move keeps the invariant ----------------------------------------------------

  /** Publications, decisions and repairs keep every date the rebuild has settled. */
  lemma CarryCourse(b: Busy, w': World)
    requires OnCourse(b) && Keeps(b.w, w')
    ensures forall d :: OnTrack(w', b.rebuilder, d)
  {
    forall d ensures OnTrack(w', b.rebuilder, d) {
      assert OnTrack(b.w, b.rebuilder, d);
    }
  }

  lemma FlightsSpared(b: Busy, w': World, day: Day)
    requires Good(b) && forall d :: d != day ==> DateSpared(b.w, w', d)
    ensures forall d :: d in b.inFlight && d != day ==> FlightOk(b.(w := w'), d)
  {
    forall d | d in b.inFlight && d != day ensures FlightOk(b.(w := w'), d) {
      assert FlightOk(b, d);
      AloneSpared(b.w, w', b.inFlight[d]);
    }
  }

  /** The publisher's own date keeps only its next phase; other dates keep theirs. */
  lemma GoodAfter(b: Busy, w': World, day: Day, next: Continuation)
    requires Good(b) && Sound(w')
    requires forall d :: d != day ==> DateSpared(b.w, w', d)
    requires next.Continue? ==> next.phase.req.day == day && InRange(w', next.phase) && Alone(w', next.phase)
    ensures Good(b.(w := w', inFlight := NextInFlight(b.inFlight, day, next)))
  {
    FlightsSpared(b, w', day);
    var b' := b.(w := w', inFlight := NextInFlight(b.inFlight, day, next));
    forall d | d in b'.inFlight ensures FlightOk(b', d) {
      if d != day { assert FlightOk(b.(w := w'), d); }
    }
  }

  lemma PublishersStayOnCourse(b: Busy, m: Move)
    requires OnCourse(b) && Can(b, m)
    requires m.Open? || m.Proceed? || m.Die? || m.Retreat?
    ensures OnCourse(Moved(b, m))
  {
    match m
    case Open(req) =>
      var (w', next) := Start(b.w, req);
      StartAloneKeeps(b.w, req);
      forall d | d != req.day ensures DateSpared(b.w, w', d) { StartSparesOthers(b.w, req, d); }
      GoodAfter(b, w', req.day, next);
      CarryCourse(b, w');
    case Proceed(day) =>
      assert FlightOk(b, day);
      var ph := b.inFlight[day];
      var (w', next) := Advance(b.w, ph);
      AdvanceAloneKeeps(b.w, ph);
      forall d | d != day ensures DateSpared(b.w, w', d) { AdvanceSparesOthers(b.w, ph, d); }
      GoodAfter(b, w', day, next);
      CarryCourse(b, w');
    case Die(day) =>
      GoodAfter(b, b.w, day, Done(Refused));
    case Retreat(day) =>
      assert FlightOk(b, day);
      var w' := Discard(b.w, b.inFlight[day]);
      DiscardKeeps(b.w, b.inFlight[day]);
      GoodAfter(b, w', day, Done(Refused));
      CarryCourse(b, w');
  }

  lemma DecisionsStayOnCourse(b: Busy, r: Ruling)
    requires OnCourse(b) && Can(b, Judge(r))
    ensures OnCourse(Moved(b, Judge(r)))
  {
    var w' := Rule(b.w, r);
    RulingKeeps(b.w, r);
    forall d | d in b.inFlight ensures FlightOk(b.(w := w'), d) {
      assert FlightOk(b, d);
      RulingSpares(b.w, r, d);
      AloneSpared(b.w, w', b.inFlight[d]);
    }
    CarryCourse(b, w');
  }

  lemma VisitIsSound(w: World, r: Rebuilder, day: Day)
    requires Sound(w)
    ensures Sound(Visit(w, r, day).0)
  {
    var w' := Visit(w, r, day).0;
    forall i: nat | i < |w'.rows| ensures NewestIfDraft(w'.rows, i) && Bound(w', w'.rows[i].featured) {
      assert NewestIfDraft(w.rows, i) && Bound(w, w.rows[i].featured);
    }
  }

  lemma VisitStaysOnTrack(w: World, r: Rebuilder, day: Day, d: Day)
    requires OnTrack(w, r, d) && day in r.todo
    ensures var (w', r') := Visit(w, r, day); OnTrack(w', r', d)
  {
    var (w', r') := Visit(w, r, day);
    assert Expected(w', d) == Expected(w, d);
  }

  /** One date of the rebuild: nothing but that date's row changes, and no settled date is disturbed. */
  lemma VisitStaysOnCourse(b: Busy, day: Day)
    requires OnCourse(b) && Can(b, VisitDate(day))
    ensures OnCourse(Moved(b, VisitDate(day)))
  {
    var (w', r) := Visit(b.w, b.rebuilder, day);
    forall d | d in b.inFlight ensures FlightOk(b.(w := w'), d) {
      assert FlightOk(b, d);
      AloneSpared(b.w, w', b.inFlight[d]);
    }
    VisitIsSound(b.w, b.rebuilder, day);
    forall d ensures OnTrack(w', r, d) {
      assert OnTrack(b.w, b.rebuilder, d);
      VisitStaysOnTrack(b.w, b.rebuilder, day, d);
    }
  }

  lemma MovesStayOnCourse(b: Busy, m: Move)
    requires OnCourse(b) && Can(b, m)
    ensures OnCourse(Moved(b, m))
  {
    match m
    case Judge(r) => DecisionsStayOnCourse(b, r);
    case Mend(aged) =>
      RepairKeeps(b.w, aged);
      CarryCourse(b, Repair(b.w, aged).0);
    case VisitDate(day) => VisitStaysOnCourse(b, day);
    case TurnAround =>
      forall d ensures OnTrack(b.w, Turn(b.w, b.rebuilder), d) { assert OnTrack(b.w, b.rebuilder, d); }
    case _ => PublishersStayOnCourse(b, m);
  }

  // ---- Whole runs ------------------------------------------------------------------------

  ghost predicate MovesTo(b: Busy, m: Move, b': Busy) {
    Good(b) && Can(b, m) && b' == Moved(b, m)
  }

  ghost predicate IsCourse(states: seq<Busy>, moves: seq<Move>) {
    && |states| == |moves| + 1
    && forall i :: 0 <= i < |moves| ==> MovesTo(states[i], moves[i], states[i + 1])
  }

  /** A rebuild about to begin, over an index that may say anything at all. */
  ghost predicate AboutToRebuild(b: Busy) {
    Good(b) && b.rebuilder == FirstPass(b.w)
  }

  lemma {:induction false} CourseIsKept(states: seq<Busy>, moves: seq<Move>, i: nat)
    requires IsCourse(states, moves) && AboutToRebuild(states[0]) && i < |states|
    ensures OnCourse(states[i])
  {
    if i == 0 {
      forall d ensures OnTrack(states[0].w, states[0].rebuilder, d) {
        if LatestServed(states[0].w, d).Some? { ServedIsInSnapshot(states[0].w, d); }
      }
    } else {
      CourseIsKept(states, moves, i - 1);
      assert MovesTo(states[i - 1], moves[i - 1], states[i]);
      MovesStayOnCourse(states[i - 1], moves[i - 1]);
    }
  }

  /**
    Whatever the index said before, and whatever was published, decided or repaired meanwhile: once the
    rebuild ends, and for good afterwards, a date has a row exactly when it can be served, and the row is
    the one derived from the newest published manifest with a profile.
  */
  lemma RebuildSettlesTheIndex(states: seq<Busy>, moves: seq<Move>, i: nat, j: nat, day: Day)
    requires IsCourse(states, moves) && AboutToRebuild(states[0]) && i <= j < |states|
    requires Finished(states[i].rebuilder)
    ensures var w := states[j].w;
      && (day in w.index <==> Servable(w, day))
      && (day in w.index ==> w.index[day] == Derive(w.gov, w.selections, LatestServed(w, day).value,
                                                    w.rows[LatestServed(w, day).value]))
  {
    CourseIsKept(states, moves, j);
    StaysFinished(states, moves, i, j);
    assert OnTrack(states[j].w, states[j].rebuilder, day);
  }

  lemma {:induction false} StaysFinished(states: seq<Busy>, moves: seq<Move>, i: nat, j: nat)
    requires IsCourse(states, moves) && i <= j < |states| && Finished(states[i].rebuilder)
    ensures Finished(states[j].rebuilder)
    decreases j
  {
    if i < j {
      StaysFinished(states, moves, i, j - 1);
      assert MovesTo(states[j - 1], moves[j - 1], states[j]);
    }
  }
}
