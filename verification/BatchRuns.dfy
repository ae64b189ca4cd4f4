/** Crash-safe batches: however attempts crash and resume, a planned date gains at most one manifest. */
module BatchRuns {
  import opened Basics
  import opened Disk
  import opened Editorial
  import opened Rows
  import opened Publication
  import opened Protocol
  import opened Reconcile
  import opened Recovery
  import opened CoverageSteps
  import opened Retention
  import opened RetentionRuns
  import opened Batch
  import R = Runs

  /**
    One attempt at a date, without --force-new-version, dying after `steps` file and database steps if it has
    not ended.
  */
  datatype Try = Try(day: Day, steps: nat)

  /** The ledger is not part of this state: an attempt's ledger entry may or may not have been committed. */
  ghost predicate Tries(content: Content, w: World, t: Try, w': World) {
    w.files.Valid()
    && if Richer(w, t.day).Some? || content(t.day).None? then w' == w
       else w' == Attempted(w, content(t.day).value.(force := false), t.steps)
  }

  /** Pages belong to their date, name no predecessor, and carry no headline decision. */
  ghost predicate Annual(content: Content) {
    forall day :: content(day).Some? ==> content(day).value.day == day && content(day).value.featured.None?
  }

  /** Of the manifests added since the start, a date has at most one: its page's, pending or published. */
  ghost predicate OneAdded(content: Content, start: nat, rows: seq<Manifest>) {
    && start <= |rows|
    && (forall i: nat :: start <= i < |rows| ==> IsPage(content, rows[i]))
    && (forall i: nat, j: nat :: start <= i < j < |rows| ==> rows[i].day != rows[j].day)
  }

  predicate IsPage(content: Content, m: Manifest) {
    content(m.day).Some? && m.hash == Hash(content(m.day).value.payload) && !m.status.Withdrawn?
  }

  /** A date whose page was already added is not given another: its draft is resumed, or its publication returned. */
  lemma NoSecondPage(content: Content, start: nat, w: World, day: Day, i: nat, steps: nat)
    requires Sound(w) && Profiled(w.rows, w.profiles) && Annual(content) && OneAdded(content, start, w.rows)
    requires start <= i < |w.rows| && w.rows[i].day == day && content(day).Some?
    ensures |Attempted(w, content(day).value.(force := false), steps).rows| == |w.rows|
  {
    var req := content(day).value.(force := false);
    var (w1, next) := Start(w, req);
    StartWithin(w, req);
    forall j: nat | j < |w.rows| && j != i && w.rows[j].day == day ensures w.rows[j].version < w.rows[i].version {
      assert j < i;
      VersionsIncrease(w.rows, j, i);
    }
    assert IsPage(content, w.rows[i]);
    if w.rows[i].status.Published? {
      NewestIsNewest(w.rows, day, Published, None, i);
      assert next == Done(next.outcome);
    } else {
      assert !NonePending(w.rows, day);
      if next.Continue? { AttemptEffect(w.rows, w1, next.phase, steps); }
    }
  }

  lemma TryKeepsOneAdded(content: Content, start: nat, w: World, t: Try, w': World)
    requires Sound(w) && Profiled(w.rows, w.profiles) && Annual(content) && OneAdded(content, start, w.rows)
    requires Tries(content, w, t, w')
    ensures Sound(w') && Profiled(w'.rows, w'.profiles) && OneAdded(content, start, w'.rows)
  {
    if w' != w {
      var req := content(t.day).value.(force := false);
      var (w1, next) := Start(w, req);
      StartWithin(w, req);
      StartAloneKeeps(w, req);
      AttemptKeeps(w1, next, t.steps);
      if next.Continue? {
        AttemptEffect(w.rows, w1, next.phase, t.steps);
        if i: nat :| start <= i < |w.rows| && w.rows[i].day == t.day {
          NoSecondPage(content, start, w, t.day, i, t.steps);
        }
        EffectAddsOne(content, start, w.rows, w'.rows, req);
      }
    }
  }

  lemma EffectAddsOne(content: Content, start: nat, rows: seq<Manifest>, rows': seq<Manifest>, req: Request)
    requires OneAdded(content, start, rows) && Effect(rows, rows', req)
    requires content(req.day).Some? && content(req.day).value.payload == req.payload
    requires |rows'| > |rows| ==> forall i: nat :: start <= i < |rows| ==> rows[i].day != req.day
    ensures OneAdded(content, start, rows')
  {
    forall i: nat | i < |rows| ensures rows'[i] == rows[i] || rows'[i] == rows[i].(status := Published) {
      if |rows'| > |rows| { assert rows'[..|rows|][i] == rows[i]; }
    }
    forall i: nat | start <= i < |rows'| ensures IsPage(content, rows'[i]) {
      if i < |rows| { assert IsPage(content, rows[i]); }
    }
  }

  ghost predicate IsCampaign(content: Content, worlds: seq<World>, tries: seq<Try>) {
    |worlds| == |tries| + 1 && forall i :: 0 <= i < |tries| ==> Tries(content, worlds[i], tries[i], worlds[i + 1])
  }

  lemma {:induction false} CampaignKeeps(content: Content, worlds: seq<World>, tries: seq<Try>, n: nat)
    requires IsCampaign(content, worlds, tries) && Annual(content) && n < |worlds|
    requires Sound(worlds[0]) && Profiled(worlds[0].rows, worlds[0].profiles)
    ensures Sound(worlds[n]) && Profiled(worlds[n].rows, worlds[n].profiles)
    ensures OneAdded(content, |worlds[0].rows|, worlds[n].rows)
  {
    if n > 0 {
      CampaignKeeps(content, worlds, tries, n - 1);
      assert Tries(content, worlds[n - 1], tries[n - 1], worlds[n]);
      TryKeepsOneAdded(content, |worlds[0].rows|, worlds[n - 1], tries[n - 1], worlds[n]);
    }
  }

  /**
    Any pattern of attempts, crashes (between publishing and ledgering included) and resumes, over any dates, with
    the releases unchanged and no forced versions: each date gains at most one manifest, and it is that date's page.
  */
  lemma AtMostOneNewManifestPerDate(content: Content, worlds: seq<World>, tries: seq<Try>, n: nat, i: nat, j: nat)
    requires IsCampaign(content, worlds, tries) && Annual(content) && n < |worlds|
    requires Sound(worlds[0]) && Profiled(worlds[0].rows, worlds[0].profiles)
    requires |worlds[0].rows| <= i < |worlds[n].rows| && |worlds[0].rows| <= j < |worlds[n].rows|
    requires worlds[n].rows[i].day == worlds[n].rows[j].day
    ensures i == j && IsPage(content, worlds[n].rows[i])
  {
    CampaignKeeps(content, worlds, tries, n);
  }

  /**
    Forcing gives that up: a forced attempt at a published date whose next name is free mints another version of
    it.
  */
  lemma ForcedAttemptsMintAgain(w: World, req: Request)
    requires w.files.Valid() && req.force && req.supersedes.None?
    requires Newest(w.rows, req.day, Draft, None).None?
    requires !w.files.Exists(Final(req.day, MaxVersion(w.rows, req.day) + 1))
    ensures |Attempted(w, req, 7).rows| == |w.rows| + 1
  {
    var v := MaxVersion(w.rows, req.day) + 1;
    var t := Target.Fresh(v);
    assert Start(w, req) == (w, Continue(Staging(req, t)));
    var created := !w.files.Exists(Temp(req.day, v));
    var written := w.(files := w.files.Write(Temp(req.day, v), req.payload));
    var drafted := written.(rows := w.rows + [NewDraft(req, v)]);
    assert Advance(w, Staging(req, t)) == (w, Continue(FinalAbsent(req, t)));
    assert Advance(w, FinalAbsent(req, t)) == (w, Continue(TempProbed(req, t, created)));
    assert Advance(w, TempProbed(req, t, created)) == (written, Continue(Staged(req, t, true, created)));
    assert Advance(written, Staged(req, t, true, created)) == (drafted, Continue(Committed(req, |w.rows|, true)));
    AttemptUnfolds(w, Staging(req, t), 7);
    AttemptUnfolds(w, FinalAbsent(req, t), 6);
    AttemptUnfolds(w, TempProbed(req, t, created), 5);
    AttemptUnfolds(written, Staged(req, t, true, created), 4);
    AttemptKeepsCount(drafted, Committed(req, |w.rows|, true), 3);
  }

  lemma AttemptUnfolds(w: World, ph: Phase, steps: nat)
    requires w.files.Valid() && InRange(w, ph) && steps > 0
    ensures Attempt(w, Continue(ph), steps) == Attempt(Advance(w, ph).0, Advance(w, ph).1, steps - 1)
  {
  }

  /** After its commit a publication adds no row. */
  lemma {:induction false} AttemptKeepsCount(w: World, ph: Phase, steps: nat)
    requires w.files.Valid() && InRange(w, ph) && (ph.Committed? || ph.Linked? || ph.Finalized?)
    ensures |Attempt(w, Continue(ph), steps).rows| == |w.rows|
    decreases steps
  {
    if steps > 0 {
      var (w', next) := Advance(w, ph);
      if next.Continue? { AttemptKeepsCount(w', next.phase, steps - 1); }
    }
  }

  // ---- The ledger across crashes ---------------------------------------------------------

  /** The archive, and the entries a run has committed. */
  datatype Logged = Logged(w: World, entries: map<Day, LedgerEntry>)

  datatype Stride =
    | Dies(t: Try)                        // an attempt crashes anywhere, its entry not committed
    | Ends(day: Day, force: bool)         // an attempt ends, and its entry is committed
    | Mends(aged: set<Path>)              // a repair in between

  ghost predicate Goes(content: Content, s: Logged, x: Stride, s': Logged) {
    s.w.files.Valid()
    && match x
       case Dies(t) => Tries(content, s.w, t, s'.w) && s'.entries == s.entries
       case Ends(day, force) =>
         var (w, entry) := AttemptedDate(content, s.w, day, force);
         s' == Logged(w, s.entries[day := entry])
       case Mends(aged) => s' == s.(w := Repair(s.w, aged).0)
  }

  ghost predicate Truthful(content: Content, s: Logged) {
    forall day :: day in s.entries ==> EntryHolds(s.w.rows, content, day, s.entries[day])
  }

  /** What an entry claims stays true: a published manifest keeps its date, its content and its status. */
  lemma EntryStaysTrue(rows: seq<Manifest>, rows': seq<Manifest>, content: Content, day: Day, entry: LedgerEntry)
    requires EntryHolds(rows, content, day, entry) && R.RowsEndure(rows, rows')
    ensures EntryHolds(rows', content, day, entry)
  {
  }

  lemma {:induction false} AttemptAll(w: World, next: Continuation, steps: nat)
    requires w.files.Valid() && (next.Continue? ==> InRange(w, next.phase) && Publication.Ahead(next.phase) < steps)
    ensures Attempt(w, next, steps) == RunToEnd(w, next).0
    decreases steps
  {
    if next.Continue? {
      var (w', next') := Advance(w, next.phase);
      assert RunToEnd(w, next) == RunToEnd(w', next');
      AttemptAll(w', next', steps - 1);
    }
  }

  /** One request, crashed anywhere or not at all. */
  lemma AttemptedEndures(w: World, req: Request, steps: nat)
    requires Sound(w) && Bound(w, req.featured)
    ensures Sound(Attempted(w, req, steps)) && R.RowsEndure(w.rows, Attempted(w, req, steps).rows)
  {
    var (w1, next) := Start(w, req);
    StartWithin(w, req);
    StartAloneKeeps(w, req);
    AttemptKeeps(w1, next, steps);
    if next.Continue? { AttemptRows(w.rows, w1, next.phase, steps); }
  }

  lemma {:induction false} AttemptRows(rows: seq<Manifest>, w: World, ph: Phase, steps: nat)
    requires w.files.Valid() && InRange(w, ph) && Within(rows, w, ph)
    ensures R.RowsEndure(rows, Attempt(w, Continue(ph), steps).rows)
    decreases steps
  {
    if steps > 0 {
      AdvanceWithin(rows, w, ph);
      var (w', next) := Advance(w, ph);
      if next.Continue? {
        AttemptRows(rows, w', next.phase, steps - 1);
      } else {
        EffectKeeps(rows, w'.rows, ph.req);
      }
    }
  }

  lemma RepairEndures(w: World, aged: set<Path>)
    requires Sound(w)
    ensures Sound(Repair(w, aged).0) && R.RowsEndure(w.rows, Repair(w, aged).0.rows)
  {
    RepairKeeps(w, aged);
    RepairRulesRows(w, aged);
  }

  lemma EndsTruthfully(content: Content, w: World, day: Day, force: bool)
    requires Sound(w) && Annual(content)
    ensures var (w', entry) := AttemptedDate(content, w, day, force);
      Sound(w') && R.RowsEndure(w.rows, w'.rows) && EntryHolds(w'.rows, content, day, entry)
  {
    if Richer(w, day).None? && content(day).Some? {
      var req := content(day).value.(force := force);
      PublishEffect(w, req);
      AttemptedEndures(w, req, 8);
      AttemptAll(Start(w, req).0, Start(w, req).1, 8);
    }
  }

  lemma StrideKeepsTruth(content: Content, s: Logged, x: Stride, s': Logged)
    requires Sound(s.w) && Annual(content) && Truthful(content, s) && Goes(content, s, x, s')
    ensures Sound(s'.w) && Truthful(content, s')
  {
    match x
    case Dies(t) =>
      if s'.w != s.w { AttemptedEndures(s.w, content(t.day).value.(force := false), t.steps); }
    case Ends(day, force) => EndsTruthfully(content, s.w, day, force);
    case Mends(aged) => RepairEndures(s.w, aged);
    forall day | day in s'.entries ensures EntryHolds(s'.w.rows, content, day, s'.entries[day]) {
      if day in s.entries && s'.entries[day] == s.entries[day] {
        EntryStaysTrue(s.w.rows, s'.w.rows, content, day, s.entries[day]);
      }
    }
  }

  ghost predicate IsPass(content: Content, states: seq<Logged>, strides: seq<Stride>) {
    |states| == |strides| + 1 && forall i :: 0 <= i < |strides| ==> Goes(content, states[i], strides[i], states[i + 1])
  }

  /**
    Whatever crashed, was repaired and was resumed since: what the ledger says of a date is true of the archive. A date
    it calls published, unchanged or skipped has that manifest, published; the first two with the date's own page.
  */
  lemma {:induction false} LedgerStaysTruthful(content: Content, states: seq<Logged>, strides: seq<Stride>, n: nat)
    requires IsPass(content, states, strides) && Annual(content) && n < |states|
    requires Sound(states[0].w) && Truthful(content, states[0])
    ensures Sound(states[n].w) && Truthful(content, states[n])
  {
    if n > 0 {
      LedgerStaysTruthful(content, states, strides, n - 1);
      assert Goes(content, states[n - 1], strides[n - 1], states[n]);
      StrideKeepsTruth(content, states[n - 1], strides[n - 1], states[n]);
    }
  }
}
