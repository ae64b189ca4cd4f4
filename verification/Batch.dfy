/** The resumable batch ledger: at-least-once attempts over an idempotent publisher. */
module Batch {
  import opened Basics
  import opened Disk
  import opened Editorial
  import opened Rows
  import opened Publication
  import opened Retention
  import R = Runs

  datatype EntryStatus = DatePublished | DateUnchanged | DateFailed | DateSkipped

  datatype LedgerEntry = LedgerEntry(status: EntryStatus, manifest: Option<nat>)

  datatype RunStatus = Running | Completed | Interrupted

  /** A batch run: what it was asked for, the releases it was pinned to, and one entry per date. */
  datatype Run = Run(
    planned: seq<Day>, releases: map<string, Option<nat>>, entries: map<Day, LedgerEntry>, status: RunStatus)

  datatype BatchReport = BatchReport(
    requested: nat, published: nat, same: nat, failed: nat, skipped: nat, failures: seq<Day>)

  predicate Owed(run: Run, onlyFailed: bool, day: Day) {
    if onlyFailed then day in run.entries && run.entries[day].status.DateFailed?
    else day !in run.entries || run.entries[day].status.DateFailed?
  }

  /** outstanding_dates. */
  function Outstanding(run: Run, onlyFailed: bool): seq<Day> {
    OutstandingOf(run.planned, run, onlyFailed)
  }

  function OutstandingOf(planned: seq<Day>, run: Run, onlyFailed: bool): (owed: seq<Day>)
    ensures forall d :: d in owed <==> d in planned && Owed(run, onlyFailed, d)
  {
    if planned == [] then []
    else
      assert planned == [planned[0]] + planned[1..];
      var rest := OutstandingOf(planned[1..], run, onlyFailed);
      if Owed(run, onlyFailed, planned[0]) then [planned[0]] + rest else rest
  }

  /** What is owed is the plan's, in the plan's order, each owed date as often as planned. */
  lemma {:induction false} OwedFollowsThePlan(first: seq<Day>, later: seq<Day>, run: Run, onlyFailed: bool)
    ensures OutstandingOf(first + later, run, onlyFailed) ==
      OutstandingOf(first, run, onlyFailed) + OutstandingOf(later, run, onlyFailed)
    ensures forall d :: OutstandingOf([d], run, onlyFailed) == if Owed(run, onlyFailed, d) then [d] else []
  {
    if first != [] {
      assert (first + later)[1..] == first[1..] + later;
      OwedFollowsThePlan(first[1..], later, run, onlyFailed);
    } else {
      assert first + later == later;
    }
  }

  /** batch_run_is_resumable: an absent release was never pinned, a recorded null was. */
  predicate Resumable(run: Run, plan: Option<seq<Day>>, current: map<string, Option<nat>>) {
    && (plan.None? || run.planned == [] || run.planned == plan.value)
    && forall key :: key in current ==> key !in run.releases || run.releases[key] == current[key]
  }

  /** The newest manifest id of a date, whatever its status. */
  function NewestOf(rows: seq<Manifest>, day: Day): (r: Option<nat>)
    ensures r.Some? ==> r.value < |rows| && rows[r.value].day == day
    ensures forall i :: 0 <= i < |rows| && rows[i].day == day ==> r.Some? && rows[i].version <= rows[r.value].version
  {
    if rows == [] then None
    else
      var n := |rows| - 1;
      var before := NewestOf(rows[..n], day);
      if rows[n].day == day && (before.None? || rows[before.value].version <= rows[n].version) then Some(n) else before
  }

  /** richer_published_profile. */
  function Richer(w: World, day: Day): Option<nat> {
    var latest := Newest(w.rows, day, Published, None);
    if latest.Some? && !w.rows[latest.value].tier.ContextOnly? && latest.value in w.profiles then latest else None
  }

  /** The annual-context page of a date under the pinned releases; None when it cannot be built. */
  type Content = Day -> Option<Request>

  ghost predicate ContentOk(content: Content) {
    forall day :: content(day).Some? ==> content(day).value.day == day
  }

  /** What one date's entry claims, against the archive. */
  predicate EntryHolds(rows: seq<Manifest>, content: Content, day: Day, entry: LedgerEntry) {
    entry.status.DateFailed? ||
    (entry.manifest.Some? && entry.manifest.value < |rows| && rows[entry.manifest.value].status.Published?
     && rows[entry.manifest.value].day == day
     && (!entry.status.DateSkipped? ==>
           content(day).Some? && rows[entry.manifest.value].hash == Hash(content(day).value.payload)))
  }

  lemma {:induction false} RunEffect(rows: seq<Manifest>, w: World, ph: Phase)
    requires w.files.Valid() && InRange(w, ph) && Within(rows, w, ph)
    ensures var (w', outcome) := RunToEnd(w, Continue(ph));
      Effect(rows, w'.rows, ph.req) && w'.files.Valid()
    decreases Publication.Ahead(ph)
  {
    AdvanceWithin(rows, w, ph);
    var (w', next) := Advance(w, ph);
    if next.Continue? { RunEffect(rows, w', next.phase); }
  }

  predicate HoldsPage(m: Manifest, day: Day, payload: Payload) {
    m.status.Published? && m.day == day && m.hash == Hash(payload)
  }

  /** A published row and its content stay; a publication that returned published its request's payload. */
  lemma PublishEffect(w: World, req: Request)
    requires w.files.Valid()
    ensures var (w', outcome) := Publish(w, req);
      && w'.files.Valid() && R.RowsEndure(w.rows, w'.rows)
      && (outcome.Returned? ==> outcome.id < |w'.rows| && HoldsPage(w'.rows[outcome.id], req.day, req.payload))
  {
    var (w1, next) := Start(w, req);
    StartWithin(w, req);
    if next.Continue? {
      RunEffect(w.rows, w1, next.phase);
      RunFinishes(w.rows, w1, next.phase);
      EffectKeeps(w.rows, Publish(w, req).0.rows, req);
    }
  }

  lemma EffectKeeps(rows: seq<Manifest>, rows': seq<Manifest>, req: Request)
    requires Effect(rows, rows', req)
    ensures R.RowsEndure(rows, rows')
  {
    if |rows'| > |rows| {
      forall i | 0 <= i < |rows| ensures rows'[i] == rows[i] { assert rows'[..|rows|][i] == rows[i]; }
    }
  }

  /** One date, attempted to the end: the archive afterwards, and what the ledger will say of it. */
  function AttemptedDate(content: Content, w: World, day: Day, force: bool): (World, LedgerEntry)
    requires w.files.Valid()
  {
    var preserved := Richer(w, day);
    if preserved.Some? then (w, LedgerEntry(DateSkipped, preserved))
    else if content(day).None? then (w, LedgerEntry(DateFailed, None))
    else
      var (after, outcome) := Publish(w, content(day).value.(force := force));
      (after,
       if !outcome.Returned? then LedgerEntry(DateFailed, None)
       else LedgerEntry(if NewestOf(w.rows, day) == Some(outcome.id) then DateUnchanged else DatePublished,
                        Some(outcome.id)))
  }

  /**
    A date is skipped, and nothing changes, exactly when its newest published manifest has a profile and is more than
    context; the ledger then names that manifest.
  */
  lemma RicherIsSkipped(content: Content, w: World, day: Day, force: bool)
    requires w.files.Valid()
    ensures var (after, entry) := AttemptedDate(content, w, day, force);
      var newest := Newest(w.rows, day, Published, None);
      && (entry.status.DateSkipped? <==>
            newest.Some? && newest.value in w.profiles && w.rows[newest.value].tier in {PartiallyEnriched, Enriched})
      && (entry.status.DateSkipped? ==> after == w && entry.manifest == newest)
  {
  }

  /**
    A run is refused exactly for a plan it was not for, or for a release it was pinned to, even to none, that is not
    the one this caller would use.
  */
  lemma RefusedForPlanOrRelease(run: Run, plan: Option<seq<Day>>, current: map<string, Option<nat>>)
    ensures !Resumable(run, plan, current) <==>
      || (plan.Some? && run.planned != [] && run.planned != plan.value)
      || exists key :: key in current && key in run.releases && run.releases[key] != current[key]
  {
  }

  class BatchDesk {
    const content: Content
    var w: World
    var runs: seq<Run>     // oldest first

    constructor (content: Content, w: World, runs: seq<Run>)
      ensures this.content == content && this.w == w && this.runs == runs
    {
      this.content, this.w, this.runs := content, w, runs;
    }

    /** _record_entry, committed on its own. */
    method RecordEntry(id: nat, day: Day, status: EntryStatus, manifest: Option<nat>)
      requires id < |runs|
      modifies this`runs
      ensures runs == old(runs)[id := old(runs)[id].(entries := old(runs)[id].entries[day := LedgerEntry(status, manifest)])]
    {
      runs := runs[id := runs[id].(entries := runs[id].entries[day := LedgerEntry(status, manifest)])];
    }

    /** One date: publish_context_profile and what the ledger says of it. */
    method AttemptDate(day: Day, force: bool) returns (entry: LedgerEntry)
      requires w.files.Valid() && ContentOk(content)
      modifies this`w
      ensures w.files.Valid() && R.RowsEndure(old(w).rows, w.rows)
      ensures EntryHolds(w.rows, content, day, entry)
      ensures (w, entry) == AttemptedDate(content, old(w), day, force)
      ensures entry.status.DateSkipped? <==> Richer(old(w), day).Some?
      ensures entry.status.DateUnchanged? ==> entry.manifest == NewestOf(old(w).rows, day)
      ensures entry.status.DatePublished? ==> entry.manifest != NewestOf(old(w).rows, day)
    {
      var preserved := Richer(w, day);
      if preserved.Some? { return LedgerEntry(DateSkipped, preserved); }
      var previous := NewestOf(w.rows, day);
      var page := content(day);
      if page.None? { return LedgerEntry(DateFailed, None); }
      PublishEffect(w, page.value.(force := force));
      var (after, outcome) := Publish(w, page.value.(force := force));
      w := after;
      if !outcome.Returned? { return LedgerEntry(DateFailed, None); }
      entry := LedgerEntry(if previous == Some(outcome.id) then DateUnchanged else DatePublished, Some(outcome.id));
    }

    /**
      run_context_batch: every date ledgered, whatever becomes of the others. The ghost result is what became of each
      attempt: the report counts them, and each date's entry has what became of its last.
    */
    method RunContextBatch(id: nat, dates: seq<Day>, dryRun: bool, force: bool)
        returns (report: BatchReport, ghost said: seq<Said>)
      requires id < |runs| && w.files.Valid() && ContentOk(content)
      modifies this
      ensures w.files.Valid() && R.RowsEndure(old(w).rows, w.rows) && (dryRun ==> w == old(w))
      ensures |runs| == |old(runs)| && runs == old(runs)[id := runs[id]]
      ensures report.requested == |dates| == report.published + report.same + report.failed + report.skipped
      ensures Passed(content, w.rows, old(runs)[id], runs[id], dates, dryRun, report)
      ensures Tells(report, runs[id], dates, said)
      ensures runs[id].status == if Outstanding(runs[id], false) == [] then Completed else Interrupted
    {
      report, said := AttemptEach(id, dates, dryRun, force);
      var owed := Outstanding(runs[id], false);
      OwedIgnoresStatus(runs[id], if owed != [] then Interrupted else Completed, runs[id].planned);
      runs := runs[id := runs[id].(status := if owed != [] then Interrupted else Completed)];
    }

    /** One date of the plan, attempted unless this is a dry run, and ledgered. */
    method AttemptAndRecord(id: nat, day: Day, dryRun: bool, force: bool) returns (entry: LedgerEntry)
      requires id < |runs| && w.files.Valid() && ContentOk(content)
      modifies this
      ensures w.files.Valid() && R.RowsEndure(old(w).rows, w.rows) && (dryRun ==> w == old(w))
      ensures EntryOk(content, w.rows, day, dryRun, entry)
      ensures runs == old(runs)[id := old(runs)[id].(entries := old(runs)[id].entries[day := entry])]
    {
      if dryRun { entry := LedgerEntry(DateSkipped, None); } else { entry := AttemptDate(day, force); }
      RecordEntry(id, day, entry.status, entry.manifest);
    }

    /** A pass, one date further. */
    method NextDate(id: nat, day: Day, dryRun: bool, force: bool, report: BatchReport, ghost rows: seq<Manifest>,
                    ghost run: Run, ghost dates: seq<Day>, ghost said: seq<Said>)
        returns (told: BatchReport, ghost saying: seq<Said>)
      requires id < |runs| && w.files.Valid() && ContentOk(content) && R.RowsEndure(rows, w.rows)
      requires Passed(content, w.rows, run, runs[id], dates, dryRun, report) && Tells(report, runs[id], dates, said)
      modifies this
      ensures w.files.Valid() && R.RowsEndure(rows, w.rows) && (dryRun ==> w == old(w))
      ensures |runs| == |old(runs)| && runs == old(runs)[id := runs[id]]
      ensures Passed(content, w.rows, run, runs[id], dates + [day], dryRun, told)
      ensures Tells(told, runs[id], dates + [day], saying)
      ensures told.requested == report.requested && told.published + told.same + told.failed + told.skipped ==
        report.published + report.same + report.failed + report.skipped + 1
    {
      var entry := AttemptAndRecord(id, day, dryRun, force);
      R.RowsCompose(rows, old(w).rows, w.rows);
      told := Counted(report, day, entry.status);
      saying := said + [Said(day, entry.status)];
      PassOne(content, old(w).rows, w.rows, run, old(runs)[id], dates, day, dryRun, report, entry);
      TellsOne(report, old(runs)[id], dates, said, day, entry);
    }

    method AttemptEach(id: nat, dates: seq<Day>, dryRun: bool, force: bool)
        returns (report: BatchReport, ghost said: seq<Said>)
      requires id < |runs| && w.files.Valid() && ContentOk(content)
      modifies this
      ensures w.files.Valid() && R.RowsEndure(old(w).rows, w.rows) && (dryRun ==> w == old(w))
      ensures |runs| == |old(runs)| && runs == old(runs)[id := runs[id]]
      ensures report.requested == |dates| == report.published + report.same + report.failed + report.skipped
      ensures Passed(content, w.rows, old(runs)[id], runs[id], dates, dryRun, report)
      ensures Tells(report, runs[id], dates, said)
    {
      report, said := BatchReport(|dates|, 0, 0, 0, 0, []), [];
      ghost var w0, run0, all := w, runs[id], runs;
      for k := 0 to |dates|
        invariant w.files.Valid() && R.RowsEndure(w0.rows, w.rows) && (dryRun ==> w == w0)
        invariant |runs| == |all| && runs == all[id := runs[id]]
        invariant report.requested == |dates| && k == report.published + report.same + report.failed + report.skipped
        invariant Passed(content, w.rows, run0, runs[id], dates[..k], dryRun, report)
        invariant Tells(report, runs[id], dates[..k], said)
      {
        assert dates[..k + 1] == dates[..k] + [dates[k]];
        report, said := NextDate(id, dates[k], dryRun, force, report, w0.rows, run0, dates[..k], said);
      }
      assert dates[..|dates|] == dates;
    }
  }

  lemma {:induction false} OwedIgnoresStatus(run: Run, status: RunStatus, planned: seq<Day>)
    ensures OutstandingOf(planned, run.(status := status), false) == OutstandingOf(planned, run, false)
  {
    if planned != [] { OwedIgnoresStatus(run, status, planned[1..]); }
  }

  function Counted(report: BatchReport, day: Day, status: EntryStatus): BatchReport {
    match status
    case DateSkipped => report.(skipped := report.skipped + 1)
    case DateFailed => report.(failed := report.failed + 1, failures := report.failures + [day])
    case DateUnchanged => report.(same := report.same + 1)
    case DatePublished => report.(published := report.published + 1)
  }

  /** What became of one attempt. */
  datatype Said = Said(day: Day, status: EntryStatus)

  /** How many attempts ended like this. */
  function Tally(said: seq<Said>, status: EntryStatus): nat {
    |Ended(said, status)|
  }

  function Ended(said: seq<Said>, status: EntryStatus): set<nat> {
    set i: nat | i < |said| && said[i].status == status
  }

  /** What became of a date's last attempt. */
  function LastSaid(said: seq<Said>, day: Day): Option<EntryStatus> {
    if said == [] then None
    else if said[|said| - 1].day == day then Some(said[|said| - 1].status)
    else LastSaid(said[..|said| - 1], day)
  }

  /**
    One attempt a date, in order; the report counts what became of each, and lists the dates that failed; each date's
    entry says what became of its last attempt.
  */
  ghost predicate Tells(report: BatchReport, run: Run, dates: seq<Day>, said: seq<Said>) {
    && |said| == |dates| && (forall i :: 0 <= i < |said| ==> said[i].day == dates[i])
    && Tallies(report, said) && Records(run, said)
  }

  ghost predicate Tallies(report: BatchReport, said: seq<Said>) {
    && report.published == Tally(said, DatePublished) && report.same == Tally(said, DateUnchanged)
    && report.failed == Tally(said, DateFailed) && report.skipped == Tally(said, DateSkipped)
    && forall d :: d in report.failures <==> Said(d, DateFailed) in said
  }

  ghost predicate Records(run: Run, said: seq<Said>) {
    forall d :: LastSaid(said, d).Some? ==>
      d in run.entries && run.entries[d].status == LastSaid(said, d).value
  }

  lemma TallyNext(said: seq<Said>, next: Said, status: EntryStatus)
    ensures Tally(said + [next], status) == Tally(said, status) + if next.status == status then 1 else 0
  {
    var (before, after) := (Ended(said, status), Ended(said + [next], status));
    assert |said| !in before;
    forall i: nat ensures i in after <==> i in before || (i == |said| && next.status == status) {}
    if next.status == status { assert after == before + {|said|}; } else { assert after == before; }
  }

  lemma TellsOne(report: BatchReport, run: Run, dates: seq<Day>, said: seq<Said>, day: Day, entry: LedgerEntry)
    requires Tells(report, run, dates, said)
    ensures Tells(Counted(report, day, entry.status), run.(entries := run.entries[day := entry]), dates + [day],
                  said + [Said(day, entry.status)])
  {
    TalliesNext(report, said, Said(day, entry.status));
    RecordsNext(run, said, day, entry);
  }

  lemma TalliesNext(report: BatchReport, said: seq<Said>, next: Said)
    requires Tallies(report, said)
    ensures Tallies(Counted(report, next.day, next.status), said + [next])
  {
    TallyNext(said, next, DatePublished);
    TallyNext(said, next, DateUnchanged);
    TallyNext(said, next, DateFailed);
    TallyNext(said, next, DateSkipped);
  }

  lemma RecordsNext(run: Run, said: seq<Said>, day: Day, entry: LedgerEntry)
    requires Records(run, said)
    ensures Records(run.(entries := run.entries[day := entry]), said + [Said(day, entry.status)])
  {
    assert (said + [Said(day, entry.status)])[..|said|] == said;
  }

  /** A pass over these dates: each ledgered, truthfully, and no other entry touched. */
  ghost predicate Passed(content: Content, rows: seq<Manifest>, run: Run, run': Run, dates: seq<Day>, dryRun: bool,
                         report: BatchReport) {
    && run'.planned == run.planned && run'.releases == run.releases
    && Ledgered(run, run', dates)
    && (forall d :: d in dates ==> d in run'.entries && EntryOk(content, rows, d, dryRun, run'.entries[d]))
    && |report.failures| == report.failed && (forall d :: d in report.failures ==> d in dates)
    && (report.failed == 0 ==> forall d :: d in dates ==> d in run'.entries && !run'.entries[d].status.DateFailed?)
  }

  predicate EntryOk(content: Content, rows: seq<Manifest>, day: Day, dryRun: bool, entry: LedgerEntry) {
    if dryRun then entry == LedgerEntry(DateSkipped, None) else EntryHolds(rows, content, day, entry)
  }

  lemma PassOne(content: Content, rows: seq<Manifest>, rows': seq<Manifest>, run0: Run, run: Run, dates: seq<Day>,
                day: Day,
                dryRun: bool, report: BatchReport, entry: LedgerEntry)
    requires Passed(content, rows, run0, run, dates, dryRun, report) && R.RowsEndure(rows, rows')
    requires EntryOk(content, rows', day, dryRun, entry)
    ensures Passed(content, rows', run0, run.(entries := run.entries[day := entry]), dates + [day], dryRun,
                   Counted(report, day, entry.status))
  {
    var run' := run.(entries := run.entries[day := entry]);
    forall d | d in dates + [day] ensures d in run'.entries && EntryOk(content, rows', d, dryRun, run'.entries[d]) {
      if d != day { assert EntryOk(content, rows, d, dryRun, run.entries[d]); }
    }
  }

  /** Only these dates' entries were written. */
  ghost predicate Ledgered(run: Run, run': Run, dates: seq<Day>) {
    && (forall d :: d in run'.entries <==> d in run.entries || d in dates)
    && (forall d :: d !in dates && d in run'.entries ==> run'.entries[d] == run.entries[d])
  }

  /** COMPLETED says every planned date was attempted, and none is left failed. */
  lemma CompletedMeansNothingOwed(run: Run)
    ensures Outstanding(run, false) == [] <==>
      forall d :: d in run.planned ==> d in run.entries && !run.entries[d].status.DateFailed?
  {
    if Outstanding(run, false) != [] { assert Outstanding(run, false)[0] in Outstanding(run, false); }
  }

  // ---- Recovery --------------------------------------------------------------------------

  predicate Owes(run: Run, onlyFailed: bool) {
    Outstanding(run, onlyFailed) != []
  }

  /** A run this caller can resume, and that has dates to resume. */
  predicate Pending(run: Run, plan: Option<seq<Day>>, current: map<string, Option<nat>>, onlyFailed: bool) {
    Resumable(run, plan, current) && Owes(run, onlyFailed)
  }

  function PendingCount(runs: seq<Run>, plan: Option<seq<Day>>, current: map<string, Option<nat>>,
                        onlyFailed: bool): nat {
    if runs == [] then 0
    else PendingCount(runs[..|runs| - 1], plan, current, onlyFailed)
         + if Pending(runs[|runs| - 1], plan, current, onlyFailed) then 1 else 0
  }

  /** recoverable_batch_run: the oldest acceptable run that owes dates, else the newest acceptable one. */
  method RecoverableBatchRun(runs: seq<Run>, plan: Option<seq<Day>>, current: map<string, Option<nat>>,
                             onlyFailed: bool)
      returns (r: Option<nat>)
    ensures r.Some? ==> r.value < |runs| && Resumable(runs[r.value], plan, current)
    ensures r.None? <==> forall i :: 0 <= i < |runs| ==> !Resumable(runs[i], plan, current)
    ensures (exists i :: 0 <= i < |runs| && Pending(runs[i], plan, current, onlyFailed)) ==>
      r.Some? && Pending(runs[r.value], plan, current, onlyFailed)
      && forall i :: 0 <= i < r.value ==> !Pending(runs[i], plan, current, onlyFailed)
    ensures r.Some? && !Pending(runs[r.value], plan, current, onlyFailed) ==>
      forall i :: r.value < i < |runs| ==> !Resumable(runs[i], plan, current)
  {
    r := None;
    for k := 0 to |runs|
      invariant r.Some? ==> r.value < k && Resumable(runs[r.value], plan, current)
      invariant forall i :: (if r.Some? then r.value + 1 else 0) <= i < k ==> !Resumable(runs[i], plan, current)
      invariant forall i :: 0 <= i < k ==> !Pending(runs[i], plan, current, onlyFailed)
    {
      if !Resumable(runs[k], plan, current) { continue; }
      r := Some(k);
      if Outstanding(runs[k], onlyFailed) == [] { continue; }
      return;
    }
  }

  lemma {:induction false} SettlingOneDropsTheCount(runs: seq<Run>, id: nat, run: Run, plan: Option<seq<Day>>,
                                                    current: map<string, Option<nat>>, onlyFailed: bool)
    requires id < |runs| && Pending(runs[id], plan, current, onlyFailed) && !Pending(run, plan, current, onlyFailed)
    ensures PendingCount(runs[id := run], plan, current, onlyFailed) + 1 ==
        PendingCount(runs, plan, current, onlyFailed)
  {
    var n := |runs| - 1;
    if id < n {
      assert runs[id := run][..n] == runs[..n][id := run];
      SettlingOneDropsTheCount(runs[..n], id, run, plan, current, onlyFailed);
    } else {
      assert runs[id := run][..n] == runs[..n];
    }
  }

  /** Resuming a run over what it owes, with nothing failing, leaves it owing nothing. */
  lemma ResumedOwesNothing(content: Content, rows: seq<Manifest>, run: Run, run': Run, onlyFailed: bool,
                           report: BatchReport)
    requires Passed(content, rows, run, run', Outstanding(run, onlyFailed), false, report) && report.failed == 0
    ensures Outstanding(run', onlyFailed) == []
  {
    forall d ensures d !in Outstanding(run', onlyFailed) {
      assert d in Outstanding(run, onlyFailed) <==> d in run.planned && Owed(run, onlyFailed, d);
    }
    FirstIsMember(Outstanding(run', onlyFailed));
  }

  lemma FirstIsMember(days: seq<Day>)
    ensures days == [] || days[0] in days
  {
  }

  /** --resume, once: what an operator repeats until nothing is owed. */
  method ResumeOnce(desk: BatchDesk, plan: Option<seq<Day>>, current: map<string, Option<nat>>,
                    onlyFailed: bool) returns (failed: nat)
    requires desk.w.files.Valid() && ContentOk(desk.content)
    modifies desk
    ensures desk.w.files.Valid() && R.RowsEndure(old(desk.w).rows, desk.w.rows)
    ensures failed == 0 && PendingCount(old(desk.runs), plan, current, onlyFailed) > 0 ==>
      PendingCount(desk.runs, plan, current, onlyFailed) < PendingCount(old(desk.runs), plan, current, onlyFailed)
  {
    var id := RecoverableBatchRun(desk.runs, plan, current, onlyFailed);
    if id.None? || !Owes(desk.runs[id.value], onlyFailed) {
      NonePendingCounts(desk.runs, plan, current, onlyFailed);
      return 0;
    }
    ghost var runs, run := desk.runs, desk.runs[id.value];
    var report, _ := desk.RunContextBatch(id.value, Outstanding(desk.runs[id.value], onlyFailed), false, false);
    failed := report.failed;
    if failed == 0 {
      ResumedOwesNothing(desk.content, desk.w.rows, run, desk.runs[id.value], onlyFailed, report);
      SettlingOneDropsTheCount(runs, id.value, desk.runs[id.value], plan, current, onlyFailed);
    }
  }

  lemma {:induction false} NonePendingCounts(runs: seq<Run>, plan: Option<seq<Day>>, current: map<string, Option<nat>>,
                                             onlyFailed: bool)
    requires forall i :: 0 <= i < |runs| ==> !Pending(runs[i], plan, current, onlyFailed)
    ensures PendingCount(runs, plan, current, onlyFailed) == 0
  {
    if runs != [] { NonePendingCounts(runs[..|runs| - 1], plan, current, onlyFailed); }
  }

  /** Repeated resumption, while every publication succeeds, ends with nothing resumable owing a date. */
  method Drain(desk: BatchDesk, plan: Option<seq<Day>>, current: map<string, Option<nat>>,
               onlyFailed: bool) returns (failed: nat)
    requires desk.w.files.Valid() && ContentOk(desk.content)
    modifies desk
    ensures failed == 0 ==> PendingCount(desk.runs, plan, current, onlyFailed) == 0
  {
    failed := 0;
    while failed == 0 && PendingCount(desk.runs, plan, current, onlyFailed) > 0
      invariant desk.w.files.Valid()
      decreases failed == 0, PendingCount(desk.runs, plan, current, onlyFailed)
    {
      failed := ResumeOnce(desk, plan, current, onlyFailed);
    }
  }
}
