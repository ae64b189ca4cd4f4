/** The coverage index: one row per date, re-derived from what a reader is actually served. */
module Coverage {
  import opened Basics
  import opened Disk
  import opened Editorial
  import opened Rows
  import opened Publication

  /** The day endpoint can serve this date: its newest manifest with a profile reads back. */
  predicate Servable(w: World, day: Day) {
    var served := LatestServed(w, day);
    served.Some? && Verifies(w.files, w.rows[served.value])
  }

  /** The row a date should have, recomputed from scratch; None when it should have none. */
  function Expected(w: World, day: Day): Option<Entry> {
    var served := LatestServed(w, day);
    if served.Some? && Verifies(w.files, w.rows[served.value])
    then Some(Derive(w.gov, w.selections, served.value, w.rows[served.value]))
    else None
  }

  function Indexed(w: World, day: Day): Option<Entry> {
    if day in w.index then Some(w.index[day]) else None
  }

  /** This date's index row is what recomputation gives. */
  predicate Agrees(w: World, day: Day) {
    Indexed(w, day) == Expected(w, day)
  }

  /** reconcile_date_coverage: one locked step that upserts or deletes the date's row. */
  function ReconcileDate(w: World, day: Day): World {
    var expected := Expected(w, day);
    w.(index := if expected.Some? then w.index[day := expected.value] else w.index - {day})
  }

  lemma ReconcileAgrees(w: World, day: Day)
    ensures Agrees(ReconcileDate(w, day), day)
    ensures forall d :: d != day ==> Agrees(ReconcileDate(w, day), d) == Agrees(w, d)
  {
  }
}
