/** rebuild_coverage_index, one locked date at a time. */
module Rebuild {
  import opened Basics
  import opened Disk
  import opened Editorial
  import opened Rows
  import opened Publication
  import opened Coverage

  /** Dates within a pass may be taken in any order; the code takes them in date order. */
  datatype Rebuilder =
    | Walking(todo: set<Day>, live: set<Day>, unreadable: set<Day>)
    | Dropping(todo: set<Day>, live: set<Day>, unreadable: set<Day>, dropped: nat)

  /** latest_published_manifests: the dates a reader is served, as the walk first sees them. */
  function Snapshot(w: World): set<Day> {
    set i: nat | i < |w.rows| && LatestServed(w, w.rows[i].day).Some? :: w.rows[i].day
  }

  /** The whole index, recomputed from scratch. */
  function Recomputed(w: World): map<Day, Entry> {
    map day | day in Snapshot(w) && Servable(w, day) :: Expected(w, day).value
  }

  lemma RecomputedAgrees(w: World)
    ensures w.index == Recomputed(w) <==> forall d :: Agrees(w, d)
  {
    forall d | LatestServed(w, d).Some? ensures d in Snapshot(w) { ServedIsInSnapshot(w, d); }
    if forall d :: Agrees(w, d) {
      forall d ensures d in w.index.Keys <==> d in Recomputed(w).Keys { assert Agrees(w, d); }
      assert w.index.Keys == Recomputed(w).Keys;
      forall d | d in w.index ensures w.index[d] == Recomputed(w)[d] { assert Agrees(w, d); }
    }
  }

  lemma RecomputedAt(w: World, d: Day)
    ensures d in Recomputed(w) <==> Servable(w, d)
    ensures d in Recomputed(w) ==> Recomputed(w)[d] == Expected(w, d).value
  {
    if LatestServed(w, d).Some? { ServedIsInSnapshot(w, d); }
  }

  lemma ServedIsInSnapshot(w: World, d: Day)
    requires LatestServed(w, d).Some?
    ensures d in Snapshot(w)
  {
    assert w.rows[LatestServed(w, d).value].day == d;
  }

  function FirstPass(w: World): Rebuilder {
    Walking(Snapshot(w), {}, {})
  }

  /** The rebuild's next transaction, on a date of the pass it is in. */
  function Visit(w: World, r: Rebuilder, day: Day): (World, Rebuilder) {
    var served := LatestServed(w, day);
    match r
    case Walking(todo, live, unreadable) =>
      if served.None? then (w, r.(todo := todo - {day}))
      else if !Verifies(w.files, w.rows[served.value]) then
        (w, r.(todo := todo - {day}, unreadable := unreadable + {day}))
      else (IndexManifest(w, served.value), r.(todo := todo - {day}, live := live + {day}))
    case Dropping(todo, live, unreadable, dropped) =>
      if served.Some? && Verifies(w.files, w.rows[served.value]) then
        (IndexManifest(w, served.value),
         r.(todo := todo - {day}, live := live + {day}, unreadable := unreadable - {day}))
      else
        (w.(index := w.index - {day}),
         r.(todo := todo - {day}, dropped := if day in w.index then dropped + 1 else dropped))
  }

  /** The second pass takes every index row that did not survive the first, and every unreadable date. */
  function Candidates(index: map<Day, Entry>, live: set<Day>, unreadable: set<Day>): set<Day> {
    (index.Keys - live) + unreadable
  }

  function Turn(w: World, r: Rebuilder): Rebuilder
    requires r.Walking?
  {
    Dropping(Candidates(w.index, r.live, r.unreadable), r.live, r.unreadable, 0)
  }

  predicate Finished(r: Rebuilder) {
    r.Dropping? && r.todo == {}
  }

  // ---- The second pass, over any kind of date and row ------------------------------------

  datatype Sweep<D, E> = Sweep(index: map<D, E>, live: set<D>, unreadable: set<D>, gone: set<D>)

  /** One date with `stale` still ahead: off the list, the index has what the truth has. */
  ghost predicate SweptAt<D, E>(truth: map<D, E>, before: Sweep<D, E>, now: Sweep<D, E>, stale: set<D>, d: D) {
    && (d in now.index <==> if d in stale then d in before.index else d in truth)
    && (d !in stale && d in truth ==> d in now.index && now.index[d] == truth[d])
    && (d in now.live <==> d in truth && (d !in stale || d in before.live))
    && (d in now.unreadable <==> d in before.unreadable && (d in stale || d !in truth))
    && (d in now.gone <==> d in before.index && d !in truth && d !in stale)
  }

  ghost predicate Swept<D(!new), E>(truth: map<D, E>, before: Sweep<D, E>, now: Sweep<D, E>, stale: set<D>) {
    forall d :: SweptAt(truth, before, now, stale, d)
  }

  function SweepOne<D(==), E>(truth: map<D, E>, s: Sweep<D, E>, d: D): Sweep<D, E> {
    if d in truth then Sweep(s.index[d := truth[d]], s.live + {d}, s.unreadable - {d}, s.gone)
    else Sweep(s.index - {d}, s.live, s.unreadable, if d in s.index then s.gone + {d} else s.gone)
  }

  lemma SweepBegins<D(!new), E>(truth: map<D, E>, before: Sweep<D, E>)
    requires before.live <= truth.Keys && before.live <= before.index.Keys && before.gone == {}
    requires truth.Keys <= before.live + before.index.Keys + before.unreadable
    requires forall d :: d in before.live ==> before.index[d] == truth[d]
    ensures Swept(truth, before, before, (before.index.Keys - before.live) + before.unreadable)
  {
  }

  lemma SweepContinues<D(!new), E>(truth: map<D, E>, before: Sweep<D, E>, now: Sweep<D, E>, stale: set<D>, day: D)
    requires Swept(truth, before, now, stale) && day in stale
    ensures day !in now.gone && Swept(truth, before, SweepOne(truth, now, day), stale - {day})
    ensures day !in now.index ==> now.index - {day} == now.index
  {
    assert SweptAt(truth, before, now, stale, day);
    forall d ensures SweptAt(truth, before, SweepOne(truth, now, day), stale - {day}, d) {
      assert SweptAt(truth, before, now, stale, d);
    }
  }

  lemma SweepEnds<D(!new), E>(truth: map<D, E>, before: Sweep<D, E>, now: Sweep<D, E>)
    requires Swept(truth, before, now, {})
    ensures now.index == truth && now.live == truth.Keys
    ensures now.unreadable == before.unreadable - truth.Keys && now.gone == before.index.Keys - truth.Keys
  {
    forall d ensures d in now.index.Keys <==> d in truth.Keys { assert SweptAt(truth, before, now, {}, d); }
    forall d ensures d in now.live <==> d in truth.Keys { assert SweptAt(truth, before, now, {}, d); }
    forall d ensures d in now.unreadable <==>
      d in before.unreadable - truth.Keys { assert SweptAt(truth, before, now, {}, d); }
    forall d ensures d in now.gone <==>
      d in before.index.Keys - truth.Keys { assert SweptAt(truth, before, now, {}, d); }
    forall d | d in truth ensures now.index[d] == truth[d] { assert SweptAt(truth, before, now, {}, d); }
    assert now.index.Keys == truth.Keys;
  }

  /** The index, beside tables and files nothing else is writing to. */
  class CoverageIndex {
    const w: World
    var index: map<Day, Entry>

    constructor (w: World)
      ensures this.w == w && index == w.index
    {
      this.w, index := w, w.index;
    }

    /** Index one date if it reads back; `served` tells an unreadable date from one nobody is served. */
    method RefreshServable(day: Day) returns (served: bool, readable: bool)
      modifies this
      ensures served == (day in Snapshot(w)) && readable == (day in Recomputed(w))
      ensures index == if readable then old(index)[day := Recomputed(w)[day]] else old(index)
    {
      RecomputedAt(w, day);
      var latest := LatestServed(w, day);
      served, readable := latest.Some?, false;
      if served {
        var m := w.rows[latest.value];
        readable := Verifies(w.files, m);
        if readable { index := index[day := Derive(w.gov, w.selections, latest.value, m)]; }
      }
    }

    /** The first pass, over a snapshot of the served dates. */
    method WalkSnapshot() returns (live: set<Day>, unreadable: set<Day>)
      modifies this
      ensures live == Recomputed(w).Keys && unreadable == Snapshot(w) - live
      ensures index.Keys == old(index).Keys + live
      ensures forall d :: d in live ==> index[d] == Recomputed(w)[d]
    {
      var todo := Snapshot(w);
      live, unreadable := {}, {};
      ghost var truth := Recomputed(w);
      while todo != {}
        invariant todo <= Snapshot(w) && live <= truth.Keys && truth.Keys - todo <= live
        invariant unreadable == Snapshot(w) - todo - truth.Keys
        invariant index.Keys == old(index).Keys + live
        invariant forall d :: d in live ==> index[d] == truth[d]
        decreases todo
      {
        var day :| day in todo;
        var served, readable := RefreshServable(day);
        if readable { live := live + {day}; } else if served { unreadable := unreadable + {day}; }
        todo := todo - {day};
      }
    }

    /** The second pass: every date the first did not settle is looked at again before its row goes. */
    method DropStaleEntries(live0: set<Day>, unreadable0: set<Day>)
        returns (live: set<Day>, unreadable: set<Day>, dropped: nat)
      requires var truth := Recomputed(w);
        && live0 <= truth.Keys && live0 <= index.Keys && truth.Keys <= live0 + index.Keys + unreadable0
        && forall d :: d in live0 ==> index[d] == truth[d]
      modifies this
      ensures index == Recomputed(w) && live == index.Keys
      ensures unreadable == unreadable0 - index.Keys
      ensures dropped == |old(index).Keys - index.Keys|
    {
      ghost var truth, before := Recomputed(w), Sweep(index, live0, unreadable0, {});
      var stale := Candidates(index, live0, unreadable0);
      live, unreadable, dropped := live0, unreadable0, 0;
      ghost var now := before;
      SweepBegins(truth, before);
      while stale != {}
        invariant now.index == index && now.live == live && now.unreadable == unreadable && |now.gone| == dropped
        invariant Swept(truth, before, now, stale)
        decreases stale
      {
        var day :| day in stale;
        SweepContinues(truth, before, now, stale, day);
        var served, readable := RefreshServable(day);
        if readable {
          live, unreadable := live + {day}, unreadable - {day};
        } else if day in index {
          index, dropped := index - {day}, dropped + 1;
        }
        now, stale := SweepOne(truth, now, day), stale - {day};
      }
      SweepEnds(truth, before, now);
    }

    /** Regenerate the whole index from published state. */
    method RebuildCoverageIndex() returns (indexed: nat, unreadable: set<Day>, dropped: nat)
      modifies this
      ensures index == Recomputed(w)
      ensures indexed == |index.Keys| && dropped == |old(index).Keys - index.Keys|
      ensures unreadable == Snapshot(w) - index.Keys
    {
      var live;
      live, unreadable := WalkSnapshot();
      live, unreadable, dropped := DropStaleEntries(live, unreadable);
      indexed := |live|;
    }
  }
}
