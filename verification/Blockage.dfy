/**
  When repair cannot make progress: exactly which archives make it raise, and that raising once is raising for
  good.
*/
module Blockage {
  import opened Basics
  import opened Disk
  import opened Editorial
  import opened Rows
  import opened Publication
  import opened Coverage
  import opened Protocol
  import opened Reconcile
  import opened Convergence

  /** The tables' own rules, whatever was lost: profile rows may be missing, and files may say anything. */
  ghost predicate Ruled(w: World) {
    && w.files.Valid() && VersionsFollow(w.rows)
    && (forall id: nat :: id in w.profiles ==> IsPublished(w.rows, id))
    && (forall i: nat :: i < |w.rows| ==> PredecessorOk(w.rows, i))
  }

  predicate IsPublished(rows: seq<Manifest>, id: nat) {
    id < |rows| && rows[id].status.Published?
  }

  /** A predecessor is an earlier published manifest; its profile is another matter. */
  predicate PredecessorOk(rows: seq<Manifest>, i: nat)
    requires i < |rows|
  {
    rows[i].supersedes.Some? ==> rows[i].supersedes.value < i && IsPublished(rows, rows[i].supersedes.value)
  }

  /** A pending manifest whose payload survives, and whose predecessor has no day profile. */
  predicate Blocks(w: World, i: nat) {
    i < |w.rows| && w.rows[i].status.Draft? && Ready(w.files, w.rows[i]) && BereftOfPredecessor(w, i)
  }

  predicate BereftOfPredecessor(w: World, i: nat)
    requires i < |w.rows|
  {
    w.rows[i].supersedes.Some? && w.rows[i].supersedes.value !in w.profiles
  }

  /** A healthy published manifest without a profile, whose predecessor has none and will be given none from k on. */
  predicate StuckFrom(w: World, i: nat, k: nat) {
    && IsPublished(w.rows, i) && Verifies(w.files, w.rows[i]) && i !in w.profiles && BereftOfPredecessor(w, i)
    && (w.rows[i].supersedes.value < k || !VerifiesAt(w, w.rows[i].supersedes.value))
  }

  predicate VerifiesAt(w: World, i: nat) {
    i < |w.rows| && Verifies(w.files, w.rows[i])
  }

  predicate BlockedFrom(w: World, k: nat) {
    exists i: nat :: i < |w.rows| && k <= i && Blocks(w, i)
  }

  predicate StuckAfter(w: World, k: nat) {
    exists i: nat :: i < |w.rows| && k <= i && StuckFrom(w, i, k)
  }

  /** What an operator could look up before running a repair. */
  predicate Blocked(w: World) {
    BlockedFrom(w, 0) || StuckAfter(w, 0)
  }

  // ---- The pending pass ------------------------------------------------------------------

  /** Published manifests are as they were; whatever else is published now has its profile. */
  ghost predicate PublishedSpared(w: World, w': World) {
    && |w'.rows| == |w.rows|
    && (forall i: nat :: i < |w.rows| && w.rows[i].status.Published? ==> Spared(w, w', i))
    && (forall i: nat :: IsPublished(w'.rows, i) && !w.rows[i].status.Published? ==> i in w'.profiles)
    && (forall i: nat :: i < |w.rows| ==> w'.rows[i].supersedes == w.rows[i].supersedes)
  }

  predicate Spared(w: World, w': World, i: nat)
    requires i < |w.rows| == |w'.rows|
  {
    w'.rows[i] == w.rows[i] && Verifies(w'.files, w.rows[i]) == Verifies(w.files, w.rows[i]) && (i in w'.profiles <==>
         i in w.profiles)
  }

  lemma OnePendingSparesOthers(w: World, k: nat, i: nat)
    requires Ruled(w) && k < |w.rows| && w.rows[k].status.Draft? && i < |w.rows| && i != k
    ensures OtherAsBefore(w, RepairPending(w, k).0, i)
  {
    var m := w.rows[k];
    if w.rows[i].day == m.day && w.rows[i].version == m.version { VersionsIdentify(w.rows, i, k); }
    SettleFrame(w.files, m, FinalOf(w.rows[i]));
    SettleFrame(w.files, m, TempOf(w.rows[i]));
    assert PredecessorOk(w.rows, i);
  }

  lemma OnePendingStaysRuled(w: World, k: nat)
    requires Ruled(w) && k < |w.rows| && w.rows[k].status.Draft?
    ensures Ruled(RepairPending(w, k).0)
  {
    var m, w1 := w.rows[k], RepairPending(w, k).0;
    SettleFrame(w.files, m, Final(m.day, m.version + 1));
    PublishKeepsVersions(w.rows, k, w1.rows[k].status);
    forall i: nat | i < |w.rows| ensures PredecessorOk(w1.rows, i) { assert PredecessorOk(w.rows, i); }
  }

  /** One pending manifest touches no other manifest's names, and gives a profile to none but its own. */
  lemma OnePending(w: World, k: nat)
    requires Ruled(w) && k < |w.rows| && w.rows[k].status.Draft?
    ensures var (w1, raised) := RepairPending(w, k);
      && PublishedSpared(w, w1)
      && (raised <==> Blocks(w, k)) && (raised ==> Blocks(w1, k)) && (!raised ==> !w1.rows[k].status.Draft?)
      && (forall i: nat :: i < |w.rows| && i != k ==> w1.rows[i] == w.rows[i])
      && (!raised ==> (BlockedFrom(w, k) <==> BlockedFrom(w1, k + 1)))
  {
    var (w1, raised) := RepairPending(w, k);
    SettleOutcome(w.files, w.rows[k]);
    forall i: nat | i < |w.rows| && i != k ensures OtherAsBefore(w, w1, i) { OnePendingSparesOthers(w, k, i); }
    forall i: nat | i < |w.rows| && w.rows[i].status.Published? ensures Spared(w, w1, i) {
      assert OtherAsBefore(w, w1, i);
    }
    if i: nat :| i < |w.rows| && k < i && Blocks(w, i) { assert OtherAsBefore(w, w1, i) && Blocks(w1, i); }
    var next := k + 1;
    if i: nat :| i < |w1.rows| && next <= i && Blocks(w1, i) { assert OtherAsBefore(w, w1, i) && Blocks(w, i); }
  }

  lemma SparedOn(a: World, b: World, c: World)
    requires PublishedSpared(a, b) && PublishedSpared(b, c)
    ensures PublishedSpared(a, c)
  {
    forall i: nat | i < |a.rows| && a.rows[i].status.Published? ensures Spared(a, c, i) {
      assert Spared(a, b, i) && Spared(b, c, i);
    }
    forall i: nat | IsPublished(c.rows, i) && !a.rows[i].status.Published? ensures i in c.profiles {
      if b.rows[i].status.Published? { assert Spared(b, c, i); }
    }
  }

  predicate OtherAsBefore(w: World, w1: World, i: nat)
    requires i < |w.rows| == |w1.rows|
  {
    && w1.rows[i] == w.rows[i]
    && Verifies(w1.files, w.rows[i]) == Verifies(w.files, w.rows[i])
    && Ready(w1.files, w.rows[i]) == Ready(w.files, w.rows[i])
    && (i in w1.profiles <==> i in w.profiles)
    && (BereftOfPredecessor(w1, i) <==> BereftOfPredecessor(w, i))
  }

  /** What a pending pass from k on comes to. */
  ghost predicate PassedPending(w: World, w': World, raised: bool, k: nat) {
    && Ruled(w') && PublishedSpared(w, w')
    && (raised <==> BlockedFrom(w, k)) && (raised ==> BlockedFrom(w', k))
    && (!raised ==> forall i :: k <= i < |w'.rows| ==> !w'.rows[i].status.Draft?)
    && (forall i :: 0 <= i < k && i < |w.rows| ==> w'.rows[i] == w.rows[i])
  }

  lemma {:induction false} PendingPassRaises(w: World, k: nat)
    requires Ruled(w)
    ensures PassedPending(w, PendingPass(w, k).0, PendingPass(w, k).2, k)
    decreases |w.rows| - k
  {
    if k < |w.rows| {
      if w.rows[k].status.Draft? {
        OnePending(w, k);
        OnePendingStaysRuled(w, k);
        var (w1, raised) := RepairPending(w, k);
        if !raised {
          PendingPassRaises(w1, k + 1);
          ThenPassed(w, w1, PendingPass(w1, k + 1).0, PendingPass(w1, k + 1).2, k);
        }
      } else {
        PendingPassRaises(w, k + 1);
      }
    }
  }

  lemma ThenPassed(w: World, w1: World, w': World, raised: bool, k: nat)
    requires PublishedSpared(w, w1) && k < |w.rows| == |w1.rows| && !w1.rows[k].status.Draft?
    requires forall i: nat :: i < |w.rows| && i != k ==> w1.rows[i] == w.rows[i]
    requires BlockedFrom(w, k) <==> BlockedFrom(w1, k + 1)
    requires PassedPending(w1, w', raised, k + 1)
    ensures PassedPending(w, w', raised, k)
  {
    SparedOn(w, w1, w');
  }

  // ---- The published pass ----------------------------------------------------------------

  /** Rows and what verifies are as they were, and profiles were only added. */
  ghost predicate ReadsAlike(w: World, w': World) {
    && w'.rows == w.rows
    && (forall i: nat :: i < |w.rows| ==> AlikeAt(w, w', i))
    && (forall id: nat :: id in w.profiles ==> id in w'.profiles)
  }

  predicate AlikeAt(w: World, w': World, i: nat)
    requires i < |w.rows|
  {
    Verifies(w'.files, w.rows[i]) == Verifies(w.files, w.rows[i])
  }

  lemma OnePublished(w: World, k: nat)
    requires Ruled(w) && k < |w.rows| && w.rows[k].status.Published?
    ensures var (w1, raised) := RepairPublished(w, k);
      && Ruled(w1) && ReadsAlike(w, w1)
      && (raised <==> Verifies(w.files, w.rows[k]) && k !in w.profiles && BereftOfPredecessor(w, k))
      && (forall id: nat :: id in w1.profiles <==>
           id in w.profiles || (id == k && !raised && Verifies(w.files, w.rows[k])))
  {
    var m, w1 := w.rows[k], RepairPublished(w, k).0;
    forall i: nat | i < |w.rows| ensures AlikeAt(w, w1, i) {
      if i != k && w.rows[i].day == m.day && w.rows[i].version == m.version { VersionsIdentify(w.rows, i, k); }
    }
  }

  lemma StuckMovesOn(w: World, k: nat)
    requires Ruled(w) && k < |w.rows| && w.rows[k].status.Published? && !RepairPublished(w, k).1
    ensures StuckAfter(w, k) <==> StuckAfter(RepairPublished(w, k).0, k + 1)
  {
    var w1 := RepairPublished(w, k).0;
    OnePublished(w, k);
    if i: nat :| i < |w.rows| && k <= i && StuckFrom(w, i, k) {
      assert PredecessorOk(w.rows, i) && AlikeAt(w, w1, i) && AlikeAt(w, w1, w.rows[i].supersedes.value);
      assert i != k && StuckFrom(w1, i, k + 1);
    }
    var next := k + 1;
    if i: nat :| i < |w1.rows| && next <= i && StuckFrom(w1, i, next) {
      assert PredecessorOk(w.rows, i) && AlikeAt(w, w1, i) && AlikeAt(w, w1, w.rows[i].supersedes.value);
      assert StuckFrom(w, i, k);
    }
  }

  lemma StuckSkips(w: World, k: nat)
    requires Ruled(w) && k < |w.rows| && !w.rows[k].status.Published?
    ensures StuckAfter(w, k) <==> StuckAfter(w, k + 1)
  {
    if i: nat :| i < |w.rows| && k <= i && StuckFrom(w, i, k) {
      assert PredecessorOk(w.rows, i) && StuckFrom(w, i, k + 1);
    }
    var next := k + 1;
    if i: nat :| i < |w.rows| && next <= i && StuckFrom(w, i, next) {
      assert PredecessorOk(w.rows, i) && StuckFrom(w, i, k);
    }
  }

  /** What a published pass from k on comes to. */
  ghost predicate PassedPublished(w: World, w': World, raised: bool, k: nat) {
    && Ruled(w') && ReadsAlike(w, w')
    && (raised <==> StuckAfter(w, k)) && (raised ==> StuckAfter(w', k))
    && (!raised ==> forall i: nat :: k <= i < |w.rows| ==> ProfiledIfHealthy(w', i))
  }

  /** Published and healthy, so profiled. */
  predicate ProfiledIfHealthy(w: World, i: nat)
    requires i < |w.rows|
  {
    w.rows[i].status.Published? && Verifies(w.files, w.rows[i]) ==> i in w.profiles
  }

  lemma AlikeOn(a: World, b: World, c: World)
    requires ReadsAlike(a, b) && ReadsAlike(b, c)
    ensures ReadsAlike(a, c)
  {
    forall i: nat | i < |a.rows| ensures AlikeAt(a, c, i) { assert AlikeAt(a, b, i) && AlikeAt(b, c, i); }
  }

  lemma {:induction false} PublishedPassRaises(w: World, k: nat)
    requires Ruled(w)
    ensures PassedPublished(w, PublishedPass(w, k).0, PublishedPass(w, k).2, k)
    decreases |w.rows| - k
  {
    if k < |w.rows| {
      if w.rows[k].status.Published? {
        OnePublished(w, k);
        var (w1, raised) := RepairPublished(w, k);
        if raised {
          assert PredecessorOk(w.rows, k) && StuckFrom(w, k, k);
        } else {
          PublishedPassRaises(w1, k + 1);
          StuckMovesOn(w, k);
          ThenPassedPublished(w, w1, PublishedPass(w1, k + 1).0, PublishedPass(w1, k + 1).2, k);
        }
      } else {
        PublishedPassRaises(w, k + 1);
        StuckSkips(w, k);
        StuckSkips(PublishedPass(w, k + 1).0, k);
      }
    }
  }

  lemma ThenPassedPublished(w: World, w1: World, w': World, raised: bool, k: nat)
    requires ReadsAlike(w, w1) && k < |w.rows| && (Verifies(w.files, w.rows[k]) ==> k in w1.profiles)
    requires StuckAfter(w, k) <==> StuckAfter(w1, k + 1)
    requires PassedPublished(w1, w', raised, k + 1)
    ensures PassedPublished(w, w', raised, k)
  {
    AlikeOn(w, w1, w');
    assert AlikeAt(w, w', k);
    var next := k + 1;
    if i: nat :| raised && i < |w'.rows| && next <= i && StuckFrom(w', i, next) {
      assert PredecessorOk(w'.rows, i) && StuckFrom(w', i, k);
    }
    assert ProfiledIfHealthy(w', k);
  }

  // ---- The whole repair ------------------------------------------------------------------

  lemma StuckIsSpared(w: World, w1: World)
    requires Ruled(w) && Ruled(w1) && PublishedSpared(w, w1)
    ensures StuckAfter(w1, 0) <==> StuckAfter(w, 0)
  {
    if i: nat :| i < |w1.rows| && StuckFrom(w1, i, 0) {
      assert PredecessorOk(w.rows, i) && Spared(w, w1, i) && Spared(w, w1, w.rows[i].supersedes.value);
      assert StuckFrom(w, i, 0);
    }
    if i: nat :| i < |w.rows| && StuckFrom(w, i, 0) {
      assert PredecessorOk(w.rows, i) && Spared(w, w1, i) && Spared(w, w1, w.rows[i].supersedes.value);
      assert StuckFrom(w1, i, 0);
    }
  }

  lemma ClearedIsFree(w: World, before: seq<Manifest>, report: Report, aged: set<Path>)
    requires Ruled(w) && (forall i :: 0 <= i < |w.rows| ==> !w.rows[i].status.Draft?)
    requires forall i: nat :: i < |w.rows| ==> ProfiledIfHealthy(w, i)
    ensures var w' := Clear(w, before, w.rows, report, aged).0; Ruled(w') && !Blocked(w')
  {
    var known := Uris(w.rows, Published) + Uris(before, Draft);
    ClearingFrame(w, known, aged);
    var w' := Clear(w, before, w.rows, report, aged).0;
    forall i: nat | i < |w.rows| ensures !StuckFrom(w', i, 0) {
      if w.rows[i].status.Published? {
        assert FinalOf(w.rows[i]) in known;
        SameAtReads(w.files, w'.files, FinalOf(w.rows[i]), w.rows[i].hash.preimage);
        assert ProfiledIfHealthy(w, i);
      }
    }
  }

  /**
    Repair raises exactly when a ready draft, or a healthy published manifest without a profile, supersedes a
    manifest whose profile is missing (and, for the latter, cannot be restored because its artifact is bad).
  */
  lemma MissingPredecessorProfileBlocksRepair(w: World, aged: set<Path>)
    requires Ruled(w)
    ensures Repair(w, aged).2 <==> Blocked(w)
    ensures Ruled(Repair(w, aged).0) && (Blocked(Repair(w, aged).0) <==> Blocked(w))
  {
    var (w1, pending, raised1) := PendingPass(w, 0);
    PendingPassRaises(w, 0);
    if !raised1 {
      var (w2, published, raised2) := PublishedPass(w1, 0);
      StuckIsSpared(w, w1);
      PublishedPassRaises(w1, 0);
      if !raised2 {
        assert forall i: nat :: i < |w2.rows| ==> ProfiledIfHealthy(w2, i);
        ClearedIsFree(w2, w.rows, Plus(pending, published), aged);
      }
    }
  }

  /** The archive after these repairs, one after the other. */
  function Repaired(w: World, sweeps: seq<set<Path>>): World {
    if sweeps == [] then w else Repair(Repaired(w, sweeps[..|sweeps| - 1]), sweeps[|sweeps| - 1]).0
  }

  /** However many repairs have run, and whatever they swept, the next one raises exactly when the first would have. */
  lemma {:induction false} BlockedForGood(w: World, sweeps: seq<set<Path>>, aged: set<Path>)
    requires Ruled(w)
    ensures Ruled(Repaired(w, sweeps)) && (Blocked(Repaired(w, sweeps)) <==> Blocked(w))
    ensures Repair(Repaired(w, sweeps), aged).2 <==> Blocked(w)
  {
    if sweeps != [] {
      BlockedForGood(w, sweeps[..|sweeps| - 1], aged);
      MissingPredecessorProfileBlocksRepair(Repaired(w, sweeps[..|sweeps| - 1]), sweeps[|sweeps| - 1]);
    }
    MissingPredecessorProfileBlocksRepair(Repaired(w, sweeps), aged);
  }
}
