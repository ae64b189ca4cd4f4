/**
  The profile store's file system: directory names over inodes. Names and inodes are separate
  because promotion is a hard link, so a staged temp and the final artifact can share bytes,
  and because staging reopens an existing temp in place.
*/
module Disk {
  import opened Basics

  datatype Path =
    | Final(day: Day, version: nat)
    | Temp(day: Day, version: nat)
    | Quarantined(original: Path, suffix: nat)

  datatype Files = Files(names: map<Path, nat>, blocks: seq<Payload>)
  {
    /** Every name points at an inode. */
    ghost predicate Valid() {
      forall p :: p in names ==> names[p] < |blocks|
    }

    predicate Exists(p: Path) {
      p in names
    }

    /** Whether reading p yields exactly this payload (what a hash-checked read accepts). */
    predicate Holds(p: Path, payload: Payload) {
      p in names && names[p] < |blocks| && blocks[names[p]] == payload
    }

    /** open(p, "wb"): truncates the inode in place when the name exists. */
    function Write(p: Path, payload: Payload): Files
      requires Valid()
    {
      if p in names then this.(blocks := blocks[names[p] := payload])
      else Files(names[p := |blocks|], blocks + [payload])
    }

    /** os.link(from, to). */
    function Link(from: Path, to: Path): Files
      requires from in names && to !in names
    {
      this.(names := names[to := names[from]])
    }

    /** unlink(missing_ok=True). */
    function Unlink(p: Path): Files {
      this.(names := names - {p})
    }

    /** os.replace(from, to) onto a free name. */
    function Rename(from: Path, to: Path): Files
      requires from in names && to !in names
    {
      this.(names := (names - {from})[to := names[from]])
    }

    /** The same bytes, or the same absence, under p. */
    ghost predicate SameAt(other: Files, p: Path) {
      && (p in names <==> p in other.names)
      && (p in names ==> names[p] < |blocks| && other.Holds(p, blocks[names[p]]))
    }
  }

  /** Outside the quarantine, the only names that share an inode are a version's temp and final. */
  ghost predicate OnlyPartnersShare(files: Files) {
    forall p, q :: MayShare(files, p, q)
  }

  predicate MayShare(files: Files, p: Path, q: Path) {
    p in files.names && q in files.names && files.names[p] == files.names[q] ==>
      p == q || Partners(p, q) || p.Quarantined? || q.Quarantined?
  }

  predicate Partners(p: Path, q: Path) {
    || (p.Final? && q.Temp? && p.day == q.day && p.version == q.version)
    || (p.Temp? && q.Final? && p.day == q.day && p.version == q.version)
  }

  /** The first free quarantine suffix at or after k. */
  function FreeSuffix(names: set<Path>, p: Path, k: nat): (suffix: nat)
    ensures k <= suffix && Quarantined(p, suffix) !in names
    ensures forall j :: k <= j < suffix ==> Quarantined(p, j) in names
    decreases |names|
  {
    if Quarantined(p, k) in names then FreeSuffix(names - {Quarantined(p, k)}, p, k + 1) else k
  }

  /** Move a bad artifact aside without destroying one retained earlier. */
  function Quarantine(files: Files, p: Path): Files
    requires p in files.names
  {
    files.Rename(p, Quarantined(p, FreeSuffix(files.names.Keys, p, 0)))
  }

  /** An in-place write reaches only its own name and that name's partner. */
  lemma WriteFrame(files: Files, p: Path, payload: Payload, q: Path)
    requires files.Valid() && OnlyPartnersShare(files)
    requires q != p && !Partners(p, q) && !p.Quarantined? && !q.Quarantined?
    ensures files.SameAt(files.Write(p, payload), q)
  {
    assert MayShare(files, p, q);
  }

  lemma WriteShares(files: Files, p: Path, payload: Payload)
    requires files.Valid() && OnlyPartnersShare(files)
    ensures files.Write(p, payload).Valid() && OnlyPartnersShare(files.Write(p, payload))
  {
    forall q, r ensures MayShare(files.Write(p, payload), q, r) {
      assert MayShare(files, q, r);
    }
  }

  lemma LinkShares(files: Files, from: Path, to: Path)
    requires files.Valid() && OnlyPartnersShare(files)
    requires from in files.names && to !in files.names && Partners(from, to)
    ensures files.Link(from, to).Valid() && OnlyPartnersShare(files.Link(from, to))
  {
    forall q, r ensures MayShare(files.Link(from, to), q, r) {
      assert MayShare(files, q, r) && MayShare(files, from, r) && MayShare(files, q, from);
    }
  }

  lemma UnlinkShares(files: Files, p: Path)
    requires files.Valid() && OnlyPartnersShare(files)
    ensures files.Unlink(p).Valid() && OnlyPartnersShare(files.Unlink(p))
  {
    forall q, r ensures MayShare(files.Unlink(p), q, r) {
      assert MayShare(files, q, r);
    }
  }

  lemma QuarantineShares(files: Files, p: Path)
    requires files.Valid() && OnlyPartnersShare(files) && p in files.names
    ensures Quarantine(files, p).Valid() && OnlyPartnersShare(Quarantine(files, p))
  {
    forall q, r ensures MayShare(Quarantine(files, p), q, r) {
      assert MayShare(files, q, r);
    }
  }
}
