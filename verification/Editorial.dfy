/** Append-only, versioned editorial decisions: one version counter per (date, section, root). */
module Editorial {
  import opened Basics

  datatype Decision = Selected | Rejected | Deferred

  datatype Selection = Selection(
    day: Day, section: Section, root: Root, status: Decision, version: nat,
    rank: Option<int>, rationale: string, reviewer: string)

  const AUTOMATED_REVIEWER_PREFIX := "standing-rule:"

  predicate IsSpace(c: char) {
    c == ' ' || c == '\t' || c == '\n' || c == '\r'
  }

  function StripLeft(s: string): string {
    if s != "" && IsSpace(s[0]) then StripLeft(s[1..]) else s
  }

  /** Whether a decision was recorded by a person: not blank, and not a standing rule's identity. */
  predicate IsHuman(reviewer: string) {
    var identity := StripLeft(reviewer);
    identity != "" && !(AUTOMATED_REVIEWER_PREFIX <= identity)
  }

  predicate Blank(s: string) {
    forall i :: 0 <= i < |s| ==> IsSpace(s[i])
  }

  lemma {:induction false} StripsBlanks(blanks: string, rest: string)
    requires Blank(blanks) && (rest != "" ==> !IsSpace(rest[0]))
    ensures StripLeft(blanks + rest) == rest
  {
    if blanks != "" {
      StripsBlanks(blanks[1..], rest);
      assert (blanks + rest)[1..] == blanks[1..] + rest;
    } else {
      assert blanks + rest == rest;
    }
  }

  /** Behind any blanks, an identity is a person's exactly when there is one and it does not begin as a rule's does. */
  lemma HumanMeans(blanks: string, rest: string)
    requires Blank(blanks) && (rest != "" ==> !IsSpace(rest[0]))
    ensures IsHuman(blanks + rest) <==> rest != "" && (|rest| < 14 || rest[..14] != "standing-rule:")
  {
    StripsBlanks(blanks, rest);
  }

  predicate Concerns(row: Selection, day: Day, section: Section, root: Root) {
    row.day == day && row.section == section && row.root == root
  }

  /** The row a query ordered by decision_version, newest first, returns for one key. */
  function LatestIndex(rows: seq<Selection>, day: Day, section: Section, root: Root): (r: Option<nat>)
    ensures r.Some? ==> r.value < |rows| && Concerns(rows[r.value], day, section, root)
    ensures r.Some? ==> forall i :: 0 <= i < |rows| && Concerns(rows[i], day, section, root) ==>
                                      rows[i].version <= rows[r.value].version
    ensures r.None? ==> forall i :: 0 <= i < |rows| ==> !Concerns(rows[i], day, section, root)
  {
    if rows == [] then None
    else
      var n := |rows| - 1;
      var before := LatestIndex(rows[..n], day, section, root);
      if Concerns(rows[n], day, section, root) && (before.None? || rows[before.value].version <= rows[n].version)
      then Some(n)
      else before
  }

  function Latest(rows: seq<Selection>, day: Day, section: Section, root: Root): (r: Option<Selection>)
    ensures r.Some? ==> r.value in rows && Concerns(r.value, day, section, root)
  {
    var i := LatestIndex(rows, day, section, root);
    if i.None? then None else Some(rows[i.value])
  }

  /** Whether the current decision for this key already says exactly this. */
  predicate AlreadyRecorded(rows: seq<Selection>, day: Day, section: Section, root: Root,
                            status: Decision, rank: Option<int>, rationale: string, reviewer: string)
  {
    var current := Latest(rows, day, section, root);
    && current.Some?
    && current.value.status == status && current.value.rank == rank
    && current.value.rationale == rationale && current.value.reviewer == reviewer
  }

  /** record_editorial_selection: an identical decision writes nothing, any other appends a version. */
  function Record(rows: seq<Selection>, day: Day, section: Section, root: Root,
                  status: Decision, rank: Option<int>, rationale: string, reviewer: string): seq<Selection>
  {
    if AlreadyRecorded(rows, day, section, root, status, rank, rationale, reviewer) then rows
    else
      var current := Latest(rows, day, section, root);
      var version := if current.None? then 1 else current.value.version + 1;
      rows + [Selection(day, section, root, status, version, rank, rationale, reviewer)]
  }

  /** What recording one decision leaves current: that decision, and every other key's untouched. */
  lemma RecordCurrent(rows: seq<Selection>, day: Day, section: Section, root: Root,
                      status: Decision, rank: Option<int>, rationale: string, reviewer: string)
    ensures var after := Record(rows, day, section, root, status, rank, rationale, reviewer);
      && rows <= after && |after| <= |rows| + 1
      && (var now := Latest(after, day, section, root);
          && now.Some? && now.value.status == status && now.value.rank == rank
          && now.value.rationale == rationale && now.value.reviewer == reviewer)
      && (forall d: Day, s, r :: (d, s, r) != (day, section, root) ==>
                              Latest(after, d, s, r) == Latest(rows, d, s, r))
  {
    var after := Record(rows, day, section, root, status, rank, rationale, reviewer);
    if after != rows {
      var n := |after| - 1;
      assert after[..n] == rows;
    }
  }
}
