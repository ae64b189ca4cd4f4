/** Human decisions about whether two events are the same event: append-only, versioned per unordered pair. */
module Identity {
  import opened Basics
  import opened Editorial
  import opened Featured

  datatype IdentityDecision = DistinctEvent | Merge | Supersede | Undecided   // Undecided is the recorded `deferred`

  datatype Adjudication = Adjudication(
    a: nat, b: nat, day: Day, decision: IdentityDecision, survivor: Option<nat>, version: nat,
    supersedes: Option<nat>, reviewer: string, rationale: string, task: Option<nat>)

  /** What a reviewer asks to have recorded. */
  datatype Answer = Answer(
    decision: IdentityDecision, survivor: Option<nat>, reviewer: string, rationale: string, task: Option<nat>)

  datatype Refusal = SamePair | NotHuman | SurvivorRequired | SurvivorOutsidePair | SurvivorForbidden
                   | NoSingleDay(event: nat) | DifferentDates

  datatype Recording = Entered(row: nat) | RefusedBecause(reason: Refusal)

  predicate Directional(decision: IdentityDecision) {
    decision.Merge? || decision.Supersede?
  }

  /** _canonical_pair. */
  function Canonical(a: nat, b: nat): (nat, nat) {
    if a <= b then (a, b) else (b, a)
  }

  predicate OfPair(row: Adjudication, a: nat, b: nat) {
    (row.a, row.b) == Canonical(a, b)
  }

  /** The row a query ordered by decision_version, newest first, returns for a pair. */
  function LatestFor(rows: seq<Adjudication>, a: nat, b: nat): (r: Option<nat>)
    ensures r.Some? ==> r.value < |rows| && OfPair(rows[r.value], a, b)
    ensures r.Some? ==>
      forall i :: 0 <= i < |rows| && OfPair(rows[i], a, b) ==> rows[i].version <= rows[r.value].version
    ensures r.None? ==> forall i :: 0 <= i < |rows| ==> !OfPair(rows[i], a, b)
  {
    if rows == [] then None
    else
      var n := |rows| - 1;
      var before := LatestFor(rows[..n], a, b);
      if OfPair(rows[n], a, b) && (before.None? || rows[before.value].version <= rows[n].version) then Some(n)
      else before
  }

  /** latest_identity_adjudication: a self-pair has none. */
  function LatestAdjudication(rows: seq<Adjudication>, a: nat, b: nat): Option<Adjudication> {
    if a == b then None
    else
      var latest := LatestFor(rows, a, b);
      if latest.None? then None else Some(rows[latest.value])
  }

  predicate Permits(decision: Option<Adjudication>) {
    decision.Some? && decision.value.decision.DistinctEvent? && IsHuman(decision.value.reviewer)
  }

  /** adjudicated_distinct: a person currently rules this exact pair to be two events. */
  predicate AdjudicatedDistinct(rows: seq<Adjudication>, a: nat, b: nat) {
    Permits(LatestAdjudication(rows, a, b))
  }

  /** A person has at some time ruled this pair to be two events. */
  predicate OnceDistinct(rows: seq<Adjudication>, a: nat, b: nat) {
    exists i :: 0 <= i < |rows| && OfPair(rows[i], a, b) && rows[i].decision.DistinctEvent? && IsHuman(rows[i].reviewer)
  }

  /** The single civil day an event is filed under. */
  predicate FiledOn(times: map<nat, Span>, event: nat, day: Day) {
    event in times && times[event].start == day
    && (times[event].end.None? || times[event].end.value == times[event].start)
  }

  predicate SingleDay(times: map<nat, Span>, event: nat) {
    event in times && FiledOn(times, event, times[event].start)
  }

  /** Why a recording is refused, in the order the checks run; None when it is not. */
  function Refuses(times: map<nat, Span>, a: nat, b: nat, answer: Answer): Option<Refusal> {
    var (first, second) := Canonical(a, b);
    if a == b then Some(SamePair)
    else if !IsHuman(answer.reviewer) then Some(NotHuman)
    else if Directional(answer.decision) && answer.survivor.None? then Some(SurvivorRequired)
    else if Directional(answer.decision) && answer.survivor.value !in {a, b} then Some(SurvivorOutsidePair)
    else if !Directional(answer.decision) && answer.survivor.Some? then Some(SurvivorForbidden)
    else if !SingleDay(times, first) then Some(NoSingleDay(first))
    else if !SingleDay(times, second) then Some(NoSingleDay(second))
    else if times[first].start != times[second].start then Some(DifferentDates)
    else None
  }

  /** The event is recorded as this one day. */
  predicate IsOn(times: map<nat, Span>, event: nat, day: Day) {
    event in times && (times[event] == Span(day, None) || times[event] == Span(day, Some(day)))
  }

  /**
    An answer is accepted exactly from a person, about two different events of one same day, naming a survivor of the
    pair for a merge or a supersession and none otherwise.
  */
  lemma AcceptedExactly(times: map<nat, Span>, a: nat, b: nat, answer: Answer)
    ensures Refuses(times, a, b, answer).None? <==>
      && a != b && IsHuman(answer.reviewer) && (exists day :: IsOn(times, a, day) && IsOn(times, b, day))
      && (if answer.decision.Merge? || answer.decision.Supersede?
          then answer.survivor == Some(a) || answer.survivor == Some(b) else answer.survivor.None?)
  {
    forall event | event in times && SingleDay(times, event) ensures IsOn(times, event, times[event].start) {}
    forall event, day | IsOn(times, event, day) ensures SingleDay(times, event) && times[event].start == day {}
    var (first, second) := Canonical(a, b);
    assert {first, second} == {a, b};
    if Refuses(times, a, b, answer).None? {
      assert IsOn(times, a, times[first].start) && IsOn(times, b, times[first].start);
    }
  }

  predicate Says(row: Adjudication, answer: Answer) {
    row.decision == answer.decision && row.survivor == answer.survivor && row.reviewer == answer.reviewer
    && row.rationale == answer.rationale && row.task == answer.task
  }

  /** Every row was admissible when written, and each pair's versions follow each other from 1. */
  ghost predicate LedgerOk(rows: seq<Adjudication>) {
    forall i: nat :: i < |rows| ==> RowOk(rows, i)
  }

  ghost predicate RowOk(rows: seq<Adjudication>, i: nat)
    requires i < |rows|
  {
    var row := rows[i];
    var before := LatestFor(rows[..i], row.a, row.b);
    && row.a < row.b && IsHuman(row.reviewer)
    && (Directional(row.decision) <==> row.survivor.Some?)
    && (row.survivor.Some? ==> row.survivor.value in {row.a, row.b})
    && row.supersedes == before
    && row.version == if before.None? then 1 else rows[before.value].version + 1
  }

  function NewRow(rows: seq<Adjudication>, day: Day, a: nat, b: nat, answer: Answer): Adjudication {
    var (first, second) := Canonical(a, b);
    var current := LatestFor(rows, first, second);
    Adjudication(first, second, day, answer.decision, answer.survivor,
                 if current.None? then 1 else rows[current.value].version + 1,
                 current, answer.reviewer, answer.rationale, answer.task)
  }

  /** An answer identical to the current one writes nothing; any other appends a version. */
  function Answering(rows: seq<Adjudication>, day: Day, a: nat, b: nat, answer: Answer): seq<Adjudication> {
    var (first, second) := Canonical(a, b);
    var current := LatestFor(rows, first, second);
    if current.Some? && Says(rows[current.value], answer) then rows else rows + [NewRow(rows, day, a, b, answer)]
  }

  class AdjudicationLog {
    var rows: seq<Adjudication>

    constructor (rows: seq<Adjudication>)
      ensures this.rows == rows
    {
      this.rows := rows;
    }

    /** record_identity_adjudication: its date is the events' own, never the caller's. */
    method RecordIdentityAdjudication(times: map<nat, Span>, a: nat, b: nat, answer: Answer) returns (r: Recording)
      modifies this
      ensures r.RefusedBecause? ==> rows == old(rows) && Refuses(times, a, b, answer) == Some(r.reason)
      ensures r.Entered? ==>
        Refuses(times, a, b, answer) == None && rows == Answering(old(rows), times[a].start, a, b, answer)
                              && Some(r.row) == LatestFor(rows, a, b)
    {
      if a == b { return RefusedBecause(SamePair); }
      if !IsHuman(answer.reviewer) { return RefusedBecause(NotHuman); }
      if Directional(answer.decision) {
        if answer.survivor.None? { return RefusedBecause(SurvivorRequired); }
        if answer.survivor.value !in {a, b} { return RefusedBecause(SurvivorOutsidePair); }
      } else if answer.survivor.Some? {
        return RefusedBecause(SurvivorForbidden);
      }
      var (first, second) := Canonical(a, b);
      if !SingleDay(times, first) { return RefusedBecause(NoSingleDay(first)); }
      if !SingleDay(times, second) { return RefusedBecause(NoSingleDay(second)); }
      if times[first].start != times[second].start { return RefusedBecause(DifferentDates); }
      r := AppendVersion(times[first].start, a, b, answer);
    }

    method AppendVersion(day: Day, a: nat, b: nat, answer: Answer) returns (r: Recording)
      modifies this
      ensures rows == Answering(old(rows), day, a, b, answer)
      ensures r.Entered? && Some(r.row) == LatestFor(rows, a, b)
    {
      var (first, second) := Canonical(a, b);
      PairIsUnordered(rows, a, b, first, second);
      var current := LatestFor(rows, first, second);
      if current.Some? && Says(rows[current.value], answer) { return Entered(current.value); }
      var version := if current.None? then 1 else rows[current.value].version + 1;
      ghost var before := rows;
      rows := rows + [Adjudication(first, second, day, answer.decision, answer.survivor,
                                   version, current, answer.reviewer, answer.rationale, answer.task)];
      assert rows[..|before|] == before;
      r := Entered(|rows| - 1);
    }
  }

  /** The pair's current row says this, every other pair's is as it was, and history only grew. */
  ghost predicate Answered(rows: seq<Adjudication>, rows': seq<Adjudication>, a: nat, b: nat, answer: Answer) {
    && rows <= rows' && |rows'| <= |rows| + 1
    && (var latest := LatestFor(rows', a, b); latest.Some? && Says(rows'[latest.value], answer))
    && (forall x: nat, y: nat :: Canonical(x, y) != Canonical(a, b) ==> LatestFor(rows', x, y) == LatestFor(rows, x, y))
  }

  lemma {:induction false} PairIsUnordered(rows: seq<Adjudication>, a: nat, b: nat, x: nat, y: nat)
    requires Canonical(a, b) == Canonical(x, y)
    ensures LatestFor(rows, a, b) == LatestFor(rows, x, y)
  {
    if rows != [] { PairIsUnordered(rows[..|rows| - 1], a, b, x, y); }
  }

  /** An admissible answer is now the pair's current one; no other pair, and nothing in history, changed. */
  lemma AnswerGoverns(rows: seq<Adjudication>, times: map<nat, Span>, a: nat, b: nat, answer: Answer)
    requires Refuses(times, a, b, answer).None?
    ensures var after := Answering(rows, times[a].start, a, b, answer);
      Answered(rows, after, a, b, answer) && (AdjudicatedDistinct(after, a, b) <==> answer.decision.DistinctEvent?)
  {
    var after := Answering(rows, times[a].start, a, b, answer);
    var (first, second) := Canonical(a, b);
    PairIsUnordered(rows, a, b, first, second);
    if after != rows {
      assert after[..|rows|] == rows;
    }
  }

  lemma AnsweringKeepsLedger(rows: seq<Adjudication>, times: map<nat, Span>, a: nat, b: nat, answer: Answer)
    requires LedgerOk(rows) && Refuses(times, a, b, answer).None?
    ensures LedgerOk(Answering(rows, times[a].start, a, b, answer))
  {
    var after := Answering(rows, times[a].start, a, b, answer);
    if after != rows {
      assert after[..|rows|] == rows;
      forall i: nat | i < |after| ensures RowOk(after, i) {
        if i < |rows| { assert RowOk(rows, i) && after[..i] == rows[..i]; }
      }
    }
  }

  /** Answering the same twice records it once. */
  lemma AnsweringTwiceRecordsOnce(rows: seq<Adjudication>, times: map<nat, Span>, a: nat, b: nat, answer: Answer)
    requires Refuses(times, a, b, answer).None?
    ensures var once := Answering(rows, times[a].start, a, b, answer);
      && Answering(once, times[a].start, a, b, answer) == once
      && Answering(once, times[a].start, b, a, answer) == once
  {
    AnswerGoverns(rows, times, a, b, answer);
    var once := Answering(rows, times[a].start, a, b, answer);
    var (first, second) := Canonical(a, b);
    PairIsUnordered(once, a, b, first, second);
  }

  /** The answer to "are these two the same?" does not depend on which is named first. */
  lemma AdjudicationIsUnordered(rows: seq<Adjudication>, a: nat, b: nat)
    ensures LatestAdjudication(rows, a, b) == LatestAdjudication(rows, b, a)
    ensures OnceDistinct(rows, a, b) <==> OnceDistinct(rows, b, a)
  {
    if a != b { PairIsUnordered(rows, a, b, b, a); }
  }

  /** The permission a later answer withdraws stays in history. */
  lemma HistoryRemembers(rows: seq<Adjudication>, rows': seq<Adjudication>, a: nat, b: nat)
    requires rows <= rows'
    ensures AdjudicatedDistinct(rows, a, b) ==> OnceDistinct(rows', a, b)
    ensures OnceDistinct(rows, a, b) ==> OnceDistinct(rows', a, b)
  {
    if AdjudicatedDistinct(rows, a, b) {
      var i := LatestFor(rows, a, b).value;
      assert rows'[i] == rows[i];
    }
    if OnceDistinct(rows, a, b) {
      var i :| 0 <= i < |rows| && OfPair(rows[i], a, b) && rows[i].decision.DistinctEvent? && IsHuman(rows[i].reviewer);
      assert rows'[i] == rows[i];
    }
  }

  /** In a ledger only this writer wrote, a pair's rows are versioned by their order, so the last one governs. */
  lemma {:induction false} LastAnswerGoverns(rows: seq<Adjudication>, a: nat, b: nat, i: nat)
    requires LedgerOk(rows) && i < |rows| && OfPair(rows[i], a, b)
    requires forall j :: i < j < |rows| ==> !OfPair(rows[j], a, b)
    ensures LatestFor(rows, a, b) == Some(i)
  {
    var n := |rows| - 1;
    assert RowOk(rows, i);
    if i == n {
      PairIsUnordered(rows[..n], a, b, rows[n].a, rows[n].b);
    } else {
      forall k: nat | k < n ensures RowOk(rows[..n], k) {
        assert RowOk(rows, k) && rows[..n][..k] == rows[..k];
      }
      LastAnswerGoverns(rows[..n], a, b, i);
    }
  }
}
