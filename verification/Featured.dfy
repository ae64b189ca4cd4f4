/** A date's headline: one featured event among several, chosen by a person or by a standing rule. */
module Featured {
  import opened Basics
  import opened Editorial

  const STANDING_FEATURED_EVENT_RULE := AUTOMATED_REVIEWER_PREFIX + "featured-event-v1"
  const NO_LONGER_ELIGIBLE := "No longer an eligible featured-event candidate for this date."

  /** An event's primary time: its first civil day, and its last when one is recorded. */
  datatype Span = Span(start: Day, end: Option<Day>)

  /** What the archive knows of identity roots when a ballot is checked; it may change between checks. */
  datatype Catalog = Catalog(
    events: map<nat, nat>,      // identity root to event
    times: map<nat, Span>,      // event to primary time
    keys: map<nat, string>)     // resolved claim to canonical key

  /** The rule's digest of a date and an identity key, ordered as its hexadecimal text is. */
  type Score = (Day, string) -> nat

  /** The current featured decision on one root. */
  function Current(rows: seq<Selection>, day: Day, root: nat): Option<Selection> {
    Latest(rows, day, FeaturedEvent, Resolved(root))
  }

  predicate Headline(rows: seq<Selection>, day: Day, root: nat) {
    var current := Current(rows, day, root);
    current.Some? && current.value.status.Selected?
  }

  predicate HumanHeadline(rows: seq<Selection>, day: Day, root: nat) {
    Headline(rows, day, root) && IsHuman(Current(rows, day, root).value.reviewer)
  }

  /** Every root with a featured decision on the date. */
  function DecidedRoots(rows: seq<Selection>, day: Day): (roots: set<nat>)
    ensures forall r :: Current(rows, day, r).Some? ==> r in roots
  {
    set i: nat | i < |rows| && rows[i].day == day && rows[i].section.FeaturedEvent?
    && rows[i].root.Resolved? :: rows[i].root.id
  }

  /** A single-day event that occurs on this date. */
  predicate Eligible(catalog: Catalog, day: Day, root: nat) {
    && root in catalog.events
    && catalog.events[root] in catalog.times
    && var span := catalog.times[catalog.events[root]];
       span.start == day && (span.end.None? || span.end.value == span.start)
  }

  predicate BallotOk(catalog: Catalog, day: Day, roots: set<nat>) {
    && (forall r :: r in roots ==> Eligible(catalog, day, r))
    && (forall r, s :: r in roots && s in roots && r != s && r in catalog.events && s in catalog.events ==>
          catalog.events[r] != catalog.events[s])
  }

  function Ballot(ids: seq<nat>): set<nat> {
    set id | id in ids
  }

  /** First occurrences, in order. */
  function Dedup(ids: seq<nat>): (r: seq<nat>)
    ensures forall i, j :: 0 <= i < j < |r| ==> r[i] != r[j]
    ensures forall id :: id in r <==> id in ids
  {
    if ids == [] then []
    else
      var before := Dedup(ids[..|ids| - 1]);
      var last := ids[|ids| - 1];
      assert ids == ids[..|ids| - 1] + [last];
      if last in before then before else before + [last]
  }

  /** Listed at some place before which the other is not. */
  predicate SeenBefore(ids: seq<nat>, a: nat, b: nat) {
    exists p :: 0 <= p < |ids| && ids[p] == a && b !in ids[..p]
  }

  /** A ballot keeps the order in which its candidates were first listed. */
  lemma {:induction false} DedupKeepsFirstSeen(ids: seq<nat>, i: nat, j: nat)
    requires i < j < |Dedup(ids)|
    ensures SeenBefore(ids, Dedup(ids)[i], Dedup(ids)[j])
  {
    var front := ids[..|ids| - 1];
    var before := Dedup(front);
    var p: nat;
    if j < |before| {
      DedupKeepsFirstSeen(front, i, j);
      p :| 0 <= p < |front| && front[p] == before[i] && before[j] !in front[..p];
    } else {
      assert before[i] in front;
      p :| 0 <= p < |front| && front[p] == before[i];
    }
    assert ids[..p] == front[..p] && ids[p] == front[p];
  }

  // ---- What one choice does --------------------------------------------------------------

  /** `chosen` became the headline: everyone else on the ballot, and every earlier headline, was rejected. */
  ghost predicate Chosen(rows: seq<Selection>, rows': seq<Selection>, day: Day, ballot: set<nat>, chosen: nat,
                         reviewer: string, rationale: string)
  {
    && WrittenBy(rows, rows', day, reviewer)
    && (forall r: nat :: Decided(rows, rows', day, ballot, chosen, reviewer, rationale, r))
  }

  /** The log only grew, by featured decisions of this date and this reviewer. */
  ghost predicate WrittenBy(rows: seq<Selection>, rows': seq<Selection>, day: Day, reviewer: string) {
    && rows <= rows'
    && (forall i :: |rows| <= i < |rows'| ==> FeaturedRow(rows'[i], day) && rows'[i].reviewer == reviewer)
    && (forall d: Day, s: Section, r :: d != day || !s.FeaturedEvent? ==>
         Latest(rows', d, s, r) == Latest(rows, d, s, r))
  }

  ghost predicate HumanOnBallot(rows: seq<Selection>, day: Day, ballot: set<nat>) {
    exists r :: r in ballot && HumanHeadline(rows, day, r)
  }

  ghost predicate HumanOffBallot(rows: seq<Selection>, day: Day, ballot: set<nat>) {
    exists r :: HumanHeadline(rows, day, r) && r !in ballot
  }

  ghost predicate IsHumanHeadline(rows: seq<Selection>, day: Day, ballot: set<nat>, row: Option<nat>) {
    exists r :: r in ballot && HumanHeadline(rows, day, r) && row == LatestIndex(rows, day, FeaturedEvent, Resolved(r))
  }

  predicate FeaturedRow(row: Selection, day: Day) {
    row.day == day && row.section.FeaturedEvent?
  }

  /** What the choice leaves current for one root. */
  predicate Decided(rows: seq<Selection>, rows': seq<Selection>, day: Day, ballot: set<nat>, chosen: nat,
                    reviewer: string, rationale: string, r: nat)
  {
    if r in ballot then
      DecidedBy(rows', day, r, if r == chosen then Selected else Rejected, reviewer, rationale)
    else if Headline(rows, day, r) then DecidedBy(rows', day, r, Rejected, reviewer, NO_LONGER_ELIGIBLE)
    else Current(rows', day, r) == Current(rows, day, r)
  }

  predicate DecidedBy(rows: seq<Selection>, day: Day, r: nat, status: Decision, reviewer: string, rationale: string) {
    var current := Current(rows, day, r);
    current.Some? && current.value.status == status && current.value.rank == None
    && current.value.reviewer == reviewer && current.value.rationale == rationale
  }

  /** What the writer does: refuse, leave a person's choice standing, or record the choice. */
  ghost predicate Writes(rows: seq<Selection>, rows': seq<Selection>, catalog: Catalog, day: Day, ballot: set<nat>,
                         chosen: nat, reviewer: string, rationale: string, row: Option<nat>)
  {
    if !BallotOk(catalog, day, ballot) || chosen !in ballot then row == None && rows' == rows
    else if !IsHuman(reviewer) && HumanOnBallot(rows, day, ballot) then
      rows' == rows && IsHumanHeadline(rows', day, ballot, row)
    else
      && Chosen(rows, rows', day, ballot, chosen, reviewer, rationale)
      && row == LatestIndex(rows', day, FeaturedEvent, Resolved(chosen))
  }

  // ---- What one evaluation does ----------------------------------------------------------

  datatype Origin = Human | StandingRule

  datatype Evaluation =
    | NoChoice                  // fewer than two candidates
    | Unresolved                // FeaturedEventUnresolved
    | Evaluated(winner: nat, selection: nat, version: nat, origin: Origin, changed: bool)

  /** A person's choice stands, whether or not it is still on the ballot. */
  ghost predicate HumanChose(rows: seq<Selection>, day: Day) {
    exists r :: HumanHeadline(rows, day, r)
  }

  ghost predicate Smallest(catalog: Catalog, score: Score, day: Day, ballot: set<nat>, winner: nat)
    requires ballot <= catalog.keys.Keys
  {
    winner in ballot && forall r :: r in ballot ==> score(day, catalog.keys[winner]) <= score(day, catalog.keys[r])
  }

  /** The evaluation names the winner's current row. */
  predicate Cites(rows: seq<Selection>, day: Day, e: Evaluation) {
    && e.Evaluated? && e.selection < |rows|
    && LatestIndex(rows, day, FeaturedEvent, Resolved(e.winner)) == Some(e.selection)
    && e.version == rows[e.selection].version
  }

  ghost predicate Evaluates(rows: seq<Selection>, rows': seq<Selection>, catalog: Catalog, score: Score, day: Day,
                            ballot: set<nat>, rationale: string, e: Evaluation)
  {
    if |ballot| < 2 then e == NoChoice && rows' == rows
    else if !BallotOk(catalog, day, ballot) || !(ballot <= catalog.keys.Keys)
         || HumanOffBallot(rows, day, ballot)
    then e == Unresolved && rows' == rows
    else
      && Cites(rows', day, e) && e.winner in ballot
      && if HumanChose(rows, day)
         then e.origin.Human? && !e.changed && rows' == rows && HumanHeadline(rows, day, e.winner)
         else
           && e.origin.StandingRule? && Smallest(catalog, score, day, ballot, e.winner)
           && (e.changed <==> !(Headline(rows, day, e.winner)
                                && Current(rows, day, e.winner).value.reviewer == STANDING_FEATURED_EVENT_RULE))
           && if e.changed then Chosen(rows, rows', day, ballot, e.winner, STANDING_FEATURED_EVENT_RULE, rationale)
              else rows' == rows
  }

  // ---- The log, and the operations on it -------------------------------------------------

  class SelectionLog {
    var rows: seq<Selection>

    constructor (rows: seq<Selection>)
      ensures this.rows == rows
    {
      this.rows := rows;
    }

    /** record_editorial_selection for a featured root: an identical decision writes nothing. */
    method RecordEditorialSelection(day: Day, root: nat, status: Decision, rationale: string, reviewer: string)
        returns (id: nat)
      modifies this
      ensures Appends(old(rows), rows, day, root, status, rationale, reviewer)
      ensures LatestIndex(rows, day, FeaturedEvent, Resolved(root)) == Some(id)
    {
      var key := Resolved(root);
      RecordCurrent(rows, day, FeaturedEvent, key, status, None, rationale, reviewer);
      rows := Record(rows, day, FeaturedEvent, key, status, None, rationale, reviewer);
      id := LatestIndex(rows, day, FeaturedEvent, key).value;
    }

    /** The identity roots of a ballot, once each, or None when it is not a ballot for this date. */
    method ValidatedCandidates(catalog: Catalog, day: Day, ids: seq<nat>) returns (ordered: Option<seq<nat>>)
      ensures ordered == if BallotOk(catalog, day, Ballot(ids)) then Some(Dedup(ids)) else None
    {
      var candidates := Dedup(ids);
      ghost var ballot := Ballot(ids);
      var seen: set<nat> := {};
      for k := 0 to |candidates|
        invariant forall r :: r in candidates[..k] ==> Eligible(catalog, day, r)
        invariant seen == set r | r in candidates[..k] && r in catalog.events :: catalog.events[r]
        invariant BallotOk(catalog, day, set r | r in candidates[..k])
      {
        var root := candidates[k];
        assert root in ballot && candidates[..k + 1] == candidates[..k] + [root];
        if !Eligible(catalog, day, root) { return None; }
        if catalog.events[root] in seen {
          var twin :| twin in candidates[..k] && twin in catalog.events && catalog.events[twin] == catalog.events[root];
          assert twin in ballot;
          return None;
        }
        seen := seen + {catalog.events[root]};
      }
      assert candidates[..|candidates|] == candidates;
      assert Ballot(candidates) == ballot;
      ordered := Some(candidates);
    }

    /**
      record_featured_event_selection. None when the ballot or the choice is refused; otherwise the row
      that is now, or already was, the headline: a rule does not overrule a person's choice on the ballot.
    */
    method RecordFeaturedEventSelection(catalog: Catalog, day: Day, ids: seq<nat>, chosen: nat, reviewer: string,
                                        rationale: string)
        returns (row: Option<nat>)
      modifies this
      ensures Writes(old(rows), rows, catalog, day, Ballot(ids), chosen, reviewer, rationale, row)
    {
      ghost var ballot := Ballot(ids);
      var validated := ValidatedCandidates(catalog, day, ids);
      if validated.None? || chosen !in validated.value { return None; }
      var candidates := validated.value;
      var before := rows;
      for k := 0 to |candidates|
        invariant rows == before
        invariant forall r :: r in candidates[..k] ==> IsHuman(reviewer) || !HumanHeadline(before, day, r)
      {
        if HumanHeadline(rows, day, candidates[k]) && !IsHuman(reviewer) {
          return LatestIndex(rows, day, FeaturedEvent, Resolved(candidates[k]));
        }
      }
      assert candidates[..|candidates|] == candidates && Ballot(candidates) == ballot;
      DecideBallot(day, candidates, chosen, reviewer, rationale);
      RejectStrays(before, day, candidates, chosen, reviewer, rationale);
      assert DecidedBy(rows, day, chosen, Selected, reviewer, rationale) by {
        assert Decided(before, rows, day, ballot, chosen, reviewer, rationale, chosen);
      }
      row := LatestIndex(rows, day, FeaturedEvent, Resolved(chosen));
    }

    /** The chosen candidate is selected and every other one rejected. */
    method DecideBallot(day: Day, candidates: seq<nat>, chosen: nat, reviewer: string, rationale: string)
      requires forall i, j :: 0 <= i < j < |candidates| ==> candidates[i] != candidates[j]
      modifies this
      ensures Progress(old(rows), rows, day, Ballot(candidates), {}, chosen, reviewer, rationale)
    {
      ghost var before := rows;
      var decided := {};
      WrittenNothing(before, day, reviewer);
      for k := 0 to |candidates|
        invariant decided == set i | 0 <= i < k :: candidates[i]
        invariant Progress(before, rows, day, decided, {}, chosen, reviewer, rationale)
      {
        DecideNext(before, rows, day, decided, {}, chosen, reviewer, rationale, candidates[k]);
        var _ := RecordEditorialSelection(day, candidates[k],
          if candidates[k] == chosen then Selected else Rejected, rationale, reviewer);
        decided := decided + {candidates[k]};
      }
      assert decided == Ballot(candidates);
    }

    /** Every headline of the earlier snapshot that is not on the ballot is rejected. */
    method RejectStrays(before: seq<Selection>, day: Day, candidates: seq<nat>, ghost chosen: nat, reviewer: string,
                        ghost rationale: string)
      requires Progress(before, rows, day, Ballot(candidates), {}, chosen, reviewer, rationale)
      modifies this
      ensures Chosen(before, rows, day, Ballot(candidates), chosen, reviewer, rationale)
    {
      ghost var ballot := Ballot(candidates);
      var left := set r | r in DecidedRoots(before, day) && r !in candidates && Headline(before, day, r);
      ghost var strays, dropped := left, {};
      while left != {}
        invariant dropped == strays - left && left <= strays
        invariant Progress(before, rows, day, ballot, dropped, chosen, reviewer, rationale)
        decreases left
      {
        var root :| root in left;
        DecideNext(before, rows, day, ballot, dropped, chosen, reviewer, rationale, root);
        var _ := RecordEditorialSelection(day, root, Rejected, NO_LONGER_ELIGIBLE, reviewer);
        left, dropped := left - {root}, dropped + {root};
      }
      forall r: nat ensures Decided(before, rows, day, ballot, chosen, reviewer, rationale, r) {
        assert DecidedSoFar(before, rows, day, ballot, dropped, chosen, reviewer, rationale, r);
      }
    }

    /** resolve_featured_event: exactly one current selection among several candidates, or nothing. */
    method ResolveFeaturedEvent(day: Day, ids: seq<nat>) returns (r: Resolution)
      ensures Resolves(rows, day, Ballot(ids), r)
    {
      var candidates := Dedup(ids);
      DedupCounts(ids);
      if |candidates| == 0 { return NoEvent; }
      if |candidates| == 1 { return Feature(candidates[0]); }
      var selected := SelectedAmong(day, candidates);
      if |selected| == 1 { return Feature(selected[0]); }
      forall c | c in Ballot(ids) && Headline(rows, day, c) ensures HasRival(rows, day, Ballot(ids), c) {
        assert selected[0] in selected && selected[1] in selected && selected[0] != selected[1];
        var other := if selected[0] == c then selected[1] else selected[0];
        assert other in Ballot(ids) && other != c && Headline(rows, day, other);
      }
      r := ManyOrNone;
    }

    method SelectedAmong(day: Day, candidates: seq<nat>) returns (selected: seq<nat>)
      requires forall i, j :: 0 <= i < j < |candidates| ==> candidates[i] != candidates[j]
      ensures forall r: nat :: r in selected <==> r in candidates && Headline(rows, day, r)
      ensures forall i, j :: 0 <= i < j < |selected| ==> selected[i] != selected[j]
    {
      selected := [];
      for k := 0 to |candidates|
        invariant forall r: nat :: r in selected <==> r in candidates[..k] && Headline(rows, day, r)
        invariant forall i, j :: 0 <= i < j < |selected| ==> selected[i] != selected[j]
      {
        assert candidates[..k + 1] == candidates[..k] + [candidates[k]];
        if Headline(rows, day, candidates[k]) { selected := selected + [candidates[k]]; }
      }
      assert candidates[..|candidates|] == candidates;
    }

    /** evaluate_featured_event, under the date's headline lock. */
    method EvaluateFeaturedEvent(catalog: Catalog, score: Score, day: Day, ids: seq<nat>, rationale: string)
        returns (e: Evaluation)
      modifies this
      ensures Evaluates(old(rows), rows, catalog, score, day, Ballot(ids), rationale, e)
      ensures e.Evaluated? && e.origin.StandingRule? ==> FirstSmallest(catalog, score, day, Dedup(ids), e.winner)
    {
      var candidates := Dedup(ids);
      DedupCounts(ids);
      assert Ballot(candidates) == Ballot(ids);
      if |candidates| < 2 { return NoChoice; }
      var open := CanEvaluate(catalog, day, candidates);
      if !open { return Unresolved; }
      var humans := set r | r in DecidedRoots(rows, day) && HumanHeadline(rows, day, r);
      if humans != {} {
        var chosen :| chosen in humans;
        var at := LatestIndex(rows, day, FeaturedEvent, Resolved(chosen)).value;
        return Evaluated(chosen, at, rows[at].version, Human, false);
      }
      assert forall r :: HumanHeadline(rows, day, r) ==> r in humans;
      e := ApplyStandingRule(catalog, score, day, candidates, rationale);
    }

    /** The ballot is valid, every candidate has a key, and no person's choice has dropped off it. */
    method CanEvaluate(catalog: Catalog, day: Day, candidates: seq<nat>) returns (ok: bool)
      ensures ok == (BallotOk(catalog, day, Ballot(candidates)) && Ballot(candidates) <= catalog.keys.Keys
                     && !HumanOffBallot(rows, day, Ballot(candidates)))
    {
      var validated := ValidatedCandidates(catalog, day, candidates);
      if validated.None? { return false; }
      if exists c :: c in candidates && c !in catalog.keys { return false; }
      var humans := set r | r in DecidedRoots(rows, day) && HumanHeadline(rows, day, r);
      assert forall r :: HumanHeadline(rows, day, r) ==> r in humans;
      ok := forall c :: c in humans ==> c in candidates;
    }

    /** No person has chosen: the rule's winner keeps the headline, or takes it. */
    method ApplyStandingRule(catalog: Catalog, score: Score, day: Day, candidates: seq<nat>, rationale: string)
        returns (e: Evaluation)
      requires candidates != [] && |Ballot(candidates)| >= 2 && BallotOk(catalog, day, Ballot(candidates))
      requires Ballot(candidates) <= catalog.keys.Keys
      requires !HumanChose(rows, day)
      modifies this
      ensures Evaluates(old(rows), rows, catalog, score, day, Ballot(candidates), rationale, e)
      ensures e.Evaluated? && e.origin.StandingRule? && FirstSmallest(catalog, score, day, candidates, e.winner)
    {
      var winner := SmallestCandidate(catalog, score, day, candidates);
      if Headline(rows, day, winner) && Current(rows, day, winner).value.reviewer == STANDING_FEATURED_EVENT_RULE {
        var at := LatestIndex(rows, day, FeaturedEvent, Resolved(winner)).value;
        return Evaluated(winner, at, rows[at].version, StandingRule, false);
      }
      RuleIsNotHuman();
      var recorded := RecordFeaturedEventSelection(catalog, day, candidates, winner, STANDING_FEATURED_EVENT_RULE,
                                                   rationale);
      assert Decided(old(rows), rows, day, Ballot(candidates), winner, STANDING_FEATURED_EVENT_RULE, rationale, winner);
      e := Evaluated(winner, recorded.value, rows[recorded.value].version, StandingRule, true);
    }

    method SmallestCandidate(catalog: Catalog, score: Score, day: Day, candidates: seq<nat>) returns (winner: nat)
      requires candidates != [] && forall c :: c in candidates ==> c in catalog.keys
      ensures Smallest(catalog, score, day, Ballot(candidates), winner)
      ensures FirstSmallest(catalog, score, day, candidates, winner)
    {
      var best := 0;
      for k := 1 to |candidates|
        invariant best < k
        invariant forall i :: 0 <= i < k ==>
          score(day, catalog.keys[candidates[best]]) <= score(day, catalog.keys[candidates[i]])
        invariant forall i :: 0 <= i < best ==>
          score(day, catalog.keys[candidates[best]]) < score(day, catalog.keys[candidates[i]])
      {
        if score(day, catalog.keys[candidates[k]]) < score(day, catalog.keys[candidates[best]]) { best := k; }
      }
      winner := candidates[best];
    }
  }

  datatype Resolution = NoEvent | Feature(root: nat) | ManyOrNone

  ghost predicate Resolves(rows: seq<Selection>, day: Day, ballot: set<nat>, r: Resolution) {
    if ballot == {} then r == NoEvent
    else if |ballot| == 1 then r.Feature? && r.root in ballot
    else
      && (r.Feature? ==> r.root in ballot && Headline(rows, day, r.root)
                         && forall c :: c in ballot && Headline(rows, day, c) ==> c == r.root)
      && (!r.Feature? ==>
            (r == ManyOrNone && forall c :: c in ballot && Headline(rows, day, c) ==> HasRival(rows, day, ballot, c)))
  }

  ghost predicate HasRival(rows: seq<Selection>, day: Day, ballot: set<nat>, c: nat) {
    exists other :: other in ballot && other != c && Headline(rows, day, other)
  }

  /** Among candidates with the same score, the one listed first. */
  ghost predicate FirstSmallest(catalog: Catalog, score: Score, day: Day, candidates: seq<nat>, winner: nat)
    requires forall c :: c in candidates ==> c in catalog.keys
  {
    exists k :: 0 <= k < |candidates| && candidates[k] == winner
             && (forall i :: 0 <= i < |candidates| ==>
                  score(day, catalog.keys[winner]) <= score(day, catalog.keys[candidates[i]]))
             && forall i :: 0 <= i < k ==> score(day, catalog.keys[winner]) < score(day, catalog.keys[candidates[i]])
  }

  lemma {:induction false} DedupCounts(ids: seq<nat>)
    ensures |Dedup(ids)| == |Ballot(ids)|
  {
    if ids != [] {
      var front, last := ids[..|ids| - 1], ids[|ids| - 1];
      assert ids == front + [last];
      DedupCounts(front);
      assert Ballot(ids) == Ballot(front) + {last};
    }
  }

  lemma RuleIsNotHuman()
    ensures !IsHuman(STANDING_FEATURED_EVENT_RULE)
  {
    var identity := STANDING_FEATURED_EVENT_RULE;
    assert identity[..|AUTOMATED_REVIEWER_PREFIX|] == AUTOMATED_REVIEWER_PREFIX;
    assert StripLeft(identity) == identity;
  }

  /** Part of the way: `decided` of the ballot recorded, `dropped` of the earlier headlines rejected. */
  predicate DecidedSoFar(rows: seq<Selection>, rows': seq<Selection>, day: Day, decided: set<nat>, dropped: set<nat>,
                         chosen: nat, reviewer: string, rationale: string, r: nat)
  {
    if r in decided then DecidedBy(rows', day, r, if r == chosen then Selected else Rejected, reviewer, rationale)
    else if r in dropped then DecidedBy(rows', day, r, Rejected, reviewer, NO_LONGER_ELIGIBLE)
    else Current(rows', day, r) == Current(rows, day, r)
  }

  ghost predicate Progress(rows: seq<Selection>, rows': seq<Selection>, day: Day, decided: set<nat>, dropped: set<nat>,
                           chosen: nat, reviewer: string, rationale: string)
  {
    && WrittenBy(rows, rows', day, reviewer)
    && forall r: nat :: DecidedSoFar(rows, rows', day, decided, dropped, chosen, reviewer, rationale, r)
  }

  /** What recording one more decision, whichever pass it belongs to, does to the progress made. */
  lemma DecideNext(rows: seq<Selection>, rows1: seq<Selection>, day: Day, decided: set<nat>, dropped: set<nat>,
                   chosen: nat, reviewer: string, rationale: string, root: nat)
    requires Progress(rows, rows1, day, decided, dropped, chosen, reviewer, rationale) && root !in decided
    ensures forall rows2 :: Appends(rows1, rows2, day, root, if root == chosen then Selected else Rejected, rationale,
                                    reviewer) ==>
      Progress(rows, rows2, day, decided + {root}, dropped, chosen, reviewer, rationale)
    ensures forall rows2 :: Appends(rows1, rows2, day, root, Rejected, NO_LONGER_ELIGIBLE, reviewer) ==>
      Progress(rows, rows2, day, decided, dropped + {root}, chosen, reviewer, rationale)
  {
    forall rows2 | Appends(rows1, rows2, day, root, if root == chosen then Selected else Rejected, rationale, reviewer)
      ensures Progress(rows, rows2, day, decided + {root}, dropped, chosen, reviewer, rationale)
    {
      WrittenOn(rows, rows1, rows2, day, reviewer);
      forall r: nat ensures DecidedSoFar(rows, rows2, day, decided + {root}, dropped, chosen, reviewer, rationale, r) {
        assert DecidedSoFar(rows, rows1, day, decided, dropped, chosen, reviewer, rationale, r);
      }
    }
    forall rows2 | Appends(rows1, rows2, day, root, Rejected, NO_LONGER_ELIGIBLE, reviewer)
      ensures Progress(rows, rows2, day, decided, dropped + {root}, chosen, reviewer, rationale)
    {
      WrittenOn(rows, rows1, rows2, day, reviewer);
      forall r: nat ensures DecidedSoFar(rows, rows2, day, decided, dropped + {root}, chosen, reviewer, rationale, r) {
        assert DecidedSoFar(rows, rows1, day, decided, dropped, chosen, reviewer, rationale, r);
      }
    }
  }

  /** One decision recorded on one root. */
  ghost predicate Appends(rows: seq<Selection>, rows': seq<Selection>, day: Day, root: nat, status: Decision,
                           rationale: string, reviewer: string)
  {
    && WrittenBy(rows, rows', day, reviewer) && DecidedBy(rows', day, root, status, reviewer, rationale)
    && forall r: nat :: r != root ==> Current(rows', day, r) == Current(rows, day, r)
  }

  lemma WrittenNothing(rows: seq<Selection>, day: Day, reviewer: string)
    ensures WrittenBy(rows, rows, day, reviewer)
  {
  }

  lemma WrittenOn(a: seq<Selection>, b: seq<Selection>, c: seq<Selection>, day: Day, reviewer: string)
    requires WrittenBy(a, b, day, reviewer) && WrittenBy(b, c, day, reviewer)
    ensures WrittenBy(a, c, day, reviewer)
  {
  }
}
