/** One headline, human first: what every run of human selections and rule evaluations keeps. */
module FeaturedRuns {
  import opened Basics
  import opened Editorial
  import opened Rows
  import opened Featured

  datatype Turn =
    | PersonSelects(catalog: Catalog, day: Day, ballot: set<nat>, chosen: nat, reviewer: string, rationale: string,
                    row: Option<nat>)
    | RuleEvaluates(catalog: Catalog, day: Day, ballot: set<nat>, rationale: string, evaluation: Evaluation)
    | OtherDecision(day: Day, section: Section, root: Root, status: Decision, rank: Option<int>, rationale: string,
                    reviewer: string)

  ghost predicate Turns(rows: seq<Selection>, t: Turn, rows': seq<Selection>, score: Score) {
    match t
    case PersonSelects(catalog, day, ballot, chosen, reviewer, rationale, row) =>
      IsHuman(reviewer) && Writes(rows, rows', catalog, day, ballot, chosen, reviewer, rationale, row)
    case RuleEvaluates(catalog, day, ballot, rationale, e) =>
      Evaluates(rows, rows', catalog, score, day, ballot, rationale, e)
    case OtherDecision(day, section, root, status, rank, rationale, reviewer) =>
      !section.FeaturedEvent? && rows' == Record(rows, day, section, root, status, rank, rationale, reviewer)
  }

  ghost predicate IsHistory(logs: seq<seq<Selection>>, turns: seq<Turn>, score: Score) {
    && |logs| == |turns| + 1
    && forall i :: 0 <= i < |turns| ==> Turns(logs[i], turns[i], logs[i + 1], score)
  }

  predicate PersonSelected(row: Selection, day: Day) {
    FeaturedRow(row, day) && row.status.Selected? && IsHuman(row.reviewer)
  }

  ghost predicate OneHeadline(rows: seq<Selection>, day: Day) {
    forall r, s :: Headline(rows, day, r) && Headline(rows, day, s) ==> r == s
  }

  /** A headline is a person's or the rule's. */
  ghost predicate KnownHand(rows: seq<Selection>, day: Day) {
    forall r :: Headline(rows, day, r) ==>
      HumanHeadline(rows, day, r) || Current(rows, day, r).value.reviewer == STANDING_FEATURED_EVENT_RULE
  }

  /** Once a person has selected, the headline stays a person's. */
  ghost predicate PersonStands(rows: seq<Selection>, day: Day) {
    (exists i :: 0 <= i < |rows| && PersonSelected(rows[i], day)) ==> HumanChose(rows, day)
  }

  /** No featured row of the date follows a person's selection unless a person wrote it. */
  ghost predicate PersonFirst(rows: seq<Selection>, day: Day) {
    forall i, j :: 0 <= i < j < |rows| && PersonSelected(rows[i], day) && FeaturedRow(rows[j], day) ==>
      IsHuman(rows[j].reviewer)
  }

  ghost predicate Tidy(rows: seq<Selection>, day: Day) {
    OneHeadline(rows, day) && KnownHand(rows, day) && PersonStands(rows, day) && PersonFirst(rows, day)
  }

  /** Whatever the log said before, a recorded choice leaves exactly one headline. */
  lemma ChoiceLeavesOneHeadline(rows: seq<Selection>, rows': seq<Selection>, day: Day, ballot: set<nat>, chosen: nat,
                                reviewer: string, rationale: string)
    requires Chosen(rows, rows', day, ballot, chosen, reviewer, rationale) && chosen in ballot
    ensures forall r :: Headline(rows', day, r) <==> r == chosen
    ensures Headline(rows', day, chosen) && Current(rows', day, chosen).value.reviewer == reviewer
  {
    forall r ensures Headline(rows', day, r) <==> r == chosen {
      assert Decided(rows, rows', day, ballot, chosen, reviewer, rationale, r);
    }
    assert Decided(rows, rows', day, ballot, chosen, reviewer, rationale, chosen);
  }

  lemma ChoiceStaysTidy(rows: seq<Selection>, rows': seq<Selection>, day: Day, ballot: set<nat>, chosen: nat,
                        reviewer: string, rationale: string)
    requires Tidy(rows, day) && Chosen(rows, rows', day, ballot, chosen, reviewer, rationale) && chosen in ballot
    requires IsHuman(reviewer) || (reviewer == STANDING_FEATURED_EVENT_RULE && !HumanChose(rows, day))
    ensures Tidy(rows', day)
  {
    ChoiceLeavesOneHeadline(rows, rows', day, ballot, chosen, reviewer, rationale);
    RuleIsNotHuman();
    if IsHuman(reviewer) { assert HumanHeadline(rows', day, chosen); }
    forall i | 0 <= i < |rows'| && !IsHuman(reviewer) ensures !PersonSelected(rows'[i], day) {
      assert i < |rows| ==> !PersonSelected(rows[i], day);
    }
    forall i, j | 0 <= i < j < |rows'| && PersonSelected(rows'[i], day) && FeaturedRow(rows'[j], day)
      ensures IsHuman(rows'[j].reviewer)
    {
      if i < |rows| { assert PersonSelected(rows[i], day); }
      if j < |rows| { assert FeaturedRow(rows[j], day); }
    }
  }

  /** Rows of other dates and sections leave a date's headline alone. */
  lemma ElsewhereStaysTidy(rows: seq<Selection>, rows': seq<Selection>, day: Day)
    requires Tidy(rows, day) && rows <= rows'
    requires forall i :: |rows| <= i < |rows'| ==> !FeaturedRow(rows'[i], day)
    requires forall r :: Current(rows', day, r) == Current(rows, day, r)
    ensures Tidy(rows', day)
  {
    forall r
      ensures Headline(rows', day, r) == Headline(rows, day, r)
      ensures HumanHeadline(rows', day, r) == HumanHeadline(rows, day, r)
    {
      assert Current(rows', day, r) == Current(rows, day, r);
    }
    forall i | 0 <= i < |rows'| && PersonSelected(rows'[i], day) ensures i < |rows| && PersonSelected(rows[i], day) {
    }
    forall i, j | 0 <= i < j < |rows'| && PersonSelected(rows'[i], day) && FeaturedRow(rows'[j], day)
      ensures IsHuman(rows'[j].reviewer)
    {
      assert PersonSelected(rows[i], day) && FeaturedRow(rows[j], day);
    }
  }

  lemma TurnStaysTidy(rows: seq<Selection>, t: Turn, rows': seq<Selection>, score: Score, day: Day)
    requires Tidy(rows, day) && Turns(rows, t, rows', score)
    ensures Tidy(rows', day)
  {
    if rows' != rows {
      match t
      case PersonSelects(_, d, ballot, chosen, reviewer, rationale, _) =>
        if d == day {
          ChoiceStaysTidy(rows, rows', day, ballot, chosen, reviewer, rationale);
        } else {
          ElsewhereStaysTidy(rows, rows', day);
        }
      case RuleEvaluates(_, d, ballot, rationale, e) =>
        if d == day {
          ChoiceStaysTidy(rows, rows', day, ballot, e.winner, STANDING_FEATURED_EVENT_RULE, rationale);
        } else {
          ElsewhereStaysTidy(rows, rows', day);
        }
      case OtherDecision(d, section, root, status, rank, rationale, reviewer) =>
        RecordCurrent(rows, d, section, root, status, rank, rationale, reviewer);
        ElsewhereStaysTidy(rows, rows', day);
    }
  }

  lemma {:induction false} HistoryStaysTidy(logs: seq<seq<Selection>>, turns: seq<Turn>, score: Score, n: nat, day: Day)
    requires IsHistory(logs, turns, score) && n < |logs|
    requires forall i :: 0 <= i < |logs[0]| ==> !FeaturedRow(logs[0][i], day)
    ensures Tidy(logs[n], day)
  {
    if n == 0 {
      forall r ensures Current(logs[0], day, r).None? {}
    } else {
      HistoryStaysTidy(logs, turns, score, n - 1, day);
      assert Turns(logs[n - 1], turns[n - 1], logs[n], score);
      TurnStaysTidy(logs[n - 1], turns[n - 1], logs[n], score, day);
    }
  }

  /** In every reachable log at most one root of a date is currently selected as its headline. */
  lemma AtMostOneHeadline(logs: seq<seq<Selection>>, turns: seq<Turn>, score: Score, n: nat, day: Day, r: nat, s: nat)
    requires IsHistory(logs, turns, score) && n < |logs|
    requires forall i :: 0 <= i < |logs[0]| ==> !FeaturedRow(logs[0][i], day)
    requires Headline(logs[n], day, r) && Headline(logs[n], day, s)
    ensures r == s
  {
    HistoryStaysTidy(logs, turns, score, n, day);
  }

  /** After a person selects a headline, the rule never writes another featured row on that date, for any root. */
  lemma PersonIsNeverOverruled(logs: seq<seq<Selection>>, turns: seq<Turn>, score: Score, n: nat, day: Day, i: nat,
                               j: nat)
    requires IsHistory(logs, turns, score) && n < |logs|
    requires forall k :: 0 <= k < |logs[0]| ==> !FeaturedRow(logs[0][k], day)
    requires i < j < |logs[n]| && PersonSelected(logs[n][i], day) && FeaturedRow(logs[n][j], day)
    ensures IsHuman(logs[n][j].reviewer) && logs[n][j].reviewer != STANDING_FEATURED_EVENT_RULE
  {
    HistoryStaysTidy(logs, turns, score, n, day);
    RuleIsNotHuman();
  }

  /**
    The guarantee rests on evaluation refusing first. Handed to the writer directly, a rule leaves a person's
    choice alone exactly when that choice is still on the ballot.
  */
  lemma WriterSparesOnlyTheBallot(rows: seq<Selection>, rows': seq<Selection>, catalog: Catalog, day: Day,
                                  ballot: set<nat>,
                                  chosen: nat, reviewer: string, rationale: string, row: Option<nat>, person: nat)
    requires HumanHeadline(rows, day, person) && !IsHuman(reviewer)
    requires OneHeadline(rows, day) && BallotOk(catalog, day, ballot) && chosen in ballot
    requires Writes(rows, rows', catalog, day, ballot, chosen, reviewer, rationale, row)
    ensures HumanHeadline(rows', day, person) <==> person in ballot
  {
    if !HumanOnBallot(rows, day, ballot) {
      ChoiceLeavesOneHeadline(rows, rows', day, ballot, chosen, reviewer, rationale);
    }
  }

  // ---- Evaluation is stable --------------------------------------------------------------

  ghost predicate DistinctScores(catalog: Catalog, score: Score, day: Day, ballot: set<nat>) {
    forall r, s :: r in ballot && s in ballot && r in catalog.keys && s in catalog.keys && r != s ==>
      score(day, catalog.keys[r]) != score(day, catalog.keys[s])
  }

  /** Two evaluations of the same candidates, in whatever order each was given them, agree. */
  lemma WinnerIgnoresOrder(rows: seq<Selection>, catalog: Catalog, score: Score, day: Day, ids: seq<nat>,
                           other: seq<nat>,
                           rows1: seq<Selection>, rows2: seq<Selection>, rationale: string, e1: Evaluation,
                               e2: Evaluation)
    requires Tidy(rows, day) && DistinctScores(catalog, score, day, Ballot(ids))
    requires multiset(ids) == multiset(other)
    requires Evaluates(rows, rows1, catalog, score, day, Ballot(ids), rationale, e1)
    requires Evaluates(rows, rows2, catalog, score, day, Ballot(other), rationale, e2)
    ensures e1.Evaluated? <==> e2.Evaluated?
    ensures e1.Evaluated? ==> e1.winner == e2.winner && e1.origin == e2.origin && e1.changed == e2.changed
  {
    forall id ensures id in ids <==> id in other { assert multiset(ids)[id] == multiset(other)[id]; }
    assert Ballot(ids) == Ballot(other);
  }

  /** Evaluating again, with nothing decided in between, appends nothing and names the same row. */
  lemma ReevaluationAppendsNothing(rows: seq<Selection>, rows1: seq<Selection>, rows2: seq<Selection>, catalog: Catalog,
                                   score: Score, day: Day, ballot: set<nat>, rationale: string, again: string,
                                   e1: Evaluation, e2: Evaluation)
    requires Tidy(rows, day) && DistinctScores(catalog, score, day, ballot)
    requires Evaluates(rows, rows1, catalog, score, day, ballot, rationale, e1)
    requires Evaluates(rows1, rows2, catalog, score, day, ballot, again, e2)
    ensures rows2 == rows1
    ensures e2 == if e1.Evaluated? then e1.(changed := false) else e1
  {
    RuleIsNotHuman();
    if e1.Evaluated? && e1.changed {
      ChoiceLeavesOneHeadline(rows, rows1, day, ballot, e1.winner, STANDING_FEATURED_EVENT_RULE, rationale);
      assert !HumanChose(rows1, day);
    }
  }

  /** A row is appended exactly when the headline moves. */
  lemma AppendsIffHeadlineMoves(rows: seq<Selection>, rows': seq<Selection>, catalog: Catalog, score: Score, day: Day,
                                ballot: set<nat>, rationale: string, e: Evaluation)
    requires Tidy(rows, day) && Evaluates(rows, rows', catalog, score, day, ballot, rationale, e) && e.Evaluated?
    ensures rows' != rows <==> !Headline(rows, day, e.winner)
    ensures e.changed <==> rows' != rows
    ensures forall r :: Headline(rows', day, r) <==> r == e.winner
  {
    if e.changed {
      ChoiceLeavesOneHeadline(rows, rows', day, ballot, e.winner, STANDING_FEATURED_EVENT_RULE, rationale);
    }
  }

  /** What publication resolves afterwards is what was evaluated. */
  lemma ResolveReturnsTheWinner(rows: seq<Selection>, rows': seq<Selection>, catalog: Catalog, score: Score, day: Day,
                                ballot: set<nat>, rationale: string, e: Evaluation, r: Resolution)
    requires Tidy(rows, day) && Evaluates(rows, rows', catalog, score, day, ballot, rationale, e) && e.Evaluated?
    requires Resolves(rows', day, ballot, r)
    ensures r == Feature(e.winner)
  {
    AppendsIffHeadlineMoves(rows, rows', catalog, score, day, ballot, rationale, e);
  }

  /** A headline evaluated on a date is of an event of that one day, as is every other on its ballot. */
  lemma CandidatesAreOfTheDay(rows: seq<Selection>, rows': seq<Selection>, catalog: Catalog, score: Score, day: Day,
                              ballot: set<nat>, rationale: string, e: Evaluation)
    requires Evaluates(rows, rows', catalog, score, day, ballot, rationale, e)
    ensures e.Evaluated? <==>
      && |ballot| >= 2 && ballot <= catalog.keys.Keys && !HumanOffBallot(rows, day, ballot)
      && OneDayEvents(catalog, day, ballot)
  {
    BallotsAreOfTheDay(catalog, day, ballot);
  }

  /** Different events, each of this one day. */
  predicate OneDayEvents(catalog: Catalog, day: Day, ballot: set<nat>) {
    && (forall r :: r in ballot ==> HappenedOn(catalog, day, r))
    && forall r, s :: r in ballot && s in ballot && r != s ==> EventOf(catalog, r) != EventOf(catalog, s)
  }

  lemma BallotsAreOfTheDay(catalog: Catalog, day: Day, ballot: set<nat>)
    ensures BallotOk(catalog, day, ballot) <==> OneDayEvents(catalog, day, ballot)
  {
    forall r | r in ballot ensures Eligible(catalog, day, r) <==> HappenedOn(catalog, day, r) {}
  }

  /** The root's event has a primary time, which begins on this day and ends, if an end is recorded, on it too. */
  predicate HappenedOn(catalog: Catalog, day: Day, root: nat) {
    && root in catalog.events && catalog.events[root] in catalog.times
    && catalog.times[catalog.events[root]] in {Span(day, None), Span(day, Some(day))}
  }

  function EventOf(catalog: Catalog, root: nat): Option<nat> {
    if root in catalog.events then Some(catalog.events[root]) else None
  }

  /** A manifest bound to an evaluation reads as headlined by a person exactly when one chose. */
  lemma BindingTellsWhoChose(rows: seq<Selection>, rows': seq<Selection>, catalog: Catalog, score: Score, day: Day,
                             ballot: set<nat>, rationale: string, e: Evaluation, gov: Governance, m: Manifest)
    requires Evaluates(rows, rows', catalog, score, day, ballot, rationale, e) && e.Evaluated?
    requires m.featured == Some(Binding(e.selection, e.version))
    requires Resolved(e.winner) in gov.identity && gov.identity[Resolved(e.winner)] in EventsBehind(gov, m.evidence)
    requires KnownHand(rows, day)
    ensures FeaturedDecisionIsHuman(gov, rows', m) <==> e.origin.Human?
  {
    RuleIsNotHuman();
    if e.changed {
      ChoiceLeavesOneHeadline(rows, rows', day, ballot, e.winner, STANDING_FEATURED_EVENT_RULE, rationale);
    }
  }
}
