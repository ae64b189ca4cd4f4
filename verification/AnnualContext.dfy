/** The standing annual-context rule: it fills gaps nobody visited, and never touches a decision. */
module AnnualContext {
  import opened Basics
  import opened Editorial

  const STANDING_ANNUAL_CONTEXT_RULE := AUTOMATED_REVIEWER_PREFIX + "annual-context-v1"
  const STANDING_ANNUAL_CONTEXT_RATIONALE := 
    "Standing editorial rule: the reviewed annual context for a year is selected for every date in that year, as period context rather than a date-specific observation."

  function InSection(evidence: seq<Evidence>, section: Section): nat {
    if evidence == [] then 0
    else InSection(evidence[..|evidence| - 1], section) + if evidence[|evidence| - 1].section == section then 1 else 0
  }

  /**
    One evidence row: left alone when anything was ever decided about it, else selected at its place in its
    section.
  */
  function EnsureOne(rows: seq<Selection>, day: Day, item: Evidence, rank: nat): seq<Selection> {
    if LatestIndex(rows, day, item.section, item.root).Some? then rows
    else Record(rows, day, item.section, item.root, Selected, Some(rank), STANDING_ANNUAL_CONTEXT_RATIONALE,
                STANDING_ANNUAL_CONTEXT_RULE)
  }

  function Ensured(rows: seq<Selection>, day: Day, evidence: seq<Evidence>): seq<Selection> {
    if evidence == [] then rows
    else
      var n := |evidence| - 1;
      EnsureOne(Ensured(rows, day, evidence[..n]), day, evidence[n], InSection(evidence, evidence[n].section))
  }

  class ContextRule {
    var rows: seq<Selection>

    constructor (rows: seq<Selection>)
      ensures this.rows == rows
    {
      this.rows := rows;
    }

    /** ensure_annual_context_selections. */
    method EnsureAnnualContextSelections(day: Day, evidence: seq<Evidence>) returns (count: nat)
      modifies this
      ensures rows == Ensured(old(rows), day, evidence) && count == |evidence|
    {
      var ranks: map<Section, nat> := map[];
      ghost var before := rows;
      for k := 0 to |evidence|
        invariant rows == Ensured(before, day, evidence[..k])
        invariant forall s :: (if s in ranks then ranks[s] else 0) == InSection(evidence[..k], s)
      {
        assert evidence[..k + 1][..k] == evidence[..k];
        var item := evidence[k];
        ranks := ranks[item.section := (if item.section in ranks then ranks[item.section] else 0) + 1];
        if LatestIndex(rows, day, item.section, item.root).Some? { continue; }
        rows := Record(rows, day, item.section, item.root, Selected, Some(ranks[item.section]),
                       STANDING_ANNUAL_CONTEXT_RATIONALE, STANDING_ANNUAL_CONTEXT_RULE);
      }
      assert evidence[..|evidence|] == evidence;
      count := |evidence|;
    }
  }

  /** A decision the standing rule made. */
  predicate ByTheRule(row: Selection) {
    row.status.Selected? && row.rank.Some? && row.reviewer == STANDING_ANNUAL_CONTEXT_RULE && !IsHuman(row.reviewer)
  }

  lemma TheRuleIsNoPerson()
    ensures !IsHuman(STANDING_ANNUAL_CONTEXT_RULE)
  {
    var identity := STANDING_ANNUAL_CONTEXT_RULE;
    assert identity[..|AUTOMATED_REVIEWER_PREFIX|] == AUTOMATED_REVIEWER_PREFIX;
    assert StripLeft(identity) == identity;
  }

  /** What one evidence row does to any key: a decided key keeps its decision, its own key is decided. */
  lemma OneDisplacesNothing(rows: seq<Selection>, day: Day, item: Evidence, rank: nat, d: Day, s: Section, r: Root)
    ensures var after := EnsureOne(rows, day, item, rank);
      && rows <= after && Latest(after, day, item.section, item.root).Some?
      && (Latest(rows, d, s, r).Some? ==> Latest(after, d, s, r) == Latest(rows, d, s, r))
      && (Latest(rows, d, s, r).None? && Latest(after, d, s, r).Some? ==>
            ByTheRule(Latest(after, d, s, r).value) && (d, s, r) == (day, item.section, item.root))
  {
    TheRuleIsNoPerson();
    RecordCurrent(rows, day, item.section, item.root, Selected, Some(rank), STANDING_ANNUAL_CONTEXT_RATIONALE,
                  STANDING_ANNUAL_CONTEXT_RULE);
  }

  /**
    However the rule is applied, a key anyone ever decided keeps exactly its decision, whoever made it and whatever
    it says; a key nobody decided is selected by the rule, and only if the page publishes it.
  */
  lemma {:induction false} TheRuleDisplacesNothing(rows: seq<Selection>, day: Day, evidence: seq<Evidence>, d: Day,
                                                   s: Section, r: Root)
    ensures var after := Ensured(rows, day, evidence);
      && rows <= after
      && (Latest(rows, d, s, r).Some? ==> Latest(after, d, s, r) == Latest(rows, d, s, r))
      && (Latest(rows, d, s, r).None? && Latest(after, d, s, r).Some? ==>
            ByTheRule(Latest(after, d, s, r).value) && d == day
            && exists item :: item in evidence && item.section == s && item.root == r)
  {
    if evidence != [] {
      var n := |evidence| - 1;
      assert evidence == evidence[..n] + [evidence[n]];
      TheRuleDisplacesNothing(rows, day, evidence[..n], d, s, r);
      OneDisplacesNothing(Ensured(rows, day, evidence[..n]), day, evidence[n],
                          InSection(evidence, evidence[n].section), d, s, r);
    }
  }

  /** Afterwards every published root of the date is decided. */
  lemma {:induction false} EveryRootIsDecided(rows: seq<Selection>, day: Day, evidence: seq<Evidence>, item: Evidence)
    requires item in evidence
    ensures Latest(Ensured(rows, day, evidence), day, item.section, item.root).Some?
  {
    var n := |evidence| - 1;
    var last := evidence[n];
    OneDisplacesNothing(Ensured(rows, day, evidence[..n]), day, last, InSection(evidence, last.section), day,
                        item.section, item.root);
    if item != last {
      assert evidence == evidence[..n] + [last];
      EveryRootIsDecided(rows, day, evidence[..n], item);
    }
  }

  /**
    Where every root is decided already, applying the rule writes nothing; so applying it twice is applying it
    once.
  */
  lemma {:induction false} DecidedRootsAreLeft(rows: seq<Selection>, day: Day, evidence: seq<Evidence>)
    requires forall item :: item in evidence ==> Latest(rows, day, item.section, item.root).Some?
    ensures Ensured(rows, day, evidence) == rows
  {
    if evidence != [] {
      var n := |evidence| - 1;
      assert evidence == evidence[..n] + [evidence[n]];
      DecidedRootsAreLeft(rows, day, evidence[..n]);
      assert evidence[n] in evidence;
    }
  }

  lemma TheRuleIsIdempotent(rows: seq<Selection>, day: Day, evidence: seq<Evidence>)
    ensures Ensured(Ensured(rows, day, evidence), day, evidence) == Ensured(rows, day, evidence)
  {
    forall item | item in evidence ensures Latest(Ensured(rows, day, evidence), day, item.section, item.root).Some? {
      EveryRootIsDecided(rows, day, evidence, item);
    }
    DecidedRootsAreLeft(Ensured(rows, day, evidence), day, evidence);
  }

  /** _root_declined_for_date: some root's current decision is anything but a selection. */
  method RootDeclinedForDate(rows: seq<Selection>, day: Day, evidence: seq<Evidence>) returns (declined: bool)
    ensures declined <==> exists item :: item in evidence && Declined(rows, day, item)
  {
    for k := 0 to |evidence|
      invariant forall i :: 0 <= i < k ==> !Declined(rows, day, evidence[i])
    {
      var latest := Latest(rows, day, evidence[k].section, evidence[k].root);
      if latest.Some? && !latest.value.status.Selected? {
        assert evidence[k] in evidence && Declined(rows, day, evidence[k]);
        return true;
      }
    }
    declined := false;
  }

  predicate Declined(rows: seq<Selection>, day: Day, item: Evidence) {
    var latest := Latest(rows, day, item.section, item.root);
    latest.Some? && !latest.value.status.Selected?
  }

  /** The rule never undoes a decline, and never declines. */
  lemma DeclinesStand(rows: seq<Selection>, day: Day, evidence: seq<Evidence>, item: Evidence)
    ensures Declined(Ensured(rows, day, evidence), day, item) <==> Declined(rows, day, item)
  {
    TheRuleDisplacesNothing(rows, day, evidence, day, item.section, item.root);
  }
}
