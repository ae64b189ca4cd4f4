/** Review status and quality floor, as they are computed, and what they promise a reader. */
module ReviewMetadata {
  import opened Basics
  import opened Editorial
  import opened Rows
  import opened Sorting

  /** The decision log's own constraint: a key's versions are distinct. */
  predicate VersionsDistinct(selections: seq<Selection>) {
    forall i, j :: 0 <= i < j < |selections| && SameKey(selections[i], selections[j]) ==>
      selections[i].version != selections[j].version
  }

  predicate SameKey(a: Selection, b: Selection) {
    Concerns(a, b.day, b.section, b.root)
  }

  /** This row is the current decision for its key. */
  predicate IsCurrent(selections: seq<Selection>, row: Selection) {
    row in selections && forall other :: other in selections && SameKey(other, row) ==> other.version <= row.version
  }

  /** A person selected this statement's root for this section, and nothing newer says otherwise. */
  predicate DecidedByAPerson(selections: seq<Selection>, day: Day, item: Evidence) {
    exists row :: row in selections && Concerns(row, day, item.section, item.root) && IsCurrent(selections, row)
               && row.status.Selected? && IsHuman(row.reviewer)
  }

  /** The page is bound to a row, as it was, by which a person selected the identity root of one of its events. */
  ghost predicate APersonLeadsIt(gov: Governance, selections: seq<Selection>, m: Manifest) {
    exists i: nat :: i < |selections| && m.featured == Some(Binding(i, selections[i].version))
                  && PickedByAPerson(gov, selections[i], EventsBehind(gov, m.evidence))
  }

  ghost predicate PickedByAPerson(gov: Governance, row: Selection, events: set<nat>) {
    && row.section.FeaturedEvent? && row.status.Selected? && IsHuman(row.reviewer)
    && exists e :: e in events && row.root in gov.identity && gov.identity[row.root] == e
  }

  lemma CurrentIsLatest(selections: seq<Selection>, row: Selection)
    requires VersionsDistinct(selections) && IsCurrent(selections, row)
    ensures Latest(selections, row.day, row.section, row.root) == Some(row)
  {
    var i :| 0 <= i < |selections| && selections[i] == row;
    var at := LatestIndex(selections, row.day, row.section, row.root);
    assert Concerns(selections[i], row.day, row.section, row.root);
    assert selections[at.value] in selections && SameKey(selections[at.value], row);
    if at.value < i { assert SameKey(selections[at.value], selections[i]); }
    if i < at.value { assert SameKey(selections[i], selections[at.value]); }
  }

  lemma LatestIsCurrent(selections: seq<Selection>, day: Day, section: Section, root: Root)
    ensures var latest := Latest(selections, day, section, root);
      latest.Some? ==> IsCurrent(selections, latest.value) && Concerns(latest.value, day, section, root)
  {
    var at := LatestIndex(selections, day, section, root);
    if at.Some? {
      forall other | other in selections && SameKey(other, selections[at.value])
        ensures other.version <= selections[at.value].version
      {
        var j :| 0 <= j < |selections| && selections[j] == other;
      }
    }
  }

  /**
    A page is human_reviewed exactly when it publishes something, nothing it rests on is under open review, a person's
    selection is the current decision on every statement's root in its own section, and, when several events
    stand behind it, a person chose the one it is bound to lead with.
  */
  lemma HumanReviewedMeans(gov: Governance, selections: seq<Selection>, m: Manifest)
    requires VersionsDistinct(selections)
    ensures DeriveReviewStatus(gov, selections, m).HumanReviewed? <==>
      && m.evidence != []
      && (forall item :: item in m.evidence ==>
           item.root !in gov.openTasks && DecidedByAPerson(selections, m.day, item))
      && (|EventsBehind(gov, m.evidence)| > 1 ==> APersonLeadsIt(gov, selections, m))
    ensures DeriveReviewStatus(gov, selections, m).ReviewPending? <==>
      exists item :: item in m.evidence && item.root in gov.openTasks
  {
    LeadIsHuman(gov, selections, m);
    forall item | item in m.evidence
      ensures HumanSelected(selections, m.day, item) <==> DecidedByAPerson(selections, m.day, item)
    {
      LatestIsCurrent(selections, m.day, item.section, item.root);
      if row :| row in selections && Concerns(row, m.day, item.section, item.root) && IsCurrent(selections, row)
                && row.status.Selected? && IsHuman(row.reviewer) {
        CurrentIsLatest(selections, row);
      }
    }
  }

  lemma LeadIsHuman(gov: Governance, selections: seq<Selection>, m: Manifest)
    ensures FeaturedDecisionIsHuman(gov, selections, m) <==> APersonLeadsIt(gov, selections, m)
  {
    if FeaturedDecisionIsHuman(gov, selections, m) {
      assert PickedByAPerson(gov, selections[m.featured.value.selection], EventsBehind(gov, m.evidence));
    }
  }

  // ---- As they are computed --------------------------------------------------------------

  predicate NewerFirst(a: Selection, b: Selection) {
    a.version >= b.version
  }

  function NewestFirst(selections: seq<Selection>): seq<Selection> {
    Sort(selections, (a, b) => NewerFirst(a, b))
  }

  lemma NewestOrders(selections: seq<Selection>)
    ensures multiset(NewestFirst(selections)) == multiset(selections)
    ensures forall i, j :: 0 <= i < j < |NewestFirst(selections)| ==>
      NewestFirst(selections)[i].version >= NewestFirst(selections)[j].version
  {
    var leq := (a: Selection, b: Selection) => NewerFirst(a, b);
    assert TotalPreorder(leq);
    SortIsSorted(selections, leq);
    forall i, j | 0 <= i < j < |NewestFirst(selections)|
      ensures NewestFirst(selections)[i].version >= NewestFirst(selections)[j].version
    {
      assert leq(NewestFirst(selections)[i], NewestFirst(selections)[j]);
    }
  }

  type Key = (Section, Root)

  /** A date's decisions, newest first: the first seen for a key is its current one. */
  method LatestDecisions(selections: seq<Selection>, day: Day) returns (latest: map<Key, Selection>)
    requires VersionsDistinct(selections)
    ensures forall key: Key :: key in latest <==> Latest(selections, day, key.0, key.1).Some?
    ensures forall key: Key :: key in latest ==> Some(latest[key]) == Latest(selections, day, key.0, key.1)
  {
    latest := map[];
    var rows := NewestFirst(selections);
    NewestOrders(selections);
    for k := 0 to |rows|
      invariant forall key: Key :: key in latest <==> exists i :: 0 <= i < k && Concerns(rows[i], day, key.0, key.1)
      invariant forall key: Key :: key in latest ==> FirstFor(rows, day, key, latest[key])
    {
      var row := rows[k];
      if row.day == day && (row.section, row.root) !in latest {
        latest := latest[(row.section, row.root) := row];
      }
    }
    forall key: Key ensures (key in latest <==> Latest(selections, day, key.0, key.1).Some?)
                         && (key in latest ==> Some(latest[key]) == Latest(selections, day, key.0, key.1)) {
      FirstIsLatest(selections, rows, day, key, latest);
    }
  }

  /** The first row of this key in the ordered log. */
  predicate FirstFor(rows: seq<Selection>, day: Day, key: Key, row: Selection) {
    exists i :: 0 <= i < |rows| && rows[i] == row && Concerns(row, day, key.0, key.1)
             && forall j :: 0 <= j < i ==> !Concerns(rows[j], day, key.0, key.1)
  }

  lemma FirstIsLatest(selections: seq<Selection>, rows: seq<Selection>, day: Day, key: Key, latest: map<Key, Selection>)
    requires VersionsDistinct(selections) && multiset(rows) == multiset(selections)
    requires forall i, j :: 0 <= i < j < |rows| ==> rows[i].version >= rows[j].version
    requires key in latest <==> exists i :: 0 <= i < |rows| && Concerns(rows[i], day, key.0, key.1)
    requires key in latest ==> FirstFor(rows, day, key, latest[key])
    ensures key in latest <==> Latest(selections, day, key.0, key.1).Some?
    ensures key in latest ==> Some(latest[key]) == Latest(selections, day, key.0, key.1)
  {
    if key in latest {
      var i :| 0 <= i < |rows| && rows[i] == latest[key] && Concerns(rows[i], day, key.0, key.1)
            && forall j :: 0 <= j < i ==> !Concerns(rows[j], day, key.0, key.1);
      assert rows[i] in multiset(selections);
      forall other | other in selections && SameKey(other, rows[i]) ensures other.version <= rows[i].version {
        assert other in multiset(rows);
        var j :| 0 <= j < |rows| && rows[j] == other;
        assert j >= i;
      }
      CurrentIsLatest(selections, rows[i]);
    }
    LatestIsSeen(selections, rows, day, key);
  }

  lemma LatestIsSeen(selections: seq<Selection>, rows: seq<Selection>, day: Day, key: Key)
    requires multiset(rows) == multiset(selections)
    ensures Latest(selections, day, key.0, key.1).Some? ==>
      exists i :: 0 <= i < |rows| && Concerns(rows[i], day, key.0, key.1)
  {
    var at := LatestIndex(selections, day, key.0, key.1);
    if at.Some? {
      assert selections[at.value] in multiset(rows);
      var j :| 0 <= j < |rows| && rows[j] == selections[at.value];
      assert Concerns(rows[j], day, key.0, key.1);
    }
  }

  /** derive_review_status. */
  method ReviewStatusOf(gov: Governance, selections: seq<Selection>, m: Manifest) returns (status: ReviewStatus)
    requires VersionsDistinct(selections)
    ensures status == DeriveReviewStatus(gov, selections, m)
  {
    if m.evidence == [] { return AutomatedOnly; }
    if exists item :: item in m.evidence && item.root in gov.openTasks { return ReviewPending; }
    var human := AllHumanSelected(selections, m);
    if !human { return AutomatedOnly; }
    if |EventsBehind(gov, m.evidence)| > 1 && !FeaturedDecisionIsHuman(gov, selections, m) { return AutomatedOnly; }
    status := HumanReviewed;
  }

  /** A person's current selection stands behind every published statement. */
  method AllHumanSelected(selections: seq<Selection>, m: Manifest) returns (all: bool)
    requires VersionsDistinct(selections)
    ensures all <==> forall item :: item in m.evidence ==> HumanSelected(selections, m.day, item)
  {
    var latest := LatestDecisions(selections, m.day);
    for k := 0 to |m.evidence|
      invariant forall i :: 0 <= i < k ==> HumanSelected(selections, m.day, m.evidence[i])
    {
      var key := (m.evidence[k].section, m.evidence[k].root);
      if key !in latest || !latest[key].status.Selected? || !IsHuman(latest[key].reviewer) {
        assert m.evidence[k] in m.evidence && !HumanSelected(selections, m.day, m.evidence[k]);
        return false;
      }
    }
    all := true;
  }

  /** derive_quality_floor. */
  method QualityFloorOf(gov: Governance, m: Manifest) returns (floor: QualityFloor)
    ensures floor == DeriveQualityFloor(gov, m)
    ensures floor.Grade? ==> IsWeakest(gov, m.evidence, floor.letter)
    ensures floor.NotAssessed? <==>
      || (forall g :: !GradedWith(gov, m.evidence, g))
      || exists g :: GradedWith(gov, m.evidence, g) && GradeRank(g).None?
  {
    QualityFloorIsWeakest(gov, m);
    var grades := Grades(gov, m.evidence);
    if grades == [] { return NotAssessed; }
    var weakest: nat := 3;
    ghost var at := 0;
    for k := 0 to |grades|
      invariant weakest <= 3 && (k == 0 ==> weakest == 3)
      invariant forall i :: 0 <= i < k ==> GradeRank(grades[i]).Some? && weakest <= GradeRank(grades[i]).value
      invariant k > 0 ==> at < k && GradeRank(grades[at]) == Some(weakest)
    {
      var rank := GradeRank(grades[k]);
      if rank.None? {
        assert grades[k] in grades;
        return NotAssessed;
      }
      if rank.value <= weakest { weakest, at := rank.value, k; }
    }
    assert forall g :: g in grades ==> GradeRank(g).Some?;
    var found := WeakestRank(grades).value;
    assert grades[at] in grades;
    assert found <= weakest <= found;
    floor := Grade(if weakest == 0 then 'D' else if weakest == 1 then 'C' else if weakest == 2 then 'B' else 'A');
  }
}
