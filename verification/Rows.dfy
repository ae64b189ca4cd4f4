/** The publication tables, and the review metadata derived from them. */
module Rows {
  import opened Basics
  import opened Disk
  import opened Editorial

  datatype Status = Draft | Published | Withdrawn

  /** The featured decision a multi-event manifest bound itself to: a selection row and its version. */
  datatype Binding = Binding(selection: nat, version: nat)

  /** A publication_manifests row with its statement-evidence rows; its id is its position. */
  datatype Manifest = Manifest(
    day: Day, version: nat, status: Status, hash: Hash, supersedes: Option<nat>,
    tier: Tier, evidence: seq<Evidence>, featured: Option<Binding>)

  datatype ReviewStatus = AutomatedOnly | ReviewPending | HumanReviewed

  datatype QualityFloor = NotAssessed | Grade(letter: char)

  /** Governance records publication reads and never writes. */
  datatype Governance = Governance(
    openTasks: set<Root>,             // roots with an open review task on a claim they rest on
    grades: map<Root, seq<string>>,   // every quality assessment bearing on a root
    events: map<Root, set<nat>>,      // the events a root is identity, time or location provenance of
    identity: map<Root, nat>)         // the event a root is the identity of

  /** One coverage index row. */
  datatype Entry = Entry(
    manifest: nat, tier: Tier, review: ReviewStatus, floor: QualityFloor,
    hasRecordedEvent: bool, sections: map<Section, nat>)

  /** events_behind_manifest: the events a manifest's recorded section rests on. */
  function EventsBehind(gov: Governance, evidence: seq<Evidence>): (found: set<nat>)
    ensures forall e :: e in found <==>
      exists i :: 0 <= i < |evidence| && RecordsEvent(gov, evidence[i], e)
  {
    if evidence == [] then {}
    else
      var last := evidence[|evidence| - 1];
      var before := EventsBehind(gov, evidence[..|evidence| - 1]);
      if last.section.RecordedOnThisDate? && last.root.Resolved? && last.root in gov.events
      then before + gov.events[last.root]
      else before
  }

  predicate RecordsEvent(gov: Governance, item: Evidence, event: nat) {
    && item.section.RecordedOnThisDate? && item.root.Resolved?
    && item.root in gov.events && event in gov.events[item.root]
  }

  /** Whether a person chose this version's headline, read from the row the manifest bound. */
  predicate FeaturedDecisionIsHuman(gov: Governance, selections: seq<Selection>, m: Manifest) {
    && m.featured.Some?
    && m.featured.value.selection < |selections|
    && var bound := selections[m.featured.value.selection];
    && bound.version == m.featured.value.version
    && bound.status.Selected? && bound.section.FeaturedEvent?
    && bound.root in gov.identity && gov.identity[bound.root] in EventsBehind(gov, m.evidence)
    && IsHuman(bound.reviewer)
  }

  predicate HumanSelected(selections: seq<Selection>, day: Day, item: Evidence) {
    var decision := Latest(selections, day, item.section, item.root);
    decision.Some? && decision.value.status.Selected? && IsHuman(decision.value.reviewer)
  }

  /** derive_review_status. */
  function DeriveReviewStatus(gov: Governance, selections: seq<Selection>, m: Manifest): ReviewStatus {
    if m.evidence == [] then AutomatedOnly
    else if exists item :: item in m.evidence && item.root in gov.openTasks then ReviewPending
    else if exists item :: item in m.evidence && !HumanSelected(selections, m.day, item) then AutomatedOnly
    else if |EventsBehind(gov, m.evidence)| > 1 && !FeaturedDecisionIsHuman(gov, selections, m) then AutomatedOnly
    else HumanReviewed
  }

  function Grades(gov: Governance, evidence: seq<Evidence>): seq<string> {
    if evidence == [] then []
    else (if evidence[0].root in gov.grades then gov.grades[evidence[0].root] else []) + Grades(gov, evidence[1..])
  }

  /** Weakest first; None for a grade outside the ranking. */
  function GradeRank(grade: string): (rank: Option<nat>)
    ensures rank.Some? ==> rank.value <= 3
  {
    if grade == "D" then Some(0) else if grade == "C" then Some(1)
    else if grade == "B" then Some(2) else if grade == "A" then Some(3) else None
  }

  /** The weakest rank of a non-empty list of grades, or None when any is unrankable. */
  function WeakestRank(grades: seq<string>): (weakest: Option<nat>)
    requires grades != []
    ensures weakest.None? <==> exists g :: g in grades && GradeRank(g).None?
    ensures weakest.Some? ==> forall g :: g in grades ==> GradeRank(g).Some? && weakest.value <= GradeRank(g).value
    ensures weakest.Some? ==> exists g :: g in grades && GradeRank(g) == weakest
  {
    var first := GradeRank(grades[0]);
    if |grades| == 1 then first
    else
      assert grades == [grades[0]] + grades[1..];
      var rest := WeakestRank(grades[1..]);
      if first.None? || rest.None? then None
      else if first.value <= rest.value then first else rest
  }

  /** derive_quality_floor: the weakest letter, or not_assessed when any grade cannot be ranked. */
  function DeriveQualityFloor(gov: Governance, m: Manifest): QualityFloor {
    var grades := Grades(gov, m.evidence);
    if grades == [] then NotAssessed
    else
      var weakest := WeakestRank(grades);
      if weakest.None? then NotAssessed
      else Grade(if weakest.value == 0 then 'D' else if weakest.value == 1 then 'C'
                 else if weakest.value == 2 then 'B' else 'A')
  }

  function SectionCounts(evidence: seq<Evidence>): map<Section, nat> {
    map s | s in {RecordedOnThisDate, TypicalDayInThisYear, WiderHistoricalContext, CuratedClaims,
                  DerivedComparisons, WonderAndProgress, EvidenceNotes} :: CountIn(evidence, s)
  }

  function CountIn(evidence: seq<Evidence>, section: Section): nat {
    if evidence == [] then 0
    else (if evidence[0].section == section then 1 else 0) + CountIn(evidence[1..], section)
  }

  /** The index row upsert_coverage_entry computes for a manifest; nothing in it is a parameter. */
  function Derive(gov: Governance, selections: seq<Selection>, id: nat, m: Manifest): Entry {
    Entry(id, m.tier, DeriveReviewStatus(gov, selections, m), DeriveQualityFloor(gov, m),
          CountIn(m.evidence, RecordedOnThisDate) > 0, SectionCounts(m.evidence))
  }

  /** A decision about another date leaves this date's derived row alone. */
  lemma DeriveFrame(gov: Governance, selections: seq<Selection>, more: seq<Selection>, id: nat, m: Manifest)
    requires selections <= more
    requires m.featured.Some? ==> m.featured.value.selection < |selections|
    requires forall s, r :: Latest(more, m.day, s, r) == Latest(selections, m.day, s, r)
    ensures Derive(gov, more, id, m) == Derive(gov, selections, id, m)
  {
    assert forall item :: item in m.evidence ==>
      HumanSelected(more, m.day, item) == HumanSelected(selections, m.day, item);
    assert more == selections + more[|selections|..];
    HeadlineReviewIsFrozen(gov, selections, more[|selections|..], m);
  }

  /** An immutable artifact cannot borrow a headline decision recorded after it was published. */
  lemma HeadlineReviewIsFrozen(gov: Governance, selections: seq<Selection>, later: seq<Selection>, m: Manifest)
    requires m.featured.Some? ==> m.featured.value.selection < |selections|
    ensures FeaturedDecisionIsHuman(gov, selections + later, m) == FeaturedDecisionIsHuman(gov, selections, m)
  {
  }

  /** Some evidence row's root has been assessed with this grade. */
  predicate GradedWith(gov: Governance, evidence: seq<Evidence>, grade: string) {
    exists i :: 0 <= i < |evidence| && evidence[i].root in gov.grades && grade in gov.grades[evidence[i].root]
  }

  lemma {:induction false} GradesAreTheRoots(gov: Governance, evidence: seq<Evidence>, grade: string)
    ensures grade in Grades(gov, evidence) <==> GradedWith(gov, evidence, grade)
  {
    if evidence != [] {
      GradesAreTheRoots(gov, evidence[1..], grade);
      if i :| 0 <= i < |evidence[1..]| && evidence[1..][i].root in gov.grades
              && grade in gov.grades[evidence[1..][i].root] {
        assert evidence[i + 1] == evidence[1..][i];
      }
      if i :| 0 < i < |evidence| && evidence[i].root in gov.grades && grade in gov.grades[evidence[i].root] {
        assert evidence[1..][i - 1] == evidence[i];
      }
    }
  }

  /** The letter is some root's grade, and none of any root's grades ranks below it. */
  predicate IsWeakest(gov: Governance, evidence: seq<Evidence>, letter: char) {
    && GradedWith(gov, evidence, [letter])
    && forall item, g :: item in evidence && item.root in gov.grades && g in gov.grades[item.root] ==>
         NotBelow(g, [letter])
  }

  predicate NotBelow(grade: string, weakest: string) {
    GradeRank(grade).Some? && GradeRank(weakest).Some? && GradeRank(weakest).value <= GradeRank(grade).value
  }

  /**
    A letter is reported exactly when some evidence row's root has a grade and every grade of every evidence row's root
    ranks; it is then the weakest of them.
  */
  lemma QualityFloorIsWeakest(gov: Governance, m: Manifest)
    ensures DeriveQualityFloor(gov, m).Grade? <==>
      && (exists g :: GradedWith(gov, m.evidence, g))
      && forall item, g :: item in m.evidence && item.root in gov.grades && g in gov.grades[item.root] ==>
           GradeRank(g).Some?
    ensures DeriveQualityFloor(gov, m).Grade? ==> IsWeakest(gov, m.evidence, DeriveQualityFloor(gov, m).letter)
  {
    var grades := Grades(gov, m.evidence);
    forall g ensures g in grades <==> GradedWith(gov, m.evidence, g) { GradesAreTheRoots(gov, m.evidence, g); }
    if grades != [] { assert GradedWith(gov, m.evidence, grades[0]); }
    forall item, g | item in m.evidence && item.root in gov.grades && g in gov.grades[item.root] ensures g in grades {
      var i :| 0 <= i < |m.evidence| && m.evidence[i] == item;
    }
  }
}
