/** A year's conflict count ranked among the years on record, the sentence that says so, and its check. */
module Comparison {
  import opened Basics
  import opened Sorting
  import opened Prose
  import opened Wording
  import D = DailyEquivalent

  // ---- Rank and median -------------------------------------------------------------------

  function Below(cohort: seq<int>, value: int): nat {
    if cohort == [] then 0 else Below(cohort[..|cohort| - 1], value) + if cohort[|cohort| - 1] < value then 1 else 0
  }

  function Above(cohort: seq<int>, value: int): nat {
    if cohort == [] then 0 else Above(cohort[..|cohort| - 1], value) + if cohort[|cohort| - 1] > value then 1 else 0
  }

  function Rank(cohort: seq<int>, value: int): nat
    requires cohort != []
  {
    WholePercent(Below(cohort, value), |cohort|)
  }

  function WholePercent(part: nat, whole: nat): nat
    requires whole > 0
  {
    part * 100 / whole
  }

  /** percentile_rank: None stands for the refusal of an empty cohort. */
  method PercentileRank(value: int, cohort: seq<int>) returns (rank: Option<nat>)
    ensures rank == if cohort == [] then None else Some(Rank(cohort, value))
  {
    if cohort == [] { return None; }
    var strictlyLower := 0;
    for k := 0 to |cohort|
      invariant strictlyLower == Below(cohort[..k], value)
    {
      assert cohort[..k + 1][..k] == cohort[..k];
      if cohort[k] < value { strictlyLower := strictlyLower + 1; }
    }
    assert cohort[..|cohort|] == cohort;
    rank := Some(WholePercent(strictlyLower, |cohort|));
  }

  lemma {:induction false} BelowCounts(cohort: seq<int>, value: int)
    ensures Below(cohort, value) <= |cohort|
    ensures value in cohort ==> Below(cohort, value) < |cohort|
  {
    if cohort != [] {
      assert cohort == cohort[..|cohort| - 1] + [cohort[|cohort| - 1]];
      BelowCounts(cohort[..|cohort| - 1], value);
    }
  }

  lemma {:induction false} BelowGrows(cohort: seq<int>, value: int, other: int)
    requires value <= other
    ensures Below(cohort, value) <= Below(cohort, other)
  {
    if cohort != [] { BelowGrows(cohort[..|cohort| - 1], value, other); }
  }

  lemma Product(a: nat, b: nat, c: nat)
    requires a <= b
    ensures a * c <= b * c
  {
  }

  lemma QuotientBelow(n: nat, whole: nat, bound: nat)
    requires whole > 0 && n < bound * whole
    ensures n / whole < bound
  {
    var q := n / whole;
    assert n == q * whole + n % whole;
    if q >= bound { Product(bound, q, whole); }
  }

  lemma FloorOf(part: nat, whole: nat)
    requires whole > 0
    ensures part * 100 / whole * whole <= part * 100 < (part * 100 / whole + 1) * whole
    ensures part < whole ==> part * 100 / whole <= 99
  {
    var n, q := part * 100, part * 100 / whole;
    assert n == q * whole + n % whole;
    if part < whole { QuotientBelow(n, whole, 100); }
  }

  /**
    "Higher than r% of N years" is true of the cohort and would be false of r + 1; a year of the cohort never
    reaches 100; and a larger count never ranks lower, so equal counts share a rank.
  */
  lemma RankIsTheFloor(cohort: seq<int>, value: int, other: int)
    requires cohort != []
    ensures Rank(cohort, value) * |cohort| <= Below(cohort, value) * 100 < (Rank(cohort, value) + 1) * |cohort|
    ensures value in cohort ==> Rank(cohort, value) <= 99
    ensures value <= other ==> Rank(cohort, value) <= Rank(cohort, other)
  {
    BelowCounts(cohort, value);
    FloorOf(Below(cohort, value), |cohort|);
    if value <= other {
      BelowGrows(cohort, value, other);
      FloorGrows(Below(cohort, value) * 100, Below(cohort, other) * 100, |cohort|);
    }
  }

  lemma FloorGrows(a: nat, b: nat, whole: nat)
    requires a <= b && whole > 0
    ensures a / whole <= b / whole
  {
    assert b == b / whole * whole + b % whole;
    assert b < (b / whole + 1) * whole;
    QuotientBelow(a, whole, b / whole + 1);
  }

  predicate AtMostInt(a: int, b: int) {
    a <= b
  }

  /** discrete_median: the lower of the two central values. */
  function DiscreteMedian(values: seq<int>): Option<int> {
    if values == [] then None
    else
      IntsAreOrdered();
      SortIsSorted(values, (a, b) => AtMostInt(a, b));
      Some(Sort(values, (a, b) => AtMostInt(a, b))[(|values| - 1) / 2])
  }

  lemma IntsAreOrdered()
    ensures TotalPreorder((a: int, b: int) => AtMostInt(a, b))
  {
  }

  lemma {:induction false} BelowSorted(sorted: seq<int>, k: nat)
    requires k < |sorted| && forall i, j :: 0 <= i < j < |sorted| ==> sorted[i] <= sorted[j]
    ensures Below(sorted, sorted[k]) <= k && Above(sorted, sorted[k]) <= |sorted| - 1 - k
  {
    var n := |sorted| - 1;
    if k < n {
      BelowSorted(sorted[..n], k);
    } else {
      NoneAbove(sorted, sorted[k]);
      BelowCounts(sorted[..n], sorted[k]);
    }
  }

  lemma {:induction false} NoneAbove(sorted: seq<int>, value: int)
    requires forall i :: 0 <= i < |sorted| ==> sorted[i] <= value
    ensures Above(sorted, value) == 0
  {
    if sorted != [] { NoneAbove(sorted[..|sorted| - 1], value); }
  }

  lemma {:induction false} CountsPermute(a: seq<int>, b: seq<int>, value: int)
    requires multiset(a) == multiset(b)
    ensures Below(a, value) == Below(b, value) && Above(a, value) == Above(b, value)
  {
    if a == [] {
      assert |multiset(b)| == 0;
    } else {
      var n := |a| - 1;
      assert a[n] in multiset(b);
      var k :| 0 <= k < |b| && b[k] == a[n];
      RemoveAt(a, n);
      RemoveAt(b, k);
      assert a[..n] + a[n + 1..] == a[..n];
      CountsPermute(a[..n], b[..k] + b[k + 1..], value);
      CountsWithout(b, k, value);
    }
  }

  lemma {:induction false} CountsWithout(b: seq<int>, k: nat, value: int)
    requires k < |b|
    ensures Below(b, value) == Below(b[..k] + b[k + 1..], value) + if b[k] < value then 1 else 0
    ensures Above(b, value) == Above(b[..k] + b[k + 1..], value) + if b[k] > value then 1 else 0
  {
    var n := |b| - 1;
    if k < n {
      CountsWithout(b[..n], k, value);
      assert (b[..k] + b[k + 1..])[..n - 1] == b[..n][..k] + b[..n][k + 1..];
    } else {
      assert b[..k] + b[k + 1..] == b[..n];
    }
  }

  /**
    The median is a value some year recorded, with fewer than half the years below it and at most half above: of two
    central values, the lower.
  */
  lemma MedianIsRecorded(values: seq<int>)
    requires values != []
    ensures var m := DiscreteMedian(values).value;
      m in values && Below(values, m) * 2 < |values| && Above(values, m) * 2 <= |values|
  {
    var leq := (a: int, b: int) => AtMostInt(a, b);
    IntsAreOrdered();
    SortIsSorted(values, leq);
    var sorted, k := Sort(values, leq), (|values| - 1) / 2;
    forall i, j | 0 <= i < j < |sorted| ensures sorted[i] <= sorted[j] { assert leq(sorted[i], sorted[j]); }
    BelowSorted(sorted, k);
    CountsPermute(values, sorted, sorted[k]);
    assert sorted[k] in multiset(values);
  }

  // ---- The cohort ------------------------------------------------------------------------

  const MINIMUM_REFERENCE_YEARS := 20

  /** One derived conflict count; a release's are read newest first. */
  datatype Derived = Derived(year: nat, count: Option<int>)

  /** reference_cohort: each year's newest count that has a value. */
  method ReferenceCohort(derived: seq<Derived>) returns (cohort: map<nat, int>)
    ensures forall y :: y in cohort <==> NewestCount(derived, y).Some?
    ensures forall y :: y in cohort ==> cohort[y] == NewestCount(derived, y).value
  {
    cohort := map[];
    for k := 0 to |derived|
      invariant forall y :: y in cohort <==> NewestCount(derived[..k], y).Some?
      invariant forall y :: y in cohort ==> cohort[y] == NewestCount(derived[..k], y).value
    {
      assert derived[..k + 1][..k] == derived[..k];
      if derived[k].year !in cohort && derived[k].count.Some? {
        cohort := cohort[derived[k].year := derived[k].count.value];
      }
    }
    assert derived[..|derived|] == derived;
  }

  function NewestCount(derived: seq<Derived>, year: nat): Option<int> {
    if derived == [] then None
    else
      var n := |derived| - 1;
      var before := NewestCount(derived[..n], year);
      if before.None? && derived[n].year == year then derived[n].count else before
  }

  /** _conflict_count_for: the year's newest row, whether or not it has a value. */
  function SubjectRow(derived: seq<Derived>, year: nat): Option<Derived> {
    if derived == [] then None
    else
      var n := |derived| - 1;
      var before := SubjectRow(derived[..n], year);
      if before.None? && derived[n].year == year then Some(derived[n]) else before
  }

  lemma {:induction false} SubjectIsInTheCohort(derived: seq<Derived>, year: nat)
    ensures var row := SubjectRow(derived, year);
      && (row.Some? && row.value.count.Some? ==> NewestCount(derived, year) == row.value.count)
      && (row.None? ==> NewestCount(derived, year).None?)
  {
    if derived != [] { SubjectIsInTheCohort(derived[..|derived| - 1], year); }
  }

  function CountsOf(cohort: map<nat, int>, years: seq<nat>): seq<int>
    requires forall i :: 0 <= i < |years| ==> years[i] in cohort
  {
    seq(|years|, i requires 0 <= i < |years| => cohort[years[i]])
  }

  datatype Ranking = Ranking(count: int, rank: nat, size: nat, first: nat, last: nat)

  /** A derived comparison; its fingerprint determines the cohort it was computed from. */
  datatype ComparisonRow = ComparisonRow(year: nat, cohort: map<nat, int>, ranking: Ranking, median: int)

  /** The counts of a cohort, its years in some order. */
  ghost predicate ListsCohort(counts: seq<int>, years: seq<nat>, cohort: map<nat, int>) {
    && |counts| == |years| && (forall y :: y in years <==> y in cohort)
    && (forall i, j :: 0 <= i < j < |years| ==> years[i] != years[j])
    && forall i :: 0 <= i < |years| ==> years[i] in cohort && counts[i] == cohort[years[i]]
  }

  /** A comparison says what its own cohort supports. */
  ghost predicate ComparisonOk(row: ComparisonRow) {
    && row.year in row.cohort && row.ranking.count == row.cohort[row.year]
    && row.ranking.size >= 20 && row.ranking.rank <= 99
    && row.ranking.first in row.cohort && row.ranking.last in row.cohort
    && (forall y :: y in row.cohort ==> row.ranking.first <= y <= row.ranking.last)
    && exists counts, years :: Supports(counts, years, row)
  }

  ghost predicate Supports(counts: seq<int>, years: seq<nat>, row: ComparisonRow) {
    && ListsCohort(counts, years, row.cohort) && counts != [] && row.ranking.size == |counts|
    && row.ranking.rank == Rank(counts, row.ranking.count) && DiscreteMedian(counts) == Some(row.median)
  }

  /** The year's latest comparison. */
  function NewestRow(table: seq<ComparisonRow>, year: nat): Option<ComparisonRow> {
    if table == [] then None
    else if table[|table| - 1].year == year then Some(table[|table| - 1])
    else NewestRow(table[..|table| - 1], year)
  }

  lemma {:induction false} NewestRowIsOk(table: seq<ComparisonRow>, year: nat)
    requires forall i :: 0 <= i < |table| ==> ComparisonOk(table[i])
    ensures NewestRow(table, year).Some? ==>
      ComparisonOk(NewestRow(table, year).value) && NewestRow(table, year).value.year == year
  {
    if table != [] && table[|table| - 1].year != year { NewestRowIsOk(table[..|table| - 1], year); }
  }

  /** The year can be compared: it has a count, and enough years do. */
  predicate Comparable(derived: seq<Derived>, year: nat, size: nat) {
    var subject := SubjectRow(derived, year);
    subject.Some? && subject.value.count.Some? && size >= 20
  }

  /**
    derive_conflict_comparison, on the comparisons recorded so far: None unless the year can be compared; the year's
    latest comparison when it was computed from this very cohort; otherwise a new one, so that asking again adds none.
  */
  method DeriveComparison(table: seq<ComparisonRow>, derived: seq<Derived>, years: seq<nat>, year: nat)
      returns (r: Option<ComparisonRow>, after: seq<ComparisonRow>)
    requires forall y :: y in years <==> NewestCount(derived, y).Some?
    requires forall i, j :: 0 <= i < j < |years| ==> years[i] != years[j]
    requires forall i :: 0 <= i < |table| ==> ComparisonOk(table[i])
    ensures r.Some? <==> Comparable(derived, year, |years|)
    ensures after == table || (r.Some? && after == table + [r.value])
    ensures r.Some? ==> ComparisonOk(r.value) && r.value.year == year && NewestRow(after, year) == r
    ensures r.Some? ==> r.value.cohort.Keys == set y | y in years
    ensures r.Some? ==> forall y :: y in years ==> Some(r.value.cohort[y]) == NewestCount(derived, y)
    ensures r.Some? && NewestRow(table, year).Some? && NewestRow(table, year).value.cohort == r.value.cohort ==>
      after == table
  {
    after := table;
    var subject := SubjectRow(derived, year);
    SubjectIsInTheCohort(derived, year);
    if subject.None? || subject.value.count.None? { return None, after; }
    var cohort := ReferenceCohort(derived);
    if year !in cohort || |years| < MINIMUM_REFERENCE_YEARS { return None, after; }
    assert cohort.Keys == (set y | y in years);
    var existing := NewestRow(table, year);
    NewestRowIsOk(table, year);
    if existing.Some? && existing.value.cohort == cohort { return existing, after; }
    var row := NewComparison(cohort, years, year);
    after := table + [row];
    assert after[..|table|] == table;
    r := Some(row);
  }

  method NewComparison(cohort: map<nat, int>, years: seq<nat>, year: nat) returns (row: ComparisonRow)
    requires year in cohort && |years| >= MINIMUM_REFERENCE_YEARS && forall y :: y in years <==> y in cohort
    requires forall i, j :: 0 <= i < j < |years| ==> years[i] != years[j]
    ensures ComparisonOk(row) && row.year == year && row.cohort == cohort
  {
    var counts := CountsOf(cohort, years);
    var at :| 0 <= at < |years| && years[at] == year;
    assert counts[at] == cohort[year];
    var rank := PercentileRank(cohort[year], counts);
    RankIsTheFloor(counts, cohort[year], cohort[year]);
    var first, last := Extremes(years);
    row := ComparisonRow(year, cohort, Ranking(cohort[year], rank.value, |years|, first, last),
                         DiscreteMedian(counts).value);
    assert Supports(counts, years, row);
  }

  method Extremes(years: seq<nat>) returns (first: nat, last: nat)
    requires years != []
    ensures first in years && last in years && forall y :: y in years ==> first <= y <= last
  {
    first, last := years[0], years[0];
    for k := 1 to |years|
      invariant first in years && last in years && forall i :: 0 <= i < k ==> first <= years[i] <= last
    {
      if years[k] < first { first := years[k]; }
      if years[k] > last { last := years[k]; }
    }
  }

  // ---- The sentence ----------------------------------------------------------------------

  const SCALE_DISCLAIMER := "This comparison " + "describes the year" + ", not this " + "specific day."

  function BeforeRank(count: nat): string {
    "The selected date " + "occurred during " + "a year with " + Digits(count) +
        (" active state-based " + "conflicts, ranking ")
  }

  function AfterYears(first: nat, last: nat): string {
    " (" + Digits(first) + "\U{2013}" + Digits(last) + "). " + SCALE_DISCLAIMER
  }

  /** _sentence. */
  function Sentence(count: nat, r: Ranking): string {
    BeforeRank(count) + "higher than " + (Digits(r.rank) + RestOfRank(r.size, AfterYears(r.first, r.last)))
  }

  // ---- The check -------------------------------------------------------------------------

  datatype ComparisonIssue =
    | WrongRoot | NoCard | NoDisclaimer | NoRank | WrongRank | ImpossibleRank | WrongSize | Implies(word: string)

  /** CONFLICT_MORTALITY_WORDS: what a count of conflicts says nothing about. */
  const MORTALITY_WORDS := ["deaths", "died", "killed", "fatalities", "casualties"]

  /** What no comparison of counts may say. */
  const OTHER_WORDS := ["worse", "deadlier", "trend", "rising", "falling", "more violent"]
  const IMPLYING_WORDS := MORTALITY_WORDS + OTHER_WORDS

  predicate SaysNone(text: string, words: seq<string>) {
    forall i :: 0 <= i < |words| ==> !Contains(Lower(text), words[i])
  }

  /** The words of the list a text says. */
  method WordsSaid(text: string, words: seq<string>) returns (said: seq<string>)
    ensures said == [] <==> SaysNone(text, words)
    ensures forall w :: w in said <==> w in words && Contains(Lower(text), w)
  {
    said := [];
    for k := 0 to |words|
      invariant said == [] <==> SaysNone(text, words[..k])
      invariant forall w :: w in said <==> w in words[..k] && Contains(Lower(text), w)
    {
      assert words[..k + 1] == words[..k] + [words[k]];
      if Contains(Lower(text), words[k]) { said := said + [words[k]]; }
    }
    assert words[..|words|] == words;
  }

  /** higher than (\d+)% of (\d+) supported years */
  const STATED_RANK := TwoRuns("higher than ", DigitChars, "% of ", " supported years")

  /** What of a statement the comparison checks read. */
  datatype ComparisonStatement = ComparisonStatement(
    text: string, displayed: Option<int>, size: Option<int>, derivedRoot: bool, modelCard: string)

  predicate Ranked(text: string, displayed: Option<int>, size: Option<int>) {
    var stated := Search(text, STATED_RANK, 0);
    && stated.Some? && |stated.value| == 2
    && displayed == Some(Value(stated.value[0])) && Value(stated.value[0]) <= 99 && size == Some(Value(stated.value[1]))
  }

  /** App-derived and carded, worded with its disclaimer and its true rank, and implying nothing else. */
  predicate Fair(s: ComparisonStatement) {
    && s.derivedRoot && s.modelCard != "" && Contains(s.text, SCALE_DISCLAIMER)
    && Ranked(s.text, s.displayed, s.size) && SaysNone(s.text, IMPLYING_WORDS)
  }

  /** _validate_comparison. */
  method ValidateComparison(s: ComparisonStatement) returns (issues: seq<ComparisonIssue>)
    ensures issues == [] <==> Fair(s)
  {
    issues := [];
    if !s.derivedRoot { issues := issues + [WrongRoot]; }
    if s.modelCard == "" { issues := issues + [NoCard]; }
    if !Contains(s.text, SCALE_DISCLAIMER) { issues := issues + [NoDisclaimer]; }
    var stated := Search(s.text, STATED_RANK, 0);
    if stated.None? || |stated.value| != 2 {
      issues := issues + [NoRank];
    } else {
      var rank := Value(stated.value[0]);
      if s.displayed != Some(rank) { issues := issues + [WrongRank]; }
      if rank > 99 { issues := issues + [ImpossibleRank]; }
      if s.size != Some(Value(stated.value[1])) { issues := issues + [WrongSize]; }
    }
    var said := WordsSaid(s.text, IMPLYING_WORDS);
    issues := issues + seq(|said|, i requires 0 <= i < |said| => Implies(said[i]));
  }

  lemma AvoidsHi(text: string)
    requires forall k: nat :: !D.TwoAt(text, k, 'h', 'i')
    ensures Avoids(text, "hi")
  {
    forall k: nat ensures !StartsAt(text, k, "hi") {
      if StartsAt(text, k, "hi") { D.StartsWithTwo(text, k, "hi"); }
    }
  }

  lemma OpeningAvoidsHi()
    ensures Avoids("The selected date " + "occurred during " + "a year with ", "hi")
  {
    AvoidsHi("The selected date ");
    AvoidsHi("occurred during ");
    AvoidsHi("a year with ");
    AvoidsTogether("The selected date ", "occurred during ", "hi");
    AvoidsTogether("The selected date " + "occurred during ", "a year with ", "hi");
  }

  lemma ClosingAvoidsHi()
    ensures Avoids(" active state-based " + "conflicts, ranking ", "hi")
  {
    AvoidsHi(" active state-based ");
    AvoidsHi("conflicts, ranking ");
    AvoidsTogether(" active state-based ", "conflicts, ranking ", "hi");
  }

  lemma BeforeRankAvoidsHi(count: nat)
    ensures Avoids(BeforeRank(count) + "h", "hi")
  {
    var opening, closing := "The selected date " + "occurred during " + "a year with ", " active state-based " +
        "conflicts, ranking ";
    OpeningAvoidsHi();
    ClosingAvoidsHi();
    DigitsReadBack(count);
    DigitsAvoid(Digits(count), "hi");
    AvoidsHi("h");
    assert Digits(count)[0] != 'i' && closing[0] == ' ';
    AvoidsTogether(opening, Digits(count), "hi");
    AvoidsTogether(opening + Digits(count), closing, "hi");
    AvoidsTogether(BeforeRank(count), "h", "hi");
  }

  /** The rank and the cohort size in the sentence are found, and read back as they were. */
  lemma SentenceReadsBack(before: string, rank: nat, size: nat, after: string)
    requires Avoids(before + "h", "hi")
    ensures Search(before + "higher than " + (Digits(rank) + RestOfRank(size, after)), STATED_RANK, 0)
         == Some([Digits(rank), Digits(size)])
  {
    DigitsReadBack(rank);
    DigitsReadBack(size);
    assert "higher than "[..1] == "h" && "higher than "[..2] == "hi";
    assert "% of "[0] == '%' && " supported years"[0] == ' ';
    CaptureTwo(before, "higher than ", Digits(rank), "% of ", Digits(size), " supported years", after, DigitChars, 2);
  }

  function RestOfRank(size: nat, after: string): string {
    "% of " + (Digits(size) + (" supported years" + after))
  }

  // ---- They agree ------------------------------------------------------------------------

  /** The sentence's phrases, none of which says what it must not. */
  ghost predicate PhrasesClear(t: Taboo) {
    && Lacks("The selected date ", t) && Lacks("occurred during ", t) && Lacks("a year with ", t)
    && Lacks(" active state-based ", t) && Lacks("conflicts, ranking ", t) && Lacks("higher than ", t)
    && Lacks("% of ", t) && Lacks(" supported years", t) && Lacks(" (", t)
    && Lacks("\U{2013}", t) && Lacks("). ", t) && Lacks("This comparison ", t)
    && Lacks("describes the year", t) && Lacks(", not this ", t) && Lacks("specific day.", t)
  }

  lemma SelectedClaims() ensures Lacks("The selected date ", Claiming) {}
  lemma SelectedWeighs() ensures Lacks("The selected date ", Weighing) {}
  lemma OccurredClaims() ensures Lacks("occurred during ", Claiming) {}
  lemma OccurredWeighs() ensures Lacks("occurred during ", Weighing) {}
  lemma AYearWithClaims() ensures Lacks("a year with ", Claiming) {}
  lemma AYearWithWeighs() ensures Lacks("a year with ", Weighing) {}
  lemma ActiveClaims() ensures Lacks(" active state-based ", Claiming) {}
  lemma ActiveWeighs() ensures Lacks(" active state-based ", Weighing) {}
  lemma RankingClaims() ensures Lacks("conflicts, ranking ", Claiming) {}
  lemma RankingWeighs() ensures Lacks("conflicts, ranking ", Weighing) {}
  lemma HigherClaims() ensures Lacks("higher than ", Claiming) {}
  lemma HigherWeighs() ensures Lacks("higher than ", Weighing) {}
  lemma PercentOfClaims() ensures Lacks("% of ", Claiming) {}
  lemma PercentOfWeighs() ensures Lacks("% of ", Weighing) {}
  lemma SupportedClaims() ensures Lacks(" supported years", Claiming) {}
  lemma SupportedWeighs() ensures Lacks(" supported years", Weighing) {}
  lemma ParenClaims() ensures Lacks(" (", Claiming) {}
  lemma ParenWeighs() ensures Lacks(" (", Weighing) {}
  lemma DashClaims() ensures Lacks("\U{2013}", Claiming) {}
  lemma DashWeighs() ensures Lacks("\U{2013}", Weighing) {}
  lemma CloseClaims() ensures Lacks("). ", Claiming) {}
  lemma CloseWeighs() ensures Lacks("). ", Weighing) {}
  lemma ThisComparisonClaims() ensures Lacks("This comparison ", Claiming) {}
  lemma ThisComparisonWeighs() ensures Lacks("This comparison ", Weighing) {}
  lemma DescribesClaims() ensures Lacks("describes the year", Claiming) {}
  lemma DescribesWeighs() ensures Lacks("describes the year", Weighing) {}
  lemma NotThisClaims() ensures Lacks(", not this ", Claiming) {}
  lemma NotThisWeighs() ensures Lacks(", not this ", Weighing) {}
  lemma SpecificDayClaims() ensures Lacks("specific day.", Claiming) {}
  lemma SpecificDayWeighs() ensures Lacks("specific day.", Weighing) {}

  lemma PhrasesClaim()
    ensures PhrasesClear(Claiming)
  {
    SelectedClaims(); OccurredClaims(); AYearWithClaims(); ActiveClaims(); RankingClaims();
    HigherClaims(); PercentOfClaims(); SupportedClaims(); ParenClaims(); DashClaims();
    CloseClaims(); ThisComparisonClaims(); DescribesClaims(); NotThisClaims(); SpecificDayClaims();
  }

  lemma PhrasesWeigh()
    ensures PhrasesClear(Weighing)
  {
    SelectedWeighs(); OccurredWeighs(); AYearWithWeighs(); ActiveWeighs(); RankingWeighs();
    HigherWeighs(); PercentOfWeighs(); SupportedWeighs(); ParenWeighs(); DashWeighs();
    CloseWeighs(); ThisComparisonWeighs(); DescribesWeighs(); NotThisWeighs(); SpecificDayWeighs();
  }

  lemma BeforeRankIsClear(count: nat, t: Taboo)
    requires PhrasesClear(t)
    ensures Lacks(BeforeRank(count), t) && BeforeRank(count)[|BeforeRank(count)| - 1] == ' '
  {
    var opening, closing := "The selected date " + "occurred during " + "a year with ", " active state-based " +
        "conflicts, ranking ";
    DigitsAreClear(count, t);
    ClearTogether("The selected date ", "occurred during ", t);
    ClearTogether("The selected date " + "occurred during ", "a year with ", t);
    ClearTogether(" active state-based ", "conflicts, ranking ", t);
    ClearTogether(opening, Digits(count), t);
    ClearTogether(opening + Digits(count), closing, t);
  }

  lemma DisclaimerIsClear(t: Taboo)
    requires PhrasesClear(t)
    ensures Lacks(SCALE_DISCLAIMER, t)
  {
    ClearTogether("This comparison ", "describes the year", t);
    ClearTogether("This comparison " + "describes the year", ", not this ", t);
    ClearTogether("This comparison " + "describes the year" + ", not this ", "specific day.", t);
  }

  lemma AfterYearsIsClear(first: nat, last: nat, t: Taboo)
    requires PhrasesClear(t)
    ensures Lacks(AfterYears(first, last), t) && AfterYears(first, last)[0] == ' '
  {
    DigitsAreClear(first, t);
    DigitsAreClear(last, t);
    DisclaimerIsClear(t);
    ClearTogether(" (", Digits(first), t);
    ClearTogether(" (" + Digits(first), "\U{2013}", t);
    ClearTogether(" (" + Digits(first) + "\U{2013}", Digits(last), t);
    ClearTogether(" (" + Digits(first) + "\U{2013}" + Digits(last), "). ", t);
    ClearTogether(" (" + Digits(first) + "\U{2013}" + Digits(last) + "). ", SCALE_DISCLAIMER, t);
  }

  lemma RestOfRankIsClear(rank: nat, size: nat, after: string, t: Taboo)
    requires PhrasesClear(t) && Lacks(after, t) && after != "" && after[0] == ' '
    ensures Lacks(Digits(rank) + RestOfRank(size, after), t)
  {
    DigitsAreClear(rank, t);
    DigitsAreClear(size, t);
    ClearTogether(" supported years", after, t);
    ClearTogether(Digits(size), " supported years" + after, t);
    ClearTogether("% of ", Digits(size) + (" supported years" + after), t);
    ClearTogether(Digits(rank), RestOfRank(size, after), t);
  }

  lemma SentenceIsClear(count: nat, r: Ranking, t: Taboo)
    requires t.Claiming? || t.Weighing?
    ensures Lacks(Sentence(count, r), t)
  {
    var rest := Digits(r.rank) + RestOfRank(r.size, AfterYears(r.first, r.last));
    if t.Claiming? { PhrasesClaim(); } else { PhrasesWeigh(); }
    BeforeRankIsClear(count, t);
    AfterYearsIsClear(r.first, r.last, t);
    RestOfRankIsClear(r.rank, r.size, AfterYears(r.first, r.last), t);
    ClearTogether(BeforeRank(count), "higher than ", t);
    ClearTogether(BeforeRank(count) + "higher than ", rest, t);
  }

  lemma MournsNothing(text: string)
    requires Lacks(text, Claiming)
    ensures SaysNone(text, MORTALITY_WORDS)
  {
    ClearOf(text, Claiming, "deaths", 4);
    ClearOf(text, Claiming, "died", 1);
    ClearOf(text, Claiming, "killed", 2);
    ClearOf(text, Claiming, "fatalities", 7);
    ClearOf(text, Claiming, "casualties", 7);
  }

  lemma ImpliesNothing(text: string)
    requires Lacks(text, Claiming) && Lacks(text, Weighing)
    ensures SaysNone(text, IMPLYING_WORDS)
  {
    MournsNothing(text);
    ClearOf(text, Weighing, "worse", 0);
    ClearOf(text, Claiming, "deadlier", 5);
    ClearOf(text, Weighing, "trend", 2);
    ClearOf(text, Weighing, "rising", 2);
    ClearOf(text, Claiming, "falling", 2);
    ClearOf(text, Weighing, "more violent", 9);
    forall i | 0 <= i < |IMPLYING_WORDS| ensures !Contains(Lower(text), IMPLYING_WORDS[i]) {
      if i < |MORTALITY_WORDS| { assert IMPLYING_WORDS[i] == MORTALITY_WORDS[i]; }
      else { assert IMPLYING_WORDS[i] == OTHER_WORDS[i - |MORTALITY_WORDS|]; }
    }
  }

  /** Every comparison the publisher can derive is worded so that its check passes. */
  lemma DerivedComparisonIsFair(count: nat, r: Ranking, card: string)
    requires r.rank <= 99 && card != ""
    ensures Fair(ComparisonStatement(Sentence(count, r), Some(r.rank), Some(r.size), true, card))
  {
    var after := AfterYears(r.first, r.last);
    BeforeRankAvoidsHi(count);
    SentenceReadsBack(BeforeRank(count), r.rank, r.size, after);
    DigitsReadBack(r.rank);
    DigitsReadBack(r.size);
    EndsWithDisclaimer(BeforeRank(count) + "higher than ", Digits(r.rank), Digits(r.size), r.first, r.last);
    SentenceIsClear(count, r, Claiming);
    SentenceIsClear(count, r, Weighing);
    ImpliesNothing(Sentence(count, r));
  }

  lemma EndsWithDisclaimer(before: string, rank: string, size: string, first: nat, last: nat)
    ensures Contains(before + (rank + ("% of " + (size + (" supported years" + AfterYears(first, last))))),
                     SCALE_DISCLAIMER)
  {
    ContainsMiddle(" (" + Digits(first) + "\U{2013}" + Digits(last) + "). ", SCALE_DISCLAIMER, "");
    assert AfterYears(first, last) + "" == AfterYears(first, last);
    ContainsLast(" supported years", AfterYears(first, last), SCALE_DISCLAIMER);
    ContainsLast(size, " supported years" + AfterYears(first, last), SCALE_DISCLAIMER);
    ContainsLast("% of ", size + (" supported years" + AfterYears(first, last)), SCALE_DISCLAIMER);
    ContainsLast(rank, "% of " + (size + (" supported years" + AfterYears(first, last))), SCALE_DISCLAIMER);
    ContainsLast(before, rank + ("% of " + (size + (" supported years" + AfterYears(first, last)))), SCALE_DISCLAIMER);
  }
}
