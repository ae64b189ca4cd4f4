/** The page publish_context_profile builds from a year's reviewed content, and when the canary passes it. */
module ContextPublication {
  import opened Basics
  import opened Prose
  import opened Wording
  import opened ContextPage
  import D = DailyEquivalent
  import C = Comparison
  import Ed = Editorial

  // ---- The year's content ----------------------------------------------------------------

  datatype Annual = Annual(thousands: real, status: DataStatus)

  /** A printed figure, in units of its last decimal. */
  datatype Figure = Figure(amount: nat, status: DataStatus)

  datatype Comparing = Comparing(count: nat, ranking: C.Ranking, status: DataStatus)

  /** The five reviewed UN WPP claims of a year, its conflict count if it has one, and its comparison if derived. */
  datatype YearContent = YearContent(
    births: Annual, deaths: Annual, population: Figure, lifeExpectancy: Figure, underFive: Figure,
    conflicts: Option<Figure>, comparison: Option<Comparing>)

  predicate YearContentOk(c: YearContent) {
    && c.births.thousands >= 0.0 && c.deaths.thousands >= 0.0
    && (c.comparison.Some? ==> c.comparison.value.ranking.rank <= 99)
  }

  // ---- The sentences ---------------------------------------------------------------------

  function MonthName(month: nat): string
    requires 1 <= month <= 12
  {
    MONTH_NAMES[month - 1]
  }

  function DateLabel(month: nat, day: nat): string
    requires 1 <= month <= 12
  {
    MonthName(month) + (" " + Digits(day))
  }

  function StateDaily(kind: D.Kind, year: nat, month: nat, day: nat, annual: Annual): PageStatement
    requires annual.thousands >= 0.0 && 1 <= month <= 12
  {
    var built := D.Build(kind, year, annual.thousands, annual.status.Modeled?, DateLabel(month, day));
    PageStatement(built.text, built.note,
      NO_DETAILS.(assignment := Some(UniformPeriodAllocation), status := Some(annual.status),
                  daysInYear := built.daysInYear, average := built.average), true)
  }

  /** Every status but ESTIMATED is said to be projected. */
  function Verb(status: DataStatus): string {
    if status.Estimated? then "estimates" else "projects"
  }

  /** f"{x:.2f}" and f"{x:.3f}", of a figure counted in its last decimal. */
  function Hundredths(n: nat): string {
    Digits(n / 100) + ("." + (Digits(n / 10 % 10) + Digits(n % 10)))
  }

  function Thousandths(n: nat): string {
    Digits(n / 1000) + ("." + Padded(n % 1000))
  }

  function PopulationRest(year: nat, f: Figure): string {
    " the mid-" + (Digits(year) + (" world " + ("population at about " + (Thousandths(f.amount) + " billion."))))
  }

  function LifeRest(year: nat, f: Figure): string {
    " global life " + ("expectancy at " + ("birth in " +
                                           (Digits(year) + (" at " + (Hundredths(f.amount) + " years.")))))
  }

  function UnderFiveRest(year: nat, f: Figure): string {
    " " + (Digits(year) + (" global under-five " + ("mortality at about " +
                                                    (Digits(f.amount) + (" deaths per 1,000 " + "live births.")))))
  }

  function ContextText(status: DataStatus, rest: string): string {
    "UN WPP " + (Verb(status) + rest)
  }

  function StateContext(status: DataStatus, rest: string): PageStatement {
    PageStatement(ContextText(status, rest),
      if status.Estimated? then "Official annual UN WPP estimate." else "Official annual UN WPP medium projection.",
      NO_DETAILS.(assignment := Some(DirectRecord), status := Some(status)), false)
  }

  function ConflictTail(): string {
    ". This is annual " + ("context, " + (YEAR_GENERAL_CAVEAT + " in it."))
  }

  function ConflictHead(count: nat): string {
    "UCDP/PRIO " + "records " + (Digits(count) + (" " + CONFLICT_TEXT + " as "))
  }

  function ConflictSentence(count: nat, year: nat): string {
    ConflictHead(count) + "active at some point in " + (Digits(year) + ConflictTail())
  }

  function StateConflict(f: Figure, year: nat): PageStatement {
    PageStatement(ConflictSentence(f.amount, year),
                  "Official UCDP/PRIO conflict-year records aggregated by a versioned application methodology.",
      NO_DETAILS.(assignment := Some(PeriodContext), status := Some(f.status), value := Some(f.amount)), true)
  }

  const MODEL_CARD := "conflict-count-vs-reference-percentile-v2"

  function StateComparison(p: Comparing): PageStatement {
    PageStatement(C.Sentence(p.count, p.ranking), "Computed by Day Perspective from reviewed UCDP/PRIO annual counts.",
      NO_DETAILS.(assignment := Some(PeriodContext), status := Some(p.status), value := Some(p.ranking.rank),
                  cohortSize := Some(p.ranking.size), modelCard := MODEL_CARD), true)
  }

  // ---- The page --------------------------------------------------------------------------

  function Typical(year: nat, month: nat, day: nat, c: YearContent): seq<PageStatement>
    requires YearContentOk(c) && 1 <= month <= 12
  {
    [StateDaily(D.Births, year, month, day, c.births), StateDaily(D.Deaths, year, month, day, c.deaths)]
  }

  function Wider(year: nat, c: YearContent): seq<PageStatement> {
    [StateContext(c.population.status, PopulationRest(year, c.population)),
     StateContext(c.lifeExpectancy.status, LifeRest(year, c.lifeExpectancy)),
     StateContext(c.underFive.status, UnderFiveRest(year, c.underFive))]
    + if c.conflicts.Some? then [StateConflict(c.conflicts.value, year)] else []
  }

  /** Published only where the conflict count it compares is. */
  function ComparisonsOf(c: YearContent): seq<PageStatement> {
    if c.conflicts.Some? && c.comparison.Some? then [StateComparison(c.comparison.value)] else []
  }

  const UNSUPPORTED_REASON := "This vertical slice " + "does not publish " + "this evidence class."

  function StateOf(key: Section, c: YearContent): State {
    if key.RecordedOnThisDate? || key.TypicalDayInThisYear? || key.WiderHistoricalContext?
       || (key.DerivedComparisons? && ComparisonsOf(c) != [])
    then Available else NotYetSupported(UNSUPPORTED_REASON)
  }

  /** What each section of the page holds. */
  function Holding(key: Section, year: nat, month: nat, day: nat, c: YearContent): seq<PageStatement>
    requires YearContentOk(c) && 1 <= month <= 12
  {
    match key
    case TypicalDayInThisYear => Typical(year, month, day, c)
    case WiderHistoricalContext => Wider(year, c)
    case DerivedComparisons => ComparisonsOf(c)
    case _ => []
  }

  function PageSections(year: nat, month: nat, day: nat, c: YearContent): map<Section, seq<PageStatement>>
    requires YearContentOk(c) && 1 <= month <= 12
  {
    map key | key in SECTION_KEYS :: Holding(key, year, month, day, c)
  }

  predicate DateSpecific(s: PageStatement) {
    s.details.assignment.Some?
    && s.details.assignment.value in {DirectRecord, ReportedFor, Inferred, ModeledPeriodAllocation}
  }

  /** derive_publication_tier. */
  function PageTier(sections: map<Section, seq<PageStatement>>): Tier {
    if RecordedOnThisDate in sections && sections[RecordedOnThisDate] != [] then Enriched
    else if exists key, i :: key in {CuratedClaims, DerivedComparisons, WonderAndProgress} && key in sections
                             && 0 <= i < |sections[key]| && DateSpecific(sections[key][i])
    then PartiallyEnriched
    else ContextOnly
  }

  /** A statement placed in its period, or nowhere, rather than on the date. */
  predicate Undated(s: PageStatement) {
    match s.details.assignment
    case None | Some(PeriodContext) | Some(UniformPeriodAllocation) | Some(EditorialContext) | Some(Unknown) => true
    case _ => false
  }

  predicate EditorialOf(sections: map<Section, seq<PageStatement>>, key: Section, s: PageStatement) {
    (key.CuratedClaims? || key.DerivedComparisons? || key.WonderAndProgress?) && key in sections && s in sections[key]
  }

  /** Any page is context_only exactly when it records nothing and no editorial statement is about the date itself. */
  lemma PageTierMeans(sections: map<Section, seq<PageStatement>>)
    ensures PageTier(sections).Enriched? <==> RecordedOnThisDate in sections && sections[RecordedOnThisDate] != []
    ensures PageTier(sections).ContextOnly? <==>
      && !(RecordedOnThisDate in sections && sections[RecordedOnThisDate] != [])
      && forall key, s :: EditorialOf(sections, key, s) ==> Undated(s)
  {
    forall s: PageStatement ensures DateSpecific(s) <==> !Undated(s) {}
    forall key, i | key in {CuratedClaims, DerivedComparisons, WonderAndProgress} && key in sections
                    && 0 <= i < |sections[key]| && DateSpecific(sections[key][i])
      ensures EditorialOf(sections, key, sections[key][i]) && !Undated(sections[key][i])
    {
    }
    forall key, s | EditorialOf(sections, key, s) && !Undated(s)
      ensures exists i :: 0 <= i < |sections[key]| && DateSpecific(sections[key][i])
    {
      var i :| 0 <= i < |sections[key]| && sections[key][i] == s;
      assert DateSpecific(sections[key][i]);
    }
  }

  /** What publish_context_profile has published, as it is served. */
  function BuildPage(year: nat, month: nat, day: nat, c: YearContent): Page
    requires YearContentOk(c) && 1 <= month <= 12
  {
    var sections := PageSections(year, month, day, c);
    Page(year, month, day, sections, map key | key in SECTION_KEYS :: StateOf(key, c), PageTier(sections))
  }

  // ---- When it is clean ------------------------------------------------------------------

  /** The context sentences know two statuses only. */
  predicate Sayable(status: DataStatus) {
    status.Estimated? || status.Modeled?
  }

  /** What a publisher could look up before building the page. */
  predicate AllSayable(c: YearContent) {
    && Sayable(c.population.status) && Sayable(c.lifeExpectancy.status) && Sayable(c.underFive.status)
    && (c.conflicts.Some? ==> !c.conflicts.value.status.Modeled?)
    && (c.conflicts.Some? && c.comparison.Some? ==> !c.comparison.value.status.Modeled?)
  }

  // ---- Claims of projection --------------------------------------------------------------

  lemma NoClaim(text: string, t: Taboo)
    requires Lacks(text, t) && (t.Projecting? || t.Claiming?)
    ensures !ClaimsProjection(text)
  {
    ClearOf(text, t, "projection", 2);
    ClearOf(text, t, "projects", 2);
    ClearOf(text, t, "projected", 2);
  }

  lemma Claims(text: string, i: nat)
    requires i < |PROJECTION_WORDS| && Contains(Lower(text), PROJECTION_WORDS[i])
    ensures ClaimsProjection(text)
  {
  }

  // ---- Context sentences -----------------------------------------------------------------

  lemma TheMidDrifts() ensures Lacks(" the mid-", Drifting) {}
  lemma WorldDrifts() ensures Lacks(" world ", Drifting) {}
  lemma PopulationAtDrifts() ensures Lacks("population at about ", Drifting) {}
  lemma BillionDrifts() ensures Lacks(" billion.", Drifting) {}
  lemma GlobalLifeDrifts() ensures Lacks(" global life ", Drifting) {}
  lemma ExpectancyDrifts() ensures Lacks("expectancy at ", Drifting) {}
  lemma BirthInDrifts() ensures Lacks("birth in ", Drifting) {}
  lemma AtDrifts() ensures Lacks(" at ", Drifting) {}
  lemma YearsDrifts() ensures Lacks(" years.", Drifting) {}
  lemma SpaceDrifts() ensures Lacks(" ", Drifting) {}
  lemma UnderFiveDrifts() ensures Lacks(" global under-five ", Drifting) {}
  lemma MortalityAtDrifts() ensures Lacks("mortality at about ", Drifting) {}
  lemma DeathsPerDrifts() ensures Lacks(" deaths per 1,000 ", Drifting) {}
  lemma LiveBirthsDrifts() ensures Lacks("live births.", Drifting) {}
  lemma SourceDrifts() ensures Lacks("UN WPP ", Drifting) {}
  lemma EstimatesDrifts() ensures Lacks("estimates", Drifting) {}
  lemma PointDrifts() ensures Lacks(".", Drifting) {}
  lemma ProjectsStrays() ensures Lacks("projects", Straying) {}

  lemma PaddedIsClear(n: nat, t: Taboo)
    requires n < 1000
    ensures Lacks(Padded(n), t)
  {
    CountsAreClear(Padded(n), t);
  }

  /** A verb and what follows it, as clear as the rest allows. */
  lemma ContextIsClear(status: DataStatus, rest: string)
    requires Lacks(rest, Drifting) && rest != "" && rest[0] == ' '
    ensures Lacks(ContextText(status, rest), Straying)
    ensures status.Estimated? ==> Lacks(ContextText(status, rest), Drifting)
  {
    SourceDrifts();
    EstimatesDrifts();
    ProjectsStrays();
    ClearOfBoth(rest);
    ClearOfBoth("UN WPP ");
    ClearTogether(Verb(status), rest, if status.Estimated? then Drifting else Straying);
    ClearTogether("UN WPP ", Verb(status) + rest, if status.Estimated? then Drifting else Straying);
    if status.Estimated? { ClearOfBoth(ContextText(status, rest)); }
  }

  lemma PopulationIsClear(year: nat, f: Figure)
    ensures Lacks(PopulationRest(year, f), Drifting) && PopulationRest(year, f)[0] == ' '
  {
    var figure := Thousandths(f.amount) + " billion.";
    TheMidDrifts();
    WorldDrifts();
    PopulationAtDrifts();
    BillionDrifts();
    PointDrifts();
    DigitsAreClear(year, Drifting);
    DigitsAreClear(f.amount / 1000, Drifting);
    PaddedIsClear(f.amount % 1000, Drifting);
    ClearTogether(".", Padded(f.amount % 1000), Drifting);
    ClearTogether(Digits(f.amount / 1000), "." + Padded(f.amount % 1000), Drifting);
    ClearTogether(Thousandths(f.amount), " billion.", Drifting);
    ClearTogether("population at about ", figure, Drifting);
    ClearTogether(" world ", "population at about " + figure, Drifting);
    ClearTogether(Digits(year), " world " + ("population at about " + figure), Drifting);
    ClearTogether(" the mid-", Digits(year) + (" world " + ("population at about " + figure)), Drifting);
  }

  lemma HundredthsAreClear(n: nat)
    ensures Lacks(Hundredths(n), Drifting)
  {
    PointDrifts();
    DigitsAreClear(n / 100, Drifting);
    DigitsAreClear(n / 10 % 10, Drifting);
    DigitsAreClear(n % 10, Drifting);
    ClearTogether(Digits(n / 10 % 10), Digits(n % 10), Drifting);
    ClearTogether(".", Digits(n / 10 % 10) + Digits(n % 10), Drifting);
    ClearTogether(Digits(n / 100), "." + (Digits(n / 10 % 10) + Digits(n % 10)), Drifting);
  }

  lemma LifeIsClear(year: nat, f: Figure)
    ensures Lacks(LifeRest(year, f), Drifting) && LifeRest(year, f)[0] == ' '
  {
    var figure := Hundredths(f.amount) + " years.";
    GlobalLifeDrifts();
    ExpectancyDrifts();
    BirthInDrifts();
    AtDrifts();
    YearsDrifts();
    DigitsAreClear(year, Drifting);
    HundredthsAreClear(f.amount);
    ClearTogether(Hundredths(f.amount), " years.", Drifting);
    ClearTogether(" at ", figure, Drifting);
    ClearTogether(Digits(year), " at " + figure, Drifting);
    ClearTogether("birth in ", Digits(year) + (" at " + figure), Drifting);
    ClearTogether("expectancy at ", "birth in " + (Digits(year) + (" at " + figure)), Drifting);
    ClearTogether(" global life ", "expectancy at " + ("birth in " + (Digits(year) + (" at " + figure))), Drifting);
  }

  lemma UnderFiveIsClear(year: nat, f: Figure)
    ensures Lacks(UnderFiveRest(year, f), Drifting) && UnderFiveRest(year, f)[0] == ' '
  {
    var closing := " deaths per 1,000 " + "live births.";
    SpaceDrifts();
    UnderFiveDrifts();
    MortalityAtDrifts();
    DeathsPerDrifts();
    LiveBirthsDrifts();
    DigitsAreClear(year, Drifting);
    DigitsAreClear(f.amount, Drifting);
    ClearTogether(" deaths per 1,000 ", "live births.", Drifting);
    ClearTogether(Digits(f.amount), closing, Drifting);
    ClearTogether("mortality at about ", Digits(f.amount) + closing, Drifting);
    ClearTogether(" global under-five ", "mortality at about " + (Digits(f.amount) + closing), Drifting);
    ClearTogether(Digits(year), " global under-five " + ("mortality at about " + (Digits(f.amount) + closing)),
                  Drifting);
    ClearTogether(" ", Digits(year) + (" global under-five " + ("mortality at about " + (Digits(f.amount) + closing))),
                  Drifting);
  }

  lemma VerbClaims(status: DataStatus, rest: string)
    requires !status.Estimated?
    ensures ClaimsProjection(ContextText(status, rest))
  {
    assert Lower("projects") == "projects";
    LowerTogether("projects", rest);
    LowerTogether("UN WPP ", "projects" + rest);
    ContainsMiddle("", "projects", Lower(rest));
    assert "" + "projects" + Lower(rest) == "projects" + Lower(rest);
    ContainsLast(Lower("UN WPP "), "projects" + Lower(rest), "projects");
    Claims(ContextText(status, rest), 1);
  }

  /** A context sentence says what its status is exactly when the status is one of the two it can say. */
  lemma ContextIsHonest(status: DataStatus, rest: string, year: nat)
    requires Lacks(rest, Drifting) && rest != "" && rest[0] == ' '
    ensures var s := StateContext(status, rest);
      (StatusHonest(s) <==> Sayable(status)) && DailyHonest(s, year) && !ReadsConflict(s)
  {
    ContextIsClear(status, rest);
    ClearOf(ContextText(status, rest), Straying, "average daily", 0);
    ClearOf(ContextText(status, rest), Straying, CONFLICT_TEXT, 21);
    if status.Estimated? {
      ClearOfBoth(ContextText(status, rest));
      NoClaim(ContextText(status, rest), Projecting);
    } else {
      VerbClaims(status, rest);
    }
  }

  // ---- Daily statements ------------------------------------------------------------------

  lemma AverageBirthsProjects() ensures Lacks("Average daily births in ", Projecting) {}
  lemma AverageDeathsProjects() ensures Lacks("Average daily deaths in ", Projecting) {}
  lemma ColonProjects() ensures Lacks(": ", Projecting) {}
  lemma AboutProjects() ensures Lacks("about ", Projecting) {}
  lemma AnAverageProjects() ensures Lacks(". This is an average ", Projecting) {}
  lemma EquivalentProjects() ensures Lacks("daily equivalent ", Projecting) {}
  lemma BasedOnProjects() ensures Lacks("based on the annual ", Projecting) {}
  lemma TotalProjects() ensures Lacks("total, ", Projecting) {}
  lemma NotObservedProjects() ensures Lacks("not an observation", Projecting) {}
  lemma ForProjects() ensures Lacks(" for ", Projecting) {}
  lemma DotProjects() ensures Lacks(".", Projecting) {}

  lemma MonthIsClear(month: nat)
    requires 1 <= month <= 12
    ensures Lacks(MonthName(month), Projecting)
  {
    if month <= 6 { EarlyMonthIsClear(month); } else { LateMonthIsClear(month); }
  }

  lemma EarlyMonthIsClear(month: nat)
    requires 1 <= month <= 6
    ensures Lacks(MonthName(month), Projecting)
  {
    forall k: nat ensures LacksAt(MonthName(month), k, Projecting) {
      assert forall i :: 0 <= i < |MonthName(month)| - 1 ==> MonthName(month)[i] != 'o' && MonthName(month)[i] != 'O';
    }
  }

  lemma LateMonthIsClear(month: nat)
    requires 7 <= month <= 12
    ensures Lacks(MonthName(month), Projecting)
  {
    forall k: nat ensures LacksAt(MonthName(month), k, Projecting) {
      assert forall i :: 0 < i < |MonthName(month)| ==> MonthName(month)[i] != 'j' && MonthName(month)[i] != 'J';
    }
  }

  lemma AfterIsClear(dateLabel: string)
    requires Lacks(dateLabel, Projecting)
    ensures Lacks(D.Closes(dateLabel), Projecting)
  {
    AnAverageProjects();
    EquivalentProjects();
    BasedOnProjects();
    TotalProjects();
    NotObservedProjects();
    ForProjects();
    DotProjects();
    ClearTogether(". This is an average ", "daily equivalent ", Projecting);
    ClearTogether(". This is an average " + "daily equivalent ", "based on the annual ", Projecting);
    ClearTogether(". This is an average " + "daily equivalent " + "based on the annual ", "total, ", Projecting);
    ClearTogether(" for ", dateLabel, Projecting);
    ClearTogether(" for " + dateLabel, ".", Projecting);
    ClearTogether("not an observation", " for " + dateLabel + ".", Projecting);
    ClearTogether(". This is an average " + "daily equivalent " + "based on the annual " + "total, ",
                  "not an observation" + (" for " + dateLabel + "."), Projecting);
  }

  lemma BeforeIsClear(kind: D.Kind, year: nat)
    ensures Lacks(D.Opens(kind, year, false) + "about ", Projecting)
  {
    AverageBirthsProjects();
    AverageDeathsProjects();
    ColonProjects();
    AboutProjects();
    DigitsAreClear(year, Projecting);
    ClearTogether(D.Opening(kind), Digits(year), Projecting);
    assert D.Opening(kind) + Digits(year) + D.Qualifier(false) == D.Opening(kind) + Digits(year);
    ClearTogether(D.Opening(kind) + Digits(year), ": ", Projecting);
    ClearTogether(D.Opens(kind, year, false), "about ", Projecting);
  }

  lemma QualifierClaims(kind: D.Kind, year: nat, rest: string)
    ensures ClaimsProjection(D.Opens(kind, year, true) + "about " + rest)
  {
    var lead := ", based on the UN WPP " + "medium-variant ";
    var (opening, tail) := (D.Opening(kind) + Digits(year), ": " + ("about " + rest));
    var text := D.Opens(kind, year, true) + "about " + rest;
    assert D.Qualifier(true) == lead + "projection";
    assert text == (opening + lead) + "projection" + tail;
    LowerTogether((opening + lead) + "projection", tail);
    LowerTogether(opening + lead, "projection");
    assert Lower("projection") == "projection";
    ContainsMiddle(Lower(opening + lead), "projection", Lower(tail));
    Claims(text, 0);
  }

  /** Whatever its status, a daily equivalent says what it is. */
  lemma DailyIsHonest(kind: D.Kind, year: nat, month: nat, day: nat, annual: Annual)
    requires annual.thousands >= 0.0 && 1 <= month <= 12
    ensures StatusHonest(StateDaily(kind, year, month, day, annual))
    ensures DailyHonest(StateDaily(kind, year, month, day, annual), year)
  {
    var named := DateLabel(month, day);
    D.ProducedIsHonest(kind, year, annual.thousands, annual.status.Modeled?, named);
    D.DailyIsTheNearest(annual.thousands, year);
    var count := Grouped(D.Daily(annual.thousands, year));
    if annual.status.Modeled? {
      QualifierClaims(kind, year, count + D.Closes(named));
    } else {
      LabelIsClear(month, day);
      AfterIsClear(named);
      GroupedReadsBack(D.Daily(annual.thousands, year));
      CountsAreClear(count, Projecting);
      BeforeIsClear(kind, year);
      ClearTogether(count, D.Closes(named), Projecting);
      ClearTogether(D.Opens(kind, year, false) + "about ", count + D.Closes(named), Projecting);
      NoClaim(D.Opens(kind, year, false) + "about " + (count + D.Closes(named)), Projecting);
    }
  }

  lemma LabelIsClear(month: nat, day: nat)
    requires 1 <= month <= 12
    ensures Lacks(DateLabel(month, day), Projecting)
  {
    MonthIsClear(month);
    DigitsAreClear(day, Projecting);
    CountsAreClear("", Projecting);
    SpaceDrifts();
    ClearOfBoth(" ");
    ClearTogether(" ", Digits(day), Projecting);
    ClearTogether(MonthName(month), " " + Digits(day), Projecting);
  }

  // ---- The conflict statement ------------------------------------------------------------

  lemma UcdpClaims() ensures Lacks("UCDP/PRIO ", Claiming) {}
  lemma RecordsClaims() ensures Lacks("records ", Claiming) {}
  lemma BlankClaims() ensures Lacks(" ", Claiming) {}
  lemma StateBasedClaims() ensures Lacks("state-based ", Claiming) {}
  lemma ArmedClaims() ensures Lacks("armed conflicts", Claiming) {}
  lemma AsClaims() ensures Lacks(" as ", Claiming) {}
  lemma ActiveAtClaims() ensures Lacks("active at some point in ", Claiming) {}
  lemma ThisIsAnnualClaims() ensures Lacks(". This is annual ", Claiming) {}
  lemma ContextWordClaims() ensures Lacks("context, ", Claiming) {}
  lemma NotACountClaims() ensures Lacks("not a count for ", Claiming) {}
  lemma AnySingleClaims() ensures Lacks("any single date", Claiming) {}
  lemma InItClaims() ensures Lacks(" in it.", Claiming) {}

  lemma ConflictHeadIsClear(count: nat)
    ensures Lacks(ConflictHead(count), Claiming) && ConflictHead(count)[|ConflictHead(count)| - 1] == ' '
  {
    UcdpClaims();
    RecordsClaims();
    BlankClaims();
    StateBasedClaims();
    ArmedClaims();
    AsClaims();
    DigitsAreClear(count, Claiming);
    ClearTogether("state-based ", "armed conflicts", Claiming);
    ClearTogether(" ", CONFLICT_TEXT, Claiming);
    ClearTogether(" " + CONFLICT_TEXT, " as ", Claiming);
    ClearTogether(Digits(count), " " + CONFLICT_TEXT + " as ", Claiming);
    ClearTogether("UCDP/PRIO ", "records ", Claiming);
    ClearTogether("UCDP/PRIO " + "records ", Digits(count) + (" " + CONFLICT_TEXT + " as "), Claiming);
  }

  lemma ConflictTailIsClear()
    ensures Lacks(ConflictTail(), Claiming)
  {
    ThisIsAnnualClaims();
    ContextWordClaims();
    NotACountClaims();
    AnySingleClaims();
    InItClaims();
    ClearTogether("not a count for ", "any single date", Claiming);
    ClearTogether(YEAR_GENERAL_CAVEAT, " in it.", Claiming);
    ClearTogether("context, ", YEAR_GENERAL_CAVEAT + " in it.", Claiming);
    ClearTogether(". This is annual ", "context, " + (YEAR_GENERAL_CAVEAT + " in it."), Claiming);
  }

  lemma ConflictIsClear(count: nat, year: nat)
    ensures Lacks(ConflictSentence(count, year), Claiming)
  {
    ConflictHeadIsClear(count);
    ConflictTailIsClear();
    ActiveAtClaims();
    DigitsAreClear(year, Claiming);
    ClearTogether(Digits(year), ConflictTail(), Claiming);
    ClearTogether(ConflictHead(count), "active at some point in ", Claiming);
    ClearTogether(ConflictHead(count) + "active at some point in ", Digits(year) + ConflictTail(), Claiming);
  }

  lemma UcdpStaysOff() ensures Lacks("UCDP/PRIO ", Pair('a', 'c')) && Lacks("UCDP/PRIO ", Pair('r', 'e')) {}
  lemma RecordsStaysOff() ensures Lacks("records ", Pair('a', 'c')) {}
  lemma BlankStaysOff() ensures Lacks(" ", Pair('a', 'c')) && Lacks("a", Pair('a', 'c')) && Lacks("r",
                      Pair('r', 'e')) {}
  lemma StateBasedStaysOff() ensures Lacks("state-based ", Pair('a', 'c')) {}
  lemma ArmedStaysOff() ensures Lacks("armed conflicts", Pair('a', 'c')) {}
  lemma AsStaysOff() ensures Lacks(" as ", Pair('a', 'c')) {}

  /** The year's marker begins nowhere before its place. */
  lemma HeadAvoids(count: nat)
    ensures Avoids(ConflictHead(count) + "a", "ac")
  {
    var t := Pair('a', 'c');
    UcdpStaysOff();
    RecordsStaysOff();
    BlankStaysOff();
    StateBasedStaysOff();
    ArmedStaysOff();
    AsStaysOff();
    DigitsAreClear(count, t);
    ClearTogether("state-based ", "armed conflicts", t);
    ClearTogether(" ", CONFLICT_TEXT, t);
    ClearTogether(" " + CONFLICT_TEXT, " as ", t);
    ClearTogether(Digits(count), " " + CONFLICT_TEXT + " as ", t);
    ClearTogether("UCDP/PRIO ", "records ", t);
    ClearTogether("UCDP/PRIO " + "records ", Digits(count) + (" " + CONFLICT_TEXT + " as "), t);
    ClearTogether(ConflictHead(count), "a", t);
    ClearAvoids(ConflictHead(count) + "a", 'a', 'c');
  }

  lemma FourDigits(year: nat)
    requires 1000 <= year <= 9999
    ensures |Digits(year)| == 4
  {
    assert |Digits(year / 10)| == 3 by {
      assert |Digits(year / 100)| == 2 by { assert |Digits(year / 1000)| == 1; }
    }
  }

  lemma YearReadsBack(count: nat, year: nat)
    requires 1000 <= year <= 9999
    ensures StatedYear(ConflictSentence(count, year)) == Some(year)
  {
    HeadAvoids(count);
    FourDigits(year);
    DigitsReadBack(year);
    assert "active at some point in "[..1] == "a" && "active at some point in "[..2] == "ac";
    assert ConflictTail()[0] == '.';
    CaptureCounted(ConflictHead(count), "active at some point in ", Digits(year), ConflictTail(), DigitChars, 2);
  }

  lemma Regroup(a: string, b: string, d: string, s: string, x: string, m: string, t: string)
    ensures (a + b + (d + (s + x))) + m + t == a + b + (d + (s + (x + m + t)))
    ensures (a + b + (d + (s + x))) + m + t == (a + b + d) + s + (x + m + t)
  {
  }

  lemma CountReadsBack(count: nat, year: nat)
    ensures StatedCount(ConflictSentence(count, year)) == Some(count)
  {
    var (suffix, tail) := (" " + CONFLICT_TEXT, Digits(year) + ConflictTail());
    UcdpStaysOff();
    BlankStaysOff();
    ClearTogether("UCDP/PRIO ", "r", Pair('r', 'e'));
    ClearAvoids("UCDP/PRIO " + "r", 'r', 'e');
    DigitsReadBack(count);
    assert "records "[..1] == "r" && "records "[..2] == "re";
    Regroup("UCDP/PRIO ", "records ", Digits(count), suffix, " as ", "active at some point in ", tail);
    CaptureThen("UCDP/PRIO ", "records ", Digits(count), suffix, " as " + "active at some point in " + tail,
                DigitChars, 2);
  }

  lemma ConflictTextIsLower()
    ensures Lower(CONFLICT_TEXT) == CONFLICT_TEXT
  {
    LowerTogether("state-based ", "armed conflicts");
    assert Lower("state-based ") == "state-based " && Lower("armed conflicts") == "armed conflicts";
  }

  lemma SaysInLowerCase(before: string, sub: string, after: string)
    requires Lower(sub) == sub
    ensures Contains(Lower(before + sub + after), sub)
  {
    LowerTogether(before + sub, after);
    LowerTogether(before, sub);
    ContainsMiddle(Lower(before), sub, Lower(after));
  }

  lemma SaysConflict(count: nat, year: nat)
    ensures Contains(Lower(ConflictSentence(count, year)), CONFLICT_TEXT)
  {
    var tail := Digits(year) + ConflictTail();
    var (before, after) := ("UCDP/PRIO " + "records " + Digits(count), " as " + "active at some point in " + tail);
    Regroup("UCDP/PRIO ", "records ", Digits(count), " " + CONFLICT_TEXT, " as ", "active at some point in ", tail);
    ConflictTextIsLower();
    SaysInLowerCase(before + " ", CONFLICT_TEXT, after);
    assert ConflictSentence(count, year) == before + (" " + CONFLICT_TEXT) + after;
    assert before + (" " + CONFLICT_TEXT) == (before + " ") + CONFLICT_TEXT;
  }

  lemma SaysCaveat(count: nat, year: nat)
    ensures Contains(ConflictSentence(count, year), YEAR_GENERAL_CAVEAT)
  {
    ContainsMiddle("context, ", YEAR_GENERAL_CAVEAT, " in it.");
    assert "context, " + YEAR_GENERAL_CAVEAT + " in it." == "context, " + (YEAR_GENERAL_CAVEAT + " in it.");
    ContainsLast(". This is annual ", "context, " + (YEAR_GENERAL_CAVEAT + " in it."), YEAR_GENERAL_CAVEAT);
    ContainsLast(Digits(year), ConflictTail(), YEAR_GENERAL_CAVEAT);
    ContainsLast(ConflictHead(count) + "active at some point in ", Digits(year) + ConflictTail(), YEAR_GENERAL_CAVEAT);
  }

  /** The conflict statement is honest of any date of its year; its status has to be something other than MODELED. */
  lemma ConflictIsHonest(f: Figure, page: Page)
    requires 1000 <= page.year <= 9999
    ensures var s := StateConflict(f, page.year);
      (StatusHonest(s) <==> !f.status.Modeled?) && DailyHonest(s, page.year) && ReadsConflict(s)
      && ConflictHonest(s, page)
  {
    var text := ConflictSentence(f.amount, page.year);
    ConflictIsClear(f.amount, page.year);
    NoClaim(text, Claiming);
    ClearOf(text, Claiming, "average daily", 0);
    C.MournsNothing(text);
    YearReadsBack(f.amount, page.year);
    CountReadsBack(f.amount, page.year);
    SaysConflict(f.amount, page.year);
    SaysCaveat(f.amount, page.year);
  }

  lemma ComparisonIsHonest(p: Comparing, year: nat)
    requires p.ranking.rank <= 99
    ensures var s := StateComparison(p);
      (StatusHonest(s) <==> !p.status.Modeled?) && DailyHonest(s, year) && C.Fair(AsComparison(s))
  {
    var text := C.Sentence(p.count, p.ranking);
    C.SentenceIsClear(p.count, p.ranking, Claiming);
    NoClaim(text, Claiming);
    ClearOf(text, Claiming, "average daily", 0);
    C.DerivedComparisonIsFair(p.count, p.ranking, MODEL_CARD);
  }

  // ---- The page --------------------------------------------------------------------------

  lemma ReasonIsUsable()
    ensures Ed.StripLeft(UNSUPPORTED_REASON) != ""
  {
    assert UNSUPPORTED_REASON[0] == 'T';
  }

  /** What is not supported holds nothing. */
  lemma UnsupportedIsEmpty(key: Section, year: nat, month: nat, day: nat, c: YearContent)
    requires YearContentOk(c) && 1 <= month <= 12 && StateOf(key, c) == NotYetSupported(UNSUPPORTED_REASON)
    ensures Holding(key, year, month, day, c) == []
  {
  }

  lemma AnnualSectionsAreFilled(year: nat, month: nat, day: nat, c: YearContent)
    requires YearContentOk(c) && 1 <= month <= 12
    ensures Holding(TypicalDayInThisYear, year, month, day, c) != []
    ensures Holding(WiderHistoricalContext, year, month, day, c) != []
  {
    assert |Typical(year, month, day, c)| == 2 && |Wider(year, c)| >= 3;
  }

  lemma AnnualIsFilled(page: Page, year: nat, month: nat, day: nat, c: YearContent)
    requires YearContentOk(c) && 1 <= month <= 12 && page.sections == PageSections(year, month, day, c)
    ensures AnnualOk(page)
  {
    AnnualSectionsAreFilled(year, month, day, c);
    forall k | 0 <= k < |ANNUAL_CONTEXT_SECTIONS| ensures Filled(page, ANNUAL_CONTEXT_SECTIONS[k]) {
      assert ANNUAL_CONTEXT_SECTIONS[k] in SECTION_KEYS;
    }
  }

  lemma KeysAreOk(year: nat, month: nat, day: nat, c: YearContent)
    requires YearContentOk(c) && 1 <= month <= 12
    ensures KeysOk(BuildPage(year, month, day, c), SECTION_KEYS)
  {
    var page := BuildPage(year, month, day, c);
    assert page.sections.Keys == SECTION_KEYS && page.states.Keys == SECTION_KEYS;
    ReasonIsUsable();
    forall key | key in SECTION_KEYS ensures KeyOk(page, SECTION_KEYS, key) {
      assert page.states[key] == StateOf(key, c) && On(page, key) == Holding(key, year, month, day, c);
      if page.states[key].NotYetSupported? { UnsupportedIsEmpty(key, year, month, day, c); }
    }
  }

  lemma NothingIsDateSpecific(key: Section, year: nat, month: nat, day: nat, c: YearContent, i: nat)
    requires YearContentOk(c) && 1 <= month <= 12 && i < |Holding(key, year, month, day, c)|
    requires key.CuratedClaims? || key.DerivedComparisons? || key.WonderAndProgress?
    ensures !DateSpecific(Holding(key, year, month, day, c)[i])
  {
  }

  /** A year's content makes no date's page richer than context. */
  lemma TierIsContextOnly(year: nat, month: nat, day: nat, c: YearContent)
    requires YearContentOk(c) && 1 <= month <= 12
    ensures BuildPage(year, month, day, c).tier.ContextOnly? && TierOk(BuildPage(year, month, day, c))
  {
    var sections := PageSections(year, month, day, c);
    forall key, i
      | key in {CuratedClaims, DerivedComparisons, WonderAndProgress} && key in sections && 0 <= i < |sections[key]|
      ensures !DateSpecific(sections[key][i])
    {
      NothingIsDateSpecific(key, year, month, day, c, i);
    }
    assert sections[RecordedOnThisDate] == Holding(RecordedOnThisDate, year, month, day, c);
  }

  /** All the canary asks of a statement of this section, but for its status. */
  predicate HonestIn(s: PageStatement, page: Page, key: Section) {
    && DailyHonest(s, page.year)
    && (key.WiderHistoricalContext? && ReadsConflict(s) ==> ConflictHonest(s, page))
    && (key.DerivedComparisons? ==> C.Fair(AsComparison(s)))
  }

  /** The i-th wider statement's status is one its sentence can say. */
  predicate WiderSayable(c: YearContent, i: nat) {
    if i == 0 then Sayable(c.population.status)
    else if i == 1 then Sayable(c.lifeExpectancy.status)
    else if i == 2 then Sayable(c.underFive.status)
    else c.conflicts.Some? ==> !c.conflicts.value.status.Modeled?
  }

  lemma WiderContextIsHonest(page: Page, c: YearContent, i: nat)
    requires i < 3
    ensures StatusHonest(Wider(page.year, c)[i]) <==> WiderSayable(c, i)
    ensures HonestIn(Wider(page.year, c)[i], page, WiderHistoricalContext)
  {
    var year := page.year;
    if i == 0 {
      PopulationIsClear(year, c.population);
      ContextIsHonest(c.population.status, PopulationRest(year, c.population), year);
    } else if i == 1 {
      LifeIsClear(year, c.lifeExpectancy);
      ContextIsHonest(c.lifeExpectancy.status, LifeRest(year, c.lifeExpectancy), year);
    } else {
      UnderFiveIsClear(year, c.underFive);
      ContextIsHonest(c.underFive.status, UnderFiveRest(year, c.underFive), year);
    }
  }

  lemma WiderIsHonest(page: Page, c: YearContent, i: nat)
    requires 1000 <= page.year <= 9999 && i < |Wider(page.year, c)|
    ensures StatusHonest(Wider(page.year, c)[i]) <==> WiderSayable(c, i)
    ensures HonestIn(Wider(page.year, c)[i], page, WiderHistoricalContext)
  {
    if i < 3 { WiderContextIsHonest(page, c, i); } else { ConflictIsHonest(c.conflicts.value, page); }
  }

  /** The status the i-th statement of a section rests on is one its sentence can say. */
  predicate SayableAt(c: YearContent, key: Section, i: nat) {
    match key
    case WiderHistoricalContext => WiderSayable(c, i)
    case DerivedComparisons => c.conflicts.Some? && c.comparison.Some? ==> !c.comparison.value.status.Modeled?
    case _ => true
  }

  lemma DerivedIsHonest(page: Page, c: YearContent, i: nat)
    requires YearContentOk(c) && i < |ComparisonsOf(c)|
    ensures var s := ComparisonsOf(c)[i];
      (StatusHonest(s) <==> SayableAt(c, DerivedComparisons, i)) && HonestIn(s, page, DerivedComparisons)
  {
    ComparisonIsHonest(c.comparison.value, page.year);
  }

  lemma TypicalIsHonest(page: Page, c: YearContent, i: nat)
    requires YearContentOk(c) && 1 <= page.month <= 12 && i < 2
    ensures var s := Typical(page.year, page.month, page.day, c)[i];
      StatusHonest(s) && HonestIn(s, page, TypicalDayInThisYear)
  {
    if i == 0 { DailyIsHonest(D.Births, page.year, page.month, page.day, c.births); }
    else { DailyIsHonest(D.Deaths, page.year, page.month, page.day, c.deaths); }
  }

  lemma StatementIsHonest(page: Page, c: YearContent, key: Section, i: nat)
    requires YearContentOk(c) && 1 <= page.month <= 12 && 1000 <= page.year <= 9999
    requires i < |Holding(key, page.year, page.month, page.day, c)|
    ensures var s := Holding(key, page.year, page.month, page.day, c)[i];
      (StatusHonest(s) <==> SayableAt(c, key, i)) && HonestIn(s, page, key)
  {
    match key
    case TypicalDayInThisYear => TypicalIsHonest(page, c, i);
    case WiderHistoricalContext => WiderIsHonest(page, c, i);
    case DerivedComparisons => DerivedIsHonest(page, c, i);
    case _ =>
  }

  ghost predicate AllSayableAt(year: nat, month: nat, day: nat, c: YearContent)
    requires YearContentOk(c) && 1 <= month <= 12
  {
    forall key, i: nat :: key in SECTION_KEYS && i < |Holding(key, year, month, day, c)| ==> SayableAt(c, key, i)
  }

  lemma SayableAtAll(year: nat, month: nat, day: nat, c: YearContent)
    requires YearContentOk(c) && 1 <= month <= 12
    ensures AllSayableAt(year, month, day, c) <==> AllSayable(c)
  {
    if AllSayableAt(year, month, day, c) {
      assert SayableAt(c, WiderHistoricalContext, 0) && SayableAt(c, WiderHistoricalContext, 1)
      && SayableAt(c, WiderHistoricalContext, 2);
      if c.conflicts.Some? {
        assert SayableAt(c, WiderHistoricalContext, 3);
        if c.comparison.Some? { assert SayableAt(c, DerivedComparisons, 0); }
      }
    }
  }

  /** The statuses of all a page's statements, told by where they stand. */
  lemma StatementsHonestIff(page: Page, year: nat, month: nat, day: nat, c: YearContent)
    requires YearContentOk(c) && 1 <= month <= 12 && 1000 <= year <= 9999 && page == BuildPage(year, month, day, c)
    requires page.sections == PageSections(year, month, day, c)
    ensures StatementsHonest(page) <==> AllSayableAt(year, month, day, c)
  {
    forall key, i: nat | key in SECTION_KEYS && i < |page.sections[key]|
      ensures DailyHonest(page.sections[key][i], year)
      ensures StatusHonest(page.sections[key][i]) <==> SayableAt(c, key, i)
    {
      StatementIsHonest(page, c, key, i);
    }
    forall key, i: nat | key in SECTION_KEYS && i < |Holding(key, year, month, day, c)| && StatementsHonest(page)
      ensures SayableAt(c, key, i)
    {
      assert StatusHonest(page.sections[key][i]);
    }
  }

  lemma ConflictsAreHonest(page: Page, year: nat, month: nat, day: nat, c: YearContent)
    requires YearContentOk(c) && 1 <= month <= 12 && 1000 <= year <= 9999 && page == BuildPage(year, month, day, c)
    ensures ConflictsHonest(page)
  {
    forall i | 0 <= i < |On(page, WiderHistoricalContext)| && ReadsConflict(On(page, WiderHistoricalContext)[i])
      ensures ConflictHonest(On(page, WiderHistoricalContext)[i], page)
    {
      StatementIsHonest(page, c, WiderHistoricalContext, i);
    }
  }

  lemma ComparisonsAreFair(page: Page, year: nat, month: nat, day: nat, c: YearContent)
    requires YearContentOk(c) && 1 <= month <= 12 && 1000 <= year <= 9999 && page == BuildPage(year, month, day, c)
    ensures ComparisonsFair(page)
  {
    forall i | 0 <= i < |On(page, DerivedComparisons)| ensures C.Fair(AsComparison(On(page, DerivedComparisons)[i])) {
      StatementIsHonest(page, c, DerivedComparisons, i);
    }
  }

  /**
    The canary passes the page publish_context_profile built, whatever its date and figures, with or without a conflict
    count and a comparison, exactly when its statuses are ones its sentences can say: the context sentences call every
    status but ESTIMATED a projection, and the conflict and comparison sentences call none one.
  */
  lemma BuiltPageIsClean(year: nat, month: nat, day: nat, c: YearContent)
    requires YearContentOk(c) && 1 <= month <= 12 && 1000 <= year <= 9999
    ensures Clean(BuildPage(year, month, day, c), SECTION_KEYS) <==> AllSayable(c)
  {
    KeysAreOk(year, month, day, c);
    TierIsContextOnly(year, month, day, c);
    var page := BuildPage(year, month, day, c);
    AnnualIsFilled(page, year, month, day, c);
    StatementsHonestIff(page, year, month, day, c);
    SayableAtAll(year, month, day, c);
    ConflictsAreHonest(page, year, month, day, c);
    ComparisonsAreFair(page, year, month, day, c);
  }
}
