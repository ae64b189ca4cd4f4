/** A context page: what publish_context_profile puts on it, and what the canary finds wrong with any page. */
module ContextPage {
  import opened Basics
  import opened Prose
  import D = DailyEquivalent
  import C = Comparison
  import Ed = Editorial

  datatype DataStatus = Reported | Estimated | Modeled | Provisional | Final | Missing | Withdrawn

  datatype Assignment =
    | DirectRecord | ReportedFor | Inferred | PeriodContext | UniformPeriodAllocation | ModeledPeriodAllocation
    | EditorialContext | Unknown

  /** The details the checks read; any of them may be missing. */
  datatype Details = Details(
    assignment: Option<Assignment>, status: Option<DataStatus>, daysInYear: Option<nat>, average: Option<int>,
    value: Option<int>, cohortSize: Option<int>, modelCard: string)

  const NO_DETAILS := Details(None, None, None, None, None, None, "")

  datatype PageStatement = PageStatement(text: string, note: string, details: Details, derivedRoot: bool)

  datatype State = Available | NotYetSupported(reason: string) | OtherState(status: string)

  /** What a reader is served: the artifact, with its manifest's tier. */
  datatype Page = Page(
    year: nat, month: nat, day: nat, sections: map<Section, seq<PageStatement>>, states: map<Section, State>,
        tier: Tier)

  const SECTION_KEYS: set<Section> := {
    RecordedOnThisDate, TypicalDayInThisYear, WiderHistoricalContext, CuratedClaims, DerivedComparisons,
    WonderAndProgress, EvidenceNotes}

  const ANNUAL_CONTEXT_SECTIONS := [TypicalDayInThisYear, WiderHistoricalContext]

  function On(page: Page, key: Section): seq<PageStatement> {
    if key in page.sections then page.sections[key] else []
  }

  /** Of a section and its state; the annual sections and the tier; a status; a daily equivalent; a count; a comparison. */
  datatype PageIssue =
    | NotASection | MissingSection | NoState | UnsupportedContent | NoReason | UnknownState
    | EmptyAnnual | RecordedOnContextOnly | NoRecordedOnEnriched
    | Unprojected | FalselyProjected
    | Unmarked | Daily(D.DailyIssue)
    | Unplaced | Undisclaimed | NoYear | WrongYear | NoCount | WrongCount | Mourns(string)
    | Compared(C.ComparisonIssue)

  // ---- Sections and tier -----------------------------------------------------------------

  /** What is wrong with one key of the sections, the states, or the contract. */
  function KeyIssues(page: Page, required: set<Section>, key: Section): seq<PageIssue> {
    if key !in SECTION_KEYS then [NotASection]
    else if key !in page.sections && key in required then [MissingSection]
    else if key !in page.states then [NoState]
    else match page.states[key]
      case Available => []
      case OtherState(_) => [UnknownState]
      case NotYetSupported(reason) =>
        (if On(page, key) != [] then [UnsupportedContent] else []) +
            (if Ed.StripLeft(reason) == "" then [NoReason] else [])
  }

  /** A contract section, there when required, whose state admits what it holds. */
  predicate KeyOk(page: Page, required: set<Section>, key: Section) {
    && key in SECTION_KEYS && (key in required ==> key in page.sections) && key in page.states
    && match page.states[key]
       case Available => true
       case OtherState(_) => false
       case NotYetSupported(reason) => On(page, key) == [] && Ed.StripLeft(reason) != ""
  }

  predicate AnnualOk(page: Page) {
    forall k :: 0 <= k < |ANNUAL_CONTEXT_SECTIONS| ==> Filled(page, ANNUAL_CONTEXT_SECTIONS[k])
  }

  predicate Filled(page: Page, key: Section) {
    key in page.states && page.states[key].Available? ==> On(page, key) != []
  }

  predicate TierOk(page: Page) {
    && (page.tier.ContextOnly? ==> On(page, RecordedOnThisDate) == [])
    && (page.tier.Enriched? ==> On(page, RecordedOnThisDate) != [])
  }

  predicate KeysOk(page: Page, required: set<Section>) {
    forall key :: key in required + page.sections.Keys + page.states.Keys ==> KeyOk(page, required, key)
  }

  method ValidateShape(page: Page, required: set<Section>) returns (issues: seq<PageIssue>)
    ensures issues == [] <==> KeysOk(page, required) && AnnualOk(page) && TierOk(page)
  {
    var keys := required + page.sections.Keys + page.states.Keys;
    var left := keys;
    issues := [];
    while left != {}
      invariant left <= keys
      invariant issues == [] <==> forall key :: key in keys - left ==> KeyOk(page, required, key)
      decreases left
    {
      var key :| key in left;
      issues := issues + KeyIssues(page, required, key);
      assert keys - (left - {key}) == (keys - left) + {key};
      left := left - {key};
    }
    assert keys - left == keys;
    for k := 0 to |ANNUAL_CONTEXT_SECTIONS|
      invariant issues == [] <==>
        KeysOk(page, required) && forall j :: 0 <= j < k ==> Filled(page, ANNUAL_CONTEXT_SECTIONS[j])
    {
      if !Filled(page, ANNUAL_CONTEXT_SECTIONS[k]) { issues := issues + [EmptyAnnual]; }
    }
    var recorded := On(page, RecordedOnThisDate) != [];
    if page.tier.ContextOnly? && recorded { issues := issues + [RecordedOnContextOnly]; }
    if page.tier.Enriched? && !recorded { issues := issues + [NoRecordedOnEnriched]; }
  }

  // ---- Each statement --------------------------------------------------------------------

  const PROJECTION_WORDS := ["projection", "projects", "projected"]

  predicate ClaimsProjection(text: string) {
    !C.SaysNone(text, PROJECTION_WORDS)
  }

  /** A modeled number says so, and no other number claims to be one. */
  predicate StatusHonest(s: PageStatement) {
    s.details.status.Some? ==> (s.details.status.value.Modeled? <==> ClaimsProjection(s.text))
  }

  /** _validate_data_status. */
  function StatusIssues(s: PageStatement): (issues: seq<PageIssue>)
    ensures issues == [] <==> StatusHonest(s)
  {
    if s.details.status.None? then []
    else if s.details.status.value.Modeled? && !ClaimsProjection(s.text) then [Unprojected]
    else if !s.details.status.value.Modeled? && ClaimsProjection(s.text) then [FalselyProjected]
    else []
  }

  predicate Marked(s: PageStatement) {
    s.details.assignment == Some(UniformPeriodAllocation)
  }

  predicate ReadsDaily(s: PageStatement) {
    Contains(Lower(s.text), "average daily")
  }

  function AsDaily(s: PageStatement): D.DailyStatement {
    D.DailyStatement(s.text, s.details.daysInYear, s.details.average, s.note)
  }

  /** A daily equivalent is marked, and tells one true number. */
  predicate DailyHonest(s: PageStatement, year: nat) {
    if Marked(s) then D.Honest(AsDaily(s), D.DaysInYear(year), year) else !ReadsDaily(s)
  }

  method ValidateStatement(s: PageStatement, year: nat) returns (issues: seq<PageIssue>)
    ensures issues == [] <==> StatusHonest(s) && DailyHonest(s, year)
  {
    issues := StatusIssues(s);
    if Marked(s) {
      var found := D.ValidateDailyEquivalent(AsDaily(s), D.DaysInYear(year), year);
      issues := issues + seq(|found|, i requires 0 <= i < |found| => Daily(found[i]));
    } else if ReadsDaily(s) {
      issues := issues + [Unmarked];
    }
  }

  predicate StatementsHonest(page: Page) {
    forall key, i :: key in page.sections && 0 <= i < |page.sections[key]| ==>
      StatusHonest(page.sections[key][i]) && DailyHonest(page.sections[key][i], page.year)
  }

  method ValidateStatements(page: Page) returns (issues: seq<PageIssue>)
    ensures issues == [] <==> StatementsHonest(page)
  {
    issues := [];
    var left := page.sections.Keys;
    while left != {}
      invariant left <= page.sections.Keys
      invariant issues == [] <==> forall key, i :: key in page.sections.Keys - left && 0 <= i < |page.sections[key]| ==>
        StatusHonest(page.sections[key][i]) && DailyHonest(page.sections[key][i], page.year)
      decreases left
    {
      var key :| key in left;
      var found := ValidateAll(page.sections[key], page.year);
      issues := issues + found;
      left := left - {key};
    }
  }

  method ValidateAll(statements: seq<PageStatement>, year: nat) returns (issues: seq<PageIssue>)
    ensures issues == [] <==>
      forall i :: 0 <= i < |statements| ==> StatusHonest(statements[i]) && DailyHonest(statements[i], year)
  {
    issues := [];
    for k := 0 to |statements|
      invariant issues == [] <==>
        forall i :: 0 <= i < k ==> StatusHonest(statements[i]) && DailyHonest(statements[i], year)
    {
      var found := ValidateStatement(statements[k], year);
      issues := issues + found;
    }
  }

  // ---- The conflict statement ------------------------------------------------------------

  const CONFLICT_TEXT := "state-based " + "armed conflicts"
  const YEAR_GENERAL_CAVEAT := "not a count for " + "any single date"

  /** active at some point in (\d{4}) */
  const STATED_YEAR: seq<Piece> := [Fixed("active at some point in ")] + ([Counted(DigitChars, 4)] + [])

  /** records (\d+) state-based armed conflicts */
  const STATED_COUNT: seq<Piece> := [Fixed("records ")] + RunThen(DigitChars, " " + CONFLICT_TEXT, [])

  const MONTH_NAMES := [
    "January", "February", "March", "April", "May", "June", "July", "August", "September", "October", "November",
        "December"]

  predicate IsUpper(c: char) {
    'A' <= c <= 'Z'
  }

  function LowerRun(text: string, k: nat): string
    decreases |text| - k
  {
    if k < |text| && 'a' <= text[k] <= 'z' then [text[k]] + LowerRun(text, k + 1) else ""
  }

  /** A space and (\d{1,2}) count, after a name. */
  function DayAt(text: string, after: nat, name: string): Option<(string, nat)> {
    var days := RunFrom(text, after + 1, DigitChars);
    if StartsAt(text, after, " ") && 1 <= |days| <= 2 && StartsAt(text, after + 1 + |days|, " count")
    then Some((name, Value(days)))
    else None
  }

  /** ([A-Z][a-z]+) (\d{1,2}) count, at this place. */
  function DateAt(text: string, at: nat): Option<(string, nat)> {
    if at >= |text| || !IsUpper(text[at]) then None
    else
      var rest := LowerRun(text, at + 1);
      if rest == "" then None else DayAt(text, at + 1 + |rest|, [text[at]] + rest)
  }

  /** The same after "not a " or "not an ". */
  function CaveatAt(text: string, k: nat): Option<(string, nat)> {
    if StartsAt(text, k, "not a ") then DateAt(text, k + 6)
    else if StartsAt(text, k, "not an ") then DateAt(text, k + 7)
    else None
  }

  function FirstCaveat(text: string, k: nat): Option<(string, nat)>
    decreases |text| - k
  {
    var here := CaveatAt(text, k);
    if here.Some? || k >= |text| then here else FirstCaveat(text, k + 1)
  }

  /** _disclaims_this_date: the count is the year's, said in general or of this very date. */
  predicate DisclaimsThisDate(text: string, month: nat, day: nat) {
    || Contains(text, YEAR_GENERAL_CAVEAT)
    || (var named := FirstCaveat(text, 0);
        named.Some? && 1 <= month <= 12 && MONTH_NAMES[month - 1] == named.value.0 && day == named.value.1)
  }

  function StatedYear(text: string): Option<nat> {
    var found := Search(text, STATED_YEAR, 0);
    if found.None? || found.value == [] then None else Some(Value(found.value[0]))
  }

  function StatedCount(text: string): Option<nat> {
    var found := Search(text, STATED_COUNT, 0);
    if found.None? || found.value == [] then None else Some(Value(found.value[0]))
  }

  predicate ReadsConflict(s: PageStatement) {
    Contains(Lower(s.text), CONFLICT_TEXT)
  }

  /** Period context, disclaiming the date, of this year, saying the count it displays, and nothing of deaths. */
  predicate ConflictHonest(s: PageStatement, page: Page) {
    && s.details.assignment == Some(PeriodContext) && DisclaimsThisDate(s.text, page.month, page.day)
    && StatedYear(s.text) == Some(page.year)
    && StatedCount(s.text).Some? && s.details.value == Some(StatedCount(s.text).value)
    && C.SaysNone(s.text, C.MORTALITY_WORDS)
  }

  /** _validate_conflict_context. */
  method ValidateConflict(s: PageStatement, page: Page) returns (issues: seq<PageIssue>)
    ensures issues == [] <==> ConflictHonest(s, page)
  {
    issues := [];
    if s.details.assignment != Some(PeriodContext) { issues := issues + [Unplaced]; }
    if !DisclaimsThisDate(s.text, page.month, page.day) { issues := issues + [Undisclaimed]; }
    var year := StatedYear(s.text);
    if year.None? { issues := issues + [NoYear]; } else if year.value != page.year { issues := issues + [WrongYear]; }
    var count := StatedCount(s.text);
    if count.None? {
      issues := issues + [NoCount];
    } else if s.details.value != Some(count.value) {
      issues := issues + [WrongCount];
    }
    var said := C.WordsSaid(s.text, C.MORTALITY_WORDS);
    issues := issues + seq(|said|, i requires 0 <= i < |said| => Mourns(said[i]));
  }

  predicate ConflictsHonest(page: Page) {
    forall i :: 0 <= i < |On(page, WiderHistoricalContext)| && ReadsConflict(On(page, WiderHistoricalContext)[i]) ==>
      ConflictHonest(On(page, WiderHistoricalContext)[i], page)
  }

  method ValidateConflicts(page: Page) returns (issues: seq<PageIssue>)
    ensures issues == [] <==> ConflictsHonest(page)
  {
    issues := [];
    var wider := On(page, WiderHistoricalContext);
    for k := 0 to |wider|
      invariant issues == [] <==> forall i :: 0 <= i < k && ReadsConflict(wider[i]) ==> ConflictHonest(wider[i], page)
    {
      if ReadsConflict(wider[k]) {
        var found := ValidateConflict(wider[k], page);
        issues := issues + found;
      }
    }
  }

  // ---- The comparison --------------------------------------------------------------------

  function AsComparison(s: PageStatement): C.ComparisonStatement {
    C.ComparisonStatement(s.text, s.details.value, s.details.cohortSize, s.derivedRoot, s.details.modelCard)
  }

  predicate ComparisonsFair(page: Page) {
    forall i :: 0 <= i < |On(page, DerivedComparisons)| ==> C.Fair(AsComparison(On(page, DerivedComparisons)[i]))
  }

  method ValidateComparisons(page: Page) returns (issues: seq<PageIssue>)
    ensures issues == [] <==> ComparisonsFair(page)
  {
    issues := [];
    var derived := On(page, DerivedComparisons);
    for k := 0 to |derived|
      invariant issues == [] <==> forall i :: 0 <= i < k ==> C.Fair(AsComparison(derived[i]))
    {
      var found := C.ValidateComparison(AsComparison(derived[k]));
      issues := issues + seq(|found|, i requires 0 <= i < |found| => Compared(found[i]));
    }
  }

  // ---- The page --------------------------------------------------------------------------

  /** Nothing a reader would notice is wrong. */
  predicate Clean(page: Page, required: set<Section>) {
    && KeysOk(page, required) && AnnualOk(page) && TierOk(page)
    && StatementsHonest(page) && ConflictsHonest(page) && ComparisonsFair(page)
  }

  /** _validate_payload. */
  method ValidatePayload(page: Page, required: set<Section>) returns (issues: seq<PageIssue>)
    ensures issues == [] <==> Clean(page, required)
  {
    var shape := ValidateShape(page, required);
    var statements := ValidateStatements(page);
    var conflicts := ValidateConflicts(page);
    var comparisons := ValidateComparisons(page);
    issues := shape + statements + conflicts + comparisons;
  }

  /** validate_context_payload. */
  method ValidateContextPayload(page: Page) returns (issues: seq<PageIssue>)
    ensures issues == [] <==> Clean(page, SECTION_KEYS)
  {
    issues := ValidatePayload(page, SECTION_KEYS);
  }
}
