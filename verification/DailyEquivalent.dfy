/** An annual total told as a daily number: how it is rounded and worded, and how the canary reads it back. */
module DailyEquivalent {
  import opened Basics
  import opened CalendarDistance
  import opened Prose

  function DaysInYear(year: nat): (n: nat)
    ensures n > 0
  {
    if Leap(year) then 366 else 365
  }

  /** Decimal.quantize(Decimal("1"), ROUND_HALF_UP), for values that are not negative. */
  function RoundHalfUp(x: real): int {
    (x + 0.5).Floor
  }

  /** An annual total in thousands, per day of its year. */
  function Daily(thousands: real, year: nat): int {
    RoundHalfUp(thousands * 1000.0 / DaysInYear(year) as real)
  }

  /**
    The daily number times the days of the year is the annual total to within half a day's rounding, halves
    going up.
  */
  lemma DailyIsTheNearest(thousands: real, year: nat)
    requires thousands >= 0.0
    ensures var (daily, days) := (Daily(thousands, year), DaysInYear(year) as real);
      daily >= 0 && (daily as real - 0.5) * days <= thousands * 1000.0 < (daily as real + 0.5) * days
  {
    var days := DaysInYear(year) as real;
    var x := thousands * 1000.0 / days;
    var daily := Daily(thousands, year);
    assert x >= 0.0 && x * days == thousands * 1000.0;
    assert daily as real - 0.5 <= x < daily as real + 0.5;
    ScaledBounds(daily as real - 0.5, x, daily as real + 0.5, days);
  }

  lemma ScaledBounds(low: real, x: real, high: real, days: real)
    requires low <= x < high && days > 0.0
    ensures low * days <= x * days < high * days
  {
  }

  // ---- What the publisher writes ---------------------------------------------------------

  datatype Kind = Births | Deaths

  /** What of a statement the daily checks read; a detail may be missing. */
  datatype DailyStatement = DailyStatement(text: string, daysInYear: Option<nat>, average: Option<int>, note: string)

  function Opening(kind: Kind): string {
    if kind.Births? then "Average daily births in " else "Average daily deaths in "
  }

  function Qualifier(projection: bool): string {
    if projection then ", based on the UN WPP " + "medium-variant " + "projection" else ""
  }

  function Opens(kind: Kind, year: nat, projection: bool): string {
    Opening(kind) + Digits(year) + Qualifier(projection) + ": "
  }

  function Closes(dateLabel: string): string {
    ". This is an average " + "daily equivalent " + "based on the annual " + "total, " +
        ("not an observation" + (" for " + dateLabel + "."))
  }

  function NoteBefore(projection: bool): string {
    if projection then "UN WPP medium-variant " + "projected annual value " else "UN WPP annual value "
  }

  /** One of the two typical-day statements build_un_wpp_profile_content writes. */
  function Build(kind: Kind, year: nat, thousands: real, projection: bool, dateLabel: string): DailyStatement
    requires thousands >= 0.0
  {
    DailyIsTheNearest(thousands, year);
    var daily := Daily(thousands, year);
    DailyStatement(
      Opens(kind, year, projection) + "about " + (Grouped(daily) + Closes(dateLabel)),
      Some(DaysInYear(year)), Some(daily),
      NoteBefore(projection) + "divided by " + (Digits(DaysInYear(year)) + (" days" + "; not date-specific.")))
  }

  // ---- What the canary checks ------------------------------------------------------------

  datatype DailyIssue = WrongDays | NoDenominator | WrongDenominator | NoDisclaimer | NoCount | WrongCount | NoYear

  /** about ([\d,]+) */
  const DISPLAYED_COUNT: seq<Piece> := [Fixed("about ")] + ([Captured(CountChars)] + [])

  /** divided by (\d+) days */
  const DENOMINATOR: seq<Piece> := [Fixed("divided by ")] + RunThen(DigitChars, " days", [])

  /** _displayed_count: the count a reader sees. */
  function DisplayedCount(text: string): Option<nat> {
    var found := Search(text, DISPLAYED_COUNT, 0);
    if found.None? || found.value == [] then None else ReadNumber(WithoutCommas(found.value[0]))
  }

  function StatedDays(note: string): Option<nat> {
    var found := Search(note, DENOMINATOR, 0);
    if found.None? || found.value == [] then None else Some(Value(found.value[0]))
  }

  /** The statement tells one consistent, true number and says what it is not. */
  predicate Honest(s: DailyStatement, expectedDays: nat, year: nat) {
    && s.daysInYear == Some(expectedDays) && StatedDays(s.note) == Some(expectedDays)
    && Contains(Lower(s.text), "not an observation")
    && (s.average.Some? ==> DisplayedCount(s.text).Some? && DisplayedCount(s.text).value == s.average.value)
    && Contains(s.text, Digits(year))
  }

  /** _validate_daily_equivalent. */
  method ValidateDailyEquivalent(s: DailyStatement, expectedDays: nat, year: nat) returns (issues: seq<DailyIssue>)
    ensures issues == [] <==> Honest(s, expectedDays, year)
  {
    issues := [];
    if s.daysInYear != Some(expectedDays) { issues := issues + [WrongDays]; }
    var prose := StatedDays(s.note);
    if prose.None? {
      issues := issues + [NoDenominator];
    } else if prose.value != expectedDays {
      issues := issues + [WrongDenominator];
    }
    if !Contains(Lower(s.text), "not an observation") { issues := issues + [NoDisclaimer]; }
    var displayed := DisplayedCount(s.text);
    if s.average.Some? {
      if displayed.None? {
        issues := issues + [NoCount];
      } else if displayed.value != s.average.value {
        issues := issues + [WrongCount];
      }
    }
    if !Contains(s.text, Digits(year)) { issues := issues + [NoYear]; }
  }

  // ---- They agree ------------------------------------------------------------------------

  predicate TwoAt(text: string, k: nat, a: char, b: char) {
    k + 2 <= |text| && text[k] == a && text[k + 1] == b
  }

  lemma StartsWithTwo(text: string, k: nat, word: string)
    requires |word| >= 2 && StartsAt(text, k, word)
    ensures TwoAt(text, k, word[0], word[1])
  {
    StartsAtChars(text, k, word);
    assert text[k + 0] == word[0] && text[k + 1] == word[1];
  }

  lemma AvoidsAB(text: string)
    requires forall k: nat :: !TwoAt(text, k, 'a', 'b')
    ensures Avoids(text, "ab")
  {
    forall k: nat ensures !StartsAt(text, k, "ab") {
      if StartsAt(text, k, "ab") { StartsWithTwo(text, k, "ab"); }
    }
  }

  lemma OpeningAvoids(kind: Kind)
    ensures Avoids(Opening(kind), "ab")
  {
    AvoidsAB(Opening(kind));
  }

  lemma QualifierAvoids(projection: bool)
    ensures Avoids(Qualifier(projection), "ab")
  {
    AvoidsAB(", based on the UN WPP ");
    AvoidsAB("medium-variant ");
    AvoidsAB("projection");
    AvoidsAB("");
    AvoidsTogether(", based on the UN WPP ", "medium-variant ", "ab");
    AvoidsTogether(", based on the UN WPP " + "medium-variant ", "projection", "ab");
  }

  lemma BeforeAvoids(kind: Kind, year: nat, projection: bool)
    ensures Avoids(Opens(kind, year, projection) + "a", "ab")
  {
    var opening, digits, qualifier := Opening(kind), Digits(year), Qualifier(projection);
    DigitsReadBack(year);
    OpeningAvoids(kind);
    DigitsAvoid(digits, "ab");
    QualifierAvoids(projection);
    AvoidsAB(": ");
    AvoidsAB("a");
    assert digits[0] != 'b' && (qualifier != "" ==> qualifier[0] == ',');
    AvoidsTogether(opening, digits, "ab");
    AvoidsTogether(opening + digits, qualifier, "ab");
    AvoidsTogether(opening + digits + qualifier, ": ", "ab");
    AvoidsTogether(Opens(kind, year, projection), "a", "ab");
  }

  /** The comma-grouped count in the sentence is found, and reads back as the derived value. */
  lemma CountReadsBack(kind: Kind, year: nat, projection: bool, daily: nat, after: string)
    requires after != "" && !IsCountChar(after[0])
    ensures DisplayedCount(Opens(kind, year, projection) + "about " + (Grouped(daily) + after)) == Some(daily)
  {
    GroupedReadsBack(daily);
    BeforeAvoids(kind, year, projection);
    assert "about "[..1] == "a" && "about "[..2] == "ab";
    CaptureOne(Opens(kind, year, projection), "about ", Grouped(daily), after, CountChars, 2);
  }

  predicate ThreeAt(text: string, k: nat, a: char, b: char, c: char) {
    k + 3 <= |text| && text[k] == a && text[k + 1] == b && text[k + 2] == c
  }

  lemma StartsWithThree(text: string, k: nat, word: string)
    requires |word| >= 3 && StartsAt(text, k, word)
    ensures ThreeAt(text, k, word[0], word[1], word[2])
  {
    StartsAtChars(text, k, word);
    assert text[k + 0] == word[0] && text[k + 1] == word[1] && text[k + 2] == word[2];
  }

  lemma AvoidsDiv(text: string)
    requires forall k: nat :: !ThreeAt(text, k, 'd', 'i', 'v')
    ensures Avoids(text, "div")
  {
    forall k: nat ensures !StartsAt(text, k, "div") {
      if StartsAt(text, k, "div") { StartsWithThree(text, k, "div"); }
    }
  }

  lemma NoteAvoids(projection: bool)
    ensures Avoids(NoteBefore(projection) + "di", "div")
  {
    AvoidsDiv("UN WPP medium-variant ");
    AvoidsDiv("projected annual value ");
    AvoidsDiv("UN WPP annual value ");
    AvoidsDiv("di");
    AvoidsTogether("UN WPP medium-variant ", "projected annual value ", "div");
    AvoidsTogether(NoteBefore(projection), "di", "div");
  }

  lemma DaysReadBack(projection: bool, days: nat, after: string)
    ensures StatedDays(NoteBefore(projection) + "divided by " + (Digits(days) + (" days" + after))) == Some(days)
  {
    DigitsReadBack(days);
    NoteAvoids(projection);
    assert "divided by "[..2] == "di" && "divided by "[..3] == "div";
    CaptureThen(NoteBefore(projection), "divided by ", Digits(days), " days", after, DigitChars, 3);
  }

  lemma NamesItsYear(kind: Kind, year: nat, projection: bool, rest: string)
    ensures Contains(Opens(kind, year, projection) + "about " + rest, Digits(year))
  {
    ContainsMiddle(Opening(kind), Digits(year), Qualifier(projection));
    ContainsFirst(Opening(kind) + Digits(year) + Qualifier(projection), ": ", Digits(year));
    ContainsFirst(Opens(kind, year, projection), "about ", Digits(year));
    ContainsFirst(Opens(kind, year, projection) + "about ", rest, Digits(year));
  }

  lemma AfterBegins(dateLabel: string)
    ensures Closes(dateLabel) != "" && Closes(dateLabel)[0] == '.'
  {
    assert ". This is an average "[0] == '.';
  }

  lemma AfterDisclaims(dateLabel: string)
    ensures Contains(Lower(Closes(dateLabel)), "not an observation")
  {
    var lead := ". This is an average " + "daily equivalent " + "based on the annual " + "total, ";
    var rest := " for " + dateLabel + ".";
    assert Closes(dateLabel) == lead + "not an observation" + rest;
    LowerTogether(lead + "not an observation", rest);
    LowerTogether(lead, "not an observation");
    assert Lower("not an observation") == "not an observation";
    ContainsMiddle(Lower(lead), "not an observation", Lower(rest));
  }

  lemma Disclaims(before: string, run: string, dateLabel: string)
    ensures Contains(Lower(before + (run + Closes(dateLabel))), "not an observation")
  {
    AfterDisclaims(dateLabel);
    LowerTogether(run, Closes(dateLabel));
    LowerTogether(before, run + Closes(dateLabel));
    ContainsLast(Lower(run), Lower(Closes(dateLabel)), "not an observation");
    ContainsLast(Lower(before), Lower(run + Closes(dateLabel)), "not an observation");
  }

  /** Whatever the year, the total, and whether it is a projection: what the publisher writes, the canary passes. */
  lemma ProducedIsHonest(kind: Kind, year: nat, thousands: real, projection: bool, dateLabel: string)
    requires thousands >= 0.0
    ensures Honest(Build(kind, year, thousands, projection, dateLabel), DaysInYear(year), year)
  {
    DailyIsTheNearest(thousands, year);
    var daily: nat := Daily(thousands, year);
    AfterBegins(dateLabel);
    CountReadsBack(kind, year, projection, daily, Closes(dateLabel));
    DaysReadBack(projection, DaysInYear(year), "; not date-specific.");
    NamesItsYear(kind, year, projection, Grouped(daily) + Closes(dateLabel));
    Disclaims(Opens(kind, year, projection) + "about ", Grouped(daily), dateLabel);
  }
}
