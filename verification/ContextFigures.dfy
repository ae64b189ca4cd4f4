/** What the numbers on a context page are numbers of. */
module ContextFigures {
  import opened Basics
  import opened Prose
  import opened ContextPage
  import opened ContextPublication
  import D = DailyEquivalent
  import C = Comparison

  // ---- Daily equivalents -----------------------------------------------------------------

  function DaysOf(year: nat): nat {
    if year % 4 == 0 && (year % 100 != 0 || year % 400 == 0) then 366 else 365
  }

  /** The whole number nearest to a thousandfold total per day, halves going up. */
  predicate Nearest(n: int, thousands: real, days: nat) {
    (n as real - 0.5) * days as real <= thousands * 1000.0 < (n as real + 0.5) * days as real
  }

  /**
    Under these words, of this year, the number a reader sees and the number recorded are the annual total's, per day,
    and are said not to be this date's.
  */
  predicate TellsDaily(s: PageStatement, words: string, annual: Annual, year: nat, month: nat, day: nat)
    requires 1 <= month <= 12
  {
    && StartsAt(s.note, 0, if annual.status.Modeled? then "UN WPP medium-variant " else "UN WPP annual value ")
    && Contains(s.text, "not an observation" + (" for " + (MONTH_NAMES[month - 1] + (" " + Digits(day))) + "."))
    && StartsAt(s.text, 0, words + Digits(year)) && s.details.status == Some(annual.status)
    && s.details.average.Some? && Nearest(s.details.average.value, annual.thousands, DaysOf(year))
    && D.DisplayedCount(s.text).Some? && D.DisplayedCount(s.text).value == s.details.average.value
    && s.details.daysInYear == Some(DaysOf(year))
  }

  lemma StillStarts(a: string, b: string, sub: string)
    requires StartsAt(a, 0, sub)
    ensures StartsAt(a + b, 0, sub)
  {
    assert (a + b)[..|sub|] == a[..|sub|];
  }

  lemma DailyOpens(kind: D.Kind, year: nat, projection: bool, rest: string)
    ensures StartsAt(D.Opens(kind, year, projection) + "about " + rest, 0, D.Opening(kind) + Digits(year))
  {
    var opening := D.Opening(kind) + Digits(year);
    StillStarts(opening, D.Qualifier(projection), opening);
    StillStarts(opening + D.Qualifier(projection), ": ", opening);
    StillStarts(D.Opens(kind, year, projection), "about ", opening);
    StillStarts(D.Opens(kind, year, projection) + "about ", rest, opening);
  }

  lemma DailyDisclaims(kind: D.Kind, year: nat, projection: bool, count: string, dateLabel: string)
    ensures Contains(D.Opens(kind, year, projection) + "about " + (count + D.Closes(dateLabel)),
                     "not an observation" + (" for " + dateLabel + "."))
  {
    var disclaimer := "not an observation" + (" for " + dateLabel + ".");
    ContainsItself(disclaimer);
    ContainsLast(". This is an average " + "daily equivalent " + "based on the annual " + "total, ", disclaimer,
                 disclaimer);
    ContainsLast(count, D.Closes(dateLabel), disclaimer);
    ContainsLast(D.Opens(kind, year, projection) + "about ", count + D.Closes(dateLabel), disclaimer);
  }

  lemma NoteOpens(projection: bool, rest: string)
    ensures StartsAt(D.NoteBefore(projection) + rest, 0,
                     if projection then "UN WPP medium-variant " else "UN WPP annual value ")
  {
    var opening := if projection then "UN WPP medium-variant " else "UN WPP annual value ";
    assert StartsAt(opening, 0, opening);
    if projection { StillStarts(opening, "projected annual value ", opening); }
    StillStarts(D.NoteBefore(projection), rest, opening);
  }

  lemma DailyIsNearest(thousands: real, year: nat)
    requires thousands >= 0.0
    ensures D.Daily(thousands, year) >= 0 && Nearest(D.Daily(thousands, year), thousands, DaysOf(year))
    ensures D.DaysInYear(year) == DaysOf(year)
  {
    D.DailyIsTheNearest(thousands, year);
  }

  lemma DailyTells(kind: D.Kind, year: nat, month: nat, day: nat, annual: Annual)
    requires annual.thousands >= 0.0 && 1 <= month <= 12
    ensures TellsDaily(StateDaily(kind, year, month, day, annual), D.Opening(kind), annual, year, month, day)
  {
    DailyDisclaims(kind, year, annual.status.Modeled?, Grouped(D.Daily(annual.thousands, year)), DateLabel(month, day));
    var closing := D.Closes(DateLabel(month, day));
    DailyIsNearest(annual.thousands, year);
    var daily: nat := D.Daily(annual.thousands, year);
    NoteOpens(annual.status.Modeled?,
              "divided by " + (Digits(D.DaysInYear(year)) + (" days" + "; not date-specific.")));
    D.AfterBegins(DateLabel(month, day));
    D.CountReadsBack(kind, year, annual.status.Modeled?, daily, closing);
    DailyOpens(kind, year, annual.status.Modeled?, Grouped(daily) + closing);
  }

  // ---- Printed figures -------------------------------------------------------------------

  /** Digits with a point before the last so many, which read as this amount when the point is dropped. */
  predicate Prints(figure: string, whole: string, fraction: string, amount: nat, places: nat) {
    && figure == whole + ("." + fraction) && whole != "" && |fraction| == places
    && AllDigits(whole) && AllDigits(fraction) && Value(whole + fraction) == amount
  }

  /** These words, and this amount after them in this unit, stand in the text. */
  ghost predicate TellsDecimal(text: string, one: string, two: string, three: string, amount: nat, places: nat,
                               unit: string)
  {
    exists whole, fraction, figure ::
      Prints(figure, whole, fraction, amount, places) && Contains(text, one + (two + (three + (figure + unit))))
  }

  ghost predicate TellsWhole(text: string, one: string, two: string, three: string, amount: nat, unit: string) {
    exists figure ::
      figure != "" && AllDigits(figure) && Value(figure) == amount
      && Contains(text, one + (two + (three + (figure + unit))))
  }

  lemma OneDigit(d: nat)
    requires d < 10
    ensures Digits(d) == [DigitOf(d)]
  {
  }

  lemma TwoMore(whole: string, a: nat, b: nat)
    requires a < 10 && b < 10
    ensures Value(whole + ([DigitOf(a)] + [DigitOf(b)])) == (Value(whole) * 10 + a) * 10 + b
  {
    ValueThen(whole, a);
    ValueThen(whole + [DigitOf(a)], b);
    assert whole + ([DigitOf(a)] + [DigitOf(b)]) == whole + [DigitOf(a)] + [DigitOf(b)];
  }

  lemma ThousandthsPrint(n: nat)
    ensures Prints(Thousandths(n), Digits(n / 1000), Padded(n % 1000), n, 3)
  {
    var (whole, a, b, c) := (Digits(n / 1000), n % 1000 / 100, n % 1000 / 10 % 10, n % 1000 % 10);
    DigitsReadBack(n / 1000);
    ThreeDigits(n % 1000);
    ValueThen(whole, a);
    ValueThen(whole + [DigitOf(a)], b);
    ValueThen(whole + [DigitOf(a)] + [DigitOf(b)], c);
    assert whole + Padded(n % 1000) == whole + [DigitOf(a)] + [DigitOf(b)] + [DigitOf(c)];
  }

  lemma HundredthsPrint(n: nat)
    ensures Prints(Hundredths(n), Digits(n / 100), [DigitOf(n / 10 % 10)] + [DigitOf(n % 10)], n, 2)
  {
    DigitsReadBack(n / 100);
    OneDigit(n / 10 % 10);
    OneDigit(n % 10);
    TwoMore(Digits(n / 100), n / 10 % 10, n % 10);
    assert n / 10 == n / 100 * 10 + n / 10 % 10;
  }

  lemma ContainsItself(text: string)
    ensures Contains(text, text)
  {
    assert StartsAt(text, 0, text);
  }

  /** What ends a context sentence is in it. */
  lemma SentenceContains(status: DataStatus, words: string, tail: string)
    ensures Contains(ContextText(status, words + tail), tail)
  {
    ContainsItself(tail);
    ContainsLast(words, tail, tail);
    ContainsLast(Verb(status), words + tail, tail);
    ContainsLast("UN WPP ", Verb(status) + (words + tail), tail);
  }

  lemma PopulationTells(year: nat, f: Figure)
    ensures TellsDecimal(ContextText(f.status, PopulationRest(year, f)), Digits(year), " world ",
                         "population at about ", f.amount, 3, " billion.")
  {
    ThousandthsPrint(f.amount);
    SentenceContains(f.status, " the mid-",
                     Digits(year) + (" world " + ("population at about " + (Thousandths(f.amount) + " billion."))));
  }

  lemma LifeTells(year: nat, f: Figure)
    ensures TellsDecimal(ContextText(f.status, LifeRest(year, f)), "birth in ", Digits(year), " at ", f.amount, 2,
                         " years.")
  {
    var tail := "birth in " + (Digits(year) + (" at " + (Hundredths(f.amount) + " years.")));
    HundredthsPrint(f.amount);
    SentenceContains(f.status, " global life " + "expectancy at ", tail);
    Rejoin(" global life ", "expectancy at ", tail);
  }

  lemma Rejoin(a: string, b: string, c: string)
    ensures a + b + c == a + (b + c)
  {
  }

  lemma UnderFiveTells(year: nat, f: Figure)
    ensures TellsWhole(ContextText(f.status, UnderFiveRest(year, f)), Digits(year), " global under-five ",
                       "mortality at about ", f.amount, " deaths per 1,000 " + "live births.")
  {
    DigitsReadBack(f.amount);
    SentenceContains(f.status, " ", Digits(year) + (" global under-five " + ("mortality at about " +
                     (Digits(f.amount) + (" deaths per 1,000 " + "live births.")))));
  }

  // ---- The page --------------------------------------------------------------------------

  lemma SectionHolds(key: Section, year: nat, month: nat, day: nat, c: YearContent)
    requires YearContentOk(c) && 1 <= month <= 12 && key in SECTION_KEYS
    ensures BuildPage(year, month, day, c).sections[key] == Holding(key, year, month, day, c)
  {
    assert PageSections(year, month, day, c)[key] == Holding(key, year, month, day, c);
  }

  /** The two daily statements are the births' and the deaths', each telling its own total. */
  lemma DailyStatementsTellTheirOwn(year: nat, month: nat, day: nat, c: YearContent)
    requires YearContentOk(c) && 1 <= month <= 12
    ensures var typical := BuildPage(year, month, day, c).sections[TypicalDayInThisYear];
      && |typical| == 2
      && TellsDaily(typical[0], "Average daily births in ", c.births, year, month, day)
      && TellsDaily(typical[1], "Average daily deaths in ", c.deaths, year, month, day)
  {
    SectionHolds(TypicalDayInThisYear, year, month, day, c);
    DailyTells(D.Births, year, month, day, c.births);
    DailyTells(D.Deaths, year, month, day, c.deaths);
  }

  /**
    The year's three other figures stand each under its own words, in its own unit, with its own status. A conflict
    statement, there exactly when the year has a count, says and records that count, of that year.
  */
  ghost predicate WiderTells(wider: seq<PageStatement>, year: nat, c: YearContent) {
    && |wider| == 3 + (if c.conflicts.Some? then 1 else 0)
    && TellsPopulation(wider[0], c.population, year) && TellsLife(wider[1], c.lifeExpectancy, year)
    && TellsUnderFive(wider[2], c.underFive, year)
    && (c.conflicts.Some? ==> TellsConflicts(wider[3], c.conflicts.value, year))
  }

  /** Its status, and in the note whether it is an estimate or a projection. */
  predicate TellsStatus(s: PageStatement, status: DataStatus) {
    && s.details.status == Some(status)
    && s.note == if status.Estimated? then "Official annual UN WPP estimate."
                 else "Official annual UN WPP medium projection."
  }

  ghost predicate TellsPopulation(s: PageStatement, f: Figure, year: nat) {
    && TellsDecimal(s.text, Digits(year), " world ", "population at about ", f.amount, 3, " billion.")
    && TellsStatus(s, f.status)
  }

  ghost predicate TellsLife(s: PageStatement, f: Figure, year: nat) {
    && TellsDecimal(s.text, "birth in ", Digits(year), " at ", f.amount, 2, " years.")
    && TellsStatus(s, f.status)
  }

  ghost predicate TellsUnderFive(s: PageStatement, f: Figure, year: nat) {
    && TellsWhole(s.text, Digits(year), " global under-five ", "mortality at about ", f.amount,
                  " deaths per 1,000 " + "live births.")
    && TellsStatus(s, f.status)
  }

  predicate TellsConflicts(s: PageStatement, f: Figure, year: nat) {
    && StatedCount(s.text) == Some(f.amount) && (1000 <= year <= 9999 ==> StatedYear(s.text) == Some(year))
    && s.details.value == Some(f.amount) && s.details.status == Some(f.status)
  }

  lemma ConflictTells(f: Figure, year: nat)
    ensures TellsConflicts(StateConflict(f, year), f, year)
  {
    CountReadsBack(f.amount, year);
    if 1000 <= year <= 9999 { YearReadsBack(f.amount, year); }
  }

  lemma EachTells(year: nat, c: YearContent)
    ensures TellsPopulation(StateContext(c.population.status, PopulationRest(year, c.population)), c.population, year)
    ensures TellsLife(StateContext(c.lifeExpectancy.status, LifeRest(year, c.lifeExpectancy)), c.lifeExpectancy, year)
    ensures TellsUnderFive(StateContext(c.underFive.status, UnderFiveRest(year, c.underFive)), c.underFive, year)
  {
    PopulationTells(year, c.population);
    LifeTells(year, c.lifeExpectancy);
    UnderFiveTells(year, c.underFive);
  }

  lemma FirstThree(year: nat, c: YearContent)
    ensures |Wider(year, c)| == 3 + (if c.conflicts.Some? then 1 else 0)
    ensures Wider(year, c)[..3] ==
      [StateContext(c.population.status, PopulationRest(year, c.population)),
       StateContext(c.lifeExpectancy.status, LifeRest(year, c.lifeExpectancy)),
       StateContext(c.underFive.status, UnderFiveRest(year, c.underFive))]
  {
  }

  lemma Fourth(year: nat, c: YearContent)
    requires c.conflicts.Some?
    ensures |Wider(year, c)| == 4 && Wider(year, c)[3] == StateConflict(c.conflicts.value, year)
  {
  }

  lemma AllTell(wider: seq<PageStatement>, year: nat, c: YearContent)
    requires wider == Wider(year, c)
    ensures WiderTells(wider, year, c)
  {
    FirstThree(year, c);
    EachTells(year, c);
    assert forall i :: 0 <= i < 3 ==> wider[i] == wider[..3][i];
    if c.conflicts.Some? {
      Fourth(year, c);
      ConflictTells(c.conflicts.value, year);
    }
  }

  lemma ContextStatementsTellTheirOwn(year: nat, month: nat, day: nat, c: YearContent)
    requires YearContentOk(c) && 1 <= month <= 12
    ensures WiderTells(BuildPage(year, month, day, c).sections[WiderHistoricalContext], year, c)
  {
    SectionHolds(WiderHistoricalContext, year, month, day, c);
    AllTell(Wider(year, c), year, c);
  }

  /** The comparison, there exactly when the count is and one was derived, says and records that one. */
  lemma ComparisonTellsItsRanking(year: nat, month: nat, day: nat, c: YearContent)
    requires YearContentOk(c) && 1 <= month <= 12
    ensures var compared := BuildPage(year, month, day, c).sections[DerivedComparisons];
      && |compared| == (if c.conflicts.Some? && c.comparison.Some? then 1 else 0)
      && (compared != [] ==> TellsComparison(compared[0], c.comparison.value))
  {
    SectionHolds(DerivedComparisons, year, month, day, c);
    if c.comparison.Some? { ComparisonTells(c.comparison.value); }
  }

  /** The annual sections and the recorded one are available; of the others only comparisons, when there is one. */
  predicate IsAvailable(key: Section, c: YearContent) {
    key.RecordedOnThisDate? || key.TypicalDayInThisYear? || key.WiderHistoricalContext?
    || (key.DerivedComparisons? && c.conflicts.Some? && c.comparison.Some?)
  }

  lemma StatesTellWhatIsThere(year: nat, month: nat, day: nat, c: YearContent, key: Section)
    requires YearContentOk(c) && 1 <= month <= 12 && key in SECTION_KEYS
    ensures key in BuildPage(year, month, day, c).states
    ensures BuildPage(year, month, day, c).states[key].Available? <==> IsAvailable(key, c)
    ensures !BuildPage(year, month, day, c).states[key].OtherState?
  {
    var states := map k | k in SECTION_KEYS :: StateOf(k, c);
    assert states[key] == StateOf(key, c);
  }

  /** The rank and the size a reader is told and the ones recorded are the ranking's, beside the year's own count. */
  ghost predicate TellsComparison(s: PageStatement, p: Comparing) {
    && C.Ranked(s.text, Some(p.ranking.rank), Some(p.ranking.size))
    && s.details.value == Some(p.ranking.rank) && s.details.cohortSize == Some(p.ranking.size)
    && s.details.status == Some(p.status)
    && TellsWhole(s.text, "", "", "a year with ", p.count, " active state-based " + "conflicts, ranking ")
    && Contains(s.text, " (" + Digits(p.ranking.first) + "\U{2013}" + Digits(p.ranking.last) + "). ")
  }

  lemma ComparisonTells(p: Comparing)
    requires p.ranking.rank <= 99
    ensures TellsComparison(StateComparison(p), p)
  {
    C.DerivedComparisonIsFair(p.count, p.ranking, MODEL_CARD);
    SentenceTellsCount(p.count, p.ranking);
    SentenceTellsYears(p.count, p.ranking);
  }

  lemma SentenceTellsYears(count: nat, r: C.Ranking)
    ensures Contains(C.Sentence(count, r), " (" + Digits(r.first) + "\U{2013}" + Digits(r.last) + "). ")
  {
    var years := " (" + Digits(r.first) + "\U{2013}" + Digits(r.last) + "). ";
    var after := C.AfterYears(r.first, r.last);
    ContainsItself(years);
    ContainsFirst(years, C.SCALE_DISCLAIMER, years);
    EndsRank(r.size, after, years);
    ContainsLast(Digits(r.rank), C.RestOfRank(r.size, after), years);
    ContainsLast(C.BeforeRank(count) + "higher than ", Digits(r.rank) + C.RestOfRank(r.size, after), years);
  }

  lemma EndsRank(size: nat, after: string, tail: string)
    requires Contains(after, tail)
    ensures Contains(C.RestOfRank(size, after), tail)
  {
    ContainsLast(" supported years", after, tail);
    ContainsLast(Digits(size), " supported years" + after, tail);
    ContainsLast("% of ", Digits(size) + (" supported years" + after), tail);
  }

  lemma SentenceTellsCount(count: nat, r: C.Ranking)
    ensures TellsWhole(C.Sentence(count, r), "", "", "a year with ", count,
                       " active state-based " + "conflicts, ranking ")
  {
    var unit := " active state-based " + "conflicts, ranking ";
    var told := "a year with " + (Digits(count) + unit);
    DigitsReadBack(count);
    FourParts("The selected date ", "occurred during ", "a year with ", Digits(count), unit);
    assert "" + ("" + told) == told;
    ContainsFirst(C.BeforeRank(count), "higher than ", told);
    ContainsFirst(C.BeforeRank(count) + "higher than ",
                  Digits(r.rank) + C.RestOfRank(r.size, C.AfterYears(r.first, r.last)), told);
  }

  lemma FourParts(a: string, b: string, c: string, d: string, e: string)
    ensures Contains(a + b + c + d + e, c + (d + e))
  {
    ContainsMiddle(a + b, c + (d + e), "");
    assert a + b + (c + (d + e)) + "" == a + b + c + d + e;
  }
}
