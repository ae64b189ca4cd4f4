/** What a reader can tell from a described distance, and the day numbers it is measured in. */
module DistanceWords {
  import opened Basics
  import opened MonthArithmetic
  import opened CalendarDistance
  import opened Prose

  // ---- Day numbers -----------------------------------------------------------------------

  /** Leap days before a year's first day. */
  function LeapDays(year: nat): int {
    (year + 3) / 4 - (year + 99) / 100 + (year + 399) / 400
  }

  /** Days of an ordinary year before its month. */
  const ORDINARY := [0, 31, 59, 90, 120, 151, 181, 212, 243, 273, 304, 334, 365]

  lemma OneMoreLeapDay(year: nat)
    ensures LeapDays(year + 1) - LeapDays(year) ==
      if HasLeapDay(year) then 1 else 0
  {
    StepsAt(year, 4);
    StepsAt(year, 100);
    StepsAt(year, 400);
    MultipleOf(year, 100, 4);
    MultipleOf(year, 4, 25);
  }

  lemma MultipleOf(year: nat, n: nat, k: nat)
    requires n > 0 && k > 0
    ensures n * k > 0 && (year % (n * k) == 0 ==> year % n == 0)
  {
    TimesAtLeast(k, n);
    if year % (n * k) == 0 {
      var q := year / (n * k);
      assert year == q * (n * k) == (q * k) * n;
      QuotientIs(year, n, q * k, 0);
    }
  }

  lemma StepsAt(year: nat, n: nat)
    requires n > 0
    ensures (year + n) / n - (year + n - 1) / n == if year % n == 0 then 1 else 0
  {
    var (q, r) := (year / n, year % n);
    assert year == q * n + r;
    QuotientIs(year + n, n, q + 1, r);
    if r == 0 { QuotientIs(year + n - 1, n, q, n - 1); } else { QuotientIs(year + n - 1, n, q + 1, r - 1); }
  }

  lemma QuotientIs(x: nat, n: nat, q: nat, r: nat)
    requires n > 0 && r < n && x == q * n + r
    ensures x / n == q
  {
    var (quotient, left) := (x / n, x % n);
    assert x == quotient * n + left && (quotient - q) * n == r - left;
    if quotient > q { TimesAtLeast(quotient - q, n); }
    if quotient < q { TimesAtLeast(q - quotient, n); }
  }

  lemma TimesAtLeast(k: nat, n: nat)
    requires k >= 1
    ensures k * n >= n
  {
  }

  /** Whether a year has its leap day, by the rule. */
  predicate HasLeapDay(year: nat) {
    year % 4 == 0 && (year % 100 != 0 || year % 400 == 0)
  }

  ghost predicate Ruled(leap: nat -> bool) {
    forall year: nat :: leap(year) == HasLeapDay(year)
  }

  lemma YearLasts(len: Lengths, leap: nat -> bool, year: nat)
    requires Yearly(len, leap)
    ensures First(len, Nth(year + 1, 0)) == First(len, Nth(year, 0)) + if leap(year) then 366 else 365
  {
    FirstInYear(len, leap, year, 12);
    MonthsInDays(leap(year), 12);
    NextYear(year);
  }

  lemma NextYear(year: nat)
    ensures Nth(year, 12) == Nth(year + 1, 0)
  {
  }

  lemma MonthBegins(len: Lengths, leap: nat -> bool, year: nat, m: nat)
    requires Yearly(len, leap) && m < 12
    ensures First(len, Nth(year, m)) ==
      First(len, Nth(year, 0)) + ORDINARY[m] + if m >= 2 && leap(year) then 1 else 0
  {
    FirstInYear(len, leap, year, m);
    MonthsInDays(leap(year), m);
  }

  lemma YearAdds(len: Lengths, leap: nat -> bool, year: nat)
    requires Yearly(len, leap) && Ruled(leap)
    ensures First(len, Nth(year + 1, 0)) - First(len, Nth(year, 0)) == 365 + (LeapDays(year + 1) - LeapDays(year))
  {
    OneMoreLeapDay(year);
    YearLasts(len, leap, year);
  }

  lemma {:induction false} YearsInDays(len: Lengths, leap: nat -> bool, year: nat)
    requires Yearly(len, leap) && Ruled(leap)
    ensures First(len, Nth(year, 0)) == 365 * year + LeapDays(year)
  {
    if year > 0 {
      var last := year - 1;
      YearsInDays(len, leap, last);
      YearAdds(len, leap, last);
      assert year == last + 1;
    }
  }

  lemma GregorianIsYearly()
    ensures Yearly(GREGORIAN, LEAP)
  {
    forall year: nat, m: nat | m < 12 ensures GREGORIAN(Nth(year, m)) == Length(LEAP(year), m) { NthIs(year, m); }
  }

  lemma MonthsInDays(leap: bool, m: nat)
    requires m <= 12
    ensures DaysBefore(leap, m) == ORDINARY[m] + if leap && m >= 2 then 1 else 0
  {
    if m > 0 { MonthsInDays(leap, m - 1); }
  }

  /** The day a date is, counted from the first of year 0 by the Gregorian rule. */
  lemma DayNumber(year: nat, m: nat, day: nat)
    requires m < 12
    ensures Time(GREGORIAN, Date(Nth(year, m), day)) ==
      365 * year + LeapDays(year) + ORDINARY[m] + day - 1 + if m >= 2 && HasLeapDay(year) then 1 else 0
  {
    GregorianIsYearly();
    DayNumberIn(GREGORIAN, LEAP, year, m, day);
  }

  lemma DayNumberIn(len: Lengths, leap: nat -> bool, year: nat, m: nat, day: nat)
    requires Yearly(len, leap) && Ruled(leap) && m < 12
    ensures Time(len, Date(Nth(year, m), day)) ==
      365 * year + LeapDays(year) + ORDINARY[m] + day - 1 + if m >= 2 && HasLeapDay(year) then 1 else 0
  {
    YearsInDays(len, leap, year);
    MonthBegins(len, leap, year, m);
  }

  lemma LeapDaysRepeat(year: nat)
    ensures LeapDays(year + 400) == LeapDays(year) + 97 && HasLeapDay(year + 400) == HasLeapDay(year)
  {
    Shift(year + 3, 4, 100);
    Shift(year + 99, 100, 4);
    Shift(year + 399, 400, 1);
    Shift(year, 4, 100);
    Shift(year, 100, 4);
    Shift(year, 400, 1);
  }

  lemma Shift(x: nat, n: nat, k: nat)
    requires n > 0
    ensures (x + n * k) / n == x / n + k && (x + n * k) % n == x % n
  {
    assert x + n * k == (x / n + k) * n + x % n;
    QuotientIs(x + n * k, n, x / n + k, x % n);
  }

  /** The calendar repeats every 400 years, after a whole number of weeks. */
  lemma CenturiesRepeat(year: nat, m: nat, day: nat)
    requires m < 12
    ensures Time(GREGORIAN, Date(Nth(year + 400, m), day)) == Time(GREGORIAN, Date(Nth(year, m), day)) + 7 * 20871
  {
    DayNumber(year, m, day);
    DayNumber(year + 400, m, day);
    LeapDaysRepeat(year);
  }

  // ---- Numbers in words ------------------------------------------------------------------

  lemma OnesArePlain(n: nat)
    requires n < 20
    ensures ONES[n] != "" && ' ' !in ONES[n] && '-' !in ONES[n] && !IsDigit(ONES[n][0]) && ONES[n] != "about"
  {
  }

  lemma TensArePlain(n: nat)
    requires 2 <= n < 10
    ensures TENS[n] != "" && ' ' !in TENS[n] && '-' !in TENS[n] && !IsDigit(TENS[n][0]) && TENS[n] != "about"
  {
  }

  lemma OnesDiffer(a: nat, b: nat)
    requires a < 20 && b < 20
    ensures ONES[a] == ONES[b] ==> a == b
  {
  }

  lemma TensDiffer(a: nat, b: nat)
    requires 2 <= a < 10 && 2 <= b < 10
    ensures TENS[a] == TENS[b] ==> a == b
  {
  }

  lemma TensAreNotOnes(a: nat, b: nat)
    requires 2 <= a < 10 && b < 20
    ensures TENS[a] != ONES[b]
  {
  }

  /** Words up to the first mark of this kind are told apart from what follows it. */
  lemma UpToTheMark(a: string, b: string, mark: char, x: string, y: string)
    requires mark !in a && mark !in b && a + ([mark] + x) == b + ([mark] + y)
    ensures a == b && x == y
  {
    var text := a + ([mark] + x);
    assert text[|a|] == mark && (b + ([mark] + y))[|b|] == mark;
    MarkIsFirst(a, b, mark, x, y);
    MarkIsFirst(b, a, mark, y, x);
    assert text[..|a|] == a && text[..|b|] == b;
    assert text[|a| + 1..] == x && text[|b| + 1..] == y;
  }

  lemma MarkIsFirst(a: string, b: string, mark: char, x: string, y: string)
    requires mark !in b && a + ([mark] + x) == b + ([mark] + y)
    ensures |b| <= |a|
  {
    assert (a + ([mark] + x))[|a|] == mark;
    assert forall i :: 0 <= i < |b| ==> (b + ([mark] + y))[i] == b[i];
  }

  lemma SpellIsPlain(n: nat)
    ensures Spell(n) != "" && ' ' !in Spell(n) && Spell(n) != "about"
    ensures IsDigit(Spell(n)[0]) <==> n >= 100
    ensures '-' in Spell(n) <==> 20 < n < 100 && n % 10 != 0
  {
    if n < 20 {
      OnesArePlain(n);
    } else if n < 100 {
      TensArePlain(n / 10);
      OnesArePlain(n % 10);
      if n % 10 != 0 { assert Spell(n)[|TENS[n / 10]|] == '-' && Spell(n)[0] == TENS[n / 10][0]; }
    } else {
      DigitsReadBack(n);
      assert !IsDigit("about"[0]);
    }
  }

  lemma SpellTellsTheNumber(a: nat, b: nat)
    requires Spell(a) == Spell(b)
    ensures a == b
  {
    SpellIsPlain(a);
    SpellIsPlain(b);
    if a >= 100 {
      DigitsReadBack(a);
      DigitsReadBack(b);
    } else if '-' in Spell(a) {
      CompoundTells(a, b);
    } else {
      SimpleTells(a, b);
    }
  }

  lemma CompoundTells(a: nat, b: nat)
    requires 20 < a < 100 && 20 < b < 100 && a % 10 != 0 && b % 10 != 0 && Spell(a) == Spell(b)
    ensures a == b
  {
    TensArePlain(a / 10);
    TensArePlain(b / 10);
    Compound(TENS[a / 10], ONES[a % 10]);
    Compound(TENS[b / 10], ONES[b % 10]);
    UpToTheMark(TENS[a / 10], TENS[b / 10], '-', ONES[a % 10], ONES[b % 10]);
    TensDiffer(a / 10, b / 10);
    OnesDiffer(a % 10, b % 10);
  }

  lemma Compound(tens: string, ones: string)
    ensures tens + "-" + ones == tens + (['-'] + ones)
  {
  }

  lemma SimpleTells(a: nat, b: nat)
    requires a < 100 && b < 100 && (a < 20 || a % 10 == 0) && (b < 20 || b % 10 == 0) && Spell(a) == Spell(b)
    ensures a == b
  {
    if a < 20 && b < 20 {
      OnesDiffer(a, b);
    } else if a < 20 {
      TensAreNotOnes(b / 10, a);
    } else if b < 20 {
      TensAreNotOnes(a / 10, b);
    } else {
      TensDiffer(a / 10, b / 10);
    }
  }

  // ---- Descriptions ----------------------------------------------------------------------

  /** What a description of two dates lets a reader know. */
  datatype Told = Told(band: Band, count: nat, months: nat, later: bool)

  /** The band; days to a month, then nearest months, then years, with months up to two years; and the direction. */
  function Tells(a: Date, b: Date): Told
    requires Valid(GREGORIAN, a) && Valid(GREGORIAN, b)
  {
    var (signed, months) := (Time(GREGORIAN, b) - Time(GREGORIAN, a), NearestMonths(a, b));
    NearestMonthsCounts(a, b);
    if -31 <= signed <= 31 then Told(Days, if signed < 0 then -signed else signed, 0, signed > 0)
    else if -365 < signed < 365 then Told(Months, months, 0, signed > 0)
    else Told(Years, months / 12, if months / 12 > 2 then 0 else months % 12, signed > 0)
  }

  /** The band is the one the description is in. */
  lemma BandIsTold(a: Date, b: Date)
    requires Valid(GREGORIAN, a) && Valid(GREGORIAN, b)
    ensures DistanceBand(Some(a), Some(b)) == Some(Tells(a, b).band)
  {
  }

  function Unit(n: nat, one: string, many: string): string {
    if n == 1 then one else many
  }

  function Direction(later: bool): string {
    if later then " later" else " earlier"
  }

  /** The words, as far as their first space and beyond it. */
  lemma CountSplits(n: nat, one: string, many: string, rest: string)
    ensures Count(n, one, many) + rest == Spell(n) + ([' '] + (Unit(n, one, many) + rest))
  {
  }

  function Beyond(t: Told): string {
    match t.band
    case Days => Unit(t.count, "day", "days") + Direction(t.later)
    case Months => Spell(t.count) + ([' '] + (Unit(t.count, "month", "months") + Direction(t.later)))
    case Years =>
      Unit(t.count, "year", "years")
      + if t.months == 0 then Direction(t.later)
        else " and " + (Spell(t.months) + ([' '] + (Unit(t.months, "month", "months") + Direction(t.later))))
  }

  lemma DescriptionSplits(a: Date, b: Date)
    requires Valid(GREGORIAN, a) && Valid(GREGORIAN, b) && a != b
    ensures var t := Tells(a, b);
      DescribeDistance(Some(a), Some(b)) ==
      Some(FirstWord(t) + ([' '] + Beyond(t)))
  {
    OrderIsSymmetric(a, b);
    NearestMonthsCounts(a, b);
    var (t, way) := (Tells(a, b), Direction(Time(GREGORIAN, a) < Time(GREGORIAN, b)));
    match t.band
    case Days => CountSplits(t.count, "day", "days", way);
    case Months =>
      CountSplits(t.count, "month", "months", way);
      AboutSplits(Count(t.count, "month", "months"), way);
    case Years =>
      CountSplits(t.count, "year", "years", way);
      if t.months > 0 { YearsSplit(t.count, t.months, way); }
  }

  lemma AboutSplits(count: string, way: string)
    ensures "about " + count + way == "about" + ([' '] + (count + way))
  {
  }

  lemma YearsSplit(years: nat, months: nat, way: string)
    ensures Count(years, "year", "years") + " and " + Count(months, "month", "months") + way ==
      Spell(years) + ([' '] + (Unit(years, "year", "years") +
                               (" and " + (Spell(months) + ([' '] + (Unit(months, "month", "months") + way))))))
  {
    var rest := Count(months, "month", "months");
    CountSplits(months, "month", "months", way);
    CountSplits(years, "year", "years", " and " + (rest + way));
    Rejoin(Count(years, "year", "years"), " and ", rest, way);
  }

  lemma Rejoin(a: string, b: string, c: string, d: string)
    ensures a + b + c + d == a + (b + (c + d))
  {
  }

  lemma UnitsDiffer(s: Told, t: Told)
    requires s.band.Days? && t.band.Years?
    ensures Beyond(s) != Beyond(t)
  {
    assert Beyond(s)[0] == 'd' && Beyond(t)[0] == 'y';
  }

  lemma BeyondTells(s: Told, t: Told)
    requires s.band == t.band && (s.band.Months? || s.count == t.count) && Beyond(s) == Beyond(t)
    requires s.band.Years? || (s.months == 0 && t.months == 0)
    ensures s == t
  {
    match s.band
    case Days => DirectionsDiffer(Unit(s.count, "day", "days"), s.later, t.later);
    case Months => WordTells(s.count, t.count, Unit(s.count, "month", "months") + Direction(s.later),
                             Unit(t.count, "month", "months") + Direction(t.later));
      DirectionsDiffer(Unit(s.count, "month", "months"), s.later, t.later);
    case Years => YearsTell(s, t);
  }

  lemma WordTells(a: nat, b: nat, x: string, y: string)
    requires Spell(a) + ([' '] + x) == Spell(b) + ([' '] + y)
    ensures a == b && x == y
  {
    SpellIsPlain(a);
    SpellIsPlain(b);
    UpToTheMark(Spell(a), Spell(b), ' ', x, y);
    SpellTellsTheNumber(a, b);
  }

  lemma After(a: string, x: string, y: string)
    requires a + x == a + y
    ensures x == y
  {
    assert (a + x)[|a|..] == x && (a + y)[|a|..] == y;
  }

  lemma DirectionsDiffer(words: string, later: bool, other: bool)
    requires words + Direction(later) == words + Direction(other)
    ensures later == other
  {
    After(words, Direction(later), Direction(other));
    assert Direction(true)[1] != Direction(false)[1];
  }

  lemma MonthsAreNoDirection(words: string, later: bool, rest: string)
    ensures words + Direction(later) != words + (" and " + rest)
  {
    assert (words + Direction(later))[|words| + 1] == Direction(later)[1];
    assert (words + (" and " + rest))[|words| + 1] == (" and " + rest)[1] == 'a';
  }

  function MonthsAndWay(t: Told): string {
    Spell(t.months) + ([' '] + (Unit(t.months, "month", "months") + Direction(t.later)))
  }

  lemma YearsTell(s: Told, t: Told)
    requires s.band.Years? && t.band.Years? && s.count == t.count && Beyond(s) == Beyond(t)
    ensures s == t
  {
    var unit := Unit(s.count, "year", "years");
    if s.months == 0 && t.months == 0 {
      DirectionsDiffer(unit, s.later, t.later);
    } else if s.months == 0 {
      MonthsAreNoDirection(unit, s.later, MonthsAndWay(t));
    } else if t.months == 0 {
      MonthsAreNoDirection(unit, t.later, MonthsAndWay(s));
    } else {
      After(unit, " and " + MonthsAndWay(s), " and " + MonthsAndWay(t));
      After(" and ", MonthsAndWay(s), MonthsAndWay(t));
      WordTells(s.months, t.months, Unit(s.months, "month", "months") + Direction(s.later),
                Unit(t.months, "month", "months") + Direction(t.later));
      DirectionsDiffer(Unit(s.months, "month", "months"), s.later, t.later);
    }
  }

  function FirstWord(t: Told): string {
    if t.band.Months? then "about" else Spell(t.count)
  }

  lemma WordsTell(s: Told, t: Told)
    requires (s.band.Years? || s.months == 0) && (t.band.Years? || t.months == 0)
    requires FirstWord(s) + ([' '] + Beyond(s)) == FirstWord(t) + ([' '] + Beyond(t))
    ensures s == t
  {
    SpellIsPlain(s.count);
    SpellIsPlain(t.count);
    UpToTheMark(FirstWord(s), FirstWord(t), ' ', Beyond(s), Beyond(t));
    if !s.band.Months? { SpellTellsTheNumber(s.count, t.count); }
    if s.band.Days? && t.band.Years? { UnitsDiffer(s, t); }
    if s.band.Years? && t.band.Days? { UnitsDiffer(t, s); }
    BeyondTells(s, t);
  }

  /**
    Two distances are described in the same words exactly when they tell a reader the same: the direction, and the days
    up to 31, the nearest months below a year of days, and beyond it the years in them, with the months up to two years.
  */
  lemma SameWordsTellTheSame(a: Date, b: Date, c: Date, d: Date)
    requires Valid(GREGORIAN, a) && Valid(GREGORIAN, b) && Valid(GREGORIAN, c) && Valid(GREGORIAN, d)
    requires a != b && c != d
    ensures DescribeDistance(Some(a), Some(b)) == DescribeDistance(Some(c), Some(d)) <==> Tells(a, b) == Tells(c, d)
  {
    DescriptionSplits(a, b);
    DescriptionSplits(c, d);
    if DescribeDistance(Some(a), Some(b)) == DescribeDistance(Some(c), Some(d)) { WordsTell(Tells(a, b), Tells(c, d)); }
  }
}
