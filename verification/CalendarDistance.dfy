/** How the web app words the distance between two dates. */
module CalendarDistance {
  import opened Basics
  import opened MonthArithmetic
  import opened Prose

  // ---- The Gregorian calendar ------------------------------------------------------------

  predicate Leap(year: nat) {
    year % 4 == 0 && (year % 100 != 0 || year % 400 == 0)
  }

  const LEAP: nat -> bool := (year: nat) => Leap(year)
  const GREGORIAN: Lengths := (month: nat) => Length(Leap(month / 12), month % 12)

  lemma GregorianIsAnnual()
    ensures Plausible(GREGORIAN) && Annual(GREGORIAN)
  {
    forall year: nat, m: nat | m < 12 ensures GREGORIAN(Nth(year, m)) == Length(LEAP(year), m) { NthIs(year, m); }
    forall d | Valid(GREGORIAN, d) ensures 365 <= Anchor(GREGORIAN, d, 12) - Time(GREGORIAN, d) <= 366 {
      NthIs(d.month / 12, d.month % 12);
      AnniversaryIsAYear(GREGORIAN, LEAP, d, d.month / 12, d.month % 12);
    }
  }

  lemma NthIs(year: nat, m: nat)
    requires m < 12
    ensures Nth(year, m) / 12 == year && Nth(year, m) % 12 == m
  {
  }

  // ---- The words -------------------------------------------------------------------------

  const ONES := ["zero", "one", "two", "three", "four", "five", "six", "seven", "eight", "nine", "ten", "eleven",
                 "twelve", "thirteen", "fourteen", "fifteen", "sixteen", "seventeen", "eighteen", "nineteen"]
  const TENS := ["", "", "twenty", "thirty", "forty", "fifty", "sixty", "seventy", "eighty", "ninety"]

  function Spell(n: nat): string {
    if n < 20 then ONES[n]
    else if n < 100 then (if n % 10 == 0 then TENS[n / 10] else TENS[n / 10] + "-" + ONES[n % 10])
    else Digits(n)
  }

  function Count(n: nat, one: string, many: string): string {
    Spell(n) + " " + if n == 1 then one else many
  }

  datatype Band = Days | Months | Years

  /** Both functions order their dates first: the later counted from the earlier. */
  function Earlier(a: Date, b: Date): Date {
    if Time(GREGORIAN, a) <= Time(GREGORIAN, b) then a else b
  }

  function Later(a: Date, b: Date): Date {
    if Time(GREGORIAN, a) <= Time(GREGORIAN, b) then b else a
  }

  function WholeDays(a: Date, b: Date): nat {
    Distance(Time(GREGORIAN, a), Time(GREGORIAN, b))
  }

  function WholeMonths(a: Date, b: Date): int {
    WholeFrom(Earlier(a, b), Later(a, b))
  }

  function NearestMonths(a: Date, b: Date): int
    requires Valid(GREGORIAN, a) && Valid(GREGORIAN, b)
  {
    GregorianIsAnnual();
    NearestFrom(GREGORIAN, Earlier(a, b), Later(a, b))
  }

  /** distanceBand; None when either date cannot be read. */
  function DistanceBand(from: Option<Date>, to: Option<Date>): Option<Band> {
    if from.None? || to.None? then None
    else
      var days := WholeDays(from.value, to.value);
      Some(if days <= 31 then Days else if days < 365 then Months else Years)
  }

  function MonthsPhrase(months: int): string {
    "about " + Count(if months < 1 then 1 else months, "month", "months")
  }

  function YearsPhrase(months: nat): string {
    var years, rest := months / 12, months % 12;
    if years <= 2 && rest > 0 then Count(years, "year", "years") + " and " + Count(rest, "month", "months")
    else Count(years, "year", "years")
  }

  /** describeDistance without its direction. */
  function Phrase(from: Date, to: Date): string
    requires Valid(GREGORIAN, from) && Valid(GREGORIAN, to)
  {
    var days := WholeDays(from, to);
    if days <= 31 then Count(days, "day", "days")
    else
      NearestMonthsCounts(from, to);
      if days < 365 then MonthsPhrase(NearestMonths(from, to)) else YearsPhrase(NearestMonths(from, to))
  }

  /** describeDistance; None when there is nothing to describe. */
  function DescribeDistance(from: Option<Date>, to: Option<Date>): Option<string>
    requires from.Some? ==> Valid(GREGORIAN, from.value)
    requires to.Some? ==> Valid(GREGORIAN, to.value)
  {
    if from.None? || to.None? then None
    else
      var signed := Time(GREGORIAN, to.value) - Time(GREGORIAN, from.value);
      if signed == 0 then None
      else Some(Phrase(from.value, to.value) + if signed > 0 then " later" else " earlier")
  }

  /** The anchors of the whole months and of one more stand either side of the later date. */
  lemma WholeMonthsStandAstride(a: Date, b: Date)
    requires Valid(GREGORIAN, a) && Valid(GREGORIAN, b)
    ensures var (from, to, months) := (Earlier(a, b), Later(a, b), WholeMonths(a, b));
      months >= 0 && Anchor(GREGORIAN, from, months) <= Time(GREGORIAN, to) <= Anchor(GREGORIAN, from, months + 1)
  {
    GregorianIsAnnual();
    WholeMonthsBracket(GREGORIAN, Earlier(a, b), Later(a, b));
  }

  /** Over all Gregorian dates and month counts: closest anchor, ties going down. */
  lemma NearestMonthsIsClosest(a: Date, b: Date, count: int)
    requires Valid(GREGORIAN, a) && Valid(GREGORIAN, b) && Earlier(a, b).month + count >= 0
    ensures Closest(GREGORIAN, Earlier(a, b), Later(a, b), NearestMonths(a, b), count)
  {
    GregorianIsAnnual();
    NearestIsClosest(GREGORIAN, Earlier(a, b), Later(a, b), count);
  }

  /** A year of days is a year of months, so the years band never says zero; the months band needs no floor. */
  lemma NearestMonthsCounts(a: Date, b: Date)
    requires Valid(GREGORIAN, a) && Valid(GREGORIAN, b)
    ensures NearestMonths(a, b) >= 0
    ensures WholeDays(a, b) >= 365 ==> NearestMonths(a, b) >= 12
    ensures 31 < WholeDays(a, b) < 365 ==> 1 <= NearestMonths(a, b) <= 12
  {
    GregorianIsAnnual();
    var (from, to) := (Earlier(a, b), Later(a, b));
    NearestIsClosest(GREGORIAN, from, to, 0);
    if WholeDays(a, b) >= 365 { YearOfDaysIsTwelveMonths(GREGORIAN, from, to); }
    if WholeDays(a, b) < 365 { UnderAYearIsAtMostTwelve(GREGORIAN, from, to); }
    if WholeDays(a, b) > 31 { OverAMonthIsAtLeastOne(GREGORIAN, from, to); }
  }

  lemma OrderIsSymmetric(a: Date, b: Date)
    requires Valid(GREGORIAN, a) && Valid(GREGORIAN, b)
    ensures Earlier(a, b) == Earlier(b, a) && Later(a, b) == Later(b, a)
    ensures Time(GREGORIAN, a) == Time(GREGORIAN, b) <==> a == b
  {
    GregorianIsAnnual();
    TimeOrders(GREGORIAN, a, b);
  }

  lemma CountsAreSymmetric(a: Date, b: Date)
    requires Valid(GREGORIAN, a) && Valid(GREGORIAN, b)
    ensures WholeDays(a, b) == WholeDays(b, a) && WholeMonths(a, b) == WholeMonths(b, a)
    ensures NearestMonths(a, b) == NearestMonths(b, a)
    ensures Phrase(a, b) == Phrase(b, a)
  {
    OrderIsSymmetric(a, b);
  }

  /** The same two dates are the same distance apart, described from either end; only the direction turns. */
  lemma DescriptionsMirror(a: Date, b: Date)
    requires Valid(GREGORIAN, a) && Valid(GREGORIAN, b)
    ensures DescribeDistance(Some(a), Some(b)).None? <==> a == b
    ensures DistanceBand(Some(a), Some(b)) == DistanceBand(Some(b), Some(a))
    ensures Time(GREGORIAN, a) < Time(GREGORIAN, b) ==>
      exists text :: DescribeDistance(Some(a), Some(b)) == Some(text + " later")
                  && DescribeDistance(Some(b), Some(a)) == Some(text + " earlier")
  {
    OrderIsSymmetric(a, b);
    CountsAreSymmetric(a, b);
    var text := Phrase(a, b);
    assert Time(GREGORIAN, a) < Time(GREGORIAN, b) ==>
      DescribeDistance(Some(a), Some(b)) == Some(text + " later") && DescribeDistance(Some(b),
                       Some(a)) == Some(text + " earlier");
  }
}
