/** Counting months between dates, whatever the lengths of the months. */
module MonthArithmetic {
  /** A date: months since year 0, and the day of the month. */
  datatype Date = Date(month: nat, day: nat)

  /** How long each month is. */
  type Lengths = nat -> nat

  ghost predicate Plausible(len: Lengths) {
    forall month :: 28 <= len(month) <= 31
  }

  predicate Valid(len: Lengths, d: Date) {
    1 <= d.day <= len(d.month)
  }

  /** Days before the first of a month. */
  function First(len: Lengths, month: nat): nat {
    if month == 0 then 0 else First(len, month - 1) + len(month - 1)
  }

  /** getTime(), in whole days. */
  function Time(len: Lengths, d: Date): int {
    First(len, d.month) + d.day - 1
  }

  predicate InOrder(len: Lengths, from: Date, to: Date) {
    Valid(len, from) && Valid(len, to) && Time(len, from) <= Time(len, to)
  }

  lemma {:induction false} FirstGrows(len: Lengths, a: nat, b: nat)
    requires Plausible(len) && a <= b
    ensures First(len, a) + 28 * (b - a) <= First(len, b)
    decreases b
  {
    if a < b { FirstGrows(len, a, b - 1); }
  }

  lemma TimeOrders(len: Lengths, a: Date, b: Date)
    requires Plausible(len) && Valid(len, a) && Valid(len, b)
    ensures a.month < b.month ==> Time(len, a) < Time(len, b)
    ensures Time(len, a) == Time(len, b) ==> a == b
  {
    if a.month < b.month { FirstGrows(len, a.month + 1, b.month); }
    if b.month < a.month { FirstGrows(len, b.month + 1, a.month); }
  }

  // ---- Anchors ---------------------------------------------------------------------------

  /** A day of this month, clamped to its last. */
  function Clamped(len: Lengths, month: nat, day: nat): int {
    First(len, month) + (if day <= len(month) then day else len(month)) - 1
  }

  /** The same day of the month, `count` months on, clamped to that month's last day. */
  function Anchor(len: Lengths, from: Date, count: int): int
    requires from.month + count >= 0
  {
    Clamped(len, from.month + count, from.day)
  }

  lemma ClampedInMonth(len: Lengths, month: nat, day: nat)
    requires Plausible(len) && day >= 1
    ensures First(len, month) <= Clamped(len, month, day) <= First(len, month) + day - 1
    ensures Clamped(len, month, day) < First(len, month + 1)
  {
  }

  lemma ClampedCovers(len: Lengths, month: nat, day: nat, d: nat)
    requires d <= day && d <= len(month)
    ensures First(len, month) + d - 1 <= Clamped(len, month, day)
    ensures First(len, month) + d - 1 < First(len, month + 1)
  {
  }

  lemma ClampIn(length: nat, next: nat, day: nat)
    requires 28 <= length <= 31 && 28 <= next <= 31 && day >= 1
    ensures 28 <= length + (if day <= next then day else next) - (if day <= length then day else length) <= 31
  {
  }

  /** Anchors are a month apart: 28 to 31 days. */
  lemma AnchorStep(len: Lengths, from: Date, count: int)
    requires Plausible(len) && from.day >= 1 && from.month + count >= 0
    ensures 28 <= Anchor(len, from, count + 1) - Anchor(len, from, count) <= 31
  {
    var month := from.month + count;
    ClampIn(len(month), len(month + 1), from.day);
    assert First(len, month + 1) == First(len, month) + len(month);
  }

  lemma {:induction false} AnchorsGrow(len: Lengths, from: Date, c: int, d: int)
    requires Plausible(len) && from.day >= 1 && from.month + c >= 0 && c <= d
    ensures Anchor(len, from, c) + 28 * (d - c) <= Anchor(len, from, d)
    decreases d - c
  {
    if c < d {
      AnchorsGrow(len, from, c, d - 1);
      AnchorStep(len, from, d - 1);
    }
  }

  // ---- Whole and nearest months ----------------------------------------------------------

  /** The count wholeMonths makes once the two dates are in order. */
  function WholeFrom(from: Date, to: Date): int {
    if to.day < from.day then to.month - from.month - 1 else to.month - from.month
  }

  /** The anchors of the whole months and of one more stand either side of the later date. */
  lemma WholeMonthsBracket(len: Lengths, from: Date, to: Date)
    requires Plausible(len) && InOrder(len, from, to)
    ensures WholeFrom(from, to) >= 0
    ensures Anchor(len, from, WholeFrom(from, to)) <= Time(len, to) <= Anchor(len, from, WholeFrom(from, to) + 1)
  {
    TimeOrders(len, to, from);
    if to.day < from.day { BracketBefore(len, from, to); } else { BracketAfter(len, from, to); }
  }

  lemma BracketBefore(len: Lengths, from: Date, to: Date)
    requires Plausible(len) && InOrder(len, from, to) && to.day < from.day && from.month < to.month
    ensures Anchor(len, from, to.month - from.month - 1) <= Time(len, to) <= Anchor(len, from, to.month - from.month)
  {
    ClampedInMonth(len, to.month - 1, from.day);
    ClampedCovers(len, to.month, from.day, to.day);
  }

  lemma BracketAfter(len: Lengths, from: Date, to: Date)
    requires Plausible(len) && InOrder(len, from, to) && from.day <= to.day && from.month <= to.month
    ensures Anchor(len, from, to.month - from.month) <= Time(len, to) <= Anchor(len, from, to.month - from.month + 1)
  {
    ClampedInMonth(len, to.month, from.day);
    ClampedInMonth(len, to.month + 1, from.day);
    ClampedCovers(len, to.month, to.day, to.day);
  }

  /** The count nearestMonths makes once the two dates are in order. */
  function NearestFrom(len: Lengths, from: Date, to: Date): int
    requires Plausible(len) && InOrder(len, from, to)
  {
    WholeMonthsBracket(len, from, to);
    var months := WholeFrom(from, to);
    var below := Time(len, to) - Anchor(len, from, months);
    var above := Anchor(len, from, months + 1) - Time(len, to);
    if below > above then months + 1 else months
  }

  function Distance(x: int, y: int): nat {
    if x <= y then y - x else x - y
  }

  /** Between two anchors a month apart, with every other one further out, the nearer of the two is nearest. */
  lemma NearerOfTwo(t: int, low: int, high: int, months: int, count: int, other: int)
    requires low <= t <= high && low + 28 <= high
    requires count <= months ==> other + 28 * (months - count) <= low
    requires count > months ==> high + 28 * (count - months - 1) <= other
    ensures t - low > high - t ==> CloserOr(high, months + 1, other, count, t)
    ensures t - low <= high - t ==> CloserOr(low, months, other, count, t)
  {
  }

  /** One count's anchor is closer to t than another's, or as close and no later. */
  predicate CloserOr(at: int, nearest: int, other: int, count: int, t: int) {
    Distance(at, t) <= Distance(other, t) && (Distance(at, t) == Distance(other, t) ==> nearest <= count)
  }

  /** `nearest` is the count whose anchor is closest to the later date; of two as close, the smaller. */
  ghost predicate Closest(len: Lengths, from: Date, to: Date, nearest: int, count: int)
    requires from.month + count >= 0
  {
    nearest >= 0 && CloserOr(Anchor(len, from, nearest), nearest, Anchor(len, from, count), count, Time(len, to))
  }

  /** Of all month counts, the nearest one's anchor is closest. */
  lemma NearestIsClosest(len: Lengths, from: Date, to: Date, count: int)
    requires Plausible(len) && InOrder(len, from, to) && from.month + count >= 0
    ensures Closest(len, from, to, NearestFrom(len, from, to), count)
  {
    var months := WholeFrom(from, to);
    WholeMonthsBracket(len, from, to);
    AnchorStep(len, from, months);
    if count <= months { AnchorsGrow(len, from, count, months); } else { AnchorsGrow(len, from, months + 1, count); }
    NearerOfTwo(Time(len, to), Anchor(len, from, months), Anchor(len, from, months + 1), months, count,
                Anchor(len, from, count));
  }

  // ---- Years -----------------------------------------------------------------------------

  /** Days in a month of the year. */
  function Length(leap: bool, m: nat): (n: nat)
    ensures 28 <= n <= 31
  {
    if m == 1 then (if leap then 29 else 28) else if m == 3 || m == 5 || m == 8 || m == 10 then 30 else 31
  }

  function Nth(year: nat, m: nat): nat {
    12 * year + m
  }

  /** Every year has these twelve months. */
  ghost predicate Yearly(len: Lengths, leap: nat -> bool) {
    forall year: nat, m: nat :: m < 12 ==> len(Nth(year, m)) == Length(leap(year), m)
  }

  /** Days of a year before its month m. */
  function DaysBefore(leap: bool, m: nat): nat {
    if m == 0 then 0 else DaysBefore(leap, m - 1) + Length(leap, m - 1)
  }

  lemma {:induction false} LeapDayFallsInFebruary(m: nat)
    ensures DaysBefore(true, m) == DaysBefore(false, m) + (if m >= 2 then 1 else 0)
  {
    if m > 0 { LeapDayFallsInFebruary(m - 1); }
  }

  lemma {:induction false} FirstInYear(len: Lengths, leap: nat -> bool, year: nat, m: nat)
    requires Yearly(len, leap) && m <= 12
    ensures First(len, Nth(year, m)) == First(len, Nth(year, 0)) + DaysBefore(leap(year), m)
  {
    if m > 0 {
      FirstInYear(len, leap, year, m - 1);
      assert Nth(year, m) == Nth(year, m - 1) + 1;
    }
  }

  lemma YearFrom(leap: bool, next: bool, m: nat)
    ensures DaysBefore(leap, 12) - DaysBefore(leap, m) + DaysBefore(next, m) ==
        (if (if m <= 1 then leap else next) then 366 else 365)
  {
    assert DaysBefore(false, 12) == 365;
    LeapDayFallsInFebruary(m);
    LeapDayFallsInFebruary(12);
  }

  /** Twelve months from a month's first: 365 days, or 366 when they cross a leap day. */
  lemma TwelveMonths(len: Lengths, leap: nat -> bool, year: nat, m: nat)
    requires Yearly(len, leap) && m < 12
    ensures First(len, Nth(year + 1, m)) - First(len, Nth(year, m)) ==
        (if (if m <= 1 then leap(year) else leap(year + 1)) then 366 else 365)
  {
    FirstInYear(len, leap, year, m);
    FirstInYear(len, leap, year, 12);
    FirstInYear(len, leap, year + 1, m);
    assert Nth(year, 12) == Nth(year + 1, 0);
    YearFrom(leap(year), leap(year + 1), m);
  }

  /** The anchor twelve months on is 365 or 366 days away, leap days included. */
  lemma AnniversaryIsAYear(len: Lengths, leap: nat -> bool, from: Date, year: nat, m: nat)
    requires Yearly(len, leap) && Valid(len, from) && m < 12 && from.month == Nth(year, m)
    ensures 365 <= Anchor(len, from, 12) - Time(len, from) <= 366
  {
    TwelveMonths(len, leap, year, m);
    assert from.month + 12 == Nth(year + 1, m);
    assert len(Nth(year, m)) == Length(leap(year), m) && len(Nth(year + 1, m)) == Length(leap(year + 1), m);
  }

  // ---- Against days ----------------------------------------------------------------------

  /** The anchor twelve months on is a year away. */
  ghost predicate Annual(len: Lengths) {
    forall d :: Valid(len, d) ==> 365 <= Anchor(len, d, 12) - Time(len, d) <= 366
  }

  /** A year or more of days is never fewer than twelve months. */
  lemma YearOfDaysIsTwelveMonths(len: Lengths, from: Date, to: Date)
    requires Plausible(len) && Annual(len) && InOrder(len, from, to) && Time(len, to) - Time(len, from) >= 365
    ensures NearestFrom(len, from, to) >= 12
  {
    var nearest := NearestFrom(len, from, to);
    NearestIsClosest(len, from, to, 12);
    if nearest < 12 { AnchorsGrow(len, from, nearest, 12); }
  }

  /** Under a year is at most twelve months. */
  lemma UnderAYearIsAtMostTwelve(len: Lengths, from: Date, to: Date)
    requires Plausible(len) && Annual(len) && InOrder(len, from, to) && Time(len, to) - Time(len, from) < 365
    ensures NearestFrom(len, from, to) <= 12
  {
    var nearest := NearestFrom(len, from, to);
    NearestIsClosest(len, from, to, 12);
    if nearest > 12 { AnchorsGrow(len, from, 12, nearest); }
  }

  /** Over 31 days is at least one month. */
  lemma OverAMonthIsAtLeastOne(len: Lengths, from: Date, to: Date)
    requires Plausible(len) && InOrder(len, from, to) && Time(len, to) - Time(len, from) > 31
    ensures NearestFrom(len, from, to) >= 1
  {
    AnchorStep(len, from, 0);
    NearestIsClosest(len, from, to, 1);
  }
}
