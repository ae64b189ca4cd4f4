/** The names artifacts have on disk: one per date and version, and never a staging temp's. */
module StorageNames {
  import opened Basics
  import opened MonthArithmetic
  import opened CalendarDistance
  import opened Prose

  function Two(n: nat): string
    requires n < 100
  {
    [DigitOf(n / 10), DigitOf(n % 10)]
  }

  /** date.isoformat(). */
  function Iso(d: Date): string
    requires Valid(GREGORIAN, d) && d.month / 12 < 10000
  {
    var year := d.month / 12;
    Two(year / 100) + Two(year % 100) + "-" + Two(d.month % 12 + 1) + "-" + Two(d.day)
  }

  /** storage_uri: day/{date}/profile-v{version}.json. */
  function FinalName(d: Date, version: nat): string
    requires Valid(GREGORIAN, d) && d.month / 12 < 10000
  {
    "day/" + Iso(d) + ("/profile-v" + (Digits(version) + ".json"))
  }

  /** The deterministic staging name beside it. */
  function TempName(d: Date, version: nat): string
    requires Valid(GREGORIAN, d) && d.month / 12 < 10000
  {
    FinalName(d, version) + ".tmp"
  }

  lemma TwoIsInjective(a: nat, b: nat)
    requires a < 100 && b < 100 && Two(a) == Two(b)
    ensures a == b
  {
    assert Two(a)[0] == Two(b)[0] && Two(a)[1] == Two(b)[1];
    assert DigitOf(a / 10) == DigitOf(b / 10) && DigitOf(a % 10) == DigitOf(b % 10);
  }

  lemma IsoParts(d: Date)
    requires Valid(GREGORIAN, d) && d.month / 12 < 10000
    ensures |Iso(d)| == 10
    ensures Iso(d)[0..2] == Two(d.month / 12 / 100) && Iso(d)[2..4] == Two(d.month / 12 % 100)
    ensures Iso(d)[5..7] == Two(d.month % 12 + 1) && Iso(d)[8..10] == Two(d.day)
  {
  }

  lemma IsoIsInjective(a: Date, b: Date)
    requires Valid(GREGORIAN, a) && a.month / 12 < 10000 && Valid(GREGORIAN, b) && b.month / 12 < 10000
    requires Iso(a) == Iso(b)
    ensures a == b
  {
    IsoParts(a);
    IsoParts(b);
    TwoIsInjective(a.month / 12 / 100, b.month / 12 / 100);
    TwoIsInjective(a.month / 12 % 100, b.month / 12 % 100);
    TwoIsInjective(a.month % 12 + 1, b.month % 12 + 1);
    TwoIsInjective(a.day, b.day);
    assert a.month / 12 == b.month / 12;
  }

  lemma CutPrefix(a: string, x: string, b: string, y: string)
    requires |a| == |b| && a + x == b + y
    ensures a == b && x == y
  {
    assert (a + x)[..|a|] == a && (b + y)[..|b|] == b;
    assert (a + x)[|a|..] == x && (b + y)[|b|..] == y;
  }

  lemma CutSuffix(a: string, x: string, b: string, y: string)
    requires |x| == |y| && a + x == b + y
    ensures a == b && x == y
  {
    assert |a| == |b|;
    CutPrefix(a, x, b, y);
  }

  /** A final artifact's name determines its date and version, and so does a temp's. */
  lemma NamesAreInjective(a: Date, v: nat, b: Date, w: nat)
    requires Valid(GREGORIAN, a) && a.month / 12 < 10000 && Valid(GREGORIAN, b) && b.month / 12 < 10000
    ensures FinalName(a, v) == FinalName(b, w) <==> a == b && v == w
    ensures TempName(a, v) == TempName(b, w) <==> a == b && v == w
  {
    if TempName(a, v) == TempName(b, w) { CutSuffix(FinalName(a, v), ".tmp", FinalName(b, w), ".tmp"); }
    if FinalName(a, v) == FinalName(b, w) {
      IsoParts(a);
      IsoParts(b);
      CutPrefix("day/" + Iso(a), "/profile-v" + (Digits(v) + ".json"), "day/" + Iso(b),
                "/profile-v" + (Digits(w) + ".json"));
      CutPrefix("day/", Iso(a), "day/", Iso(b));
      CutPrefix("/profile-v", Digits(v) + ".json", "/profile-v", Digits(w) + ".json");
      CutSuffix(Digits(v), ".json", Digits(w), ".json");
      IsoIsInjective(a, b);
      DigitsReadBack(v);
      DigitsReadBack(w);
    }
  }

  /** No temp is named as a final artifact. */
  lemma TempsAreNotFinals(a: Date, v: nat, b: Date, w: nat)
    requires Valid(GREGORIAN, a) && a.month / 12 < 10000 && Valid(GREGORIAN, b) && b.month / 12 < 10000
    ensures TempName(a, v) != FinalName(b, w)
  {
    var temp, final := TempName(a, v), FinalName(b, w);
    assert temp[|temp| - 1] == 'p';
    assert final == ("day/" + Iso(b) + "/profile-v" + Digits(w)) + ".json";
    assert final[|final| - 1] == 'n';
  }
}
