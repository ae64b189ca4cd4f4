/** A conflict count that disclaims one date, by name, disclaims that date and no other. */
module DatedCaveats {
  import opened Basics
  import opened Prose
  import opened ContextPage

  function Article(an: bool): string {
    if an then "not an " else "not a "
  }

  /** A caveat that names a date: "not an April 5 count". */
  function Caveat(an: bool, month: nat, day: nat, after: string): string
    requires 1 <= month <= 12
  {
    Article(an) + (MONTH_NAMES[month - 1] + (" " + (Digits(day) + (" count" + after))))
  }

  predicate LowerLetters(s: string) {
    forall i :: 0 <= i < |s| ==> 'a' <= s[i] <= 'z'
  }

  lemma {:induction false} LowerRunStops(before: string, run: string, after: string)
    requires LowerLetters(run) && (after == "" || !('a' <= after[0] <= 'z'))
    ensures LowerRun(before + run + after, |before|) == run
    decreases |run|
  {
    var text := before + run + after;
    if run != "" {
      assert text == (before + [run[0]]) + run[1..] + after;
      LowerRunStops(before + [run[0]], run[1..], after);
      assert text[|before|] == run[0] && run == [run[0]] + run[1..];
    } else {
      assert after != "" ==> text[|before|] == after[0];
    }
  }

  lemma MonthsAreNames(month: nat)
    requires 1 <= month <= 12
    ensures var name := MONTH_NAMES[month - 1];
      |name| >= 2 && IsUpper(name[0]) && LowerLetters(name[1..])
  {
  }

  lemma MonthsDiffer(a: nat, b: nat)
    requires 1 <= a <= 12 && 1 <= b <= 12 && MONTH_NAMES[a - 1] == MONTH_NAMES[b - 1]
    ensures a == b
  {
  }

  lemma DayIsShort(day: nat)
    requires day < 100
    ensures 1 <= |Digits(day)| <= 2
  {
    if day >= 10 { assert |Digits(day / 10)| == 1; }
  }

  lemma StandsAt(before: string, word: string, after: string)
    ensures StartsAt(before + word + after, |before|, word)
  {
    assert (before + word + after)[|before|..|before| + |word|] == word;
  }

  /** After a capital: the rest of the name. */
  lemma NameReads(text: string, before: string, name: string, tail: string)
    requires text == before + name + (" " + tail) && |name| >= 2 && LowerLetters(name[1..])
    ensures LowerRun(text, |before| + 1) == name[1..] && StartsAt(text, |before| + |name|, " ")
  {
    assert text == (before + [name[0]]) + name[1..] + (" " + tail);
    LowerRunStops(before + [name[0]], name[1..], " " + tail);
    StandsAt(before + name, " ", tail);
    assert before + name + " " + tail == text;
  }

  /** After the name: the day, and the word after it. */
  lemma DayReads(text: string, before: string, name: string, digits: string, after: string)
    requires text == before + " " + digits + (" count" + after) && AllDigits(digits) && 1 <= |digits| <= 2
    ensures DayAt(text, |before|, name) == Some((name, Value(digits)))
  {
    RunStops(before + " ", digits, " count" + after, DigitChars);
    StandsAt(before, " ", digits + (" count" + after));
    assert before + " " + (digits + (" count" + after)) == text;
    StandsAt(before + " " + digits, " count", after);
    assert before + " " + digits + " count" + after == text;
  }

  lemma Regroup(before: string, article: string, name: string, digits: string, tail: string)
    ensures var text := before + (article + (name + (" " + (digits + tail))));
      && text == (before + article) + name + (" " + (digits + tail))
      && text == (before + article + name + " ") + digits + tail
  {
  }

  lemma CaveatReads(before: string, an: bool, month: nat, day: nat, after: string)
    requires 1 <= month <= 12 && day < 100
    ensures CaveatAt(before + Caveat(an, month, day, after), |before|) == Some((MONTH_NAMES[month - 1], day))
  {
    MonthsAreNames(month);
    NameReadsAfter(before, an, MONTH_NAMES[month - 1], day, after);
  }

  /** Whatever the name is. */
  lemma NameReadsAfter(before: string, an: bool, name: string, day: nat, after: string)
    requires |name| >= 2 && IsUpper(name[0]) && LowerLetters(name[1..]) && day < 100
    ensures CaveatAt(before + (Article(an) + (name + (" " + (Digits(day) + (" count" + after))))), |before|) ==
      Some((name, day))
  {
    var text := before + (Article(an) + (name + (" " + (Digits(day) + (" count" + after)))));
    ArticleIsRead(before, an, name + (" " + (Digits(day) + (" count" + after))));
    DateReadsAfter(before, Article(an), name, day, after);
    ArticleThenDate(text, |before|, an, name, day);
  }

  lemma DateReadsAfter(before: string, article: string, name: string, day: nat, after: string)
    requires |name| >= 2 && IsUpper(name[0]) && LowerLetters(name[1..]) && day < 100
    ensures DateAt(before + (article + (name + (" " + (Digits(day) + (" count" + after))))), |before| + |article|) ==
      Some((name, day))
  {
    var text := before + (article + (name + (" " + (Digits(day) + (" count" + after)))));
    Regroup(before, article, name, Digits(day), " count" + after);
    DayIsShort(day);
    DigitsReadBack(day);
    DayReads(text, before + article + name, name, Digits(day), after);
    NamedDateReads(text, before + article, name, Digits(day) + (" count" + after), day);
  }

  lemma ArticleThenDate(text: string, k: nat, an: bool, name: string, day: nat)
    requires (StartsAt(text, k, "not a ") <==> !an) && (StartsAt(text, k, "not an ") <==> an)
    requires DateAt(text, k + |Article(an)|) == Some((name, day))
    ensures CaveatAt(text, k) == Some((name, day))
  {
  }

  lemma NamedDateReads(text: string, before: string, name: string, tail: string, day: nat)
    requires text == before + name + (" " + tail) && |name| >= 2 && IsUpper(name[0]) && LowerLetters(name[1..])
    requires DayAt(text, |before| + |name|, name) == Some((name, day))
    ensures DateAt(text, |before|) == Some((name, day))
  {
    NameReads(text, before, name, tail);
    assert text[|before|] == (before + name)[|before|] == name[0];
    NameThenDay(text, |before|, name, day);
  }

  lemma NameThenDay(text: string, at: nat, name: string, day: nat)
    requires at < |text| && |name| >= 2 && IsUpper(name[0]) && text[at] == name[0]
    requires LowerRun(text, at + 1) == name[1..] && DayAt(text, at + |name|, name) == Some((name, day))
    ensures DateAt(text, at) == Some((name, day))
  {
    var rest := LowerRun(text, at + 1);
    assert [text[at]] + rest == name && at + 1 + |rest| == at + |name|;
  }

  lemma ArticleIsRead(before: string, an: bool, rest: string)
    ensures var text := before + (Article(an) + rest);
      && (StartsAt(text, |before|, "not a ") <==> !an) && (StartsAt(text, |before|, "not an ") <==> an)
  {
    var text := before + (Article(an) + rest);
    StandsAt(before, Article(an), rest);
    assert before + Article(an) + rest == text;
    assert text[|before| + 5] == Article(an)[5];
    if StartsAt(text, |before|, "not a ") { assert text[|before|..|before| + 6][5] == ' '; }
    if StartsAt(text, |before|, "not an ") { assert text[|before|..|before| + 7][5] == 'n'; }
  }

  lemma BeginsNot(text: string, i: nat, an: bool)
    requires StartsAt(text, i, Article(an))
    ensures StartsAt(text, i, "not")
  {
    assert text[i..i + 3] == Article(an)[..3] == "not";
  }

  /** Nothing before the caveat reads as one. */
  lemma NoneBefore(before: string, caveat: string, i: nat)
    requires Avoids(before + "no", "not") && |caveat| >= 2 && caveat[..2] == "no" && i < |before|
    ensures CaveatAt(before + caveat, i).None?
  {
    var text := before + caveat;
    if StartsAt(text, i, Article(false)) { BeginsNot(text, i, false); }
    if StartsAt(text, i, Article(true)) { BeginsNot(text, i, true); }
    assert text[..|before| + 2] == before + "no";
    StartsAlike(text, before + "no", i, "not");
  }

  lemma StartsAlike(text: string, front: string, i: nat, word: string)
    requires |front| <= |text| && text[..|front|] == front && i + |word| <= |front|
    ensures StartsAt(text, i, word) <==> StartsAt(front, i, word)
  {
    StartsAtChars(text, i, word);
    StartsAtChars(front, i, word);
    assert forall j :: 0 <= j < |front| ==> text[j] == text[..|front|][j];
  }

  lemma {:induction false} FirstIsHere(text: string, k: nat, at: nat)
    requires k <= at <= |text| && CaveatAt(text, at).Some? && forall i: nat :: k <= i < at ==> CaveatAt(text, i).None?
    ensures FirstCaveat(text, k) == CaveatAt(text, at)
    decreases at - k
  {
    if k < at { FirstIsHere(text, k + 1, at); }
  }

  /** Without the general caveat, a text whose first caveat names a date disclaims that date exactly. */
  lemma DisclaimsExactlyItsDate(before: string, an: bool, month: nat, day: nat, after: string, m: nat, d: nat)
    requires 1 <= month <= 12 && day < 100 && Avoids(before + "no", "not")
    requires !Contains(before + Caveat(an, month, day, after), YEAR_GENERAL_CAVEAT)
    ensures DisclaimsThisDate(before + Caveat(an, month, day, after), m, d) <==> m == month && d == day
  {
    var text := before + Caveat(an, month, day, after);
    CaveatReads(before, an, month, day, after);
    forall i: nat | i < |before| ensures CaveatAt(text, i).None? {
      assert Caveat(an, month, day, after)[..2] == Article(an)[..2] == "no";
      NoneBefore(before, Caveat(an, month, day, after), i);
    }
    FirstIsHere(text, 0, |before|);
    if 1 <= m <= 12 && MONTH_NAMES[m - 1] == MONTH_NAMES[month - 1] { MonthsDiffer(m, month); }
  }
}
