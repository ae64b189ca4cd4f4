/** Numbers as a reader sees them: printed into prose, and searched for and read back. */
module Prose {
  import opened Basics

  // ---- Printing --------------------------------------------------------------------------

  predicate IsDigit(c: char) {
    '0' <= c <= '9'
  }

  function DigitOf(n: nat): (c: char)
    requires n < 10
    ensures IsDigit(c)
  {
    '0' + n as char
  }

  function Digits(n: nat): string {
    (if n < 10 then "" else Digits(n / 10)) + [DigitOf(n % 10)]
  }

  function Padded(n: nat): string
    requires n < 1000
  {
    [DigitOf(n / 100), DigitOf(n / 10 % 10), DigitOf(n % 10)]
  }

  /** f"{n:,}". */
  function Grouped(n: nat): string {
    if n < 1000 then Digits(n) else Grouped(n / 1000) + "," + Padded(n % 1000)
  }

  // ---- Reading back ----------------------------------------------------------------------

  predicate AllDigits(s: string) {
    forall i :: 0 <= i < |s| ==> IsDigit(s[i])
  }

  function Value(s: string): nat {
    if s == "" then 0
    else Value(s[..|s| - 1]) * 10 + if IsDigit(s[|s| - 1]) then (s[|s| - 1] - '0') as nat else 0
  }

  function WithoutCommas(s: string): string {
    if s == "" then "" else WithoutCommas(s[..|s| - 1]) + if s[|s| - 1] == ',' then "" else [s[|s| - 1]]
  }

  /** int(text): digits only, and at least one. */
  function ReadNumber(s: string): Option<nat> {
    if s != "" && AllDigits(s) then Some(Value(s)) else None
  }

  lemma {:induction false} DigitsReadBack(n: nat)
    ensures AllDigits(Digits(n)) && Digits(n) != "" && Value(Digits(n)) == n
  {
    if n >= 10 {
      DigitsReadBack(n / 10);
      assert Digits(n)[..|Digits(n)| - 1] == Digits(n / 10);
    } else {
      assert Digits(n) == [DigitOf(n)] && [DigitOf(n)][..0] == "";
    }
  }

  lemma ValueThen(s: string, d: nat)
    requires d < 10
    ensures Value(s + [DigitOf(d)]) == Value(s) * 10 + d
  {
    assert (s + [DigitOf(d)])[..|s|] == s;
  }

  lemma ThreeDigits(n: nat)
    requires n < 1000
    ensures ((n / 100) * 10 + n / 10 % 10) * 10 + n % 10 == n
  {
    assert n / 10 == (n / 100) * 10 + n / 10 % 10;
  }

  lemma WithoutCommasThen(s: string, c: char)
    ensures WithoutCommas(s + [c]) == if c == ',' then WithoutCommas(s) else WithoutCommas(s) + [c]
  {
    assert (s + [c])[..|s|] == s;
  }

  lemma {:induction false} DigitsHaveNoCommas(s: string)
    requires AllDigits(s)
    ensures WithoutCommas(s) == s
  {
    if s != "" {
      DigitsHaveNoCommas(s[..|s| - 1]);
      assert s == s[..|s| - 1] + [s[|s| - 1]];
    }
  }

  predicate IsCountChar(c: char) {
    IsDigit(c) || c == ','
  }

  predicate AllCountChars(s: string) {
    forall i :: 0 <= i < |s| ==> IsCountChar(s[i])
  }

  /** A text of digits and commas that reads as n. */
  predicate Reads(s: string, n: nat) {
    s != "" && AllCountChars(s) && ReadNumber(WithoutCommas(s)) == Some(n)
  }

  lemma ReadsComma(s: string, n: nat)
    requires Reads(s, n)
    ensures Reads(s + [','], n)
  {
    WithoutCommasThen(s, ',');
    CountCharsThen(s, ',');
  }

  lemma CountCharsThen(s: string, c: char)
    requires AllCountChars(s) && IsCountChar(c)
    ensures AllCountChars(s + [c])
  {
    forall i | 0 <= i < |s + [c]| ensures IsCountChar((s + [c])[i]) {
      if i < |s| { assert (s + [c])[i] == s[i]; }
    }
  }

  lemma ReadsDigit(s: string, n: nat, d: nat)
    requires Reads(s, n) && d < 10
    ensures Reads(s + [DigitOf(d)], n * 10 + d)
  {
    WithoutCommasThen(s, DigitOf(d));
    ValueThen(WithoutCommas(s), d);
  }

  lemma ReadsOn(s: string, n: nat, rest: nat)
    requires Reads(s, n) && rest < 1000
    ensures Reads(s + "," + Padded(rest), n * 1000 + rest)
  {
    var a, b, c := rest / 100, rest / 10 % 10, rest % 10;
    ReadsComma(s, n);
    ReadsDigit(s + [','], n, a);
    ReadsDigit(s + [','] + [DigitOf(a)], n * 10 + a, b);
    ReadsDigit(s + [','] + [DigitOf(a)] + [DigitOf(b)], (n * 10 + a) * 10 + b, c);
    ThreeDigits(rest);
    ReadsSame(s + [','] + [DigitOf(a)] + [DigitOf(b)] + [DigitOf(c)], s + "," + Padded(rest),
              ((n * 10 + a) * 10 + b) * 10 + c, n * 1000 + rest);
  }

  lemma ReadsSame(s: string, t: string, n: nat, m: nat)
    requires Reads(s, n) && s == t && n == m
    ensures Reads(t, m)
  {
  }

  /** A comma-grouped count, its commas removed, reads back as itself. */
  lemma {:induction false} GroupedReadsBack(n: nat)
    ensures Reads(Grouped(n), n)
  {
    if n < 1000 {
      DigitsReadBack(n);
      DigitsHaveNoCommas(Digits(n));
    } else {
      GroupedReadsBack(n / 1000);
      ReadsOn(Grouped(n / 1000), n / 1000, n % 1000);
    }
  }

  // ---- Searching -------------------------------------------------------------------------

  predicate StartsAt(text: string, k: nat, sub: string) {
    k + |sub| <= |text| && text[k..k + |sub|] == sub
  }

  predicate Contains(text: string, sub: string) {
    exists k: nat :: k <= |text| && StartsAt(text, k, sub)
  }

  datatype Class = DigitChars | CountChars

  predicate InClass(c: char, class_: Class) {
    if class_.DigitChars? then IsDigit(c) else IsCountChar(c)
  }

  /** A pattern: fixed text, captured runs of one or more characters of a class, and the first few of a run. */
  datatype Piece = Fixed(text: string) | Captured(of: Class) | Counted(of: Class, count: nat)

  /** The longest run of such characters from k on. */
  function RunFrom(text: string, k: nat, of: Class): string
    decreases |text| - k
  {
    if k < |text| && InClass(text[k], of) then [text[k]] + RunFrom(text, k + 1, of) else ""
  }

  /** The runs captured when the pattern matches at k. */
  function MatchAt(text: string, k: nat, pattern: seq<Piece>): Option<seq<string>>
    decreases |pattern|
  {
    if pattern == [] then Some([])
    else if pattern[0].Fixed? then
      if StartsAt(text, k, pattern[0].text) then MatchAt(text, k + |pattern[0].text|, pattern[1..]) else None
    else
      var run := Taken(RunFrom(text, k, pattern[0].of), pattern[0]);
      var rest := MatchAt(text, k + |run|, pattern[1..]);
      if run == "" || rest.None? then None else Some([run] + rest.value)
  }

  /** What a piece takes of the run it finds; nothing when there is too little. */
  function Taken(run: string, piece: Piece): string {
    if !piece.Counted? then run else if |run| < piece.count then "" else run[..piece.count]
  }

  /** re.search: the captures at the first place the pattern matches. */
  function Search(text: string, pattern: seq<Piece>, k: nat): Option<seq<string>>
    decreases |text| - k
  {
    var here := MatchAt(text, k, pattern);
    if here.Some? || k >= |text| then here else Search(text, pattern, k + 1)
  }

  lemma {:induction false} SearchFinds(text: string, pattern: seq<Piece>, k: nat, at: nat)
    requires k <= at <= |text| && MatchAt(text, at, pattern).Some?
    requires forall i: nat :: k <= i < at ==> MatchAt(text, i, pattern).None?
    ensures Search(text, pattern, k) == MatchAt(text, at, pattern)
    decreases at - k
  {
    if k < at { SearchFinds(text, pattern, k + 1, at); }
  }

  lemma {:induction false} RunStops(before: string, run: string, after: string, of: Class)
    requires forall i :: 0 <= i < |run| ==> InClass(run[i], of)
    requires after == "" || !InClass(after[0], of)
    ensures RunFrom(before + run + after, |before|, of) == run
    decreases |run|
  {
    var text := before + run + after;
    if run != "" {
      assert text == (before + [run[0]]) + run[1..] + after;
      RunStops(before + [run[0]], run[1..], after, of);
      assert text[|before|] == run[0] && run == [run[0]] + run[1..];
    } else {
      assert after != "" ==> text[|before|] == after[0];
    }
  }

  lemma MatchFixed(before: string, fixed: string, after: string, rest: seq<Piece>)
    ensures MatchAt(before + fixed + after, |before|, [Fixed(fixed)] + rest)
         == MatchAt(before + fixed + after, |before + fixed|, rest)
  {
    StartsAtChars(before + fixed + after, |before|, fixed);
    assert ([Fixed(fixed)] + rest)[1..] == rest;
  }

  lemma MatchRunIn(text: string, k: nat, pattern: seq<Piece>)
    requires pattern != [] && pattern[0].Captured? && RunFrom(text, k, pattern[0].of) != ""
    ensures var run := RunFrom(text, k, pattern[0].of);
      var later := MatchAt(text, k + |run|, pattern[1..]);
      MatchAt(text, k, pattern) == if later.None? then None else Some([run] + later.value)
  {
  }

  lemma ThenFixed(text: string, before: string, fixed: string, after: string, tail: seq<Piece>, caps: seq<string>)
    requires text == before + fixed + after && MatchAt(text, |before| + |fixed|, tail) == Some(caps)
    ensures MatchAt(text, |before|, [Fixed(fixed)] + tail) == Some(caps)
  {
    MatchFixed(before, fixed, after, tail);
  }

  lemma ThenRun(text: string, before: string, run: string, after: string, of: Class, tail: seq<Piece>,
                caps: seq<string>)
    requires text == before + run + after && MatchAt(text, |before| + |run|, tail) == Some(caps)
    requires run != "" && forall i :: 0 <= i < |run| ==> InClass(run[i], of)
    requires after == "" || !InClass(after[0], of)
    ensures MatchAt(text, |before|, [Captured(of)] + tail) == Some([run] + caps)
  {
    RunStops(before, run, after, of);
    PatternSplits(Captured(of), tail);
    MatchRunIn(text, |before|, [Captured(of)] + tail);
  }

  lemma PatternSplits(head: Piece, tail: seq<Piece>)
    ensures ([head] + tail)[0] == head && ([head] + tail)[1..] == tail
  {
  }

  /** A pattern that begins with fixed text matches nowhere before the first place that text begins to. */
  lemma SearchSkips(before: string, marker: string, rest: string, pattern: seq<Piece>, stem: nat)
    requires pattern != [] && pattern[0] == Fixed(marker) && 0 < stem <= |marker|
    requires Avoids(before + marker[..stem - 1], marker[..stem])
    requires MatchAt(before + marker + rest, |before|, pattern).Some?
    ensures Search(before + marker + rest, pattern, 0) == MatchAt(before + marker + rest, |before|, pattern)
  {
    forall i: nat | i < |before| ensures MatchAt(before + marker + rest, i, pattern).None? {
      if StartsAt(before + marker + rest, i, marker) { StemStarts(before, marker, rest, stem, i); }
    }
    SearchFinds(before + marker + rest, pattern, 0, |before|);
  }

  /** One captured run after fixed text. */
  lemma CaptureOne(before: string, marker: string, run: string, after: string, of: Class, stem: nat)
    requires 0 < stem <= |marker| && Avoids(before + marker[..stem - 1], marker[..stem])
    requires run != "" && forall i :: 0 <= i < |run| ==> InClass(run[i], of)
    requires after == "" || !InClass(after[0], of)
    ensures Search(before + marker + (run + after), [Fixed(marker)] + ([Captured(of)] + []), 0) == Some([run])
  {
    var text := before + marker + (run + after);
    assert text == (before + marker) + run + after;
    ThenRun(text, before + marker, run, after, of, [], []);
    assert [run] + [] == [run] && |before + marker| == |before| + |marker|;
    ThenFixed(text, before, marker, run + after, [Captured(of)] + [], [run]);
    SearchSkips(before, marker, run + after, [Fixed(marker)] + ([Captured(of)] + []), stem);
  }

  /** A run of exactly this many after fixed text. */
  lemma CaptureCounted(before: string, marker: string, run: string, after: string, of: Class, stem: nat)
    requires 0 < stem <= |marker| && Avoids(before + marker[..stem - 1], marker[..stem])
    requires run != "" && forall i :: 0 <= i < |run| ==> InClass(run[i], of)
    requires after == "" || !InClass(after[0], of)
    ensures Search(before + marker + (run + after), [Fixed(marker)] + ([Counted(of, |run|)] + []), 0) == Some([run])
  {
    var text := before + marker + (run + after);
    assert text == (before + marker) + run + after;
    RunStops(before + marker, run, after, of);
    PatternSplits(Counted(of, |run|), []);
    assert run[..|run|] == run && [run] + [] == [run] && |before + marker| == |before| + |marker|;
    assert MatchAt(text, |before + marker|, [Counted(of, |run|)] + []) == Some([run]);
    ThenFixed(text, before, marker, run + after, [Counted(of, |run|)] + [], [run]);
    SearchSkips(before, marker, run + after, [Fixed(marker)] + ([Counted(of, |run|)] + []), stem);
  }

  /** One captured run between fixed texts. */
  lemma CaptureThen(before: string, marker: string, run: string, suffix: string, after: string, of: Class, stem: nat)
    requires 0 < stem <= |marker| && Avoids(before + marker[..stem - 1], marker[..stem])
    requires run != "" && forall i :: 0 <= i < |run| ==> InClass(run[i], of)
    requires suffix != "" && !InClass(suffix[0], of)
    ensures Search(before + marker + (run + (suffix + after)), [Fixed(marker)] + RunThen(of, suffix, []), 0) ==
        Some([run])
  {
    var text := before + marker + (run + (suffix + after));
    ThenRunThen(text, before + marker, run, suffix, after, of, [], []);
    assert [run] + [] == [run] && |before + marker| == |before| + |marker|;
    ThenFixed(text, before, marker, run + (suffix + after), RunThen(of, suffix, []), [run]);
    SearchSkips(before, marker, run + (suffix + after), [Fixed(marker)] + RunThen(of, suffix, []), stem);
  }

  function RunThen(of: Class, suffix: string, tail: seq<Piece>): seq<Piece> {
    [Captured(of)] + ([Fixed(suffix)] + tail)
  }

  /** A run and the fixed text after it, before whatever else matches. */
  lemma ThenRunThen(text: string, before: string, run: string, suffix: string, after: string, of: Class,
                    tail: seq<Piece>, caps: seq<string>)
    requires text == before + (run + (suffix + after))
    requires MatchAt(text, |before| + |run| + |suffix|, tail) == Some(caps)
    requires run != "" && forall i :: 0 <= i < |run| ==> InClass(run[i], of)
    requires suffix != "" && !InClass(suffix[0], of)
    ensures MatchAt(text, |before|, RunThen(of, suffix, tail)) == Some([run] + caps)
  {
    assert text == (before + run) + suffix + after;
    ThenFixed(text, before + run, suffix, after, tail, caps);
    assert text == before + run + (suffix + after);
    ThenRun(text, before, run, suffix + after, of, [Fixed(suffix)] + tail, caps);
  }

  function TwoRuns(marker: string, of: Class, middle: string, suffix: string): seq<Piece> {
    [Fixed(marker)] + RunThen(of, middle, RunThen(of, suffix, []))
  }

  /** Two captured runs between fixed texts. */
  lemma CaptureTwo(before: string, marker: string, one: string, middle: string, two: string, suffix: string,
                   after: string, of: Class, stem: nat)
    requires 0 < stem <= |marker| && Avoids(before + marker[..stem - 1], marker[..stem])
    requires one != "" && forall i :: 0 <= i < |one| ==> InClass(one[i], of)
    requires two != "" && forall i :: 0 <= i < |two| ==> InClass(two[i], of)
    requires middle != "" && !InClass(middle[0], of) && suffix != "" && !InClass(suffix[0], of)
    ensures Search(before + marker + (one + (middle + (two + (suffix + after)))), TwoRuns(marker, of, middle, suffix),
                   0) == Some([one, two])
  {
    var text := before + marker + (one + (middle + (two + (suffix + after))));
    TwoRunsMatch(text, before, marker, one, middle, two, suffix, after, of);
    SearchSkips(before, marker, one + (middle + (two + (suffix + after))), TwoRuns(marker, of, middle, suffix), stem);
  }

  lemma TwoRunsMatch(text: string, before: string, marker: string, one: string, middle: string, two: string,
                     suffix: string, after: string, of: Class)
    requires text == before + marker + (one + (middle + (two + (suffix + after))))
    requires one != "" && forall i :: 0 <= i < |one| ==> InClass(one[i], of)
    requires two != "" && forall i :: 0 <= i < |two| ==> InClass(two[i], of)
    requires middle != "" && !InClass(middle[0], of) && suffix != "" && !InClass(suffix[0], of)
    ensures MatchAt(text, |before|, TwoRuns(marker, of, middle, suffix)) == Some([one, two])
  {
    BothRunsMatch(text, before + marker, one, middle, two, suffix, after, of);
    assert |before + marker| == |before| + |marker|;
    ThenFixed(text, before, marker, one + (middle + (two + (suffix + after))),
              RunThen(of, middle, RunThen(of, suffix, [])), [one, two]);
  }

  lemma BothRunsMatch(text: string, before: string, one: string, middle: string, two: string, suffix: string,
                      after: string, of: Class)
    requires text == before + (one + (middle + (two + (suffix + after))))
    requires one != "" && forall i :: 0 <= i < |one| ==> InClass(one[i], of)
    requires two != "" && forall i :: 0 <= i < |two| ==> InClass(two[i], of)
    requires middle != "" && !InClass(middle[0], of) && suffix != "" && !InClass(suffix[0], of)
    ensures MatchAt(text, |before|, RunThen(of, middle, RunThen(of, suffix, []))) == Some([one, two])
  {
    var upTo := before + one + middle;
    assert text == upTo + (two + (suffix + after));
    ThenRunThen(text, upTo, two, suffix, after, of, [], []);
    assert [two] + [] == [two] && |upTo| == |before| + |one| + |middle|;
    ThenRunThen(text, before, one, middle, two + (suffix + after), of, RunThen(of, suffix, []), [two]);
    assert [one] + [two] == [one, two];
  }

  // ---- Text that avoids a word -----------------------------------------------------------

  ghost predicate Avoids(s: string, word: string) {
    forall k: nat :: !StartsAt(s, k, word)
  }

  lemma StartsAtChars(text: string, k: nat, sub: string)
    ensures StartsAt(text, k, sub) <==> k + |sub| <= |text| && forall i :: 0 <= i < |sub| ==> text[k + i] == sub[i]
  {
    if k + |sub| <= |text| && (forall i :: 0 <= i < |sub| ==> text[k + i] == sub[i]) {
      assert text[k..k + |sub|] == sub;
    }
    if StartsAt(text, k, sub) {
      forall i | 0 <= i < |sub| ensures text[k + i] == sub[i] { assert text[k..k + |sub|][i] == text[k + i]; }
    }
  }

  /** Two texts that avoid a word avoid it together, when it cannot straddle the join. */
  lemma AvoidsTogether(a: string, b: string, word: string)
    requires Avoids(a, word) && Avoids(b, word) && word != ""
    requires b == "" || a == "" || b[0] !in word[1..] || a[|a| - 1] !in word[..|word| - 1]
    ensures Avoids(a + b, word)
  {
    forall k: nat ensures !StartsAt(a + b, k, word) {
      if StartsAt(a + b, k, word) { StartsInOneOrStraddles(a, b, word, k); }
    }
  }

  lemma StartsInOneOrStraddles(a: string, b: string, word: string, k: nat)
    requires StartsAt(a + b, k, word) && word != ""
    ensures StartsAt(a, k, word) || (k >= |a| && StartsAt(b, k - |a|, word))
      || (a != "" && b != "" && b[0] in word[1..] && a[|a| - 1] in word[..|word| - 1])
  {
    StartsAtChars(a + b, k, word);
    StartsAtChars(a, k, word);
    if k + |word| <= |a| {
      assert StartsAt(a, k, word);
    } else if k >= |a| {
      forall i | 0 <= i < |word| ensures b[k - |a| + i] == word[i] { assert (a + b)[k + i] == b[k - |a| + i]; }
      StartsAtChars(b, k - |a|, word);
    } else {
      assert (a + b)[k + (|a| - k)] == word[|a| - k] && word[1..][|a| - k - 1] == b[0];
      assert (a + b)[k + (|a| - 1 - k)] == word[|a| - 1 - k] && word[..|word| - 1][|a| - 1 - k] == a[|a| - 1];
    }
  }

  lemma DigitsAvoid(s: string, word: string)
    requires AllDigits(s) && word != "" && !IsDigit(word[0])
    ensures Avoids(s, word)
  {
    forall k: nat ensures !StartsAt(s, k, word) {
      StartsAtChars(s, k, word);
    }
  }

  lemma StemStarts(before: string, marker: string, rest: string, stem: nat, i: nat)
    requires 0 < stem <= |marker| && i < |before| && StartsAt(before + marker + rest, i, marker)
    ensures StartsAt(before + marker[..stem - 1], i, marker[..stem])
  {
    var text, head := before + marker + rest, before + marker[..stem - 1];
    StartsAtChars(text, i, marker);
    assert forall j :: 0 <= j < |head| ==> text[j] == head[j];
    forall j | 0 <= j < stem ensures head[i + j] == marker[..stem][j] { assert text[i + j] == marker[j]; }
    StartsAtChars(head, i, marker[..stem]);
  }

  // ---- Lower case ------------------------------------------------------------------------

  function LowerChar(c: char): char {
    if 'A' <= c <= 'Z' then c - 'A' + 'a' else c
  }

  function Lower(s: string): string {
    seq(|s|, i requires 0 <= i < |s| => LowerChar(s[i]))
  }

  lemma LowerTogether(a: string, b: string)
    ensures Lower(a + b) == Lower(a) + Lower(b)
  {
  }

  lemma ContainsMiddle(a: string, sub: string, b: string)
    ensures Contains(a + sub + b, sub)
  {
    assert StartsAt(a + sub + b, |a|, sub);
  }

  lemma ContainsLast(a: string, b: string, sub: string)
    requires Contains(b, sub)
    ensures Contains(a + b, sub)
  {
    var k: nat :| k <= |b| && StartsAt(b, k, sub);
    assert (a + b)[|a| + k..|a| + k + |sub|] == b[k..k + |sub|];
    assert StartsAt(a + b, |a| + k, sub);
  }

  lemma ContainsFirst(a: string, b: string, sub: string)
    requires Contains(a, sub)
    ensures Contains(a + b, sub)
  {
    var k: nat :| k <= |a| && StartsAt(a, k, sub);
    assert (a + b)[k..k + |sub|] == a[k..k + |sub|];
    assert StartsAt(a + b, k, sub);
  }
}
