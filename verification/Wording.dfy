/** Words a text keeps clear of: no word is in a text that lacks two letters the word has side by side. */
module Wording {
  import opened Basics
  import opened Prose

  /** Letter pairs, in lower case. Each word the checks look for has one of its family's pairs in it. */
  datatype Taboo =
    | Projecting     // projection, projects, projected
    | Straying       // what makes context read as a daily equivalent, or as the count of conflicts
    | Drifting       // both
    | Claiming       // what a count must not say of itself: projections, daily equivalents, deaths
    | Weighing       // what a comparison of counts must not say besides
    | Pair(first: char, second: char)

  predicate Bad(t: Taboo, a: char, b: char) {
    match t
    case Projecting => a == 'o' && b == 'j'
    case Straying => (a == 'a' && b == 'v') || (a == 'f' && b == 'l')
    case Drifting => (a == 'o' && b == 'j') || (a == 'a' && b == 'v') || (a == 'f' && b == 'l')
    case Claiming =>
      (a == 'o' && b == 'j') || (a == 'a' && b == 'v') || (a == 'i' && b == 'e') || (a == 'l' && b == 'l')
      || (a == 'h' && b == 's')
    case Weighing => (a == 's' && b == 'i') || (a == 'e' && b == 'n') || (a == 'w' && b == 'o')
    case Pair(first, second) => a == first && b == second && IsLetter(first) && IsLetter(second)
  }

  predicate IsLetter(c: char) {
    'a' <= c <= 'z'
  }

  predicate LacksAt(text: string, k: nat, t: Taboo) {
    k + 1 < |text| ==> !Bad(t, LowerChar(text[k]), LowerChar(text[k + 1]))
  }

  /** None of the family's pairs is in the text, in any case. */
  ghost predicate Lacks(text: string, t: Taboo) {
    forall k: nat :: LacksAt(text, k, t)
  }

  /** Not a letter, so no pair reaches across it. */
  predicate Neutral(c: char) {
    !IsLetter(LowerChar(c))
  }

  lemma ClearTogether(a: string, b: string, t: Taboo)
    requires Lacks(a, t) && Lacks(b, t)
    requires a == "" || b == "" || Neutral(a[|a| - 1]) || Neutral(b[0])
    ensures Lacks(a + b, t)
  {
    forall k: nat ensures LacksAt(a + b, k, t) {
      if k + 1 < |a| {
        assert LacksAt(a, k, t) && (a + b)[k] == a[k] && (a + b)[k + 1] == a[k + 1];
      } else if |a| <= k < |a + b| - 1 {
        assert LacksAt(b, k - |a|, t) && (a + b)[k] == b[k - |a|] && (a + b)[k + 1] == b[k + 1 - |a|];
      }
    }
  }

  lemma ClearOfBoth(text: string)
    requires Lacks(text, Drifting)
    ensures Lacks(text, Projecting) && Lacks(text, Straying)
  {
    forall k: nat ensures LacksAt(text, k, Projecting) && LacksAt(text, k, Straying) {
      assert LacksAt(text, k, Drifting);
    }
  }

  /** Digits and commas join nothing. */
  lemma CountsAreClear(s: string, t: Taboo)
    requires AllCountChars(s)
    ensures Lacks(s, t)
  {
    forall k: nat ensures LacksAt(s, k, t) {
      if k < |s| { assert IsCountChar(s[k]); }
    }
  }

  lemma DigitsAreClear(n: nat, t: Taboo)
    ensures Lacks(Digits(n), t) && Digits(n) != "" && Neutral(Digits(n)[0]) && Neutral(Digits(n)[|Digits(n)| - 1])
  {
    DigitsReadBack(n);
    CountsAreClear(Digits(n), t);
  }

  /** A word with one of the pairs in it is nowhere in the text. */
  lemma ClearOf(text: string, t: Taboo, word: string, j: nat)
    requires Lacks(text, t) && j + 1 < |word| && Bad(t, word[j], word[j + 1])
    ensures !Contains(Lower(text), word)
  {
    forall k: nat | k <= |Lower(text)| ensures !StartsAt(Lower(text), k, word) {
      StartsAtChars(Lower(text), k, word);
      assert LacksAt(text, k + j, t);
    }
  }

  lemma ClearAvoids(text: string, a: char, b: char)
    requires Lacks(text, Pair(a, b)) && IsLetter(a) && IsLetter(b)
    ensures Avoids(text, [a, b])
  {
    forall k: nat ensures !StartsAt(text, k, [a, b]) {
      StartsAtChars(text, k, [a, b]);
      assert LacksAt(text, k, Pair(a, b));
    }
  }
}
