/** A stable sort, as a specification of the library sorts the program calls. */
module Sorting {
  /** Insert x after every element it does not precede. */
  function Insert<T>(x: T, sorted: seq<T>, leq: (T, T) -> bool): seq<T> {
    if sorted == [] then [x]
    else
      var n := |sorted| - 1;
      if leq(sorted[n], x) then sorted + [x] else Insert(x, sorted[..n], leq) + [sorted[n]]
  }

  function Sort<T>(xs: seq<T>, leq: (T, T) -> bool): seq<T> {
    if xs == [] then [] else Insert(xs[|xs| - 1], Sort(xs[..|xs| - 1], leq), leq)
  }

  ghost predicate TotalPreorder<T(!new)>(leq: (T, T) -> bool) {
    && (forall a, b :: leq(a, b) || leq(b, a))
    && (forall a, b, c :: leq(a, b) && leq(b, c) ==> leq(a, c))
  }

  predicate Sorted<T>(xs: seq<T>, leq: (T, T) -> bool) {
    forall i, j :: 0 <= i < j < |xs| ==> leq(xs[i], xs[j])
  }

  lemma {:induction false} InsertIsSorted<T(!new)>(x: T, sorted: seq<T>, leq: (T, T) -> bool)
    requires TotalPreorder(leq) && Sorted(sorted, leq)
    ensures Sorted(Insert(x, sorted, leq), leq)
    ensures multiset(Insert(x, sorted, leq)) == multiset(sorted) + multiset{x}
  {
    if sorted != [] {
      var n := |sorted| - 1;
      assert sorted == sorted[..n] + [sorted[n]];
      if !leq(sorted[n], x) {
        InsertIsSorted(x, sorted[..n], leq);
        forall k | 0 <= k < |Insert(x, sorted[..n], leq)| ensures leq(Insert(x, sorted[..n], leq)[k], sorted[n]) {
          var y := Insert(x, sorted[..n], leq)[k];
          assert y in multiset(Insert(x, sorted[..n], leq));
          assert y in sorted[..n] || y == x;
        }
      }
    }
  }

  /** The result is sorted, and holds the same elements as often. */
  lemma {:induction false} SortIsSorted<T(!new)>(xs: seq<T>, leq: (T, T) -> bool)
    requires TotalPreorder(leq)
    ensures Sorted(Sort(xs, leq), leq) && multiset(Sort(xs, leq)) == multiset(xs) && |Sort(xs, leq)| == |xs|
  {
    if xs != [] {
      var n := |xs| - 1;
      assert xs == xs[..n] + [xs[n]];
      SortIsSorted(xs[..n], leq);
      InsertIsSorted(xs[n], Sort(xs[..n], leq), leq);
      assert |multiset(Sort(xs, leq))| == |multiset(xs)|;
    }
  }

  /** Being stable, it leaves a list already in order exactly as it was. */
  lemma {:induction false} SortKeepsSorted<T>(xs: seq<T>, leq: (T, T) -> bool)
    requires Sorted(xs, leq)
    ensures Sort(xs, leq) == xs
  {
    if xs != [] {
      SortKeepsSorted(xs[..|xs| - 1], leq);
    }
  }

  lemma RemoveAt<T>(xs: seq<T>, k: nat)
    requires k < |xs|
    ensures multiset(xs[..k] + xs[k + 1..]) == multiset(xs) - multiset{xs[k]}
  {
    assert xs == xs[..k] + [xs[k]] + xs[k + 1..];
  }

  function Range(n: nat): seq<nat> {
    seq(n, i requires 0 <= i < n => i)
  }

  function AtMost(a: nat, b: nat): bool {
    a <= b
  }

  predicate Ascending(a: seq<nat>) {
    forall i, j :: 0 <= i < j < |a| ==> a[i] <= a[j]
  }

  lemma LastIsLargest(a: seq<nat>, x: nat)
    requires a != [] && Ascending(a) && x in multiset(a)
    ensures x <= a[|a| - 1]
  {
    var i :| 0 <= i < |a| && a[i] == x;
  }

  lemma DropLast(a: seq<nat>)
    requires a != []
    ensures multiset(a[..|a| - 1]) == multiset(a) - multiset{a[|a| - 1]}
    ensures Ascending(a) ==> Ascending(a[..|a| - 1])
  {
    assert a == a[..|a| - 1] + [a[|a| - 1]];
  }

  lemma SameLast(a: seq<nat>, b: seq<nat>)
    requires a != [] && b != [] && multiset(a) == multiset(b) && Ascending(a) && Ascending(b)
    ensures a[|a| - 1] == b[|b| - 1] && multiset(a[..|a| - 1]) == multiset(b[..|b| - 1])
  {
    var x, y := a[|a| - 1], b[|b| - 1];
    assert multiset(a)[x] > 0 && multiset(b)[y] > 0;
    LastIsLargest(a, y);
    LastIsLargest(b, x);
    DropLast(a);
    DropLast(b);
  }

  lemma SameLength(a: seq<nat>, b: seq<nat>)
    requires multiset(a) == multiset(b)
    ensures |a| == |b|
  {
    assert |multiset(a)| == |multiset(b)|;
  }

  /** A sorted list is determined by what it holds. */
  lemma {:induction false} SortedIsUnique(a: seq<nat>, b: seq<nat>)
    requires multiset(a) == multiset(b) && Ascending(a) && Ascending(b)
    ensures a == b
  {
    SameLength(a, b);
    if a != [] {
      var n := |a| - 1;
      SameLast(a, b);
      SortedIsUnique(a[..n], b[..n]);
      assert a == a[..n] + [a[n]] && b == b[..n] + [b[n]];
    }
  }
}
