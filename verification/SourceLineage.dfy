/** Source lineage: the independent releases a release descends from. */
module SourceLineage {
  import opened Basics

  /** The releases each release is derived from, in the order the walk takes them. */
  type Parents = map<nat, seq<nat>>

  // ---- What lineage means ----------------------------------------------------------------

  predicate IsParent(parents: Parents, child: nat, parent: nat) {
    child in parents && parent in parents[child]
  }

  predicate Parentless(parents: Parents, release: nat) {
    release !in parents || parents[release] == []
  }

  /** Each element is derived from the one after it. */
  predicate Descent(parents: Parents, path: seq<nat>) {
    path != [] && forall i :: 0 <= i < |path| - 1 ==> IsParent(parents, path[i], path[i + 1])
  }

  predicate IsDescent(parents: Parents, path: seq<nat>, release: nat, ancestor: nat) {
    Descent(parents, path) && path[0] == release && path[|path| - 1] == ancestor
  }

  ghost predicate DescendsFrom(parents: Parents, release: nat, ancestor: nat) {
    exists path :: IsDescent(parents, path, release, ancestor)
  }

  /** Following derivations from here comes back to a release already passed, or to one in `visiting`. */
  ghost predicate ComesBack(parents: Parents, release: nat, visiting: set<nat>) {
    exists path :: Lasso(parents, path, release, visiting)
  }

  predicate Lasso(parents: Parents, path: seq<nat>, release: nat, visiting: set<nat>) {
    Descent(parents, path) && path[0] == release
    && (path[|path| - 1] in visiting || path[|path| - 1] in path[..|path| - 1])
  }

  lemma FirstStep(parents: Parents, path: seq<nat>)
    requires Descent(parents, path)
    ensures |path| > 1 ==> IsParent(parents, path[0], path[1]) && Descent(parents, path[1..])
  {
    if |path| > 1 {
      forall i | 0 <= i < |path[1..]| - 1 ensures IsParent(parents, path[1..][i], path[1..][i + 1]) {
        assert IsParent(parents, path[i + 1], path[i + 1 + 1]);
      }
      assert IsParent(parents, path[0], path[0 + 1]);
    }
  }

  lemma StepBefore(parents: Parents, child: nat, path: seq<nat>)
    requires Descent(parents, path) && IsParent(parents, child, path[0])
    ensures Descent(parents, [child] + path)
  {
    var longer := [child] + path;
    forall i | 0 <= i < |longer| - 1 ensures IsParent(parents, longer[i], longer[i + 1]) {
      if i > 0 { assert IsParent(parents, path[i - 1], path[i - 1 + 1]); }
    }
  }

  // ---- The walk --------------------------------------------------------------------------

  /** visit(current): None when it raises, else the roots it adds. */
  function Visit(parents: Parents, current: nat, visiting: set<nat>): Option<set<nat>>
    decreases |parents.Keys - visiting|, 0
  {
    if current in visiting then None
    else if Parentless(parents, current) then Some({current})
    else
      Shrinks(parents.Keys, visiting, current);
      VisitAll(parents, parents[current], visiting + {current})
  }

  /** Each of these releases in turn. */
  function VisitAll(parents: Parents, releases: seq<nat>, visiting: set<nat>): Option<set<nat>>
    decreases |parents.Keys - visiting|, 1, |releases|
  {
    if releases == [] then Some({})
    else
      var n := |releases| - 1;
      var before := VisitAll(parents, releases[..n], visiting);
      if before.None? then None
      else
        var last := Visit(parents, releases[n], visiting);
        if last.None? then None else Some(before.value + last.value)
  }

  lemma Shrinks(all: set<nat>, visiting: set<nat>, current: nat)
    requires current in all && current !in visiting
    ensures |all - (visiting + {current})| < |all - visiting|
  {
    assert all - visiting == (all - (visiting + {current})) + {current};
  }

  /** Visiting several raises if visiting one of them does, and otherwise adds what each adds. */
  lemma {:induction false} VisitAllIsEach(parents: Parents, releases: seq<nat>, visiting: set<nat>)
    ensures VisitAll(parents, releases, visiting).None? <==> OneRaises(parents, releases, visiting)
    ensures VisitAll(parents, releases, visiting).Some? ==>
      forall r :: r in VisitAll(parents, releases, visiting).value <==> AddedByOne(parents, releases, visiting, r)
  {
    if releases != [] {
      var n := |releases| - 1;
      assert releases == releases[..n] + [releases[n]];
      VisitAllIsEach(parents, releases[..n], visiting);
      assert OneRaises(parents, releases, visiting) <==>
        OneRaises(parents, releases[..n], visiting) || Visit(parents, releases[n], visiting).None?;
      if VisitAll(parents, releases, visiting).Some? {
        forall r ensures AddedByOne(parents, releases, visiting, r) <==>
          AddedByOne(parents, releases[..n], visiting, r) || r in Visit(parents, releases[n], visiting).value {}
      }
    }
  }

  predicate OneRaises(parents: Parents, releases: seq<nat>, visiting: set<nat>) {
    exists p :: p in releases && Visit(parents, p, visiting).None?
  }

  predicate AddedByOne(parents: Parents, releases: seq<nat>, visiting: set<nat>, r: nat) {
    exists p :: p in releases && Visit(parents, p, visiting).Some? && r in Visit(parents, p, visiting).value
  }

  lemma {:induction false} VisitRaisesIffItComesBack(parents: Parents, current: nat, visiting: set<nat>)
    ensures Visit(parents, current, visiting).None? <==> ComesBack(parents, current, visiting)
    decreases |parents.Keys - visiting|
  {
    if current in visiting {
      assert Lasso(parents, [current], current, visiting);
    } else if Parentless(parents, current) {
      if path :| Lasso(parents, path, current, visiting) { FirstStep(parents, path); }
    } else {
      Shrinks(parents.Keys, visiting, current);
      VisitAllIsEach(parents, parents[current], visiting + {current});
      forall p | p in parents[current]
        ensures Visit(parents, p, visiting + {current}).None? <==> ComesBack(parents, p, visiting + {current})
      {
        VisitRaisesIffItComesBack(parents, p, visiting + {current});
      }
      ComesBackThroughParents(parents, current, visiting);
    }
  }

  lemma ComesBackThroughParents(parents: Parents, current: nat, visiting: set<nat>)
    requires current !in visiting && !Parentless(parents, current)
    ensures ComesBack(parents, current, visiting) <==>
      exists p :: p in parents[current] && ComesBack(parents, p, visiting + {current})
  {
    if p :| p in parents[current] && ComesBack(parents, p, visiting + {current}) {
      var path :| Lasso(parents, path, p, visiting + {current});
      StepBefore(parents, current, path);
      var longer := [current] + path;
      assert longer[..|longer| - 1] == [current] + path[..|path| - 1];
      assert Lasso(parents, longer, current, visiting);
    }
    if path :| Lasso(parents, path, current, visiting) {
      FirstStep(parents, path);
      assert path[..|path| - 1] == [current] + path[1..][..|path[1..]| - 1];
      assert Lasso(parents, path[1..], path[1], visiting + {current});
    }
  }

  lemma DescendsThroughParents(parents: Parents, current: nat, root: nat)
    requires !Parentless(parents, current)
    ensures Parentless(parents, root) && DescendsFrom(parents, current, root) <==>
      Parentless(parents, root) && exists p :: p in parents[current] && DescendsFrom(parents, p, root)
  {
    if p :| p in parents[current] && DescendsFrom(parents, p, root) {
      var path :| IsDescent(parents, path, p, root);
      StepBefore(parents, current, path);
      assert IsDescent(parents, [current] + path, current, root);
    }
    if path :| Parentless(parents, root) && IsDescent(parents, path, current, root) {
      FirstStep(parents, path);
      assert IsDescent(parents, path[1..], path[1], root);
    }
  }

  lemma {:induction false} VisitFindsRoots(parents: Parents, current: nat, visiting: set<nat>, root: nat)
    requires Visit(parents, current, visiting).Some?
    ensures root in Visit(parents, current, visiting).value <==>
      Parentless(parents, root) && DescendsFrom(parents, current, root)
    decreases |parents.Keys - visiting|
  {
    if Parentless(parents, current) {
      assert IsDescent(parents, [current], current, current);
      if path :| IsDescent(parents, path, current, root) { FirstStep(parents, path); }
    } else {
      Shrinks(parents.Keys, visiting, current);
      VisitAllIsEach(parents, parents[current], visiting + {current});
      forall p | p in parents[current]
        ensures root in Visit(parents, p, visiting + {current}).value <==>
          Parentless(parents, root) && DescendsFrom(parents, p, root)
      {
        VisitFindsRoots(parents, p, visiting + {current}, root);
      }
      DescendsThroughParents(parents, current, root);
    }
  }

  /** lineage_root_ids: None when the release is unknown or its lineage has a cycle. */
  function LineageRoots(parents: Parents, releases: set<nat>, release: nat): Option<set<nat>> {
    if release !in releases then None else Visit(parents, release, {})
  }

  /**
    On every finite set of derivations the walk ends; it raises exactly when a cycle can be reached from the
    release, and otherwise returns exactly the releases it descends from that descend from nothing.
  */
  lemma LineageRootsAreExact(parents: Parents, releases: set<nat>, release: nat)
    requires release in releases
    ensures LineageRoots(parents, releases, release).None? <==> ComesBack(parents, release, {})
    ensures LineageRoots(parents, releases, release).Some? ==>
      forall root :: root in LineageRoots(parents, releases, release).value <==>
        Parentless(parents, root) && DescendsFrom(parents, release, root)
  {
    VisitRaisesIffItComesBack(parents, release, {});
    if LineageRoots(parents, releases, release).Some? {
      forall root ensures root in LineageRoots(parents, releases, release).value <==>
        Parentless(parents, root) && DescendsFrom(parents, release, root)
      {
        VisitFindsRoots(parents, release, {}, root);
      }
    }
  }

  /** The walk as it runs: one set of roots, one set of releases being visited. */
  class LineageWalk {
    const parents: Parents
    var roots: set<nat>
    var visiting: set<nat>

    constructor (parents: Parents)
      ensures this.parents == parents && roots == {} && visiting == {}
    {
      this.parents, roots, visiting := parents, {}, {};
    }

    method VisitRelease(current: nat) returns (raised: bool)
      modifies this
      ensures raised <==> Visit(parents, current, old(visiting)).None?
      ensures !raised ==> visiting == old(visiting) && roots == old(roots) + Visit(parents, current, visiting).value
      decreases |parents.Keys - visiting|, 0
    {
      if current in visiting { return true; }
      if current !in parents || parents[current] == [] {
        roots := roots + {current};
        return false;
      }
      Shrinks(parents.Keys, visiting, current);
      ghost var before := visiting;
      visiting := visiting + {current};
      raised := VisitEach(parents[current]);
      if !raised {
        visiting := visiting - {current};
        assert visiting == before;
      }
    }

    /** Each parent in turn; the first that raises ends the walk. */
    method VisitEach(releases: seq<nat>) returns (raised: bool)
      modifies this
      ensures raised <==> VisitAll(parents, releases, old(visiting)).None?
      ensures !raised ==> visiting == old(visiting) && roots == old(roots) + VisitAll(parents, releases, visiting).value
      decreases |parents.Keys - visiting|, 1
    {
      raised := false;
      ghost var seen, before, found := visiting, roots, {};
      for k := 0 to |releases|
        invariant visiting == seen && VisitAll(parents, releases[..k], seen) == Some(found) && roots == before + found
      {
        VisitAllStep(parents, releases, k, seen);
        raised := VisitRelease(releases[k]);
        if raised {
          FirstRaiseEnds(parents, releases, k + 1, seen);
          return;
        }
        found := found + Visit(parents, releases[k], seen).value;
      }
      assert releases[..|releases|] == releases;
    }
  }

  lemma VisitAllStep(parents: Parents, releases: seq<nat>, k: nat, visiting: set<nat>)
    requires k < |releases| && VisitAll(parents, releases[..k], visiting).Some?
    ensures var last := Visit(parents, releases[k], visiting);
      VisitAll(parents, releases[..k + 1], visiting) ==
        if last.None? then None else Some(VisitAll(parents, releases[..k], visiting).value + last.value)
  {
    assert releases[..k + 1][..k] == releases[..k];
  }

  lemma FirstRaiseEnds(parents: Parents, releases: seq<nat>, k: nat, visiting: set<nat>)
    requires k <= |releases| && VisitAll(parents, releases[..k], visiting).None?
    ensures VisitAll(parents, releases, visiting).None?
    decreases |releases| - k
  {
    if k < |releases| {
      assert releases[..k + 1][..k] == releases[..k];
      FirstRaiseEnds(parents, releases, k + 1, visiting);
    } else {
      assert releases[..k] == releases;
    }
  }
}
