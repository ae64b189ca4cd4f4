/** deterministic_resolution: agreement among candidates, counted by independent origin. */
module Resolution {
  import opened Basics
  import opened SourceLineage

  datatype Value = Number(number: real) | Text(text: string)

  datatype EvidenceCandidate = EvidenceCandidate(value: Value, authoritative: bool, release: nat)

  datatype Decision =
    | Decided(accepted: bool, supporting: seq<nat>, dissenting: seq<nat>, independent: nat)
    | Refused      // no candidates, an unknown release, or a cycle

  /** Exact agreement, or numbers within the declared tolerance. */
  predicate AgreesWith(value: Value, baseline: Value, tolerance: Option<real>) {
    || value == baseline
    || (tolerance.Some? && value.Number? && baseline.Number?
        && (if value.number >= baseline.number then value.number - baseline.number else baseline.number - value.number) <= tolerance.value)
  }

  /** Numbers agree when they are equal or no further apart than a declared tolerance; texts only when equal. */
  lemma AgreementMeans(a: Value, b: Value, tolerance: Option<real>)
    ensures a.Number? && b.Number? && tolerance.Some? ==>
      (AgreesWith(a, b, tolerance) <==>
       a == b || b.number - tolerance.value <= a.number <= b.number + tolerance.value)
    ensures !(a.Number? && b.Number? && tolerance.Some?) ==> (AgreesWith(a, b, tolerance) <==> a == b)
    ensures AgreesWith(a, b, tolerance) <==> AgreesWith(b, a, tolerance)
  {
  }

  function FirstAuthoritative(candidates: seq<EvidenceCandidate>): (k: Option<nat>)
    ensures k.Some? ==> k.value < |candidates| && candidates[k.value].authoritative
    ensures forall i :: 0 <= i < (if k.Some? then k.value else |candidates|) ==> !candidates[i].authoritative
  {
    if candidates == [] then None
    else
      var n := |candidates| - 1;
      var before := FirstAuthoritative(candidates[..n]);
      if before.Some? then before else if candidates[n].authoritative then Some(n) else None
  }

  /** The first authoritative value, or the first value when none is. */
  function Baseline(candidates: seq<EvidenceCandidate>): Value
    requires candidates != []
  {
    var first := FirstAuthoritative(candidates);
    candidates[if first.Some? then first.value else 0].value
  }

  /** The indexes below n, in order, whose values agree with the baseline, and those whose values do not. */
  predicate Splits(candidates: seq<EvidenceCandidate>, baseline: Value, tolerance: Option<real>,
                   supporting: seq<nat>, dissenting: seq<nat>, n: nat)
    requires n <= |candidates|
  {
    && (forall k :: 0 <= k < |supporting| ==>
         supporting[k] < n && AgreesWith(candidates[supporting[k]].value, baseline, tolerance))
    && (forall k :: 0 <= k < |dissenting| ==>
         dissenting[k] < n && !AgreesWith(candidates[dissenting[k]].value, baseline, tolerance))
    && (forall i: nat :: i < n ==> i in supporting || i in dissenting)
    && (forall i, j :: 0 <= i < j < |supporting| ==> supporting[i] < supporting[j])
    && (forall i, j :: 0 <= i < j < |dissenting| ==> dissenting[i] < dissenting[j])
  }

  function Sources(candidates: seq<EvidenceCandidate>, indexes: seq<nat>): seq<nat>
    requires forall k :: 0 <= k < |indexes| ==> indexes[k] < |candidates|
  {
    seq(|indexes|, k requires 0 <= k < |indexes| => candidates[indexes[k]].release)
  }

  /** The origins that independently stand behind these releases; None when one is unknown or cyclic. */
  function Origins(parents: Parents, releases: set<nat>, sources: seq<nat>): Option<set<nat>> {
    if sources == [] then Some({})
    else
      var n := |sources| - 1;
      var before := Origins(parents, releases, sources[..n]);
      var last := LineageRoots(parents, releases, sources[n]);
      if before.None? || last.None? then None else Some(before.value + last.value)
  }

  lemma {:induction false} OriginsFailFirst(parents: Parents, releases: set<nat>, sources: seq<nat>, k: nat)
    requires k < |sources| && LineageRoots(parents, releases, sources[k]).None?
    ensures Origins(parents, releases, sources).None?
  {
    if k < |sources| - 1 { OriginsFailFirst(parents, releases, sources[..|sources| - 1], k); }
  }

  /** A single authoritative source needs no corroboration, so its lineage is not consulted. */
  predicate Alone(candidates: seq<EvidenceCandidate>) {
    |candidates| == 1 && candidates[0].authoritative
  }

  method Split(candidates: seq<EvidenceCandidate>, baseline: Value, tolerance: Option<real>)
      returns (supporting: seq<nat>, dissenting: seq<nat>)
    ensures Splits(candidates, baseline, tolerance, supporting, dissenting, |candidates|)
  {
    supporting, dissenting := [], [];
    for i := 0 to |candidates|
      invariant Splits(candidates, baseline, tolerance, supporting, dissenting, i)
    {
      if AgreesWith(candidates[i].value, baseline, tolerance) {
        supporting := supporting + [i];
      } else {
        dissenting := dissenting + [i];
      }
    }
  }

  method CollectOrigins(parents: Parents, releases: set<nat>, sources: seq<nat>) returns (roots: Option<set<nat>>)
    ensures roots == Origins(parents, releases, sources)
  {
    var found := {};
    for k := 0 to |sources|
      invariant Origins(parents, releases, sources[..k]) == Some(found)
    {
      assert sources[..k + 1][..k] == sources[..k];
      if sources[k] !in releases {
        OriginsFailFirst(parents, releases, sources, k);
        return None;
      }
      var walk := new LineageWalk(parents);
      var raised := walk.VisitRelease(sources[k]);
      if raised {
        OriginsFailFirst(parents, releases, sources, k);
        return None;
      }
      assert walk.roots == LineageRoots(parents, releases, sources[k]).value;
      found := found + walk.roots;
    }
    assert sources[..|sources|] == sources;
    roots := Some(found);
  }

  /** The first authoritative candidate, or the first of all when none is authoritative. */
  predicate SpeaksFirst(candidates: seq<EvidenceCandidate>, k: nat) {
    && k < |candidates|
    && if candidates[k].authoritative then forall i :: 0 <= i < k ==> !candidates[i].authoritative
       else k == 0 && forall i :: 0 <= i < |candidates| ==> !candidates[i].authoritative
  }

  /** Each candidate is on the side its agreement with the k-th puts it on. */
  predicate SidesWith(candidates: seq<EvidenceCandidate>, k: nat, tolerance: Option<real>, supporting: seq<nat>,
                      dissenting: seq<nat>)
    requires k < |candidates|
  {
    && k in supporting
    && forall i: nat :: i < |candidates| ==>
         && (i in supporting <==> AgreesWith(candidates[i].value, candidates[k].value, tolerance))
         && (i in dissenting <==> !AgreesWith(candidates[i].value, candidates[k].value, tolerance))
  }

  /** Authority decides whom the others are held against. */
  lemma AuthorityDecides(candidates: seq<EvidenceCandidate>, tolerance: Option<real>, supporting: seq<nat>,
                         dissenting: seq<nat>, k: nat)
    requires SpeaksFirst(candidates, k)
    requires Splits(candidates, Baseline(candidates), tolerance, supporting, dissenting, |candidates|)
    ensures SidesWith(candidates, k, tolerance, supporting, dissenting)
  {
    var first := FirstAuthoritative(candidates);
    assert k == if first.Some? then first.value else 0;
  }

  /** deterministic_resolution. */
  method DeterministicResolution(candidates: seq<EvidenceCandidate>, tolerance: Option<real>, parents: Parents,
                                 releases: set<nat>)
      returns (r: Decision)
    ensures candidates == [] ==> r == Refused
    ensures Alone(candidates) ==> r == Decided(true, [0], [], 1)
    ensures candidates != [] && !Alone(candidates) ==>
      exists supporting, dissenting ::
        Splits(candidates, Baseline(candidates), tolerance, supporting, dissenting, |candidates|)
        && r == (var roots := Origins(parents, releases, Sources(candidates, supporting));
                 if roots.None? then Refused else Decided(dissenting == [], supporting, dissenting, |roots.value|))
    ensures forall k: nat :: SpeaksFirst(candidates, k) && r.Decided? ==>
      SidesWith(candidates, k, tolerance, r.supporting, r.dissenting)
  {
    if candidates == [] { return Refused; }
    if |candidates| == 1 && candidates[0].authoritative { return Decided(true, [0], [], 1); }
    var supporting, dissenting := Split(candidates, Baseline(candidates), tolerance);
    var roots := CollectOrigins(parents, releases, Sources(candidates, supporting));
    forall k: nat | SpeaksFirst(candidates, k) ensures SidesWith(candidates, k, tolerance, supporting, dissenting) {
      AuthorityDecides(candidates, tolerance, supporting, dissenting, k);
    }
    r := if roots.None? then Refused else Decided(dissenting == [], supporting, dissenting, |roots.value|);
  }

  /** The baseline's own candidate supports it, so an accepted value always has a supporter. */
  lemma BaselineIsSupported(candidates: seq<EvidenceCandidate>, tolerance: Option<real>, supporting: seq<nat>,
                            dissenting: seq<nat>)
    requires candidates != []
    requires Splits(candidates, Baseline(candidates), tolerance, supporting, dissenting, |candidates|)
    ensures supporting != [] && |supporting| + |dissenting| == |candidates|
  {
    var first := FirstAuthoritative(candidates);
    var k := if first.Some? then first.value else 0;
    assert k in supporting;
    SplitCounts(candidates, Baseline(candidates), tolerance, supporting, dissenting, |candidates|);
  }

  lemma {:induction false} SplitCounts(candidates: seq<EvidenceCandidate>, baseline: Value, tolerance: Option<real>,
                                       supporting: seq<nat>, dissenting: seq<nat>, n: nat)
    requires n <= |candidates| && Splits(candidates, baseline, tolerance, supporting, dissenting, n)
    ensures |supporting| + |dissenting| == n
  {
    if n > 0 {
      if n - 1 in supporting {
        LastOf(supporting, n);
        SplitCounts(candidates, baseline, tolerance, supporting[..|supporting| - 1], dissenting, n - 1);
      } else {
        assert n - 1 in dissenting;
        LastOf(dissenting, n);
        SplitCounts(candidates, baseline, tolerance, supporting, dissenting[..|dissenting| - 1], n - 1);
      }
    } else {
      assert supporting == [] && dissenting == [];
    }
  }

  lemma LastOf(indexes: seq<nat>, n: nat)
    requires n > 0 && n - 1 in indexes
    requires forall k :: 0 <= k < |indexes| ==> indexes[k] < n
    requires forall i, j :: 0 <= i < j < |indexes| ==> indexes[i] < indexes[j]
    ensures indexes[|indexes| - 1] == n - 1
    ensures forall i: nat :: i < n - 1 && i in indexes ==> i in indexes[..|indexes| - 1]
    ensures forall k :: 0 <= k < |indexes| - 1 ==> indexes[k] < n - 1
  {
    var at :| 0 <= at < |indexes| && indexes[at] == n - 1;
  }

  /** Supporting releases that all descend from one origin alone count once. */
  lemma {:induction false} SharedOriginCountsOnce(parents: Parents, releases: set<nat>, sources: seq<nat>, origin: nat)
    requires sources != [] && forall k :: 0 <= k < |sources| ==>
      LineageRoots(parents, releases, sources[k]) == Some({origin})
    ensures Origins(parents, releases, sources) == Some({origin})
  {
    if |sources| > 1 {
      SharedOriginCountsOnce(parents, releases, sources[..|sources| - 1], origin);
      assert {origin} + {origin} == {origin};
    } else {
      assert {} + {origin} == {origin};
    }
  }

  /** A further release whose origins are all counted already adds no independence. */
  lemma DependentReleaseAddsNothing(parents: Parents, releases: set<nat>, sources: seq<nat>, more: nat)
    requires Origins(parents, releases, sources).Some? && LineageRoots(parents, releases, more).Some?
    requires LineageRoots(parents, releases, more).value <= Origins(parents, releases, sources).value
    ensures Origins(parents, releases, sources + [more]) == Origins(parents, releases, sources)
  {
    assert (sources + [more])[..|sources|] == sources;
    var known := Origins(parents, releases, sources).value;
    assert known + LineageRoots(parents, releases, more).value == known;
  }
}
