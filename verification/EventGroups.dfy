/** The event each recorded statement describes: stamped by the publisher, checked at the boundary. */
module EventGroups {
  import opened Basics

  // ---- Stamping (governance) -------------------------------------------------------------

  /** What lineage says about events: the release behind each identity, and how each is titled. */
  datatype Lineage = Lineage(
    eventRelease: map<nat, nat>,             // event to the release its identity traces to
    rootRelease: map<nat, nat>,              // resolved claim to the release it traces to
    titles: map<nat, (string, string)>)      // event to its opaque group key and its title

  /** An event owns a release when it is the only listed event tracing to it. */
  predicate Owns(lineage: Lineage, ids: seq<nat>, release: nat, k: nat) {
    && k < |ids| && TracesTo(lineage, ids, k, release)
    && forall j :: 0 <= j < |ids| && TracesTo(lineage, ids, j, release) ==> j == k
  }

  predicate TracesTo(lineage: Lineage, ids: seq<nat>, k: nat, release: nat)
    requires k < |ids|
  {
    ids[k] in lineage.eventRelease && lineage.eventRelease[ids[k]] == release
  }

  /** events_by_source_release: a release two events trace to belongs to neither. */
  method EventsBySourceRelease(lineage: Lineage, ids: seq<nat>) returns (owners: map<nat, nat>)
    ensures forall release :: release in owners <==> exists k :: Owns(lineage, ids, release, k)
    ensures forall release, k: nat :: Owns(lineage, ids, release, k) ==> release in owners && owners[release] == ids[k]
  {
    owners := map[];
    var ambiguous: set<nat> := {};
    for n := 0 to |ids|
      invariant forall release :: release in owners <==> exists k :: 0 <= k < n && TracesTo(lineage, ids, k, release)
      invariant forall release :: release in owners ==>
        exists k :: 0 <= k < n && TracesTo(lineage, ids, k, release) && owners[release] == ids[k]
      invariant forall release :: release in ambiguous <==>
        exists j, k :: 0 <= j < k < n && TracesTo(lineage, ids, j, release) && TracesTo(lineage, ids, k, release)
    {
      if ids[n] !in lineage.eventRelease { continue; }
      var release := lineage.eventRelease[ids[n]];
      assert TracesTo(lineage, ids, n, release);
      if release in owners {
        ambiguous := ambiguous + {release};
      } else {
        owners := owners[release := ids[n]];
      }
    }
    forall release, k: nat | Owns(lineage, ids, release, k)
      ensures release in owners && release !in ambiguous && owners[release] == ids[k]
    {
      assert TracesTo(lineage, ids, k, release);
    }
    forall release | release in owners && release !in ambiguous ensures exists k :: Owns(lineage, ids, release, k) {
      var k :| 0 <= k < |ids| && TracesTo(lineage, ids, k, release);
      assert Owns(lineage, ids, release, k);
    }
    owners := owners - ambiguous;
  }

  /** The listed event a statement's evidence traces to, if exactly one does. */
  ghost function Attributed(lineage: Lineage, ids: seq<nat>, item: Evidence): (owner: Option<nat>)
    ensures owner.Some? ==> owner.value in ids
  {
    if item.root.Resolved? && item.root.id in lineage.rootRelease
       && exists k: nat :: Owns(lineage, ids, lineage.rootRelease[item.root.id], k)
    then
      var k: nat :| Owns(lineage, ids, lineage.rootRelease[item.root.id], k);
      Some(ids[k])
    else None
  }

  /** How many earlier statements belong to an event. */
  function Earlier(owners: seq<Option<nat>>, n: nat, event: nat): nat
    requires n <= |owners|
  {
    if n == 0 then 0 else Earlier(owners, n - 1, event) + if owners[n - 1] == Some(event) then 1 else 0
  }

  predicate Grouped(lineage: Lineage, owner: Option<nat>) {
    owner.Some? && owner.value in lineage.titles
  }

  /** One statement with its event's stamp, or untouched when no event owns it. */
  function StampOne(statement: Statement, lineage: Lineage, owner: Option<nat>, featured: nat, order: nat,
                    position: nat): Statement {
    if Grouped(lineage, owner) then
      var (key, title) := lineage.titles[owner.value];
      statement.(stamp := Some(Stamp(key, title, owner.value == featured, order, position)))
    else statement
  }

  /** Every listed event its own order, the featured one first. */
  ghost predicate Ordering(order: map<nat, nat>, featured: nat, ids: seq<nat>) {
    && (forall e: nat :: e in order <==> e == featured || e in ids)
    && featured in order && order[featured] == 0
    && forall a, b :: a in order && b in order && a != b ==> order[a] != order[b]
  }

  predicate StampedAs(stamped: seq<Statement>, statements: seq<Statement>, lineage: Lineage, owners: seq<Option<nat>>,
                      featured: nat, order: map<nat, nat>)
  {
    && |stamped| == |statements| == |owners|
    && forall i :: 0 <= i < |stamped| ==>
         && (Grouped(lineage, owners[i]) ==> owners[i].value in order)
         && stamped[i] == StampOne(statements[i], lineage, owners[i], featured,
                                   if Grouped(lineage, owners[i]) then order[owners[i].value] else 0,
                                   if owners[i].Some? then Earlier(owners, i, owners[i].value) else 0)
  }

  ghost function Owners(lineage: Lineage, ids: seq<nat>, evidence: seq<Evidence>): seq<Option<nat>> {
    seq(|evidence|, i requires 0 <= i < |evidence| => Attributed(lineage, ids, evidence[i]))
  }

  /** stamp_recorded_event_groups. */
  method StampRecordedEventGroups(statements: seq<Statement>, evidence: seq<Evidence>, lineage: Lineage, featured: nat,
                                  ids: seq<nat>)
      returns (grouped: seq<Statement>, eventOrder: map<nat, nat>)
    requires |statements| == |evidence|
    ensures Ordering(eventOrder, featured, ids)
    ensures StampedAs(grouped, statements, lineage, Owners(lineage, ids, evidence), featured, eventOrder)
  {
    var owners := EventsBySourceRelease(lineage, ids);
    eventOrder := EventOrder(featured, ids);
    ghost var attributed := Owners(lineage, ids, evidence);
    var counter: map<nat, nat> := map[];
    grouped := [];
    for i := 0 to |statements|
      invariant |grouped| == i
      invariant forall e :: e in counter ==> e in lineage.titles && counter[e] == Earlier(attributed, i, e)
      invariant forall e :: e !in counter && e in lineage.titles ==> Earlier(attributed, i, e) == 0
      invariant forall k :: 0 <= k < i ==>
        && (Grouped(lineage, attributed[k]) ==> attributed[k].value in eventOrder)
        && grouped[k] == StampOne(statements[k], lineage, attributed[k], featured,
                                  if Grouped(lineage, attributed[k]) then eventOrder[attributed[k].value] else 0,
                                  if attributed[k].Some? then Earlier(attributed, k, attributed[k].value) else 0)
    {
      var root := evidence[i].root;
      var owner := if root.Resolved? && root.id in lineage.rootRelease && lineage.rootRelease[root.id] in owners
                   then Some(owners[lineage.rootRelease[root.id]]) else None;
      assert owner == attributed[i];
      if owner.None? || owner.value !in lineage.titles {
        grouped := grouped + [statements[i]];
        continue;
      }
      var (key, title) := lineage.titles[owner.value];
      var position := if owner.value in counter then counter[owner.value] else 0;
      counter := counter[owner.value := position + 1];
      grouped := grouped + [statements[i].(stamp := Some(Stamp(key, title, owner.value == featured, eventOrder[owner.value], position)))];
    }
  }

  /** enumerate(featured, then the rest). */
  method EventOrder(featured: nat, ids: seq<nat>) returns (order: map<nat, nat>)
    ensures Ordering(order, featured, ids)
  {
    order := map[featured := 0];
    var next := 1;
    for n := 0 to |ids|
      invariant forall e: nat :: e in order <==> e == featured || e in ids[..n]
      invariant featured in order && order[featured] == 0
      invariant forall a :: a in order ==> order[a] < next
      invariant forall a, b :: a in order && b in order && a != b ==> order[a] != order[b]
      invariant 1 <= next
    {
      assert ids[..n + 1] == ids[..n] + [ids[n]];
      if ids[n] != featured {
        order := order[ids[n] := next];
        next := next + 1;
      }
    }
    assert ids[..|ids|] == ids;
  }
}
