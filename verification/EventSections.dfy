/** From stamping through to rendering: nothing is lost, and the reader sees what the publisher meant. */
module EventSections {
  import opened Basics
  import opened Sorting
  import opened EventGroups
  import opened EventRendering

  // ---- Any coherent section renders whole and in order -----------------------------------

  function Flatten(groups: seq<EventGroup>): seq<Statement> {
    if groups == [] then [] else Flatten(groups[..|groups| - 1]) + groups[|groups| - 1].statements
  }

  lemma {:induction false} WithKeyCounts(statements: seq<Statement>, key: string, s: Statement)
    ensures multiset(WithKey(statements, key))[s] == if HasKey(s, key) then multiset(statements)[s] else 0
  {
    if statements != [] {
      var n := |statements| - 1;
      assert statements == statements[..n] + [statements[n]];
      WithKeyCounts(statements[..n], key, s);
    }
  }

  lemma ByPositionIsTotal()
    ensures TotalPreorder((a: Statement, b: Statement) => ByPosition(a, b))
  {
  }

  lemma GroupHolds(statements: seq<Statement>, group: EventGroup, s: Statement)
    requires IsGroup(statements, group)
    ensures multiset(group.statements)[s] == if HasKey(s, group.key) then multiset(statements)[s] else 0
  {
    ByPositionIsTotal();
    SortIsSorted(WithKey(statements, group.key), (a, b) => ByPosition(a, b));
    WithKeyCounts(statements, group.key, s);
  }

  predicate CountsIn(statements: seq<Statement>, group: EventGroup, s: Statement) {
    multiset(group.statements)[s] == if HasKey(s, group.key) then multiset(statements)[s] else 0
  }

  predicate KeyAmong(groups: seq<EventGroup>, s: Statement) {
    exists i :: 0 <= i < |groups| && HasKey(s, groups[i].key)
  }

  lemma {:induction false} FlattenCounts(statements: seq<Statement>, groups: seq<EventGroup>, s: Statement)
    requires forall i :: 0 <= i < |groups| ==> CountsIn(statements, groups[i], s)
    requires forall i, j :: 0 <= i < j < |groups| ==> groups[i].key != groups[j].key
    ensures multiset(Flatten(groups))[s] == if KeyAmong(groups, s) then multiset(statements)[s] else 0
  {
    if groups != [] {
      var front, last := groups[..|groups| - 1], groups[|groups| - 1];
      FlattenCounts(statements, front, s);
      assert CountsIn(statements, last, s);
      assert multiset(Flatten(groups)) == multiset(Flatten(front)) + multiset(last.statements);
      assert KeyAmong(groups, s) <==> KeyAmong(front, s) || HasKey(s, last.key) by {
        if i :| 0 <= i < |front| && HasKey(s, front[i].key) { assert HasKey(s, groups[i].key); }
      }
    }
  }

  /** Grouping is a partition: every stamped statement appears in exactly one group, as often as published. */
  lemma GroupingPartitions(statements: seq<Statement>, groups: seq<EventGroup>, collate: Collation)
    requires AllStamped(statements) && IsGrouping(statements, groups, collate)
    ensures multiset(Flatten(groups)) == multiset(statements)
  {
    forall s ensures multiset(Flatten(groups))[s] == multiset(statements)[s] {
      forall i | 0 <= i < |groups| ensures CountsIn(statements, groups[i], s) { GroupHolds(statements, groups[i], s); }
      FlattenCounts(statements, groups, s);
      if s in statements {
        assert s in WithKey(statements, s.stamp.value.key);
        assert HasGroup(statements, groups, s.stamp.value.key);
      }
    }
  }

  /** Sorting a group whose positions are 0 to n-1 puts each statement at its own position. */
  lemma OrderedByPosition(statements: seq<Statement>)
    requires Contiguous(Positions(statements))
    ensures |Ordered(statements)| == |statements|
    ensures forall p :: 0 <= p < |statements| ==> Position(Ordered(statements)[p]) == p
  {
    var leq := (a: Statement, b: Statement) => ByPosition(a, b);
    ByPositionIsTotal();
    SortIsSorted(statements, leq);
    var sorted := Ordered(statements);
    PositionsPermute(statements, sorted);
    forall i, j | 0 <= i < j < |sorted| ensures Positions(sorted)[i] <= Positions(sorted)[j] {
      assert leq(sorted[i], sorted[j]);
    }
    assert |Positions(statements)| == |statements| == |sorted| == |Positions(sorted)|;
    SortedIsUnique(Positions(sorted), Range(|sorted|));
    forall p | 0 <= p < |sorted| ensures Position(sorted[p]) == p {
      assert Positions(sorted)[p] == Range(|sorted|)[p] == p;
    }
  }

  lemma {:induction false} PositionsPermute(a: seq<Statement>, b: seq<Statement>)
    requires multiset(a) == multiset(b)
    ensures multiset(Positions(a)) == multiset(Positions(b))
  {
    if a == [] {
      assert |multiset(a)| == |multiset(b)|;
      assert b == [];
    } else {
      var n := |a| - 1;
      assert a[n] in multiset(b);
      var k :| 0 <= k < |b| && b[k] == a[n];
      var rest := b[..k] + b[k + 1..];
      RemoveAt(a, n);
      RemoveAt(b, k);
      assert a[..n] + a[n + 1..] == a[..n];
      PositionsPermute(a[..n], rest);
      PositionsWithout(a, n);
      PositionsWithout(b, k);
    }
  }

  lemma PositionsWithout(a: seq<Statement>, k: nat)
    requires k < |a|
    ensures multiset(Positions(a)) == multiset(Positions(a[..k] + a[k + 1..])) + multiset{Position(a[k])}
  {
    assert Positions(a) == Positions(a[..k]) + [Position(a[k])] + Positions(a[k + 1..]);
    assert Positions(a[..k] + a[k + 1..]) == Positions(a[..k]) + Positions(a[k + 1..]);
  }

  /**
    A fully stamped section the boundary accepts renders with its one headline first, the other events in
    strictly ascending published order, and each event's statements at their published positions.
  */
  lemma CoherentRendersInOrder(statements: seq<Statement>, groups: seq<EventGroup>, collate: Collation)
    requires statements != [] && AllStamped(statements) && Coherent(statements)
    requires IsGrouping(statements, groups, collate)
    ensures groups != [] && forall i :: 0 <= i < |groups| ==> (groups[i].featured <==> i == 0)
    ensures forall i, j :: 0 <= i < j < |groups| ==> groups[i].order < groups[j].order
    ensures forall i :: 0 <= i < |groups| ==>
      forall p :: 0 <= p < |groups[i].statements| ==> Position(groups[i].statements[p]) == p
  {
    forall i | 0 <= i < |groups|
      ensures groups[i].order == FirstStamp(statements, groups[i].key).order
      ensures groups[i].featured <==> Leads(statements, groups[i].key)
      ensures groups[i].featured <==> groups[i].order == 0
      ensures forall p :: 0 <= p < |groups[i].statements| ==> Position(groups[i].statements[p]) == p
    {
      assert IsGroup(statements, groups[i]);
      assert LeaderIsFirst(statements, groups[i].key) && ContiguousAt(statements, groups[i].key);
      OrderedByPosition(WithKey(statements, groups[i].key));
    }
    var leader :| Leads(statements, leader);
    assert HasGroup(statements, groups, leader);
    var at :| 0 <= at < |groups| && groups[at].key == leader;
    assert at > 0 ==> InOrder(collate, groups[0], groups[at]);
    forall i, j | 0 <= i < j < |groups| ensures groups[i].order < groups[j].order {
      assert InOrder(collate, groups[i], groups[j]);
      assert groups[i].key != groups[j].key;
    }
  }

  /** What the boundary accepts names every event it stamps: no empty key, no empty title. */
  lemma AcceptedStampsAreNamed(statements: seq<Statement>, s: Statement)
    requires Coherent(statements) && s in statements && s.stamp.Some?
    ensures s.stamp.value.key != "" && s.stamp.value.title != ""
  {
    assert Agrees(statements, s);
  }

  // ---- What stamping publishes -----------------------------------------------------------

  /** Distinct events have distinct keys, and every key and title says something. */
  predicate TitlesOk(titles: map<nat, (string, string)>) {
    && (forall e :: e in titles ==> titles[e].0 != "" && titles[e].1 != "")
    && (forall a, b :: a in titles && b in titles && a != b ==> titles[a].0 != titles[b].0)
  }

  predicate FullyAttributed(lineage: Lineage, owners: seq<Option<nat>>) {
    forall i :: 0 <= i < |owners| ==> Grouped(lineage, owners[i])
  }

  /** What the stamp of any statement says, once every statement has an owner. */
  predicate Stamps(s: Statement, lineage: Lineage, e: nat, featured: nat, order: map<nat, nat>) {
    e in lineage.titles && e in order
    && s.stamp == Some(Stamp(lineage.titles[e].0, lineage.titles[e].1, e == featured, order[e], Position(s)))
  }

  lemma StampedStatement(stamped: seq<Statement>, statements: seq<Statement>, lineage: Lineage,
                         owners: seq<Option<nat>>, featured: nat, order: map<nat, nat>, i: nat)
    requires FullyAttributed(lineage, owners) && StampedAs(stamped, statements, lineage, owners, featured, order)
    requires i < |stamped|
    ensures Stamps(stamped[i], lineage, owners[i].value, featured, order)
    ensures Position(stamped[i]) == Earlier(owners, i, owners[i].value)
  {
    assert Grouped(lineage, owners[i]);
  }

  lemma StampedKey(stamped: seq<Statement>, statements: seq<Statement>, lineage: Lineage,
                   owners: seq<Option<nat>>, featured: nat, order: map<nat, nat>, i: nat, e: nat)
    requires TitlesOk(lineage.titles) && FullyAttributed(lineage, owners) && e in lineage.titles
    requires StampedAs(stamped, statements, lineage, owners, featured, order) && i < |stamped|
    ensures HasKey(stamped[i], lineage.titles[e].0) <==> owners[i] == Some(e)
  {
    StampedStatement(stamped, statements, lineage, owners, featured, order, i);
  }

  /** The i-th statement is the event's exactly when it has the event's key, and counts the earlier ones. */
  predicate CountedAt(stamped: seq<Statement>, owners: seq<Option<nat>>, key: string, e: nat, i: nat)
    requires i < |stamped| == |owners|
  {
    && (HasKey(stamped[i], key) <==> owners[i] == Some(e))
    && (owners[i] == Some(e) ==> Position(stamped[i]) == Earlier(owners, i, e))
  }

  lemma {:induction false} CountedPositions(stamped: seq<Statement>, owners: seq<Option<nat>>, key: string, e: nat,
                                            n: nat)
    requires |stamped| == |owners| && n <= |stamped|
    requires forall i: nat :: i < |stamped| ==> CountedAt(stamped, owners, key, e, i)
    ensures Positions(WithKey(stamped[..n], key)) == Range(Earlier(owners, n, e))
  {
    if n > 0 {
      CountedPositions(stamped, owners, key, e, n - 1);
      assert stamped[..n] == stamped[..n - 1] + [stamped[n - 1]];
      WithKeyAppend(stamped[..n - 1], stamped[n - 1], key);
      assert CountedAt(stamped, owners, key, e, n - 1);
      if owners[n - 1] == Some(e) {
        AppendPosition(WithKey(stamped[..n - 1], key), stamped[n - 1], Earlier(owners, n - 1, e));
      }
    }
  }

  /** Each event's statements carry positions 0, 1, 2, … in published order. */
  lemma StampedPositions(stamped: seq<Statement>, statements: seq<Statement>, lineage: Lineage,
                         owners: seq<Option<nat>>, featured: nat, order: map<nat, nat>, e: nat)
    requires TitlesOk(lineage.titles) && FullyAttributed(lineage, owners) && e in lineage.titles
    requires StampedAs(stamped, statements, lineage, owners, featured, order)
    ensures Positions(WithKey(stamped, lineage.titles[e].0)) == Range(Earlier(owners, |stamped|, e))
  {
    forall i: nat | i < |stamped| ensures CountedAt(stamped, owners, lineage.titles[e].0, e, i) {
      StampedStatement(stamped, statements, lineage, owners, featured, order, i);
      StampedKey(stamped, statements, lineage, owners, featured, order, i, e);
    }
    CountedPositions(stamped, owners, lineage.titles[e].0, e, |stamped|);
    assert stamped[..|stamped|] == stamped;
  }

  lemma AppendPosition(front: seq<Statement>, last: Statement, k: nat)
    requires Positions(front) == Range(k) && Position(last) == k
    ensures Positions(front + [last]) == Range(k + 1)
  {
    assert |Positions(front)| == |front| == |Range(k)|;
    assert Positions(front + [last]) == Positions(front) + [k];
    assert Range(k + 1) == Range(k) + [k];
  }

  /** The group of an event: its statements in published order, all saying the same about the event. */
  lemma StampedGroup(stamped: seq<Statement>, statements: seq<Statement>, lineage: Lineage,
                     owners: seq<Option<nat>>, featured: nat, order: map<nat, nat>, key: string)
    requires TitlesOk(lineage.titles) && FullyAttributed(lineage, owners)
    requires StampedAs(stamped, statements, lineage, owners, featured, order) && WithKey(stamped, key) != []
    ensures exists e :: e in lineage.titles && e in order && key == lineage.titles[e].0 && Some(e) in owners
                     && (forall s :: s in WithKey(stamped, key) ==> Stamps(s, lineage, e, featured, order))
                     && Positions(WithKey(stamped, key)) == Range(|WithKey(stamped, key)|)
  {
    var s := WithKey(stamped, key)[0];
    assert s in WithKey(stamped, key);
    var i :| 0 <= i < |stamped| && stamped[i] == s;
    StampedStatement(stamped, statements, lineage, owners, featured, order, i);
    var e := owners[i].value;
    StampedPositions(stamped, statements, lineage, owners, featured, order, e);
    assert owners[i] == Some(e);
    forall x | x in WithKey(stamped, key) ensures Stamps(x, lineage, e, featured, order) {
      var j :| 0 <= j < |stamped| && stamped[j] == x;
      StampedStatement(stamped, statements, lineage, owners, featured, order, j);
      StampedKey(stamped, statements, lineage, owners, featured, order, j, e);
    }
    assert |Positions(WithKey(stamped, key))| == |WithKey(stamped, key)|;
  }

  lemma StampsAgree(stamped: seq<Statement>, statements: seq<Statement>, lineage: Lineage,
                    owners: seq<Option<nat>>, featured: nat, order: map<nat, nat>)
    requires TitlesOk(lineage.titles) && FullyAttributed(lineage, owners)
    requires StampedAs(stamped, statements, lineage, owners, featured, order)
    ensures OneEventPerKey(stamped) && AllStamped(stamped)
  {
    forall s | s in stamped ensures Agrees(stamped, s) {
      var i :| 0 <= i < |stamped| && stamped[i] == s;
      StampedStatement(stamped, statements, lineage, owners, featured, order, i);
      assert s in WithKey(stamped, s.stamp.value.key);
      StampedGroup(stamped, statements, lineage, owners, featured, order, s.stamp.value.key);
      assert WithKey(stamped, s.stamp.value.key)[0] in WithKey(stamped, s.stamp.value.key);
    }
    forall i | 0 <= i < |stamped| ensures stamped[i].stamp.Some? {
      StampedStatement(stamped, statements, lineage, owners, featured, order, i);
    }
  }

  /**
    With every statement attributed, a stamped section is accepted by the boundary exactly when the featured
    event owns one of its statements (or there are none).
  */
  lemma StampedIsCoherent(stamped: seq<Statement>, statements: seq<Statement>, lineage: Lineage,
                          owners: seq<Option<nat>>, featured: nat, ids: seq<nat>, order: map<nat, nat>)
    requires TitlesOk(lineage.titles) && FullyAttributed(lineage, owners) && Ordering(order, featured, ids)
    requires StampedAs(stamped, statements, lineage, owners, featured, order)
    ensures Coherent(stamped) <==> stamped == [] || Some(featured) in owners
  {
    StampsAgree(stamped, statements, lineage, owners, featured, order);
    forall key
      ensures ContiguousAt(stamped, key) && LeaderIsFirst(stamped, key)
      ensures Leads(stamped, key) ==> Some(featured) in owners
    {
      StampedKeyOk(stamped, statements, lineage, owners, featured, ids, order, key);
    }
    if Some(featured) in owners {
      FeaturedLeads(stamped, statements, lineage, owners, featured, order);
      StampedKeysDiffer(stamped, statements, lineage, owners, featured, ids, order);
    }
  }

  lemma StampedKeyOk(stamped: seq<Statement>, statements: seq<Statement>, lineage: Lineage,
                     owners: seq<Option<nat>>, featured: nat, ids: seq<nat>, order: map<nat, nat>, key: string)
    requires TitlesOk(lineage.titles) && FullyAttributed(lineage, owners) && Ordering(order, featured, ids)
    requires StampedAs(stamped, statements, lineage, owners, featured, order)
    ensures ContiguousAt(stamped, key) && LeaderIsFirst(stamped, key)
    ensures (Leads(stamped, key) ==> Some(featured) in owners)
  {
    if WithKey(stamped, key) != [] {
      StampedGroup(stamped, statements, lineage, owners, featured, order, key);
      assert WithKey(stamped, key)[0] in WithKey(stamped, key);
    }
  }

  lemma FeaturedLeads(stamped: seq<Statement>, statements: seq<Statement>, lineage: Lineage,
                      owners: seq<Option<nat>>, featured: nat, order: map<nat, nat>)
    requires TitlesOk(lineage.titles) && FullyAttributed(lineage, owners) && Some(featured) in owners
    requires StampedAs(stamped, statements, lineage, owners, featured, order)
    ensures featured in lineage.titles && Leads(stamped, lineage.titles[featured].0)
  {
    var i :| 0 <= i < |owners| && owners[i] == Some(featured);
    StampedStatement(stamped, statements, lineage, owners, featured, order, i);
    var key := lineage.titles[featured].0;
    assert stamped[i] in WithKey(stamped, key);
    StampedGroup(stamped, statements, lineage, owners, featured, order, key);
    assert WithKey(stamped, key)[0] in WithKey(stamped, key);
  }

  lemma StampedKeysDiffer(stamped: seq<Statement>, statements: seq<Statement>, lineage: Lineage,
                          owners: seq<Option<nat>>, featured: nat, ids: seq<nat>, order: map<nat, nat>)
    requires TitlesOk(lineage.titles) && FullyAttributed(lineage, owners) && Ordering(order, featured, ids)
    requires StampedAs(stamped, statements, lineage, owners, featured, order)
    ensures forall a, b :: Leads(stamped, a) && Leads(stamped, b) ==> a == b
    ensures forall a, b :: WithKey(stamped, a) != [] && WithKey(stamped, b) != [] && a != b ==>
      FirstStamp(stamped, a).order != FirstStamp(stamped, b).order
  {
    forall a, b | WithKey(stamped, a) != [] && WithKey(stamped, b) != []
      ensures Leads(stamped, a) && Leads(stamped, b) ==> a == b
      ensures a != b ==> FirstStamp(stamped, a).order != FirstStamp(stamped, b).order
    {
      StampedGroup(stamped, statements, lineage, owners, featured, order, a);
      StampedGroup(stamped, statements, lineage, owners, featured, order, b);
      assert WithKey(stamped, a)[0] in WithKey(stamped, a) && WithKey(stamped, b)[0] in WithKey(stamped, b);
    }
  }

  /**
    Stamping then grouping: the groups partition the published section in strictly ascending order, every group keeps
    its statements in the order they were published, at positions 0 to n-1, and no group but the first leads; the
    first does exactly when the featured event owns a statement.
  */
  lemma StampedThenGrouped(stamped: seq<Statement>, statements: seq<Statement>, lineage: Lineage,
                           owners: seq<Option<nat>>, featured: nat, ids: seq<nat>, order: map<nat, nat>,
                           groups: seq<EventGroup>, collate: Collation)
    requires TitlesOk(lineage.titles) && FullyAttributed(lineage, owners) && Ordering(order, featured, ids)
    requires StampedAs(stamped, statements, lineage, owners, featured, order)
    requires IsGrouping(stamped, groups, collate)
    ensures multiset(Flatten(groups)) == multiset(stamped)
    ensures forall i, j :: 0 <= i < j < |groups| ==> groups[i].order < groups[j].order && !groups[j].featured
    ensures groups != [] && groups[0].featured <==> Some(featured) in owners
    ensures Some(featured) in owners ==> groups[0].key == lineage.titles[featured].0
    ensures forall i :: 0 <= i < |groups| ==>
      && groups[i].statements == WithKey(stamped, groups[i].key)
      && Positions(groups[i].statements) == Range(|groups[i].statements|)
  {
    StampsAgree(stamped, statements, lineage, owners, featured, order);
    GroupingPartitions(stamped, groups, collate);
    forall i | 0 <= i < |groups| ensures EventOf(stamped, lineage, owners, featured, order, groups[i]) {
      GroupOfEvent(stamped, statements, lineage, owners, featured, order, groups[i]);
    }
    GroupsAscend(stamped, lineage, owners, featured, ids, order, groups, collate);
    if Some(featured) in owners {
      FeaturedLeads(stamped, statements, lineage, owners, featured, order);
      assert HasGroup(stamped, groups, lineage.titles[featured].0);
      var at :| 0 <= at < |groups| && groups[at].key == lineage.titles[featured].0;
      assert EventOf(stamped, lineage, owners, featured, order, groups[at]);
    } else if groups != [] {
      assert EventOf(stamped, lineage, owners, featured, order, groups[0]);
    }
  }

  /** The group is some owner's: its key, its order, its lead, and its statements as published. */
  predicate EventOf(stamped: seq<Statement>, lineage: Lineage, owners: seq<Option<nat>>, featured: nat,
                    order: map<nat, nat>, group: EventGroup)
  {
    && (exists e :: e in lineage.titles && e in order && Some(e) in owners && group.key == lineage.titles[e].0
                    && group.featured == (e == featured) && group.order == order[e])
    && group.statements == WithKey(stamped, group.key)
    && Positions(group.statements) == Range(|group.statements|)
  }

  lemma GroupOfEvent(stamped: seq<Statement>, statements: seq<Statement>, lineage: Lineage,
                     owners: seq<Option<nat>>, featured: nat, order: map<nat, nat>, group: EventGroup)
    requires TitlesOk(lineage.titles) && FullyAttributed(lineage, owners)
    requires StampedAs(stamped, statements, lineage, owners, featured, order) && IsGroup(stamped, group)
    ensures EventOf(stamped, lineage, owners, featured, order, group)
  {
    StampedGroup(stamped, statements, lineage, owners, featured, order, group.key);
    PublishedOrderKept(WithKey(stamped, group.key));
    assert WithKey(stamped, group.key)[0] in WithKey(stamped, group.key);
  }

  lemma GroupsAscend(stamped: seq<Statement>, lineage: Lineage, owners: seq<Option<nat>>, featured: nat, ids: seq<nat>,
                     order: map<nat, nat>, groups: seq<EventGroup>, collate: Collation)
    requires TitlesOk(lineage.titles) && Ordering(order, featured, ids) && IsGrouping(stamped, groups, collate)
    requires forall i :: 0 <= i < |groups| ==> EventOf(stamped, lineage, owners, featured, order, groups[i])
    ensures forall i, j :: 0 <= i < j < |groups| ==> groups[i].order < groups[j].order && !groups[j].featured
  {
    forall i, j | 0 <= i < j < |groups| ensures groups[i].order < groups[j].order && !groups[j].featured {
      assert EventOf(stamped, lineage, owners, featured, order, groups[i]);
      assert EventOf(stamped, lineage, owners, featured, order, groups[j]);
      assert InOrder(collate, groups[i], groups[j]) && groups[i].key != groups[j].key;
    }
  }

  lemma PublishedOrderKept(statements: seq<Statement>)
    requires Positions(statements) == Range(|statements|)
    ensures Ordered(statements) == statements
  {
    forall i | 0 <= i < |statements| ensures Position(statements[i]) == i { assert Positions(statements)[i] == i; }
    SortKeepsSorted(statements, (a, b) => ByPosition(a, b));
  }
}
