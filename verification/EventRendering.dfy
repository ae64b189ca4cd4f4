/** The reader's side of event grouping: the response boundary's check, and groupByEvent. */
module EventRendering {
  import opened Basics
  import opened Sorting

  /** readEventGroup: a stamp whose key and title name something. */
  predicate Usable(s: Statement) {
    s.stamp.Some? && s.stamp.value.key != "" && s.stamp.value.title != ""
  }

  predicate HasKey(s: Statement, key: string) {
    s.stamp.Some? && s.stamp.value.key == key
  }

  function WithKey(statements: seq<Statement>, key: string): (r: seq<Statement>)
    ensures forall s :: s in r <==> s in statements && HasKey(s, key)
  {
    if statements == [] then []
    else
      var n := |statements| - 1;
      assert statements == statements[..n] + [statements[n]];
      var front := WithKey(statements[..n], key);
      if HasKey(statements[n], key) then front + [statements[n]] else front
  }

  function Position(s: Statement): nat {
    if s.stamp.Some? then s.stamp.value.position else 0
  }

  function Positions(statements: seq<Statement>): seq<nat> {
    seq(|statements|, i requires 0 <= i < |statements| => Position(statements[i]))
  }

  predicate Alike(a: Stamp, b: Stamp) {
    a.title == b.title && a.featured == b.featured && a.order == b.order
  }

  predicate AllStamped(statements: seq<Statement>) {
    forall i :: 0 <= i < |statements| ==> statements[i].stamp.Some?
  }

  /** What the first statement of a group says about its event. */
  function FirstStamp(statements: seq<Statement>, key: string): Stamp
    requires WithKey(statements, key) != []
  {
    assert WithKey(statements, key)[0] in WithKey(statements, key);
    WithKey(statements, key)[0].stamp.value
  }

  /** A usable stamp that describes its event as the group's first statement does. */
  predicate Agrees(statements: seq<Statement>, s: Statement) {
    s.stamp.Some? && s in statements ==>
      && Usable(s)
      && s in WithKey(statements, s.stamp.value.key)
      && Alike(FirstStamp(statements, s.stamp.value.key), s.stamp.value)
  }

  /** One key describes one event. */
  predicate OneEventPerKey(statements: seq<Statement>) {
    forall s :: s in statements ==> Agrees(statements, s)
  }

  predicate Leads(statements: seq<Statement>, key: string) {
    WithKey(statements, key) != [] && FirstStamp(statements, key).featured
  }

  /** Of a fully stamped section: one headline, ordered first; no shared orders; positions 0 to n-1 in every group. */
  ghost predicate Headed(statements: seq<Statement>) {
    OneLeader(statements) && AllContiguous(statements)
  }

  ghost predicate OneLeader(statements: seq<Statement>) {
    && (exists key :: Leads(statements, key))
    && (forall a, b :: Leads(statements, a) && Leads(statements, b) ==> a == b)
    && (forall key :: LeaderIsFirst(statements, key))
    && (forall a, b :: WithKey(statements, a) != [] && WithKey(statements, b) != [] && a != b ==>
          FirstStamp(statements, a).order != FirstStamp(statements, b).order)
  }

  predicate LeaderIsFirst(statements: seq<Statement>, key: string) {
    WithKey(statements, key) != [] ==>
      (FirstStamp(statements, key).featured <==> FirstStamp(statements, key).order == 0)
  }

  ghost predicate AllContiguous(statements: seq<Statement>) {
    forall key :: ContiguousAt(statements, key)
  }

  predicate ContiguousAt(statements: seq<Statement>, key: string) {
    WithKey(statements, key) != [] ==> Contiguous(Positions(WithKey(statements, key)))
  }

  predicate Contiguous(positions: seq<nat>) {
    multiset(positions) == multiset(Range(|positions|))
  }

  /** What the contract asks of a recorded section. */
  ghost predicate Coherent(statements: seq<Statement>) {
    OneEventPerKey(statements) && (statements != [] && AllStamped(statements) ==> Headed(statements))
  }

  // ---- The boundary ----------------------------------------------------------------------

  lemma AtMostIsTotal()
    ensures TotalPreorder(AtMost)
  {
  }

  /** Sorting and comparing with the indexes decides contiguity. */
  lemma SortDecidesContiguous(positions: seq<nat>)
    ensures Sort(positions, AtMost) == Range(|positions|) <==> Contiguous(positions)
  {
    AtMostIsTotal();
    SortIsSorted(positions, AtMost);
    if Contiguous(positions) {
      var sorted := Sort(positions, AtMost);
      assert forall i, j :: 0 <= i < j < |sorted| ==> AtMost(sorted[i], sorted[j]);
      SortedIsUnique(sorted, Range(|positions|));
    }
  }

  /** The first stamp seen under each key. */
  ghost predicate Represents(groups: map<string, Stamp>, statements: seq<Statement>) {
    forall key :: InGroups(groups, statements, key)
  }

  predicate InGroups(groups: map<string, Stamp>, statements: seq<Statement>, key: string) {
    && (key in groups <==> WithKey(statements, key) != [])
    && (key in groups ==> groups[key] == FirstStamp(statements, key))
  }

  lemma WithKeyAppend(statements: seq<Statement>, s: Statement, key: string)
    ensures WithKey(statements + [s], key) ==
      if HasKey(s, key) then WithKey(statements, key) + [s] else WithKey(statements, key)
  {
    assert (statements + [s])[..|statements|] == statements;
  }

  function Seen(groups: map<string, Stamp>, s: Statement): map<string, Stamp> {
    if s.stamp.None? || s.stamp.value.key in groups then groups else groups[s.stamp.value.key := s.stamp.value]
  }

  lemma ExtendGroups(statements: seq<Statement>, s: Statement, groups: map<string, Stamp>)
    requires Represents(groups, statements)
    ensures Represents(Seen(groups, s), statements + [s])
  {
    var after := Seen(groups, s);
    forall key ensures InGroups(after, statements + [s], key) {
      assert InGroups(groups, statements, key);
      WithKeyAppend(statements, s, key);
    }
  }

  lemma AppendAgrees(statements: seq<Statement>, s: Statement, x: Statement)
    requires x in statements && Agrees(statements, x)
    ensures Agrees(statements + [s], x)
  {
    if x.stamp.Some? { WithKeyAppend(statements, s, x.stamp.value.key); }
  }

  lemma Extend(statements: seq<Statement>, s: Statement, groups: map<string, Stamp>)
    requires Represents(groups, statements) && OneEventPerKey(statements)
    ensures OneEventPerKey(statements + [s]) <==>
      s.stamp.None? || (Usable(s) && (s.stamp.value.key in groups ==> Alike(groups[s.stamp.value.key], s.stamp.value)))
  {
    var more := statements + [s];
    assert more[|statements|] == s;
    forall x | x in statements ensures Agrees(more, x) {
      assert Agrees(statements, x);
      AppendAgrees(statements, s, x);
    }
    if s.stamp.Some? {
      assert InGroups(groups, statements, s.stamp.value.key);
      WithKeyAppend(statements, s, s.stamp.value.key);
    }
    forall x | x in more ensures x in statements || x == s {}
    assert OneEventPerKey(more) <==> Agrees(more, s);
  }

  /** A contradiction among some statements is one among more. */
  lemma StaysContradicted(statements: seq<Statement>, n: nat)
    requires n <= |statements| && OneEventPerKey(statements)
    ensures OneEventPerKey(statements[..n])
    decreases |statements| - n
  {
    if n < |statements| {
      StaysContradicted(statements, n + 1);
      FrontAgrees(statements[..n + 1]);
      assert statements[..n + 1][..n] == statements[..n];
    } else {
      assert statements[..n] == statements;
    }
  }

  lemma FrontAgrees(statements: seq<Statement>)
    requires statements != [] && OneEventPerKey(statements)
    ensures OneEventPerKey(statements[..|statements| - 1])
  {
    var front := statements[..|statements| - 1];
    assert statements == front + [statements[|statements| - 1]];
    forall s | s in front ensures Agrees(front, s) {
      assert s in statements && Agrees(statements, s);
      if s.stamp.Some? {
        assert s in WithKey(front, s.stamp.value.key);
        assert WithKey(statements, s.stamp.value.key)[0] == WithKey(front, s.stamp.value.key)[0];
      }
    }
  }

  method ReadGroups(statements: seq<Statement>) returns (groups: Option<map<string, Stamp>>)
    ensures groups.Some? <==> OneEventPerKey(statements)
    ensures groups.Some? ==> Represents(groups.value, statements)
  {
    var seen: map<string, Stamp> := map[];
    for n := 0 to |statements|
      invariant OneEventPerKey(statements[..n]) && Represents(seen, statements[..n])
    {
      var s := statements[n];
      assert statements[..n + 1] == statements[..n] + [s];
      Extend(statements[..n], s, seen);
      ExtendGroups(statements[..n], s, seen);
      if s.stamp.None? { continue; }
      if !Usable(s) || (s.stamp.value.key in seen && !Alike(seen[s.stamp.value.key], s.stamp.value)) {
        if OneEventPerKey(statements) { StaysContradicted(statements, n + 1); }
        return None;
      }
      if s.stamp.value.key !in seen { seen := seen[s.stamp.value.key := s.stamp.value]; }
    }
    assert statements[..|statements|] == statements;
    groups := Some(seen);
  }

  method HasContiguousPredicates(statements: seq<Statement>) returns (ok: bool)
    requires AllStamped(statements)
    ensures ok <==> AllContiguous(statements)
  {
    var byGroup: map<string, seq<nat>> := map[];
    for n := 0 to |statements|
      invariant Collects(byGroup, statements[..n])
    {
      assert statements[..n + 1] == statements[..n] + [statements[n]];
      ExtendPositions(statements[..n], statements[n], byGroup);
      var stamp := statements[n].stamp.value;
      byGroup := byGroup[stamp.key := (if stamp.key in byGroup then byGroup[stamp.key] else []) + [stamp.position]];
    }
    assert statements[..|statements|] == statements;
    ok := forall key :: key in byGroup ==> Sort(byGroup[key], AtMost) == Range(|byGroup[key]|);
    forall key
      ensures ContiguousAt(statements, key) <==>
        (key in byGroup ==> Sort(byGroup[key], AtMost) == Range(|byGroup[key]|))
    {
      assert InPositions(byGroup, statements, key);
      if key in byGroup { SortDecidesContiguous(byGroup[key]); }
    }
    forall key | ok ensures ContiguousAt(statements, key) {}
    forall key | !(key in byGroup ==> Sort(byGroup[key], AtMost) == Range(|byGroup[key]|))
      ensures !ContiguousAt(statements, key)
    {
    }
  }

  ghost predicate Collects(byGroup: map<string, seq<nat>>, statements: seq<Statement>) {
    forall key :: InPositions(byGroup, statements, key)
  }

  lemma ExtendPositions(statements: seq<Statement>, s: Statement, byGroup: map<string, seq<nat>>)
    requires s.stamp.Some? && Collects(byGroup, statements)
    ensures var key := s.stamp.value.key;
      Collects(byGroup[key := (if key in byGroup then byGroup[key] else []) + [s.stamp.value.position]], statements +
               [s])
  {
    var own := s.stamp.value.key;
    var after := byGroup[own := (if own in byGroup then byGroup[own] else []) + [s.stamp.value.position]];
    forall key ensures InPositions(after, statements + [s], key) {
      assert InPositions(byGroup, statements, key);
      WithKeyAppend(statements, s, key);
    }
  }

  predicate InPositions(byGroup: map<string, seq<nat>>, statements: seq<Statement>, key: string) {
    && (key in byGroup <==> WithKey(statements, key) != [])
    && (key in byGroup ==> byGroup[key] == Positions(WithKey(statements, key)))
  }

  lemma StampedHasGroup(statements: seq<Statement>, groups: map<string, Stamp>)
    requires Represents(groups, statements) && statements != [] && statements[0].stamp.Some?
    ensures statements[0].stamp.value.key in groups
  {
    assert statements[0] in WithKey(statements, statements[0].stamp.value.key);
    assert InGroups(groups, statements, statements[0].stamp.value.key);
  }

  /** hasCoherentEventGroups decides the contract. */
  method HasCoherentEventGroups(statements: seq<Statement>) returns (ok: bool)
    ensures ok <==> Coherent(statements)
  {
    var read := ReadGroups(statements);
    if read.None? { return false; }
    var groups := read.value;
    if groups.Keys == {} || !AllStamped(statements) {
      if statements != [] && statements[0].stamp.Some? { StampedHasGroup(statements, groups); }
      return true;
    }
    var some :| some in groups;
    assert InGroups(groups, statements, some);
    var contiguous := HasContiguousPredicates(statements);
    GroupsDecideLeader(statements, groups);
    ok := LeadersOk(groups) && contiguous;
  }

  predicate LeadersOk(groups: map<string, Stamp>) {
    && (exists key :: key in groups && groups[key].featured)
    && (forall a, b :: a in groups && b in groups && groups[a].featured && groups[b].featured ==> a == b)
    && (forall key :: key in groups ==> (groups[key].featured <==> groups[key].order == 0))
    && (forall a, b :: a in groups && b in groups && a != b ==> groups[a].order != groups[b].order)
  }

  lemma GroupsDecideLeader(statements: seq<Statement>, groups: map<string, Stamp>)
    requires Represents(groups, statements)
    ensures OneLeader(statements) <==> LeadersOk(groups)
  {
    forall key ensures (key in groups <==> WithKey(statements, key) != [])
                    && (key in groups ==> groups[key] == FirstStamp(statements, key)) {
      assert InGroups(groups, statements, key);
    }
    if LeadersOk(groups) {
      var leader :| leader in groups && groups[leader].featured;
      assert Leads(statements, leader);
    }
    if OneLeader(statements) {
      var leader :| Leads(statements, leader);
      assert leader in groups && groups[leader].featured;
      forall key | key in groups ensures groups[key].featured <==> groups[key].order == 0 {
        assert LeaderIsFirst(statements, key);
      }
      forall a, b | a in groups && b in groups && groups[a].featured && groups[b].featured ensures a == b {
        assert Leads(statements, a) && Leads(statements, b);
      }
    }
  }

  // ---- groupByEvent ----------------------------------------------------------------------

  datatype EventGroup = EventGroup(key: string, title: string, featured: bool, order: nat, statements: seq<Statement>)

  /** The locale's string comparison: negative, zero or positive. */
  type Collation = (string, string) -> int

  function MakeGroup(statements: seq<Statement>, key: string): EventGroup
    requires WithKey(statements, key) != []
  {
    var first := FirstStamp(statements, key);
    EventGroup(key, first.title, first.featured, first.order, WithKey(statements, key))
  }

  predicate InOrder(collate: Collation, left: EventGroup, right: EventGroup) {
    if left.featured != right.featured then left.featured
    else if left.order != right.order then left.order < right.order
    else collate(left.key, right.key) <= 0
  }

  predicate ByPosition(left: Statement, right: Statement) {
    Position(left) <= Position(right)
  }

  function Ordered(statements: seq<Statement>): seq<Statement> {
    Sort(statements, (a, b) => ByPosition(a, b))
  }

  predicate DistinctKeys(keys: seq<string>) {
    forall i, j :: 0 <= i < j < |keys| ==> keys[i] != keys[j]
  }

  /** A Map from keys to groups, with its insertion order. */
  ghost predicate Gathers(groups: map<string, EventGroup>, keys: seq<string>, statements: seq<Statement>) {
    DistinctKeys(keys) && forall key :: GathersAt(groups, keys, statements, key)
  }

  predicate GathersAt(groups: map<string, EventGroup>, keys: seq<string>, statements: seq<Statement>, key: string) {
    && (key in groups <==> WithKey(statements, key) != [])
    && (key in groups <==> key in keys)
    && (key in groups ==> groups[key] == MakeGroup(statements, key))
  }

  /** Every group of the section once, its statements by position, in the order a reader sees. */
  ghost predicate IsGrouping(statements: seq<Statement>, groups: seq<EventGroup>, collate: Collation) {
    && (forall key :: HasGroup(statements, groups, key))
    && (forall i :: 0 <= i < |groups| ==> IsGroup(statements, groups[i]))
    && (forall i, j :: 0 <= i < j < |groups| ==> groups[i].key != groups[j].key)
    && (forall i, j :: 0 <= i < j < |groups| ==> InOrder(collate, groups[i], groups[j]))
  }

  predicate IsGroup(statements: seq<Statement>, group: EventGroup) {
    WithKey(statements, group.key) != []
    && group == MakeGroup(statements, group.key).(statements := Ordered(WithKey(statements, group.key)))
  }

  lemma Gather(statements: seq<Statement>, s: Statement, groups: map<string, EventGroup>, keys: seq<string>)
    requires Gathers(groups, keys, statements) && s.stamp.Some?
    ensures var stamp := s.stamp.value;
      if stamp.key in groups then
        Gathers(groups[stamp.key := groups[stamp.key].(statements := groups[stamp.key].statements + [s])], keys,
                statements + [s])
      else
        Gathers(groups[stamp.key := EventGroup(stamp.key, stamp.title, stamp.featured, stamp.order, [s])],
                keys + [stamp.key], statements + [s])
  {
    var own := s.stamp.value;
    assert GathersAt(groups, keys, statements, own.key);
    var groups', keys' :=
      if own.key in groups then groups[own.key := groups[own.key].(statements := groups[own.key].statements + [s])]
      else groups[own.key := EventGroup(own.key, own.title, own.featured, own.order, [s])],
      if own.key in groups then keys else keys + [own.key];
    forall key ensures GathersAt(groups', keys', statements + [s], key) {
      assert GathersAt(groups, keys, statements, key);
      WithKeyAppend(statements, s, key);
    }
  }

  method GatherGroups(statements: seq<Statement>) returns (groups: map<string, EventGroup>, keys: seq<string>)
    requires AllStamped(statements)
    ensures Gathers(groups, keys, statements)
  {
    groups, keys := map[], [];
    for n := 0 to |statements|
      invariant Gathers(groups, keys, statements[..n])
    {
      assert statements[..n + 1] == statements[..n] + [statements[n]];
      Gather(statements[..n], statements[n], groups, keys);
      var stamp := statements[n].stamp.value;
      if stamp.key in groups {
        groups := groups[stamp.key := groups[stamp.key].(statements := groups[stamp.key].statements + [statements[n]])];
      } else {
        groups := groups[stamp.key := EventGroup(stamp.key, stamp.title, stamp.featured, stamp.order, [statements[n]])];
        keys := keys + [stamp.key];
      }
    }
    assert statements[..|statements|] == statements;
  }

  ghost predicate GoodCollation(collate: Collation) {
    && (forall a, b :: collate(a, b) <= 0 || collate(b, a) <= 0)
    && (forall a, b, c :: collate(a, b) <= 0 && collate(b, c) <= 0 ==> collate(a, c) <= 0)
  }

  /** groupByEvent. */
  method GroupByEvent(section: Section, statements: seq<Statement>,
                      collate: Collation) returns (r: Option<seq<EventGroup>>)
    requires GoodCollation(collate)
    ensures r.None? <==> !section.RecordedOnThisDate? || statements == [] || exists s :: s in statements && !Usable(s)
    ensures r.Some? ==> IsGrouping(statements, r.value, collate)
  {
    if !section.RecordedOnThisDate? || statements == [] || exists s :: s in statements && !Usable(s) { return None; }
    assert forall i :: 0 <= i < |statements| ==> Usable(statements[i]);
    var groups, keys := GatherGroups(statements);
    forall i | 0 <= i < |keys| ensures keys[i] in groups { assert GathersAt(groups, keys, statements, keys[i]); }
    var gathered := Values(groups, keys);
    var sorted := Sort(gathered, (a, b) => InOrder(collate, a, b));
    var ordered := seq(|sorted|, i requires 0 <= i < |sorted| => sorted[i].(statements := Ordered(sorted[i].statements)));
    GatheredGroups(statements, groups, keys);
    SortedGroups(statements, gathered, collate);
    OrderedIsGrouping(statements, sorted, ordered, collate);
    r := Some(ordered);
  }

  lemma InOrderIsTotal(collate: Collation)
    requires GoodCollation(collate)
    ensures TotalPreorder((a: EventGroup, b: EventGroup) => InOrder(collate, a, b))
  {
  }

  /** Distinctness survives reordering. */
  lemma PermutedKeysDistinct(gathered: seq<EventGroup>, sorted: seq<EventGroup>)
    requires multiset(gathered) == multiset(sorted)
    requires forall i, j :: 0 <= i < j < |gathered| ==> gathered[i].key != gathered[j].key
    ensures forall i, j :: 0 <= i < j < |sorted| ==> sorted[i].key != sorted[j].key
  {
    forall i, j | 0 <= i < j < |sorted| ensures sorted[i].key != sorted[j].key {
      if sorted[i].key == sorted[j].key {
        assert sorted[i] in multiset(gathered) && sorted[j] in multiset(gathered);
        var x: nat, y: nat :| x < |gathered| && y < |gathered| && gathered[x] == sorted[i] && gathered[y] == sorted[j];
        assert x == y;
        TwiceIn(sorted, i, j);
        OnceIn(gathered, x);
        assert false;
      }
    }
  }

  lemma TwiceIn(groups: seq<EventGroup>, i: nat, j: nat)
    requires i < j < |groups| && groups[i] == groups[j]
    ensures multiset(groups)[groups[i]] >= 2
  {
    assert groups == groups[..j] + groups[j..];
    assert groups[i] in multiset(groups[..j]) && groups[j] in multiset(groups[j..]);
  }

  lemma OnceIn(groups: seq<EventGroup>, x: nat)
    requires x < |groups| && forall i, j :: 0 <= i < j < |groups| ==> groups[i].key != groups[j].key
    ensures multiset(groups)[groups[x]] == 1
  {
    assert groups == groups[..x] + [groups[x]] + groups[x + 1..];
    assert groups[x] !in groups[..x] && groups[x] !in groups[x + 1..];
  }

  function Values(groups: map<string, EventGroup>, keys: seq<string>): seq<EventGroup>
    requires forall i :: 0 <= i < |keys| ==> keys[i] in groups
  {
    seq(|keys|, i requires 0 <= i < |keys| => groups[keys[i]])
  }

  /** The section's groups, each once, before their statements are ordered. */
  ghost predicate AreGroups(statements: seq<Statement>, groups: seq<EventGroup>) {
    && (forall key :: HasGroup(statements, groups, key))
    && (forall i :: 0 <= i < |groups| ==> IsRawGroup(statements, groups[i]))
    && (forall i, j :: 0 <= i < j < |groups| ==> groups[i].key != groups[j].key)
  }

  predicate HasGroup(statements: seq<Statement>, groups: seq<EventGroup>, key: string) {
    WithKey(statements, key) != [] ==> exists i :: 0 <= i < |groups| && groups[i].key == key
  }

  predicate IsRawGroup(statements: seq<Statement>, group: EventGroup) {
    WithKey(statements, group.key) != [] && group == MakeGroup(statements, group.key)
  }

  lemma GatheredGroups(statements: seq<Statement>, groups: map<string, EventGroup>, keys: seq<string>)
    requires Gathers(groups, keys, statements) && forall i :: 0 <= i < |keys| ==> keys[i] in groups
    ensures AreGroups(statements, Values(groups, keys))
  {
    var gathered := Values(groups, keys);
    forall i | 0 <= i < |keys| ensures IsRawGroup(statements, gathered[i]) && gathered[i].key == keys[i] {
      assert GathersAt(groups, keys, statements, keys[i]);
    }
    forall key ensures HasGroup(statements, gathered, key) {
      assert GathersAt(groups, keys, statements, key);
      if key in keys {
        var x :| 0 <= x < |keys| && keys[x] == key;
        assert gathered[x].key == key;
      }
    }
  }

  lemma SortedGroups(statements: seq<Statement>, gathered: seq<EventGroup>, collate: Collation)
    requires GoodCollation(collate) && AreGroups(statements, gathered)
    ensures var sorted := Sort(gathered, (a, b) => InOrder(collate, a, b));
      AreGroups(statements, sorted) && forall i, j :: 0 <= i < j < |sorted| ==> InOrder(collate, sorted[i], sorted[j])
  {
    var leq := (a: EventGroup, b: EventGroup) => InOrder(collate, a, b);
    var sorted := Sort(gathered, leq);
    InOrderIsTotal(collate);
    SortIsSorted(gathered, leq);
    PermutedKeysDistinct(gathered, sorted);
    forall i | 0 <= i < |sorted| ensures IsRawGroup(statements, sorted[i]) {
      assert sorted[i] in multiset(gathered);
      var x :| 0 <= x < |gathered| && gathered[x] == sorted[i];
    }
    forall key ensures HasGroup(statements, sorted, key) {
      assert HasGroup(statements, gathered, key);
      if x :| 0 <= x < |gathered| && gathered[x].key == key {
        assert gathered[x] in multiset(sorted);
        var i :| 0 <= i < |sorted| && sorted[i] == gathered[x];
      }
    }
    forall i, j | 0 <= i < j < |sorted| ensures InOrder(collate, sorted[i], sorted[j]) {
      assert leq(sorted[i], sorted[j]);
    }
  }

  lemma OrderedIsGrouping(statements: seq<Statement>, sorted: seq<EventGroup>, ordered: seq<EventGroup>,
                          collate: Collation)
    requires AreGroups(statements, sorted) && |ordered| == |sorted|
    requires forall i, j :: 0 <= i < j < |sorted| ==> InOrder(collate, sorted[i], sorted[j])
    requires forall i :: 0 <= i < |sorted| ==> ordered[i] == sorted[i].(statements := Ordered(sorted[i].statements))
    ensures IsGrouping(statements, ordered, collate)
  {
    forall i | 0 <= i < |ordered| ensures IsGroup(statements, ordered[i]) {
      assert IsRawGroup(statements, sorted[i]);
    }
    forall key ensures HasGroup(statements, ordered, key) {
      assert HasGroup(statements, sorted, key);
      if x :| 0 <= x < |sorted| && sorted[x].key == key { assert ordered[x].key == key; }
    }
  }
}
