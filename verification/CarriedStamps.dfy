/**
  Sections that stamping leaves partly unattributed: a carried-over statement no event owns any more keeps the stamp
  of the version it came from, and the page stands or falls with what that stamp says.
*/
module CarriedStamps {
  import opened Basics
  import opened Sorting
  import opened EventGroups
  import opened EventRendering
  import opened EventSections

  /** The statements no listed event owns, with whatever stamp they arrived with. */
  function Leftover(statements: seq<Statement>, lineage: Lineage, owners: seq<Option<nat>>): seq<Statement>
    requires |statements| == |owners|
  {
    if statements == [] then []
    else
      var n := |statements| - 1;
      Leftover(statements[..n], lineage, owners[..n]) + if Grouped(lineage, owners[n]) then [] else [statements[n]]
  }

  /** An event that owns a statement of the section. */
  predicate Present(lineage: Lineage, owners: seq<Option<nat>>, e: nat) {
    Some(e) in owners && e in lineage.titles
  }

  /** What a stamp fresh from this run says about an event. */
  predicate Tells(stamp: Stamp, lineage: Lineage, e: nat, featured: nat, order: map<nat, nat>)
    requires e in lineage.titles && e in order
  {
    stamp.title == lineage.titles[e].1 && stamp.featured == (e == featured) && stamp.order == order[e]
  }

  /** How many statements the events with this key own among the first n. */
  function Owned(lineage: Lineage, owners: seq<Option<nat>>, n: nat, key: string): nat
    requires n <= |owners|
  {
    if n == 0 then 0
    else Owned(lineage, owners, n - 1, key) +
         if Grouped(lineage, owners[n - 1]) && lineage.titles[owners[n - 1].value].0 == key then 1 else 0
  }

  /** The leftover positions of a key go on where the fresh ones stop. */
  predicate Continues(positions: seq<nat>, from: nat) {
    multiset(positions) == multiset(RangeFrom(from, |positions|))
  }

  function RangeFrom(from: nat, n: nat): seq<nat> {
    seq(n, i requires 0 <= i < n => from + i)
  }

  /** Leftover stamps say the same of one event as each other, and as the fresh stamps of its key. */
  ghost predicate LeftoversAgree(left: seq<Statement>, lineage: Lineage, owners: seq<Option<nat>>, featured: nat,
                                 order: map<nat, nat>)
    requires forall e :: Present(lineage, owners, e) ==> e in order
  {
    && OneEventPerKey(left)
    && forall s, e :: s in left && Present(lineage, owners, e) && HasKey(s, lineage.titles[e].0) ==>
         Tells(s.stamp.value, lineage, e, featured, order)
  }

  /** Fully stamped leftovers share one headline and one numbering with the fresh stamps. */
  ghost predicate LeftoversNumbered(left: seq<Statement>, lineage: Lineage, owners: seq<Option<nat>>, featured: nat,
                                    order: map<nat, nat>)
    requires AllStamped(left) && forall e :: Present(lineage, owners, e) ==> e in order
  {
    && (Present(lineage, owners, featured) || exists s :: s in left && s.stamp.value.featured)
    && (forall s :: s in left ==> (s.stamp.value.featured <==> s.stamp.value.order == 0))
    && (forall s, t :: s in left && t in left && s.stamp.value.key != t.stamp.value.key ==>
          s.stamp.value.order != t.stamp.value.order)
    && (forall s, e :: s in left && Present(lineage, owners, e) && lineage.titles[e].0 != s.stamp.value.key ==>
          s.stamp.value.order != order[e])
  }

  ghost predicate LeftoversContinue(left: seq<Statement>, lineage: Lineage, owners: seq<Option<nat>>) {
    forall key :: ContinuesAt(left, lineage, owners, key)
  }

  predicate ContinuesAt(left: seq<Statement>, lineage: Lineage, owners: seq<Option<nat>>, key: string) {
    Continues(Positions(WithKey(left, key)), Owned(lineage, owners, |owners|, key))
  }

  // ---- Sections, statement by statement --------------------------------------------------

  /** Two stamps of one section contradict each other nowhere. */
  predicate Pairwise(s: Statement, t: Statement) {
    s.stamp.Some? ==>
      Usable(s) && (t.stamp.Some? && s.stamp.value.key == t.stamp.value.key ==> Alike(s.stamp.value, t.stamp.value))
  }

  lemma AgreeingPairs(statements: seq<Statement>, s: Statement, t: Statement)
    requires OneEventPerKey(statements) && s in statements && t in statements
    ensures Pairwise(s, t)
  {
    assert Agrees(statements, s) && Agrees(statements, t);
  }

  lemma PairsAgree(statements: seq<Statement>)
    requires forall s, t :: s in statements && t in statements ==> Pairwise(s, t)
    ensures OneEventPerKey(statements)
  {
    forall s | s in statements ensures Agrees(statements, s) {
      if s.stamp.Some? {
        var first := WithKey(statements, s.stamp.value.key)[0];
        assert first in WithKey(statements, s.stamp.value.key);
        assert Pairwise(s, first);
      }
    }
  }

  /** One leader, seen statement by statement. */
  ghost predicate Numbered(statements: seq<Statement>)
    requires AllStamped(statements)
  {
    && (exists s :: s in statements && s.stamp.value.featured)
    && (forall s :: s in statements ==> (s.stamp.value.featured <==> s.stamp.value.order == 0))
    && (forall s, t :: s in statements && t in statements && s.stamp.value.key != t.stamp.value.key ==>
          s.stamp.value.order != t.stamp.value.order)
  }

  /** What any statement of a key says, its group's first says. */
  lemma SpeaksForItsKey(statements: seq<Statement>, s: Statement)
    requires OneEventPerKey(statements) && s in statements && s.stamp.Some?
    ensures WithKey(statements, s.stamp.value.key) != []
    ensures Alike(FirstStamp(statements, s.stamp.value.key), s.stamp.value)
  {
    assert Agrees(statements, s);
  }

  lemma FirstIsOne(statements: seq<Statement>, key: string) returns (s: Statement)
    requires WithKey(statements, key) != []
    ensures s in statements && HasKey(s, key) && s.stamp.value == FirstStamp(statements, key)
  {
    s := WithKey(statements, key)[0];
    assert s in WithKey(statements, key);
  }

  lemma NumberedIsOneLeader(statements: seq<Statement>)
    requires OneEventPerKey(statements) && AllStamped(statements)
    ensures OneLeader(statements) <==> Numbered(statements)
  {
    if OneLeader(statements) { LeaderNumbers(statements); }
    if Numbered(statements) { NumbersLead(statements); }
  }

  lemma LeaderNumbers(statements: seq<Statement>)
    requires OneEventPerKey(statements) && AllStamped(statements) && OneLeader(statements)
    ensures Numbered(statements)
  {
    var leader :| Leads(statements, leader);
    var lead := FirstIsOne(statements, leader);
    forall s | s in statements ensures s.stamp.value.featured <==> s.stamp.value.order == 0 {
      SpeaksForItsKey(statements, s);
      assert LeaderIsFirst(statements, s.stamp.value.key);
    }
    forall s, t | s in statements && t in statements && s.stamp.value.key != t.stamp.value.key
      ensures s.stamp.value.order != t.stamp.value.order
    {
      SpeaksForItsKey(statements, s);
      SpeaksForItsKey(statements, t);
    }
  }

  lemma NumbersLead(statements: seq<Statement>)
    requires OneEventPerKey(statements) && AllStamped(statements) && Numbered(statements)
    ensures OneLeader(statements)
  {
    var lead :| lead in statements && lead.stamp.value.featured;
    SpeaksForItsKey(statements, lead);
    assert Leads(statements, lead.stamp.value.key);
    forall key ensures LeaderIsFirst(statements, key) {
      if WithKey(statements, key) != [] { var s := FirstIsOne(statements, key); }
    }
    forall a, b | WithKey(statements, a) != [] && WithKey(statements, b) != [] && a != b
      ensures FirstStamp(statements, a).order != FirstStamp(statements, b).order
    {
      var s := FirstIsOne(statements, a);
      var t := FirstIsOne(statements, b);
    }
    forall a, b | Leads(statements, a) && Leads(statements, b) ensures a == b {
      assert LeaderIsFirst(statements, a) && LeaderIsFirst(statements, b);
    }
  }

  // ---- Fresh and leftover statements -----------------------------------------------------

  lemma {:induction false} LeftoverHolds(statements: seq<Statement>, lineage: Lineage, owners: seq<Option<nat>>,
                                         s: Statement)
    requires |statements| == |owners|
    ensures s in Leftover(statements, lineage, owners) <==>
      exists i :: 0 <= i < |statements| && !Grouped(lineage, owners[i]) && statements[i] == s
  {
    if statements != [] {
      var n := |statements| - 1;
      LeftoverHolds(statements[..n], lineage, owners[..n], s);
      if i :| 0 <= i < n && !Grouped(lineage, owners[i]) && statements[i] == s {
        assert !Grouped(lineage, owners[..n][i]) && statements[..n][i] == s;
      }
      if i :| 0 <= i < n && !Grouped(lineage, owners[..n][i]) && statements[..n][i] == s {
        assert !Grouped(lineage, owners[i]) && statements[i] == s;
      }
    }
  }

  /** A fresh statement: an owner's, stamped in this run. */
  predicate FreshFor(s: Statement, lineage: Lineage, owners: seq<Option<nat>>, featured: nat, order: map<nat, nat>,
                     e: nat) {
    Present(lineage, owners, e) && Stamps(s, lineage, e, featured, order)
  }

  lemma FreshOrLeftover(stamped: seq<Statement>, statements: seq<Statement>, lineage: Lineage,
                        owners: seq<Option<nat>>, featured: nat, order: map<nat, nat>, s: Statement)
    requires StampedAs(stamped, statements, lineage, owners, featured, order)
    ensures s in Leftover(statements, lineage, owners) ==> s in stamped
    ensures s in stamped ==>
      s in Leftover(statements, lineage, owners) || exists e :: FreshFor(s, lineage, owners, featured, order, e)
  {
    LeftoverHolds(statements, lineage, owners, s);
    if s in stamped && s !in Leftover(statements, lineage, owners) {
      var i :| 0 <= i < |stamped| && stamped[i] == s;
      assert FreshFor(s, lineage, owners, featured, order, owners[i].value);
    }
  }

  lemma PresentIsStamped(stamped: seq<Statement>, statements: seq<Statement>, lineage: Lineage,
                         owners: seq<Option<nat>>, featured: nat, order: map<nat, nat>, e: nat) returns (s: Statement)
    requires StampedAs(stamped, statements, lineage, owners, featured, order) && Present(lineage, owners, e)
    ensures s in stamped && FreshFor(s, lineage, owners, featured, order, e)
  {
    var i :| 0 <= i < |owners| && owners[i] == Some(e);
    assert Grouped(lineage, owners[i]);
    s := stamped[i];
  }

  /** A section as stamped in this run. */
  ghost predicate Stamping(stamped: seq<Statement>, statements: seq<Statement>, lineage: Lineage,
                      owners: seq<Option<nat>>, featured: nat, ids: seq<nat>, order: map<nat, nat>)
  {
    && TitlesOk(lineage.titles) && Ordering(order, featured, ids)
    && StampedAs(stamped, statements, lineage, owners, featured, order)
  }

  lemma PresentIsOrdered(stamped: seq<Statement>, statements: seq<Statement>, lineage: Lineage,
                         owners: seq<Option<nat>>, featured: nat, ids: seq<nat>, order: map<nat, nat>)
    requires Stamping(stamped, statements, lineage, owners, featured, ids, order)
    ensures forall e :: Present(lineage, owners, e) ==> e in order
  {
    forall e | Present(lineage, owners, e) ensures e in order {
      var s := PresentIsStamped(stamped, statements, lineage, owners, featured, order, e);
    }
  }

  lemma AgreesIff(stamped: seq<Statement>, statements: seq<Statement>, lineage: Lineage,
                  owners: seq<Option<nat>>, featured: nat, ids: seq<nat>, order: map<nat, nat>)
    requires Stamping(stamped, statements, lineage, owners, featured, ids, order)
    requires forall e :: Present(lineage, owners, e) ==> e in order
    ensures OneEventPerKey(stamped) <==>
      LeftoversAgree(Leftover(statements, lineage, owners), lineage, owners, featured, order)
  {
    var left := Leftover(statements, lineage, owners);
    if OneEventPerKey(stamped) {
      forall s, t | s in left && t in left ensures Pairwise(s, t) {
        FreshOrLeftover(stamped, statements, lineage, owners, featured, order, s);
        FreshOrLeftover(stamped, statements, lineage, owners, featured, order, t);
        AgreeingPairs(stamped, s, t);
      }
      PairsAgree(left);
      forall s, e | s in left && Present(lineage, owners, e) && HasKey(s, lineage.titles[e].0)
        ensures Tells(s.stamp.value, lineage, e, featured, order)
      {
        FreshOrLeftover(stamped, statements, lineage, owners, featured, order, s);
        var own := PresentIsStamped(stamped, statements, lineage, owners, featured, order, e);
        AgreeingPairs(stamped, s, own);
      }
    }
    if LeftoversAgree(left, lineage, owners, featured, order) {
      forall s, t | s in stamped && t in stamped ensures Pairwise(s, t) {
        FreshOrLeftover(stamped, statements, lineage, owners, featured, order, s);
        FreshOrLeftover(stamped, statements, lineage, owners, featured, order, t);
        if s in left && t in left { AgreeingPairs(left, s, t); } else if s in left { AgreeingPairs(left, s, s); }
      }
      PairsAgree(stamped);
    }
  }

  lemma LeftoverIsStamped(stamped: seq<Statement>, statements: seq<Statement>, lineage: Lineage,
                          owners: seq<Option<nat>>, featured: nat, order: map<nat, nat>)
    requires StampedAs(stamped, statements, lineage, owners, featured, order)
    ensures AllStamped(stamped) <==> AllStamped(Leftover(statements, lineage, owners))
  {
    var left := Leftover(statements, lineage, owners);
    forall s ensures s in left ==>
      s in stamped { FreshOrLeftover(stamped, statements, lineage, owners, featured, order, s); }
    forall s | s in stamped && s !in left ensures s.stamp.Some? {
      FreshOrLeftover(stamped, statements, lineage, owners, featured, order, s);
    }
    if AllStamped(left) {
      forall i | 0 <= i < |stamped| ensures stamped[i].stamp.Some? {
        if stamped[i] in left { var k :| 0 <= k < |left| && left[k] == stamped[i]; }
      }
    }
    if AllStamped(stamped) {
      forall k | 0 <= k < |left| ensures left[k].stamp.Some? {
        assert left[k] in left;
        var i :| 0 <= i < |stamped| && stamped[i] == left[k];
      }
    }
  }

  lemma NumberedIff(stamped: seq<Statement>, statements: seq<Statement>, lineage: Lineage,
                    owners: seq<Option<nat>>, featured: nat, ids: seq<nat>, order: map<nat, nat>)
    requires Stamping(stamped, statements, lineage, owners, featured, ids, order)
    requires forall e :: Present(lineage, owners, e) ==> e in order
    requires AllStamped(stamped) && AllStamped(Leftover(statements, lineage, owners))
    ensures Numbered(stamped) <==>
      LeftoversNumbered(Leftover(statements, lineage, owners), lineage, owners, featured, order)
  {
    var left := Leftover(statements, lineage, owners);
    forall s ensures s in left ==>
      s in stamped { FreshOrLeftover(stamped, statements, lineage, owners, featured, order, s); }
    forall s | s in stamped && s !in left ensures exists e :: FreshFor(s, lineage, owners, featured, order, e) {
      FreshOrLeftover(stamped, statements, lineage, owners, featured, order, s);
    }
    if Present(lineage, owners, featured) {
      var lead := PresentIsStamped(stamped, statements, lineage, owners, featured, order, featured);
    }
    if Numbered(stamped) {
      forall s, e | s in left && Present(lineage, owners, e) && lineage.titles[e].0 != s.stamp.value.key
        ensures s.stamp.value.order != order[e]
      {
        var own := PresentIsStamped(stamped, statements, lineage, owners, featured, order, e);
      }
      var lead :| lead in stamped && lead.stamp.value.featured;
    }
  }

  // ---- Positions -------------------------------------------------------------------------

  lemma RangeSplits(from: nat, n: nat)
    ensures multiset(Range(from + n)) == multiset(Range(from)) + multiset(RangeFrom(from, n))
  {
    assert |Range(from + n)| == from + n && |Range(from)| == from;
    assert Range(from + n) == Range(from) + RangeFrom(from, n);
  }

  lemma PositionsThen(front: seq<Statement>, s: Statement)
    ensures Positions(front + [s]) == Positions(front) + [Position(s)]
  {
  }

  lemma {:induction false} OwnedIsEarlier(lineage: Lineage, owners: seq<Option<nat>>, n: nat, e: nat)
    requires TitlesOk(lineage.titles) && e in lineage.titles && n <= |owners|
    ensures Owned(lineage, owners, n, lineage.titles[e].0) == Earlier(owners, n, e)
  {
    if n > 0 { OwnedIsEarlier(lineage, owners, n - 1, e); }
  }

  /** The positions under a key among the first n. */
  function BagUpTo(statements: seq<Statement>, n: nat, key: string): multiset<nat>
    requires n <= |statements|
  {
    if n == 0 then multiset{}
    else
      BagUpTo(statements, n - 1, key)
      + if HasKey(statements[n - 1], key) then multiset{Position(statements[n - 1])} else multiset{}
  }

  /** The positions under a key among the unattributed of the first n. */
  function LeftUpTo(statements: seq<Statement>, lineage: Lineage, owners: seq<Option<nat>>, n: nat, key: string): multiset<nat>
    requires n <= |statements| == |owners|
  {
    if n == 0 then multiset{}
    else
      LeftUpTo(statements, lineage, owners, n - 1, key)
      + if !Grouped(lineage, owners[n - 1]) && HasKey(statements[n - 1], key)
        then multiset{Position(statements[n - 1])} else multiset{}
  }

  lemma {:induction false} BagFrame(front: seq<Statement>, more: seq<Statement>, n: nat, key: string)
    requires n <= |front| <= |more| && forall i :: 0 <= i < n ==> front[i] == more[i]
    ensures BagUpTo(front, n, key) == BagUpTo(more, n, key)
  {
    if n > 0 { BagFrame(front, more, n - 1, key); }
  }

  lemma {:induction false} LeftFrame(front: seq<Statement>, more: seq<Statement>, lineage: Lineage,
                                     owners: seq<Option<nat>>, others: seq<Option<nat>>, n: nat, key: string)
    requires n <= |front| == |owners| && n <= |more| == |others|
    requires forall i :: 0 <= i < n ==> front[i] == more[i] && owners[i] == others[i]
    ensures LeftUpTo(front, lineage, owners, n, key) == LeftUpTo(more, lineage, others, n, key)
  {
    if n > 0 { LeftFrame(front, more, lineage, owners, others, n - 1, key); }
  }

  /** The positions of a key's statements, after one more. */
  lemma PositionsGrow(front: seq<Statement>, s: Statement, key: string)
    ensures multiset(Positions(WithKey(front + [s], key))) ==
      multiset(Positions(WithKey(front, key))) + if HasKey(s, key) then multiset{Position(s)} else multiset{}
  {
    WithKeyAppend(front, s, key);
    PositionsThen(WithKey(front, key), s);
  }

  lemma LastPosition(statements: seq<Statement>, key: string)
    requires statements != []
    ensures var (front, last) := (statements[..|statements| - 1], statements[|statements| - 1]);
      multiset(Positions(WithKey(statements, key))) ==
        multiset(Positions(WithKey(front, key))) + if HasKey(last, key) then multiset{Position(last)} else multiset{}
  {
    var (front, last) := (statements[..|statements| - 1], statements[|statements| - 1]);
    assert statements == front + [last];
    PositionsGrow(front, last, key);
  }

  lemma FrontOfBag(statements: seq<Statement>, key: string)
    requires statements != []
    ensures var (front, last) := (statements[..|statements| - 1], statements[|statements| - 1]);
      BagUpTo(statements, |statements|, key) ==
        BagUpTo(front, |front|, key) + if HasKey(last, key) then multiset{Position(last)} else multiset{}
  {
    BagFrame(statements[..|statements| - 1], statements, |statements| - 1, key);
  }

  lemma {:induction false} BagIsWhole(statements: seq<Statement>, key: string)
    ensures BagUpTo(statements, |statements|, key) == multiset(Positions(WithKey(statements, key)))
  {
    if statements != [] {
      FrontOfBag(statements, key);
      LastPosition(statements, key);
      BagIsWhole(statements[..|statements| - 1], key);
    }
  }

  lemma {:induction false} LeftIsWhole(statements: seq<Statement>, lineage: Lineage, owners: seq<Option<nat>>, key: string)
    requires |statements| == |owners|
    ensures LeftUpTo(statements, lineage, owners, |statements|, key) ==
      multiset(Positions(WithKey(Leftover(statements, lineage, owners), key)))
  {
    if statements != [] {
      var n := |statements| - 1;
      var (front, before) := (statements[..n], owners[..n]);
      var left := Leftover(front, lineage, before);
      LeftIsWhole(front, lineage, before, key);
      LeftFrame(front, statements, lineage, before, owners, n, key);
      PositionsGrow(left, statements[n], key);
      assert Leftover(statements, lineage, owners) == if Grouped(lineage, owners[n]) then left else left + [statements[n]];
    }
  }

  /** What the i-th statement adds under a key: a fresh position, counted on, or a leftover one. */
  predicate AddsAt(stamped: seq<Statement>, statements: seq<Statement>, lineage: Lineage, owners: seq<Option<nat>>,
                   i: nat, key: string)
    requires i < |stamped| == |statements| == |owners|
  {
    if Grouped(lineage, owners[i]) then
      multiset(Range(Owned(lineage, owners, i + 1, key))) == multiset(Range(Owned(lineage, owners, i, key)))
        + if HasKey(stamped[i], key) then multiset{Position(stamped[i])} else multiset{}
    else stamped[i] == statements[i] && Owned(lineage, owners, i + 1, key) == Owned(lineage, owners, i, key)
  }

  /** Among the first n, the positions under a key are the fresh ones, counted from 0, and the leftover ones. */
  lemma {:induction false} KeyPositions(stamped: seq<Statement>, statements: seq<Statement>, lineage: Lineage,
                                        owners: seq<Option<nat>>, n: nat, key: string)
    requires n <= |stamped| == |statements| == |owners|
    requires forall i: nat :: i < |stamped| ==> AddsAt(stamped, statements, lineage, owners, i, key)
    ensures BagUpTo(stamped, n, key) ==
      multiset(Range(Owned(lineage, owners, n, key))) + LeftUpTo(statements, lineage, owners, n, key)
  {
    if n > 0 {
      KeyPositions(stamped, statements, lineage, owners, n - 1, key);
      assert AddsAt(stamped, statements, lineage, owners, n - 1, key);
    }
  }

  lemma FreshPosition(stamped: seq<Statement>, statements: seq<Statement>, lineage: Lineage,
                      owners: seq<Option<nat>>, featured: nat, order: map<nat, nat>, i: nat, key: string)
    requires TitlesOk(lineage.titles) && StampedAs(stamped, statements, lineage, owners, featured, order)
    requires i < |stamped| && Grouped(lineage, owners[i])
    ensures multiset(Range(Owned(lineage, owners, i + 1, key))) ==
      multiset(Range(Owned(lineage, owners, i, key))) +
          if HasKey(stamped[i], key) then multiset{Position(stamped[i])} else multiset{}
  {
    var m := Owned(lineage, owners, i, key);
    if HasKey(stamped[i], key) {
      OwnedIsEarlier(lineage, owners, i, owners[i].value);
      assert Range(m + 1) == Range(m) + [m];
    }
  }

  lemma StampingAdds(stamped: seq<Statement>, statements: seq<Statement>, lineage: Lineage,
                     owners: seq<Option<nat>>, featured: nat, order: map<nat, nat>, i: nat, key: string)
    requires TitlesOk(lineage.titles) && StampedAs(stamped, statements, lineage, owners, featured, order)
    requires i < |stamped|
    ensures AddsAt(stamped, statements, lineage, owners, i, key)
  {
    if Grouped(lineage, owners[i]) {
      FreshPosition(stamped, statements, lineage, owners, featured, order, i, key);
    }
  }

  lemma BagsContinue(all: seq<nat>, own: nat, rest: seq<nat>)
    requires multiset(all) == multiset(Range(own)) + multiset(rest)
    ensures Contiguous(all) <==> Continues(rest, own)
  {
    assert |Range(own)| == own;
    assert |multiset(all)| == |all| && |multiset(Range(own))| == own && |multiset(rest)| == |rest|;
    RangeSplits(own, |rest|);
    Cancel(multiset(Range(own)), multiset(rest), multiset(RangeFrom(own, |rest|)));
  }

  lemma Cancel(a: multiset<nat>, b: multiset<nat>, c: multiset<nat>)
    ensures a + b == a + c <==> b == c
  {
    if a + b == a + c {
      forall x ensures b[x] == c[x] { assert (a + b)[x] == (a + c)[x]; }
    }
  }

  /** Of a whole section, without its prefixes. */
  lemma SplitWhole(stamped: seq<Statement>, statements: seq<Statement>, lineage: Lineage, owners: seq<Option<nat>>,
                   key: string)
    requires |stamped| == |statements| == |owners|
    requires forall i: nat :: i < |stamped| ==> AddsAt(stamped, statements, lineage, owners, i, key)
    ensures multiset(Positions(WithKey(stamped, key))) == multiset(Range(Owned(lineage, owners, |owners|, key)))
      + multiset(Positions(WithKey(Leftover(statements, lineage, owners), key)))
  {
    var n := |stamped|;
    KeyPositions(stamped, statements, lineage, owners, n, key);
    BagIsWhole(stamped, key);
    LeftIsWhole(statements, lineage, owners, key);
  }

  lemma ContiguousIff(stamped: seq<Statement>, statements: seq<Statement>, lineage: Lineage,
                      owners: seq<Option<nat>>, featured: nat, order: map<nat, nat>, key: string)
    requires TitlesOk(lineage.titles) && StampedAs(stamped, statements, lineage, owners, featured, order)
    ensures ContiguousAt(stamped, key) <==> ContinuesAt(Leftover(statements, lineage, owners), lineage, owners, key)
  {
    forall i: nat | i < |stamped| ensures AddsAt(stamped, statements, lineage, owners, i, key) {
      StampingAdds(stamped, statements, lineage, owners, featured, order, i, key);
    }
    SplitWhole(stamped, statements, lineage, owners, key);
    BagsContinue(Positions(WithKey(stamped, key)), Owned(lineage, owners, |owners|, key),
                 Positions(WithKey(Leftover(statements, lineage, owners), key)));
  }

  // ---- The theorem -----------------------------------------------------------------------

  /**
    Whatever was left unattributed, the boundary accepts a stamped section exactly when the leftover stamps contradict
    neither each other nor the fresh ones and, where every statement has a stamp, share one headline and one numbering
    with the fresh ones and go on from their positions.
  */
  lemma CoherentIffLeftoversFit(stamped: seq<Statement>, statements: seq<Statement>, lineage: Lineage,
                                owners: seq<Option<nat>>, featured: nat, ids: seq<nat>, order: map<nat, nat>)
    requires Stamping(stamped, statements, lineage, owners, featured, ids, order)
    ensures forall e :: Present(lineage, owners, e) ==> e in order
    ensures var left := Leftover(statements, lineage, owners);
      Coherent(stamped) <==>
        && LeftoversAgree(left, lineage, owners, featured, order)
        && (stamped != [] && AllStamped(left) ==>
              LeftoversNumbered(left, lineage, owners, featured, order) && LeftoversContinue(left, lineage, owners))
  {
    var left := Leftover(statements, lineage, owners);
    PresentIsOrdered(stamped, statements, lineage, owners, featured, ids, order);
    AgreesIff(stamped, statements, lineage, owners, featured, ids, order);
    LeftoverIsStamped(stamped, statements, lineage, owners, featured, order);
    if OneEventPerKey(stamped) && AllStamped(stamped) {
      NumberedIsOneLeader(stamped);
      NumberedIff(stamped, statements, lineage, owners, featured, ids, order);
      forall key ensures ContiguousAt(stamped, key) <==> ContinuesAt(left, lineage, owners, key) {
        ContiguousIff(stamped, statements, lineage, owners, featured, order, key);
      }
    }
  }

  /**
    A carried-over statement that can no longer be attributed keeps the headline of the version it came from. In a
    fully stamped section it stands beside the new headline, and the boundary refuses the page.
  */
  lemma StaleStampIsRefused(stamped: seq<Statement>, statements: seq<Statement>, lineage: Lineage,
                            owners: seq<Option<nat>>, featured: nat, ids: seq<nat>, order: map<nat, nat>, stale: nat)
    requires Stamping(stamped, statements, lineage, owners, featured, ids, order) && AllStamped(stamped)
    requires stale < |statements| && !Grouped(lineage, owners[stale]) && Present(lineage, owners, featured)
    requires stamped[stale].stamp.value.featured && stamped[stale].stamp.value.key != lineage.titles[featured].0
    ensures !Coherent(stamped)
  {
    CoherentIffLeftoversFit(stamped, statements, lineage, owners, featured, ids, order);
    LeftoverIsStamped(stamped, statements, lineage, owners, featured, order);
    LeftoverHolds(statements, lineage, owners, statements[stale]);
    assert statements[stale] in Leftover(statements, lineage, owners);
  }
}
