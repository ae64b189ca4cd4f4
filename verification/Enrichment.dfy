/** Statements, the evidence that maps each one to its root, and how enrichment rebuilds both. */
module Enrichment {
  import opened Basics

  type Sections = map<Section, seq<Statement>>

  /** PublicationStatementEvidenceInput: the caller may have set both roots, or neither. */
  datatype Input = Input(section: Section, index: nat, resolved: Option<nat>, derived: Option<nat>)

  predicate OneRoot(item: Input) {
    item.resolved.Some? != item.derived.Some?
  }

  function AsEvidence(item: Input): (row: Evidence)
    requires OneRoot(item)
    ensures row.section == item.section && row.index == item.index
    ensures forall id: nat :: (row.root == Resolved(id) <==> item.resolved == Some(id))
                         && (row.root == Derived(id) <==> item.derived == Some(id))
  {
    var root := if item.resolved.Some? then Resolved(item.resolved.value) else Derived(item.derived.value);
    Evidence(item.section, item.index, root)
  }

  predicate IsStatement(sections: Sections, section: Section, index: nat) {
    section in sections && index < |sections[section]|
  }

  predicate Cites(evidence: seq<Evidence>, k: nat, section: Section, index: nat) {
    k < |evidence| && evidence[k].section == section && evidence[k].index == index
  }

  /** Every statement has exactly one evidence row, and every row a statement. */
  ghost predicate Mapped(sections: Sections, evidence: seq<Evidence>) {
    && (forall s, i: nat :: IsStatement(sections, s, i) ==> exists k: nat :: Cites(evidence, k, s, i))
    && (forall k :: 0 <= k < |evidence| ==> IsStatement(sections, evidence[k].section, evidence[k].index))
    && (forall j, k :: 0 <= j < k < |evidence| ==> !SamePath(evidence[j], evidence[k]))
  }

  predicate SamePath(a: Evidence, b: Evidence) {
    a.section == b.section && a.index == b.index
  }

  /** The root a published statement's provenance names is the root its evidence row points at. */
  ghost predicate RootsAgree(sections: Sections, evidence: seq<Evidence>) {
    forall k :: 0 <= k < |evidence| && IsStatement(sections, evidence[k].section, evidence[k].index) ==>
      sections[evidence[k].section][evidence[k].index].root == evidence[k].root
  }

  // ---- Validation ------------------------------------------------------------------------

  type StatementPath = (Section, nat)

  function Paths(sections: Sections): set<StatementPath> {
    set s, i: nat | s in sections && i < |sections[s]| :: (s, i)
  }

  /** The inputs' paths alone: mapping is a matter of paths, whichever roots they name. */
  function Rootless(inputs: seq<Input>): seq<Evidence> {
    seq(|inputs|, k requires 0 <= k < |inputs| => Evidence(inputs[k].section, inputs[k].index, Derived(0)))
  }

  /** _validate_statement_evidence: None stands for the raised refusal. */
  method ValidateStatementEvidence(sections: Sections, inputs: seq<Input>) returns (r: Option<seq<Evidence>>)
    ensures r.Some? <==> (forall k :: 0 <= k < |inputs| ==> OneRoot(inputs[k])) && Mapped(sections, Rootless(inputs))
    ensures r.Some? ==> |r.value| == |inputs| && Mapped(sections, r.value)
    ensures r.Some? ==> forall k :: 0 <= k < |inputs| ==> OneRoot(inputs[k]) && r.value[k] == AsEvidence(inputs[k])
  {
    ghost var rows := Rootless(inputs);
    var evidence: seq<Evidence> := [];
    var seen: set<StatementPath> := {};
    for n := 0 to |inputs|
      invariant |evidence| == n && seen == set k | 0 <= k < n :: (inputs[k].section, inputs[k].index)
      invariant forall k :: 0 <= k < n ==> OneRoot(inputs[k]) && evidence[k] == AsEvidence(inputs[k])
      invariant forall j, k :: 0 <= j < k < n ==> !SamePath(rows[j], rows[k])
    {
      var item := inputs[n];
      if !OneRoot(item) { return None; }
      if (item.section, item.index) in seen {
        var j :| 0 <= j < n && (inputs[j].section, inputs[j].index) == (item.section, item.index);
        assert SamePath(rows[j], rows[n]);
        return None;
      }
      seen := seen + {(item.section, item.index)};
      evidence := evidence + [AsEvidence(item)];
    }
    SameRowsMap(sections, rows, evidence);
    PathsCovered(sections, rows, seen);
    if seen != Paths(sections) { return None; }
    r := Some(evidence);
  }

  lemma SameRowsMap(sections: Sections, rows: seq<Evidence>, evidence: seq<Evidence>)
    requires |rows| == |evidence| && forall k :: 0 <= k < |rows| ==> SamePath(rows[k], evidence[k])
    ensures Mapped(sections, rows) <==> Mapped(sections, evidence)
  {
    forall s, i: nat, k: nat ensures Cites(rows, k, s, i) == Cites(evidence, k, s, i) {}
  }

  lemma PathsCovered(sections: Sections, rows: seq<Evidence>, seen: set<StatementPath>)
    requires seen == set k | 0 <= k < |rows| :: (rows[k].section, rows[k].index)
    requires forall j, k :: 0 <= j < k < |rows| ==> !SamePath(rows[j], rows[k])
    ensures Mapped(sections, rows) <==> seen == Paths(sections)
  {
    if seen == Paths(sections) {
      forall s, i: nat | IsStatement(sections, s, i) ensures exists k: nat :: Cites(rows, k, s, i) {
        assert (s, i) in seen;
        var k :| 0 <= k < |rows| && (rows[k].section, rows[k].index) == (s, i);
        assert Cites(rows, k, s, i);
      }
      forall k | 0 <= k < |rows| ensures IsStatement(sections, rows[k].section, rows[k].index) {
        assert (rows[k].section, rows[k].index) in Paths(sections);
      }
    }
    if Mapped(sections, rows) {
      forall p: StatementPath | p in Paths(sections) ensures p in seen {
        assert IsStatement(sections, p.0, p.1);
        var k: nat :| Cites(rows, k, p.0, p.1);
      }
      assert seen == Paths(sections);
    }
  }

  // ---- Carrying a date's other sections forward ------------------------------------------

  function Carried(evidence: seq<Evidence>): seq<Evidence> {
    if evidence == [] then []
    else
      var front, last := Carried(evidence[..|evidence| - 1]), evidence[|evidence| - 1];
      if last.section.RecordedOnThisDate? then front else front + [last]
  }

  /** _carried_forward_evidence. */
  method CarriedForwardEvidence(evidence: seq<Evidence>) returns (carried: seq<Evidence>)
    ensures carried == Carried(evidence)
  {
    carried := [];
    for k := 0 to |evidence|
      invariant carried == Carried(evidence[..k])
    {
      assert evidence[..k + 1][..k] == evidence[..k];
      if !evidence[k].section.RecordedOnThisDate? { carried := carried + [evidence[k]]; }
    }
    assert evidence[..|evidence|] == evidence;
  }

  ghost predicate PathsDistinct(evidence: seq<Evidence>) {
    forall j, k :: 0 <= j < k < |evidence| ==> !SamePath(evidence[j], evidence[k])
  }

  lemma {:induction false} CarriedHas(evidence: seq<Evidence>, item: Evidence)
    ensures item in Carried(evidence) <==> item in evidence && !item.section.RecordedOnThisDate?
  {
    if evidence != [] {
      CarriedHas(evidence[..|evidence| - 1], item);
      assert evidence == evidence[..|evidence| - 1] + [evidence[|evidence| - 1]];
    }
  }

  lemma {:induction false} CarriedStaysDistinct(evidence: seq<Evidence>)
    requires PathsDistinct(evidence)
    ensures PathsDistinct(Carried(evidence))
  {
    if evidence != [] {
      var front, last := evidence[..|evidence| - 1], evidence[|evidence| - 1];
      CarriedStaysDistinct(front);
      forall j | 0 <= j < |Carried(front)| ensures !SamePath(Carried(front)[j], last) {
        CarriedHas(front, Carried(front)[j]);
        var i :| 0 <= i < |front| && front[i] == Carried(front)[j];
        assert evidence[i] == front[i];
      }
    }
  }

  lemma CarriedKeeps(evidence: seq<Evidence>)
    ensures forall item :: item in Carried(evidence) <==> item in evidence && !item.section.RecordedOnThisDate?
    ensures (forall j, k :: 0 <= j < k < |evidence| ==> !SamePath(evidence[j], evidence[k])) ==>
      forall j, k :: 0 <= j < k < |Carried(evidence)| ==> !SamePath(Carried(evidence)[j], Carried(evidence)[k])
  {
    forall item ensures item in Carried(evidence) <==> item in evidence && !item.section.RecordedOnThisDate? {
      CarriedHas(evidence, item);
    }
    if PathsDistinct(evidence) { CarriedStaysDistinct(evidence); }
  }

  // ---- The recorded section, rebuilt -----------------------------------------------------

  /** A recorded statement and the resolved claim it rests on. */
  datatype Recorded = Recorded(statement: Statement, root: nat)

  /** The evidence row of the i-th recorded statement, if any. */
  function RecordedRow(evidence: seq<Evidence>, i: nat): (r: Option<Evidence>)
    ensures r.Some? ==> r.value in evidence && r.value.section.RecordedOnThisDate? && r.value.index == i
    ensures r.None? ==> forall item :: item in evidence ==> !(item.section.RecordedOnThisDate? && item.index == i)
  {
    if evidence == [] then None
    else if evidence[0].section.RecordedOnThisDate? && evidence[0].index == i then Some(evidence[0])
    else
      assert evidence == [evidence[0]] + evidence[1..];
      RecordedRow(evidence[1..], i)
  }

  /** The i-th prior statement survives: resolved, not the candidate's own, and still selected. */
  predicate Survives(evidence: seq<Evidence>, selected: set<nat>, exclude: set<nat>, i: nat) {
    var row := RecordedRow(evidence, i);
    row.Some? && row.value.root.Resolved? && row.value.root.id !in exclude && row.value.root.id in selected
  }

  function Survivors(statements: seq<Statement>, evidence: seq<Evidence>, selected: set<nat>,
                     exclude: set<nat>): seq<Recorded> {
    if statements == [] then []
    else
      var n := |statements| - 1;
      var front := Survivors(statements[..n], evidence, selected, exclude);
      if Survives(evidence, selected, exclude, n)
      then front + [Recorded(statements[n], RecordedRow(evidence, n).value.root.id)]
      else front
  }

  /** _surviving_recorded_statements: decided from current selections, not copied. */
  method SurvivingRecordedStatements(statements: seq<Statement>, evidence: seq<Evidence>, selected: set<nat>,
                                     exclude: set<nat>)
      returns (surviving: seq<Recorded>)
    ensures surviving == Survivors(statements, evidence, selected, exclude)
  {
    surviving := [];
    for n := 0 to |statements|
      invariant surviving == Survivors(statements[..n], evidence, selected, exclude)
    {
      assert statements[..n + 1][..n] == statements[..n];
      var row := RecordedRow(evidence, n);
      if row.None? || row.value.root.Derived? || row.value.root.id in exclude || row.value.root.id !in selected {
        continue;
      }
      surviving := surviving + [Recorded(statements[n], row.value.root.id)];
    }
    assert statements[..|statements|] == statements;
  }

  /** What survives is exactly the resolved, selected, foreign part of the prior section. */
  lemma {:induction false} SurvivorsAre(statements: seq<Statement>, evidence: seq<Evidence>, selected: set<nat>,
                                        exclude: set<nat>, x: Recorded)
    ensures x in Survivors(statements, evidence, selected, exclude) <==>
      exists i :: 0 <= i < |statements| && Survives(evidence, selected, exclude, i)
               && x == Recorded(statements[i], RecordedRow(evidence, i).value.root.id)
  {
    if statements != [] {
      var n := |statements| - 1;
      SurvivorsAre(statements[..n], evidence, selected, exclude, x);
      forall i | 0 <= i < n ensures statements[..n][i] == statements[i] {}
    }
  }

  function Renumbered(recorded: seq<Recorded>): seq<Evidence> {
    seq(|recorded|, i requires 0 <= i < |recorded| => Evidence(RecordedOnThisDate, i, Resolved(recorded[i].root)))
  }

  function Statements(recorded: seq<Recorded>): seq<Statement> {
    seq(|recorded|, i requires 0 <= i < |recorded| => recorded[i].statement)
  }

  /**
    Enriching a mapped profile leaves it mapped: the carried rows still name the statements of the other
    sections, and the renumbered rows name exactly the rebuilt section's statements, in order.
  */
  lemma EnrichmentStaysMapped(sections: Sections, evidence: seq<Evidence>, statements: seq<Statement>,
                              recorded: seq<Recorded>)
    requires Mapped(sections, evidence) && |statements| == |recorded|
    ensures Mapped(sections[RecordedOnThisDate := statements], Carried(evidence) + Renumbered(recorded))
  {
    var sections', all := sections[RecordedOnThisDate := statements], Carried(evidence) + Renumbered(recorded);
    CarriedKeeps(evidence);
    forall s, i: nat | IsStatement(sections', s, i) ensures exists k: nat :: Cites(all, k, s, i) {
      if s.RecordedOnThisDate? {
        assert Cites(all, |Carried(evidence)| + i, s, i);
      } else {
        assert IsStatement(sections, s, i);
        CarriedCites(sections, evidence, s, i);
        var c: nat :| Cites(Carried(evidence), c, s, i);
        assert Cites(all, c, s, i);
      }
    }
    forall k | 0 <= k < |all| ensures IsStatement(sections', all[k].section, all[k].index) {
      if k < |Carried(evidence)| { CarriedIsStatement(sections, evidence, all[k]); }
    }
    forall j, k | 0 <= j < k < |all| ensures !SamePath(all[j], all[k]) {
      if j < |Carried(evidence)| { assert all[j] in Carried(evidence); }
    }
  }

  lemma CarriedCites(sections: Sections, evidence: seq<Evidence>, s: Section, i: nat)
    requires Mapped(sections, evidence) && IsStatement(sections, s, i) && !s.RecordedOnThisDate?
    ensures exists k: nat :: Cites(Carried(evidence), k, s, i)
  {
    CarriedKeeps(evidence);
    var k: nat :| Cites(evidence, k, s, i);
    assert evidence[k] in Carried(evidence);
    var c :| 0 <= c < |Carried(evidence)| && Carried(evidence)[c] == evidence[k];
    assert Cites(Carried(evidence), c, s, i);
  }

  lemma CarriedIsStatement(sections: Sections, evidence: seq<Evidence>, item: Evidence)
    requires Mapped(sections, evidence) && item in Carried(evidence)
    ensures !item.section.RecordedOnThisDate? && IsStatement(sections, item.section, item.index)
  {
    CarriedKeeps(evidence);
  }

  lemma EnrichmentRootsAgree(sections: Sections, evidence: seq<Evidence>, statements: seq<Statement>,
                             recorded: seq<Recorded>)
    requires Mapped(sections, evidence) && RootsAgree(sections, evidence) && |statements| == |recorded|
    requires forall i :: 0 <= i < |recorded| ==> statements[i].root == Resolved(recorded[i].root)
    ensures RootsAgree(sections[RecordedOnThisDate := statements], Carried(evidence) + Renumbered(recorded))
  {
    var carried := Carried(evidence);
    CarriedKeeps(evidence);
    forall k | 0 <= k < |carried|
      ensures exists e :: 0 <= e < |evidence| && evidence[e] == carried[k] && !carried[k].section.RecordedOnThisDate?
    {
      assert carried[k] in evidence;
    }
  }
}
