/** The dependency graph read off a module word by word: which blocks count as
    combinational, what an assignment reads, and what becomes of registers. */
module Registers {
  import opened Tokens
  import opened Brackets
  import opened Graphs
  import opened DependencyGraph
  import opened LoopRule

  /** A block that assigns at a clock edge. */
  ghost predicate Clocked(b: AlwaysBlock) {
    || b.kind == "always_ff"
    || (b.kind == "always" &&
          exists k :: 0 <= k < |b.sensitivityTokens| && b.sensitivityTokens[k].value in {"posedge", "negedge"})
  }

  /** A block that assigns whenever what it reads changes. */
  ghost predicate Level(b: AlwaysBlock) {
    || b.kind == "always_comb" || b.kind == "always_latch"
    || (b.kind == "always" &&
          forall k :: 0 <= k < |b.sensitivityTokens| ==> b.sensitivityTokens[k].value !in {"posedge", "negedge"})
  }

  lemma BlockKinds(b: AlwaysBlock)
    ensures b.IsCombinational() <==> Level(b)
    ensures Clocked(b) ==> !Level(b)
    ensures b.kind in {"always", "always_ff", "always_comb", "always_latch"} ==> Clocked(b) || Level(b)
  {
    var ts := b.sensitivityTokens;
    if k :| 0 <= k < |ts| && ts[k].value in {"posedge", "negedge"} { assert ts[k] in ts; }
  }

  /** The name is an identifier of the list. */
  ghost predicate Occurs(name: Name, tokens: seq<Token>) {
    exists k :: 0 <= k < |tokens| && tokens[k].kind == Identifier && tokens[k].value == name.text
  }

  /** The name stands inside the parentheses after an `if` or a case keyword; where they
      are not closed, anywhere after them. */
  ghost predicate InCondition(name: Name, tokens: seq<Token>) {
    exists i, k :: 0 <= i && i + 1 < k < |tokens| && InConditionAt(name, tokens, i, k)
  }

  ghost predicate InConditionAt(name: Name, tokens: seq<Token>, i: nat, k: nat)
    requires i + 1 < k < |tokens|
  {
    && tokens[i].value in {"if", "case", "casez", "casex"} && tokens[i + 1].value == "("
    && tokens[k].kind == Identifier && tokens[k].value == name.text
    && NeverBelow(tokens, i + 2, k + 1, "(", ")")
  }

  lemma OccursIsIdentifier(name: Name, tokens: seq<Token>)
    ensures Occurs(name, tokens) <==> name in Identifiers(tokens)
  {
    if Occurs(name, tokens) {
      var k :| 0 <= k < |tokens| && tokens[k].kind == Identifier && tokens[k].value == name.text;
      assert tokens[k] in tokens && name == Name(tokens[k].value);
    }
    if name in Identifiers(tokens) {
      var t :| t in tokens && t.kind.Identifier? && name == Name(t.value);
      var k :| 0 <= k < |tokens| && tokens[k] == t;
    }
  }

  /** Before the end of a group closers never outnumber openers. */
  lemma InsideGroup(tokens: seq<Token>, i: nat, k: nat)
    requires i + 1 < k < |tokens| && tokens[i + 1].value == "("
    ensures var end := Group(tokens, i + 1, "(", ")").1;
      NeverBelow(tokens, i + 2, k + 1, "(", ")") <==> end.None? || k < end.value
  {
    var end := MatchFrom(tokens, i + 2, 1, "(", ")");
    assert tokens[i + 2..i + 2] == [];
    MatchIsFirstExcess(tokens, i + 2, i + 2, 1, "(", ")");
    if end.Some? && k >= end.value {
      assert Net(tokens[i + 2..end.value + 1], "(", ")") == -1;
    }
  }

  lemma ConditionNamesSpelled(name: Name, tokens: seq<Token>)
    ensures InCondition(name, tokens) <==> name in ConditionNames(tokens, 0)
  {
    if InCondition(name, tokens) {
      var i, k :| 0 <= i && i + 1 < k < |tokens| && InConditionAt(name, tokens, i, k);
      NamedInCondition(name, tokens, i, k);
      hide Condition, InConditionAt;
    }
    if name in ConditionNames(tokens, 0) {
      var i :| 0 <= i < |tokens| && ControlAt(tokens, i) && name in Condition(tokens, i);
      var k := PlaceInCondition(name, tokens, i);
      hide Condition, InConditionAt;
    }
  }

  lemma NamedInCondition(name: Name, tokens: seq<Token>, i: nat, k: nat)
    requires i + 1 < k < |tokens| && InConditionAt(name, tokens, i, k)
    ensures ControlAt(tokens, i) && name in Condition(tokens, i)
  {
    InsideGroup(tokens, i, k);
    var inner := Group(tokens, i + 1, "(", ")").0;
    hide NeverBelow, MatchFrom;
    assert tokens[k] == inner[k - (i + 2)];
  }

  lemma PlaceInCondition(name: Name, tokens: seq<Token>, i: nat) returns (k: nat)
    requires ControlAt(tokens, i) && name in Condition(tokens, i)
    ensures i + 1 < k < |tokens| && InConditionAt(name, tokens, i, k)
  {
    var (inner, end) := Group(tokens, i + 1, "(", ")");
    var t :| t in inner && t.kind.Identifier? && name == Name(t.value);
    var j :| 0 <= j < |inner| && inner[j] == t;
    k := i + 2 + j;
    assert tokens[k] == t;
    InsideGroup(tokens, i, k);
    hide NeverBelow, MatchFrom;
  }

  predicate IsSignal(m: Module, x: Name) {
    (x in m.ports || x in m.declarations) && x !in m.parameters
  }

  ghost predicate AssignsFrom(m: Module, t: Name, s: Name) {
    exists i :: 0 <= i < |m.continuousAssigns| && m.continuousAssigns[i].target == t &&
      Occurs(s, m.continuousAssigns[i].exprTokens)
  }

  /** The assignment in the block depends on s. */
  ghost predicate BlockReads(b: AlwaysBlock, a: Assignment, s: Name) {
    Occurs(s, a.exprTokens) || InCondition(s, b.bodyTokens)
  }

  ghost predicate BlockAssignsFrom(m: Module, t: Name, s: Name) {
    exists b, a :: b in m.alwaysBlocks && a in b.assignments && Level(b) && a.target == t && BlockReads(b, a, s)
  }

  /** An edge leads from t to s exactly when both are signals and t is assigned from s
      continuously, or in a block without a clock edge that reads s or tests it. */
  lemma EdgeSpelled(m: Module, t: Name, s: Name)
    ensures s in Succ(GraphOf(m), t) <==>
      IsSignal(m, t) && IsSignal(m, s) && (AssignsFrom(m, t, s) || BlockAssignsFrom(m, t, s))
  {
    EdgeMeaning(m, t, s);
    ContinuousSpelled(m, t, s);
    BlockSpelled(m, t, s);
    hide ReadContinuously, ReadInBlock, AssignsFrom, BlockAssignsFrom, GraphOf;
  }

  lemma ContinuousSpelled(m: Module, t: Name, s: Name)
    ensures AssignsFrom(m, t, s) <==> ReadContinuously(m, t, s)
  {
    hide Identifiers, Occurs;
    if AssignsFrom(m, t, s) {
      var i :| 0 <= i < |m.continuousAssigns| && m.continuousAssigns[i].target == t &&
        Occurs(s, m.continuousAssigns[i].exprTokens);
      OccursIsIdentifier(s, m.continuousAssigns[i].exprTokens);
    }
    if ReadContinuously(m, t, s) {
      var a :| a in m.continuousAssigns && a.target == t && s in Identifiers(a.exprTokens);
      OccursIsIdentifier(s, a.exprTokens);
      var i :| 0 <= i < |m.continuousAssigns| && m.continuousAssigns[i] == a;
    }
  }

  lemma BlockSpelled(m: Module, t: Name, s: Name)
    ensures BlockAssignsFrom(m, t, s) <==> ReadInBlock(m, t, s)
  {
    hide Identifiers, Occurs, InCondition, ConditionNames, Level;
    forall b, a | b in m.alwaysBlocks && a in b.assignments
      ensures BlockReads(b, a, s) <==> s in Identifiers(a.exprTokens) + ConditionNames(b.bodyTokens, 0)
      ensures Level(b) <==> b.IsCombinational()
    {
      OccursIsIdentifier(s, a.exprTokens);
      ConditionNamesSpelled(s, b.bodyTokens);
      BlockKinds(b);
    }
    hide BlockReads;
  }

  /** A signal whose every assignment stands in a clocked block is in no report. */
  lemma ClockedIsNotReported(m: Module, reports: seq<Report>, t: Name, i: nat)
    requires ReportsAreCycles(m, reports) && i < |reports|
    requires forall a :: a in m.continuousAssigns ==> a.target != t
    requires forall b, a :: b in m.alwaysBlocks && a in b.assignments && a.target == t ==> Clocked(b)
    ensures t !in reports[i].nodes
  {
    hide ReportsAreCycles, Clocked;
    forall b, a | b in m.alwaysBlocks && b.IsCombinational() && a in b.assignments ensures a.target != t {
      BlockKinds(b);
    }
    RegistersAreNotReported(m, reports, t, i);
  }

  /** An assignment in a block without a clock edge gives an edge for every signal it
      reads and every signal its block tests. */
  lemma LevelGivesEdge(m: Module, b: AlwaysBlock, a: Assignment, s: Name)
    requires b in m.alwaysBlocks && a in b.assignments && Level(b) && BlockReads(b, a, s)
    requires IsSignal(m, a.target) && IsSignal(m, s)
    ensures s in Succ(GraphOf(m), a.target)
  {
    hide Level, BlockReads, GraphOf;
    EdgeSpelled(m, a.target, s);
  }

  /** A signal assigned from itself without a clock edge is reported. */
  lemma SelfAssignmentIsReported(m: Module, reports: seq<Report>, b: AlwaysBlock, a: Assignment)
    requires ReportsAreCycles(m, reports)
    requires b in m.alwaysBlocks && a in b.assignments && Level(b) && BlockReads(b, a, a.target)
    requires IsSignal(m, a.target)
    ensures exists i :: 0 <= i < |reports| && a.target in reports[i].nodes
  {
    hide Level, BlockReads, GraphOf, ReportsComponent;
    LevelGivesEdge(m, b, a, a.target);
    ReachRefl(GraphOf(m), a.target);
    assert OnCycle(GraphOf(m), a.target);
  }

  // ----- records -----

  /** The records of an edge from the continuous assignments, in source order. */
  ghost function ContinuousRecords(assigns: seq<Assignment>, t: Name, s: Name): seq<EdgeRecord> {
    if assigns == [] then []
    else
      var a := assigns[|assigns| - 1];
      ContinuousRecords(assigns[..|assigns| - 1], t, s) +
        if a.target == t && Occurs(s, a.exprTokens) then [EdgeRecord("continuous_assign", a)] else []
  }

  /** Those from the assignments of one block. */
  ghost function BlockRecords(b: AlwaysBlock, assigns: seq<Assignment>, t: Name, s: Name): seq<EdgeRecord> {
    if assigns == [] then []
    else
      var a := assigns[|assigns| - 1];
      BlockRecords(b, assigns[..|assigns| - 1], t, s) +
        if a.target == t && BlockReads(b, a, s) then [EdgeRecord(b.kind, a)] else []
  }

  /** Those from the blocks without a clock edge, block by block. */
  ghost function BlocksRecords(bs: seq<AlwaysBlock>, t: Name, s: Name): seq<EdgeRecord> {
    if bs == [] then []
    else
      var b := bs[|bs| - 1];
      BlocksRecords(bs[..|bs| - 1], t, s) + if Level(b) then BlockRecords(b, b.assignments, t, s) else []
  }

  lemma {:induction false} RecordsAppend(signals: set<Name>, x: seq<Driver>, y: seq<Driver>, t: Name, s: Name)
    ensures RecordsOf(signals, x + y, t, s) == RecordsOf(signals, x, t, s) + RecordsOf(signals, y, t, s)
    decreases |y|
  {
    hide Contributes;
    if y == [] {
      assert x + y == x;
    } else {
      var n := |y| - 1;
      assert (x + y)[..|x + y| - 1] == x + y[..n];
      RecordsAppend(signals, x, y[..n], t, s);
    }
  }

  lemma {:induction false} ContinuousRecordsSpelled(signals: set<Name>, assigns: seq<Assignment>, t: Name, s: Name)
    requires t in signals && s in signals
    ensures RecordsOf(signals, ContinuousDrivers(assigns), t, s) == ContinuousRecords(assigns, t, s)
    decreases |assigns|
  {
    hide Identifiers, Occurs;
    if assigns != [] {
      var n := |assigns| - 1;
      var ds := ContinuousDrivers(assigns);
      assert ds[..n] == ContinuousDrivers(assigns[..n]);
      ContinuousRecordsSpelled(signals, assigns[..n], t, s);
      OccursIsIdentifier(s, assigns[n].exprTokens);
    }
  }

  ghost function DriversOfBlock(b: AlwaysBlock, assigns: seq<Assignment>): seq<Driver> {
    seq(|assigns|, i requires 0 <= i < |assigns| =>
      Driver(assigns[i], Identifiers(assigns[i].exprTokens) + ConditionNames(b.bodyTokens, 0), b.kind))
  }

  lemma {:induction false} BlockRecordsSpelled(signals: set<Name>, b: AlwaysBlock, assigns: seq<Assignment>, t: Name,
      s: Name)
    requires t in signals && s in signals
    ensures RecordsOf(signals, DriversOfBlock(b, assigns), t, s) == BlockRecords(b, assigns, t, s)
    decreases |assigns|
  {
    hide Identifiers, Occurs, ConditionNames, InCondition;
    if assigns != [] {
      var n := |assigns| - 1;
      var ds := DriversOfBlock(b, assigns);
      assert ds[..n] == DriversOfBlock(b, assigns[..n]);
      BlockRecordsSpelled(signals, b, assigns[..n], t, s);
      OccursIsIdentifier(s, assigns[n].exprTokens);
      ConditionNamesSpelled(s, b.bodyTokens);
    }
  }

  lemma {:induction false} BlocksRecordsSpelled(signals: set<Name>, bs: seq<AlwaysBlock>, t: Name, s: Name)
    requires t in signals && s in signals
    ensures RecordsOf(signals, BlocksDrivers(bs), t, s) == BlocksRecords(bs, t, s)
    decreases |bs|
  {
    hide Level, RecordsOf, BlockRecords;
    if bs == [] {
      assert RecordsOf(signals, [], t, s) == [] by { NoRecords(signals, t, s); }
    } else {
      var (front, b) := (bs[..|bs| - 1], bs[|bs| - 1]);
      BlocksRecordsSpelled(signals, front, t, s);
      RecordsAppend(signals, BlocksDrivers(front), BlockDrivers(b), t, s);
      BlockKinds(b);
      if Level(b) {
        assert BlockDrivers(b) == DriversOfBlock(b, b.assignments);
        BlockRecordsSpelled(signals, b, b.assignments, t, s);
      } else {
        assert BlockDrivers(b) == [];
        NoRecords(signals, t, s);
      }
    }
  }

  lemma NoRecords(signals: set<Name>, t: Name, s: Name)
    ensures RecordsOf(signals, [], t, s) == []
  {
  }

  /** The records of an edge: first those of the continuous assignments, then those of the
      blocks without a clock edge, each in source order and with its kind. */
  lemma RecordsSpelled(m: Module, t: Name, s: Name)
    requires s in Succ(GraphOf(m), t)
    ensures (t, s) in RecordsOfModule(m)
    ensures RecordsOfModule(m)[(t, s)] ==
      ContinuousRecords(m.continuousAssigns, t, s) + BlocksRecords(m.alwaysBlocks, t, s)
  {
    EdgeMeaning(m, t, s);
    DependenceIsDeclared(m, t, s);
    hide DependsOn, RecordsOf, BlocksRecords, ContinuousRecords, BlocksDrivers, ContinuousDrivers;
    RecordsAppend(m.SignalNames(), ContinuousDrivers(m.continuousAssigns), BlocksDrivers(m.alwaysBlocks), t, s);
    ContinuousRecordsSpelled(m.SignalNames(), m.continuousAssigns, t, s);
    BlocksRecordsSpelled(m.SignalNames(), m.alwaysBlocks, t, s);
  }
}
