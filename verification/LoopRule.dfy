/** The combinational-loop rule: which reports it emits for a module, and that
    they are exactly the cycles of the module's dependency relation. */
module LoopRule {
  import opened Graphs
  import opened Ordering
  import opened DependencyGraph
  import opened CyclePath
  import Tarjan

  datatype Report = Report(
    moduleName: string, nodes: seq<Name>, path: seq<Name>, edges: seq<EdgeRecord>,
    file: string, line: nat, column: nat, confidence: string)

  type RecordTable = map<(Name, Name), seq<EdgeRecord>>

  predicate PairLe(a: (Name, Name), b: (Name, Name)) {
    if a.0 == b.0 then NameLe(a.1, b.1) else NameLe(a.0, b.0)
  }

  lemma PairsAreOrdered()
    ensures TotalOrder(PairLe)
  {
    NamesAreOrdered();
  }

  predicate Inside(members: set<Name>, e: (Name, Name)) {
    e.0 in members && e.1 in members
  }

  function FirstThree(s: seq<EdgeRecord>): seq<EdgeRecord> {
    if |s| <= 3 then s else s[..3]
  }

  /** At most three records of every edge inside the component, in pair order. */
  ghost function EdgesInside(records: RecordTable, pairs: seq<(Name, Name)>, members: set<Name>): seq<EdgeRecord>
    requires forall e :: e in pairs ==> e in records
  {
    if pairs == [] then []
    else
      var e := pairs[|pairs| - 1];
      EdgesInside(records, pairs[..|pairs| - 1], members) + (if Inside(members, e) then FirstThree(records[e]) else [])
  }

  lemma {:induction false} InsideEdgeIsListed(records: RecordTable, pairs: seq<(Name, Name)>, members: set<Name>,
      e: (Name, Name))
    requires forall p :: p in pairs ==> p in records
    requires e in pairs && Inside(members, e) && records[e] != []
    ensures EdgesInside(records, pairs, members) != []
  {
    var last := pairs[|pairs| - 1];
    if e != last {
      assert pairs == pairs[..|pairs| - 1] + [last];
      InsideEdgeIsListed(records, pairs[..|pairs| - 1], members, e);
    }
  }

  /** The component holds two or more nodes, or one with an edge to itself. */
  ghost predicate Cyclic(g: Graph, nodes: seq<Name>) {
    |nodes| >= 2 || (|nodes| == 1 && nodes[0] in Succ(g, nodes[0]))
  }

  /** The test of the rule picks out the components that lie on a cycle. */
  lemma CyclicIffOnCycle(g: Graph, nodes: seq<Name>, x: Name)
    requires IsScc(g, Elems(nodes)) && Distinct(nodes) && x in nodes
    ensures Cyclic(g, nodes) <==> OnCycle(g, x)
  {
    hide Reach;
    if |nodes| >= 2 {
      var y := if x == nodes[0] then nodes[1] else nodes[0];
      assert y in Elems(nodes) && Mutual(g, x, y);
      var z := ReachFirstStep(g, x, y);
      ReachTrans(g, z, y, x);
    } else {
      assert nodes == [x];
      forall z | z in Succ(g, x) && Reach(g, z, x)
        ensures z == x
      {
        ReachEdge(g, x, z);
        assert z in Elems(nodes);
      }
      ReachRefl(g, x);
    }
  }

  /** A cyclic component contains an edge, so the rule never lacks a location. */
  lemma CyclicHasInsideEdge(g: Graph, nodes: seq<Name>) returns (e: (Name, Name))
    requires IsScc(g, Elems(nodes)) && Distinct(nodes) && Cyclic(g, nodes)
    ensures Inside(Elems(nodes), e) && e.1 in Succ(g, e.0)
  {
    if |nodes| >= 2 {
      SuccessorInside(g, nodes, nodes[0]);
      var z :| z in Succ(g, nodes[0]) * Elems(nodes);
      e := (nodes[0], z);
    } else {
      e := (nodes[0], nodes[0]);
    }
  }

  function OrElse(n: nat, fallback: nat): nat {
    if n != 0 then n else fallback
  }

  /** The report for one cyclic component. */
  ghost predicate ReportsComponent(m: Module, r: Report, scc: set<Name>) {
    var g, records := GraphOf(m), RecordsOfModule(m);
    && IsListing(NameLe, scc, r.nodes)
    && r.nodes != []
    && r.path == CyclePathOf(g, r.nodes)
    && (exists pairs :: IsListing(PairLe, records.Keys, pairs) && r.edges == EdgesInside(records, pairs, scc))
    && r.edges != []
    && r.moduleName == m.name && r.confidence == "high"
    && r.file == (if r.edges[0].assignment.span.file != "" then r.edges[0].assignment.span.file else m.span.file)
    && r.line == OrElse(r.edges[0].assignment.span.line, OrElse(m.span.line, 1))
    && r.column == OrElse(r.edges[0].assignment.span.column, OrElse(m.span.column, 1))
  }

  method ReportComponent(m: Module, g: Graph, records: RecordTable, scc: seq<Name>, members: seq<Name>)
    returns (r: Report)
    requires g == GraphOf(m) && records == RecordsOfModule(m)
    requires IsScc(g, Elems(scc)) && IsListing(NameLe, Elems(scc), members) && Cyclic(g, members)
    ensures ReportsComponent(m, r, Elems(scc))
  {
    hide IsScc, GraphOf, RecordsOfModule, CyclePathOf;
    var memberSet := set x | x in members;
    assert memberSet == Elems(scc) == Elems(members);
    PairsAreOrdered();
    var pairs := Sorted(PairLe, records.Keys);
    var edges: seq<EdgeRecord> := [];
    for i := 0 to |pairs|
      invariant forall e :: e in pairs[..i] ==> e in records
      invariant edges == EdgesInside(records, pairs[..i], memberSet)
    {
      var e := pairs[i];
      assert pairs[..i + 1][..i] == pairs[..i];
      if e.0 !in memberSet || e.1 !in memberSet {
        continue;
      }
      edges := edges + FirstThree(records[e]);
    }
    assert pairs[..|pairs|] == pairs;
    ghost var inside := CyclicHasInsideEdge(g, members);
    EdgeHasRecord(m, inside.0, inside.1);
    InsideEdgeIsListed(records, pairs, memberSet, inside);
    var path := CyclePath.CyclePath(g, members);
    var file, line, column := m.span.file, OrElse(m.span.line, 1), OrElse(m.span.column, 1);
    var confidence := "medium";
    if edges != [] {
      var span := edges[0].assignment.span;
      file := if span.file != "" then span.file else file;
      line := OrElse(span.line, line);
      column := OrElse(span.column, column);
      confidence := "high";
    }
    r := Report(m.name, members, path, edges, file, line, column, confidence);
  }

  lemma EdgeHasRecord(m: Module, t: Name, s: Name)
    requires s in Succ(GraphOf(m), t)
    ensures (t, s) in RecordsOfModule(m) && RecordsOfModule(m)[(t, s)] != []
  {
    EdgeMeaning(m, t, s);
    DriverOfDependence(m, t, s);
    RecordsOfNonempty(m.SignalNames(), Drivers(m), t, s);
  }

  ghost predicate OneReportEach(m: Module, components: seq<seq<Name>>, reports: seq<Report>, from: seq<nat>) {
    && |from| == |reports|
    && (forall i :: 0 <= i < |from| ==> from[i] < |components| && Cyclic(GraphOf(m), components[from[i]]))
    && (forall i :: 0 <= i < |from| ==> ReportsComponent(m, reports[i], Elems(components[from[i]])))
    && (forall i, j :: 0 <= i < j < |from| ==> from[i] < from[j])
  }

  /** The reports of a module are its cycles: every report is for a whole
      strongly connected component all of whose nodes lie on cycles, and every
      node on a cycle is in exactly one report. */
  ghost predicate ReportsAreCycles(m: Module, reports: seq<Report>) {
    && (forall i :: 0 <= i < |reports| ==>
          IsScc(GraphOf(m), Elems(reports[i].nodes)) && ReportsComponent(m, reports[i], Elems(reports[i].nodes)))
    && (forall i, x :: 0 <= i < |reports| && x in reports[i].nodes ==> OnCycle(GraphOf(m), x))
    && (forall x :: OnCycle(GraphOf(m), x) ==> exists i :: 0 <= i < |reports| && x in reports[i].nodes)
    && (forall i, j, x :: 0 <= i < j < |reports| && x in reports[i].nodes ==> x !in reports[j].nodes)
  }

  lemma ComponentIsScc(g: Graph, components: seq<seq<Name>>, c: nat)
    requires Tarjan.SccPartition(g, components) && c < |components|
    ensures IsScc(g, Elems(components[c])) && Distinct(components[c]) && components[c] != []
  {
    hide Reach, Nodes;
    assert components[c][0] in Elems(components[c]);
    forall x, y | x in components[c]
      ensures y in components[c] <==> Mutual(g, x, y)
    {
      if Mutual(g, x, y) {
        ReachInNodes(g, x, y);
        var d :| 0 <= d < |components| && y in components[d];
        assert c == d <==> Mutual(g, x, y);
      }
    }
  }

  /** The sorted member list keeps the size, so the test can be read off the component. */
  lemma ListingIsCyclic(g: Graph, scc: seq<Name>, members: seq<Name>)
    requires IsScc(g, Elems(scc)) && Distinct(scc) && scc != []
    requires IsListing(NameLe, Elems(scc), members)
    ensures IsScc(g, Elems(members)) && Distinct(members) && members != []
    ensures Cyclic(g, members) <==> Cyclic(g, scc)
  {
    hide IsScc;
    assert Elems(members) == Elems(scc);
    assert scc[0] in members;
    CyclicIffOnCycle(g, scc, scc[0]);
    CyclicIffOnCycle(g, members, scc[0]);
  }

  lemma ReportNodes(m: Module, r: Report, scc: set<Name>)
    requires ReportsComponent(m, r, scc)
    ensures Elems(r.nodes) == scc
  {
  }

  /** From one report per cyclic component to the statement about cycles. */
  lemma ComponentsToCycles(m: Module, components: seq<seq<Name>>, reports: seq<Report>, from: seq<nat>)
    requires Tarjan.SccPartition(GraphOf(m), components)
    requires OneReportEach(m, components, reports, from)
    requires forall d :: 0 <= d < |components| && Cyclic(GraphOf(m), components[d]) ==> d in from
    ensures ReportsAreCycles(m, reports)
  {
    hide IsScc, GraphOf, ReportsComponent, OnCycle, Cyclic, Nodes, Mutual;
    var g := GraphOf(m);
    forall i | 0 <= i < |reports|
      ensures Elems(reports[i].nodes) == Elems(components[from[i]])
      ensures IsScc(g, Elems(components[from[i]]))
      ensures forall x :: x in reports[i].nodes <==> x in components[from[i]]
    {
      ReportNodes(m, reports[i], Elems(components[from[i]]));
      ComponentIsScc(g, components, from[i]);
      assert forall x :: x in reports[i].nodes <==> x in Elems(reports[i].nodes);
    }
    forall i, x | 0 <= i < |reports| && x in reports[i].nodes
      ensures OnCycle(g, x)
    {
      ComponentIsScc(g, components, from[i]);
      CyclicIffOnCycle(g, components[from[i]], x);
    }
    forall x | OnCycle(g, x)
      ensures exists i :: 0 <= i < |reports| && x in reports[i].nodes
    {
      OnCycleIsNode(g, x);
      var d :| 0 <= d < |components| && x in components[d];
      ComponentIsScc(g, components, d);
      CyclicIffOnCycle(g, components[d], x);
      var i :| 0 <= i < |from| && from[i] == d;
      assert x in reports[i].nodes;
    }
    forall i, j, x | 0 <= i < j < |reports| && x in reports[i].nodes
      ensures x !in reports[j].nodes
    {
      SharedNodeSharedList(g, components, from[i], from[j], x);
    }
  }

  lemma OnCycleIsNode(g: Graph, x: Name)
    requires OnCycle(g, x)
    ensures x in Nodes(g)
  {
    hide Reach;
  }

  lemma SharedNodeSharedList(g: Graph, components: seq<seq<Name>>, c: nat, d: nat, x: Name)
    requires Tarjan.SccPartition(g, components) && c < |components| && d < |components| && c != d
    ensures !(x in components[c] && x in components[d])
  {
    hide Reach, Nodes;
    ReachRefl(g, x);
    assert x in components[c] && x in components[d] ==> (c == d <==> Mutual(g, x, x));
  }

  method ModuleLoops(m: Module) returns (reports: seq<Report>)
    ensures ReportsAreCycles(m, reports)
  {
    hide IsScc, GraphOf, RecordsOfModule, CyclePathOf, ReportsComponent;
    var g, records := CombinationalDependencyGraph(m);
    var components := Tarjan.TarjanScc(g);
    reports := [];
    ghost var from: seq<nat> := [];
    for c := 0 to |components|
      invariant OneReportEach(m, components, reports, from)
      invariant forall i :: 0 <= i < |from| ==> from[i] < c
      invariant forall d :: 0 <= d < c && Cyclic(g, components[d]) ==> d in from
    {
      NamesAreOrdered();
      var scc := components[c];
      var members := Sorted(NameLe, set x | x in scc);
      ComponentIsScc(g, components, c);
      assert Elems(scc) == set x | x in scc;
      ListingIsCyclic(g, scc, members);
      var hasSelfLoop := |members| == 1 && members[0] in Succ(g, members[0]);
      if |members| < 2 && !hasSelfLoop {
        continue;
      }
      var report := ReportComponent(m, g, records, scc, members);
      reports := reports + [report];
      from := from + [c];
    }
    ComponentsToCycles(m, components, reports, from);
  }

  /** The no-edge fallback is never taken and the rule reports something
      exactly when the dependency relation has a cycle. */
  lemma ReportsIffCyclic(m: Module, reports: seq<Report>)
    requires ReportsAreCycles(m, reports)
    ensures reports != [] <==> exists x :: OnCycle(GraphOf(m), x)
    ensures forall i :: 0 <= i < |reports| ==> reports[i].confidence == "high" && reports[i].edges != []
  {
    hide OnCycle, GraphOf, IsScc;
    if reports != [] {
      assert reports[0].nodes[0] in reports[0].nodes;
      assert OnCycle(GraphOf(m), reports[0].nodes[0]);
    }
  }

  /** A signal assigned only in sequential blocks is in no report. */
  lemma RegistersAreNotReported(m: Module, reports: seq<Report>, t: Name, i: nat)
    requires ReportsAreCycles(m, reports) && AssignedOnlySequentially(m, t) && i < |reports|
    ensures t !in reports[i].nodes
  {
    RegistersBreakCycles(m, t);
  }

  /** The reports of a design are its modules' reports one after another. */
  ghost predicate DesignReports(modules: seq<Module>, reports: seq<Report>) {
    if modules == [] then reports == []
    else
      var n := |modules| - 1;
      exists k: nat :: k <= |reports| && ReportsAreCycles(modules[n], reports[k..]) &&
        DesignReports(modules[..n], reports[..k])
  }

  lemma DesignReportsSnoc(modules: seq<Module>, n: nat, reports: seq<Report>, found: seq<Report>)
    requires n < |modules| && DesignReports(modules[..n], reports) && ReportsAreCycles(modules[n], found)
    ensures DesignReports(modules[..n + 1], reports + found)
  {
    hide ReportsAreCycles;
    assert modules[..n + 1][..n] == modules[..n];
    assert (reports + found)[|reports|..] == found && (reports + found)[..|reports|] == reports;
  }

  /** The rule over a whole design. */
  method CombinationalLoops(modules: seq<Module>) returns (reports: seq<Report>)
    ensures DesignReports(modules, reports)
  {
    hide ReportsAreCycles, DesignReports;
    reports := [];
    assert DesignReports(modules[..0], []) by { NoModules(modules[..0]); }
    for i := 0 to |modules|
      invariant DesignReports(modules[..i], reports)
    {
      var found := ModuleLoops(modules[i]);
      DesignReportsSnoc(modules, i, reports, found);
      reports := reports + found;
    }
    assert modules[..|modules|] == modules;
  }

  lemma NoModules(modules: seq<Module>)
    requires modules == []
    ensures DesignReports(modules, [])
  {
  }

  /** The rule reports something exactly when some module has a combinational loop. */
  lemma {:induction false} DesignReportsIffLoop(modules: seq<Module>, reports: seq<Report>)
    requires DesignReports(modules, reports)
    ensures reports != [] <==> exists m, x :: m in modules && OnCycle(GraphOf(m), x)
  {
    hide ReportsAreCycles, OnCycle, GraphOf;
    if modules != [] {
      var n := |modules| - 1;
      var k: nat :| k <= |reports| && ReportsAreCycles(modules[n], reports[k..]) &&
        DesignReports(modules[..n], reports[..k]);
      ReportsIffCyclic(modules[n], reports[k..]);
      DesignReportsIffLoop(modules[..n], reports[..k]);
      assert modules == modules[..n] + [modules[n]];
      assert reports == reports[..k] + reports[k..];
    }
  }
}
