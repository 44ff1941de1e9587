/** What a loop report says of its component: which records it prints and where it points. */
module LoopReports {
  import opened Ordering
  import opened Graphs
  import opened DependencyGraph
  import opened LoopRule

  /** The edges inside a component. */
  ghost function InnerPairs(records: RecordTable, scc: set<Name>): set<(Name, Name)> {
    set e | e in records && e.0 in scc && e.1 in scc
  }

  /** Of each edge the first three records, or all if there are fewer. */
  function PrintedRecords(records: RecordTable, pairs: seq<(Name, Name)>): seq<EdgeRecord>
    requires forall e :: e in pairs ==> e in records
  {
    if pairs == [] then []
    else
      var all := records[pairs[0]];
      all[..if |all| < 3 then |all| else 3] + PrintedRecords(records, pairs[1..])
  }

  /** Edges are ordered by their source, then by their target. */
  lemma PairsSpelled(a: (Name, Name), b: (Name, Name))
    ensures PairLe(a, b) <==>
      if a.0.text == b.0.text then TextLe(a.1.text, b.1.text) else TextLe(a.0.text, b.0.text)
  {
  }

  /** The pairs that lie inside the component, in the same order. */
  ghost function Inner(pairs: seq<(Name, Name)>, scc: set<Name>): seq<(Name, Name)> {
    if pairs == [] then []
    else (if pairs[0].0 in scc && pairs[0].1 in scc then [pairs[0]] else []) + Inner(pairs[1..], scc)
  }

  ghost predicate InOrder(pairs: seq<(Name, Name)>) {
    forall i, j :: 0 <= i < j < |pairs| ==> Ordered(pairs[i], pairs[j])
  }

  ghost predicate Ordered(a: (Name, Name), b: (Name, Name)) { a != b && PairLe(a, b) }

  lemma OneInFront(p: (Name, Name), pairs: seq<(Name, Name)>)
    requires InOrder(pairs) && forall e :: e in pairs ==> Ordered(p, e)
    ensures InOrder([p] + pairs)
  {
    hide Ordered;
    var more := [p] + pairs;
    forall i, j | 0 <= i < j < |more| ensures Ordered(more[i], more[j]) {
      assert more[j] == pairs[j - 1] && pairs[j - 1] in pairs;
      if i > 0 { assert more[i] == pairs[i - 1]; }
    }
  }

  lemma {:induction false} InnerAre(pairs: seq<(Name, Name)>, scc: set<Name>)
    requires InOrder(pairs)
    ensures forall e :: e in Inner(pairs, scc) <==> e in pairs && e.0 in scc && e.1 in scc
    ensures InOrder(Inner(pairs, scc))
  {
    hide Ordered;
    if pairs != [] {
      var (p, rest) := (pairs[0], pairs[1..]);
      assert InOrder(rest);
      InnerAre(rest, scc);
      var later := Inner(rest, scc);
      assert forall e :: e in pairs <==> e == p || e in rest;
      forall e | e in later ensures Ordered(p, e) {
        var k :| 0 <= k < |rest| && rest[k] == e;
        assert pairs[k + 1] == e;
      }
      OneInFront(p, later);
      assert [] + later == later;
    }
  }

  lemma LastEdge(records: RecordTable, pairs: seq<(Name, Name)>, scc: set<Name>)
    requires pairs != [] && forall e :: e in pairs ==> e in records
    ensures var e := pairs[|pairs| - 1];
      EdgesInside(records, pairs, scc) == EdgesInside(records, pairs[..|pairs| - 1], scc) +
        if Inside(scc, e) then FirstThree(records[e]) else []
  {
    hide FirstThree, Inside;
  }

  lemma {:induction false} EdgesInsideFront(records: RecordTable, pairs: seq<(Name, Name)>, scc: set<Name>)
    requires pairs != [] && forall e :: e in pairs ==> e in records
    ensures EdgesInside(records, pairs, scc) ==
      EdgesInside(records, pairs[..1], scc) + EdgesInside(records, pairs[1..], scc)
    decreases |pairs|
  {
    var n := |pairs| - 1;
    if n == 0 {
      assert pairs[..1] == pairs && pairs[1..] == [];
    } else {
      var front := pairs[..n];
      EdgesInsideFront(records, front, scc);
      assert front[..1] == pairs[..1] && front[1..] == pairs[1..][..n - 1] && pairs[1..][n - 1] == pairs[n];
      assert forall e :: e in front ==> e in pairs;
      LastEdge(records, pairs, scc);
      LastEdge(records, pairs[1..], scc);
      hide EdgesInside, FirstThree, Inside;
    }
  }

  lemma {:induction false} EdgesArePrinted(records: RecordTable, pairs: seq<(Name, Name)>, scc: set<Name>)
    requires forall e :: e in pairs ==> e in records
    ensures forall e :: e in Inner(pairs, scc) ==> e in records
    ensures EdgesInside(records, pairs, scc) == PrintedRecords(records, Inner(pairs, scc))
    decreases |pairs|
  {
    if pairs != [] {
      var (one, rest) := (pairs[..1], pairs[1..]);
      EdgesInsideFront(records, pairs, scc);
      EdgesArePrinted(records, rest, scc);
      assert one[..0] == [] && one[0] == pairs[0];
      var inner := Inner(pairs, scc);
      if pairs[0].0 in scc && pairs[0].1 in scc {
        assert inner == [pairs[0]] + Inner(rest, scc) && inner[1..] == Inner(rest, scc);
        assert EdgesInside(records, one, scc) == FirstThree(records[pairs[0]]);
      } else {
        assert inner == Inner(rest, scc);
        assert EdgesInside(records, one, scc) == [];
      }
    }
  }

  /** A report prints at most three records of every edge inside its component, edge by edge. */
  lemma ReportPrints(m: Module, r: Report, scc: set<Name>) returns (pairs: seq<(Name, Name)>)
    requires ReportsComponent(m, r, scc)
    ensures IsListing(PairLe, InnerPairs(RecordsOfModule(m), scc), pairs)
    ensures (forall e :: e in pairs ==> e in RecordsOfModule(m)) && r.edges == PrintedRecords(RecordsOfModule(m), pairs)
  {
    hide RecordsOfModule, GraphOf, EdgesInside, PrintedRecords, PairLe;
    var records := RecordsOfModule(m);
    var all :| IsListing(PairLe, records.Keys, all) && r.edges == EdgesInside(records, all, scc);
    pairs := Inner(all, scc);
    assert InOrder(all);
    InnerAre(all, scc);
    forall i, j | 0 <= i < j < |pairs| ensures pairs[i] != pairs[j] && PairLe(pairs[i], pairs[j]) {
      assert Ordered(pairs[i], pairs[j]);
    }
    EdgesArePrinted(records, all, scc);
  }

  /** It points at the first record printed; what its token leaves open is taken from the
      module, and then from line and column 1. */
  lemma ReportPoints(m: Module, r: Report, scc: set<Name>)
    requires ReportsComponent(m, r, scc)
    ensures r.edges != []
    ensures var (span, own) := (r.edges[0].assignment.span, m.span);
      && r.moduleName == m.name
      && (span.file != "" ==> r.file == span.file) && (span.file == "" ==> r.file == own.file)
      && (span.line > 0 ==> r.line == span.line)
      && (span.line == 0 && own.line > 0 ==> r.line == own.line)
      && (span.line == 0 && own.line == 0 ==> r.line == 1)
      && (span.column > 0 ==> r.column == span.column)
      && (span.column == 0 && own.column > 0 ==> r.column == own.column)
      && (span.column == 0 && own.column == 0 ==> r.column == 1)
  {
    hide EdgesInside, RecordsOfModule, GraphOf;
  }

  /** The path of a component of one node is that node twice. */
  lemma OneNodePath(m: Module, r: Report, scc: set<Name>)
    requires ReportsComponent(m, r, scc) && |r.nodes| == 1
    ensures r.path == [r.nodes[0], r.nodes[0]]
  {
    hide EdgesInside, RecordsOfModule, GraphOf;
  }
}
