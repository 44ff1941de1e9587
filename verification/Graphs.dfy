/** Finite directed graphs over signal names: walks, reachability and
    strongly connected components. */
module Graphs {
  import opened Ordering

  datatype Name = Name(text: string)
  type Graph = map<Name, set<Name>>

  predicate NameLe(a: Name, b: Name) {
    TextLe(a.text, b.text)
  }

  lemma NamesAreOrdered()
    ensures TotalOrder(NameLe)
  {
    forall a: Name, b: Name
      ensures NameLe(a, b) || NameLe(b, a)
      ensures NameLe(a, b) && NameLe(b, a) ==> a == b
    {
      TextTotal(a.text, b.text);
    }
    forall a: Name, b: Name, c: Name | NameLe(a, b) && NameLe(b, c)
      ensures NameLe(a, c)
    {
      TextTrans(a.text, b.text, c.text);
    }
  }

  ghost function Elems(s: seq<Name>): set<Name> {
    set x | x in s
  }

  ghost predicate Distinct(s: seq<Name>) {
    forall i, j :: 0 <= i < j < |s| ==> s[i] != s[j]
  }

  /** graph.get(node, set()) */
  function Succ(g: Graph, x: Name): set<Name> {
    if x in g then g[x] else {}
  }

  /** The keys of the graph together with every edge target. */
  function Nodes(g: Graph): set<Name> {
    g.Keys + set x, y | x in g && y in g[x] :: y
  }

  ghost predicate Walk(g: Graph, p: seq<Name>) {
    |p| > 0 && forall i :: 0 <= i < |p| - 1 ==> p[i + 1] in Succ(g, p[i])
  }

  ghost predicate WalkBetween(g: Graph, p: seq<Name>, x: Name, y: Name) {
    Walk(g, p) && p[0] == x && p[|p| - 1] == y
  }

  ghost predicate Reach(g: Graph, x: Name, y: Name) {
    exists p :: WalkBetween(g, p, x, y)
  }

  ghost predicate Mutual(g: Graph, x: Name, y: Name) {
    Reach(g, x, y) && Reach(g, y, x)
  }

  /** A walk of at least one edge from x back to x. */
  ghost predicate OnCycle(g: Graph, x: Name) {
    exists y :: y in Succ(g, x) && Reach(g, y, x)
  }

  /** A maximal set of mutually reachable nodes. */
  ghost predicate IsScc(g: Graph, c: set<Name>) {
    c != {} && forall x, y :: x in c ==> (y in c <==> Mutual(g, x, y))
  }

  ghost predicate ClosedUnder(g: Graph, s: set<Name>) {
    forall x :: x in s ==> Succ(g, x) <= s
  }

  lemma ReachRefl(g: Graph, x: Name)
    ensures Reach(g, x, x)
  {
    assert WalkBetween(g, [x], x, x);
  }

  lemma ReachEdge(g: Graph, x: Name, y: Name)
    requires y in Succ(g, x)
    ensures Reach(g, x, y)
  {
    assert WalkBetween(g, [x, y], x, y);
  }

  lemma ReachTrans(g: Graph, x: Name, y: Name, z: Name)
    requires Reach(g, x, y) && Reach(g, y, z)
    ensures Reach(g, x, z)
  {
    var p :| WalkBetween(g, p, x, y);
    var q :| WalkBetween(g, q, y, z);
    assert WalkBetween(g, p + q[1..], x, z);
  }

  /** The last node of a walk that starts in a successor-closed set lies in the set. */
  lemma {:induction false} ReachStaysInClosed(g: Graph, s: set<Name>, x: Name, y: Name)
    requires ClosedUnder(g, s) && x in s && Reach(g, x, y)
    ensures y in s
  {
    var p :| WalkBetween(g, p, x, y);
    for i := 0 to |p| - 1
      invariant 0 <= i < |p| && p[i] in s
    {
    }
  }

  /** The suffix of a walk is a walk, so the first step of a proper walk can be split off. */
  lemma ReachFirstStep(g: Graph, x: Name, y: Name) returns (z: Name)
    requires Reach(g, x, y) && x != y
    ensures z in Succ(g, x) && Reach(g, z, y)
  {
    var p :| WalkBetween(g, p, x, y);
    z := p[1];
    assert WalkBetween(g, p[1..], z, y);
  }

  lemma ReachInNodes(g: Graph, x: Name, y: Name)
    requires x in Nodes(g) && Reach(g, x, y)
    ensures y in Nodes(g)
  {
    ReachStaysInClosed(g, Nodes(g), x, y);
  }
}
