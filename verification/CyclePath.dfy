/** The cycle printed with a combinational-loop report: from the least member
    of a component, keep stepping to the least member among the successors. */
module CyclePath {
  import opened Graphs
  import opened Ordering

  lemma {:induction false} LeastExists(s: set<Name>)
    requires s != {}
    ensures exists m :: IsLeast(NameLe, m, s)
    decreases s
  {
    NamesAreOrdered();
    var m :| m in s;
    if s == {m} {
      assert IsLeast(NameLe, m, s);
    } else {
      LeastExists(s - {m});
      var k :| IsLeast(NameLe, k, s - {m});
      assert IsLeast(NameLe, if NameLe(k, m) then k else m, s);
    }
  }

  ghost function LeastName(s: set<Name>): (m: Name)
    requires s != {}
    ensures IsLeast(NameLe, m, s)
  {
    LeastExists(s);
    var m :| IsLeast(NameLe, m, s);
    m
  }

  lemma LeastIsUnique(s: set<Name>, m: Name)
    requires IsLeast(NameLe, m, s)
    ensures s != {} && LeastName(s) == m
  {
    NamesAreOrdered();
  }

  /** What the walk extends `path` to. */
  ghost function Extend(g: Graph, members: seq<Name>, path: seq<Name>): seq<Name>
    requires members != [] && path != []
    decreases Elems(members) - Elems(path)
  {
    var nexts := Succ(g, path[|path| - 1]) * Elems(members);
    if nexts == {} then members + [members[0]]
    else
      var next := LeastName(nexts);
      if next == path[0] then path + [next]
      else if next in path then path + [next, next]
      else
        assert next in Elems(members) - Elems(path);
        assert next in Elems(path + [next]);
        Extend(g, members, path + [next])
  }

  ghost function CyclePathOf(g: Graph, members: seq<Name>): seq<Name>
    requires members != []
  {
    if |members| == 1 then [members[0], members[0]] else Extend(g, members, [members[0]])
  }

  method CyclePath(g: Graph, members: seq<Name>) returns (path: seq<Name>)
    requires members != []
    ensures path == CyclePathOf(g, members)
  {
    if |members| == 1 {
      return [members[0], members[0]];
    }
    NamesAreOrdered();
    var memberSet := set x | x in members;
    var start := members[0];
    path := [start];
    var current := start;
    var visited := {start};
    while true
      invariant path != [] && path[0] == start && path[|path| - 1] == current
      invariant visited == Elems(path)
      invariant Extend(g, members, path) == CyclePathOf(g, members)
      decreases memberSet - visited
    {
      var nextNodes := Succ(g, current) * memberSet;
      if nextNodes == {} {
        break;
      }
      var nextNode := Least(NameLe, nextNodes);
      LeastIsUnique(nextNodes, nextNode);
      if nextNode == start {
        return path + [nextNode];
      }
      if nextNode in visited {
        return path + [nextNode] + [nextNode];
      }
      path := path + [nextNode];
      assert nextNode in memberSet - visited;
      visited := visited + {nextNode};
      current := nextNode;
    }
    return members + [members[0]];
  }

  /** The first kind of return: a closed walk along edges inside the
      component, from its least member back to it, with no other repetition. */
  ghost predicate ClosedWalk(g: Graph, members: seq<Name>, p: seq<Name>)
    requires members != []
  {
    && |p| >= 2 && p[0] == p[|p| - 1] == members[0]
    && Walk(g, p) && Elems(p) <= Elems(members)
    && Distinct(p[..|p| - 1])
  }

  /** The second kind: an edge walk that runs into one of its own inner nodes,
      followed by that node once more. */
  ghost predicate DoubledLasso(g: Graph, members: seq<Name>, p: seq<Name>)
    requires members != []
  {
    && |p| >= 4 && p[0] == members[0] && p[|p| - 1] == p[|p| - 2]
    && Walk(g, p[..|p| - 1]) && Elems(p) <= Elems(members)
    && Distinct(p[..|p| - 2])
    && p[|p| - 1] in p[1..|p| - 2]
  }

  /** In a component of two or more nodes every node has a successor inside. */
  lemma SuccessorInside(g: Graph, members: seq<Name>, x: Name)
    requires IsScc(g, Elems(members)) && Distinct(members) && |members| >= 2 && x in members
    ensures Succ(g, x) * Elems(members) != {}
  {
    var y := if x == members[0] then members[1] else members[0];
    assert y in Elems(members) && Mutual(g, x, y);
    var z := ReachFirstStep(g, x, y);
    ReachEdge(g, x, z);
    ReachTrans(g, z, y, x);
    assert z in Succ(g, x) * Elems(members);
  }

  /** Appending one more step inside the component. */
  lemma StepKeepsWalk(g: Graph, members: seq<Name>, path: seq<Name>, next: Name)
    requires path != [] && Walk(g, path) && Elems(path) <= Elems(members)
    requires next in Succ(g, path[|path| - 1]) && next in Elems(members)
    ensures Walk(g, path + [next]) && Elems(path + [next]) == Elems(path) + {next}
    ensures Elems(path + [next]) <= Elems(members)
  {
  }

  /** The step that runs into an inner node, printed twice. */
  lemma DoubledStep(g: Graph, members: seq<Name>, path: seq<Name>, next: Name)
    requires members != [] && path != [] && path[0] == members[0] && Distinct(path)
    requires Walk(g, path + [next]) && Elems(path + [next]) <= Elems(members)
    requires next in path && next != path[0]
    ensures DoubledLasso(g, members, path + [next, next])
  {
    var p, longer := path + [next, next], path + [next];
    assert p[..|p| - 1] == longer && p[..|p| - 2] == path && p[1..|p| - 2] == path[1..];
    assert Elems(p) == Elems(longer);
    var i :| 0 <= i < |path| && path[i] == next;
    assert path[1..][i - 1] == next;
  }

  lemma {:induction false} ExtendShape(g: Graph, members: seq<Name>, path: seq<Name>)
    requires IsScc(g, Elems(members)) && Distinct(members) && |members| >= 2
    requires path != [] && path[0] == members[0] && Walk(g, path) && Distinct(path)
    requires Elems(path) <= Elems(members)
    ensures var p := Extend(g, members, path); ClosedWalk(g, members, p) || DoubledLasso(g, members, p)
    decreases Elems(members) - Elems(path)
  {
    hide IsScc, Walk, DoubledLasso;
    var last := path[|path| - 1];
    assert last in Elems(path);
    SuccessorInside(g, members, last);
    var next := LeastName(Succ(g, last) * Elems(members));
    var longer := path + [next];
    StepKeepsWalk(g, members, path, next);
    if next == path[0] {
      assert longer[..|path|] == path;
    } else if next in path {
      DoubledStep(g, members, path, next);
    } else {
      assert next in Elems(members) - Elems(path);
      assert next in Elems(longer);
      ExtendShape(g, members, longer);
    }
  }

  /** On a component of two or more nodes the walk never falls back to the bare
      member list: it ends in one of the two shapes. */
  lemma CyclePathShape(g: Graph, members: seq<Name>)
    requires IsScc(g, Elems(members)) && Distinct(members) && |members| >= 2
    ensures var p := CyclePathOf(g, members); ClosedWalk(g, members, p) || DoubledLasso(g, members, p)
  {
    assert Elems([members[0]]) <= Elems(members);
    ExtendShape(g, members, [members[0]]);
  }

  /** The last arrow of the second kind is the only one that may be no edge. */
  lemma LassoArrows(g: Graph, members: seq<Name>, p: seq<Name>)
    requires members != [] && DoubledLasso(g, members, p)
    ensures Walk(g, p) <==> p[|p| - 1] in Succ(g, p[|p| - 1])
  {
    var w := p[..|p| - 1];
    assert forall i :: 0 <= i < |w| ==> w[i] == p[i];
    if p[|p| - 1] in Succ(g, p[|p| - 1]) {
      forall i | 0 <= i < |p| - 1
        ensures p[i + 1] in Succ(g, p[i])
      {
        if i + 1 < |w| { assert w[i + 1] in Succ(g, w[i]); }
      }
    } else {
      assert p[|p| - 2 + 1] !in Succ(g, p[|p| - 2]);
    }
  }

  lemma LassoMissesStart(g: Graph, members: seq<Name>, p: seq<Name>)
    requires members != [] && DoubledLasso(g, members, p)
    ensures p[|p| - 1] != members[0]
  {
    var k :| 0 <= k < |p[1..|p| - 2]| && p[1..|p| - 2][k] == p[|p| - 1];
    var stem := p[..|p| - 2];
    assert stem[0] == members[0] && stem[k + 1] == p[|p| - 1];
  }

  /** The k-th node of the greedy walk. */
  ghost function Orbit(g: Graph, members: seq<Name>, k: nat): Name
    requires members != []
  {
    if k == 0 then members[0]
    else
      var nexts := Succ(g, Orbit(g, members, k - 1)) * Elems(members);
      if nexts == {} then members[0] else LeastName(nexts)
  }

  ghost predicate FollowsOrbit(g: Graph, members: seq<Name>, p: seq<Name>, n: nat)
    requires members != []
  {
    n <= |p| && forall i {:trigger p[i]} :: 0 <= i < n ==> p[i] == Orbit(g, members, i)
  }

  lemma {:induction false} ExtendFollowsOrbit(g: Graph, members: seq<Name>, path: seq<Name>)
    requires IsScc(g, Elems(members)) && Distinct(members) && |members| >= 2
    requires path != [] && Elems(path) <= Elems(members)
    requires FollowsOrbit(g, members, path, |path|)
    ensures var p := Extend(g, members, path);
      |p| >= 2 && FollowsOrbit(g, members, p, |p| - 1) && (p[|p| - 1] == p[0] ==> FollowsOrbit(g, members, p, |p|))
    decreases Elems(members) - Elems(path)
  {
    hide IsScc;
    var last := path[|path| - 1];
    assert last in Elems(path);
    SuccessorInside(g, members, last);
    var next := LeastName(Succ(g, last) * Elems(members));
    var longer := path + [next];
    FollowsNext(g, members, path);
    ExtendCases(g, members, path);
    hide FollowsOrbit, LeastName, Extend;
    if next == path[0] {
    } else if next in path {
      FollowsPrefix(g, members, longer, next);
      DistinctFromStart(path, next);
    } else {
      assert next in Elems(members) - Elems(path);
      assert Elems(longer) == Elems(path) + {next};
      ExtendFollowsOrbit(g, members, longer);
    }
  }

  lemma ExtendCases(g: Graph, members: seq<Name>, path: seq<Name>)
    requires members != [] && path != []
    requires Succ(g, path[|path| - 1]) * Elems(members) != {}
    ensures var next := LeastName(Succ(g, path[|path| - 1]) * Elems(members));
      Extend(g, members, path) ==
        if next == path[0] then path + [next]
        else if next in path then path + [next, next]
        else Extend(g, members, path + [next])
  {
  }

  lemma FollowsNext(g: Graph, members: seq<Name>, path: seq<Name>)
    requires members != [] && path != [] && FollowsOrbit(g, members, path, |path|)
    requires Succ(g, path[|path| - 1]) * Elems(members) != {}
    ensures var longer := path + [LeastName(Succ(g, path[|path| - 1]) * Elems(members))];
      FollowsOrbit(g, members, longer, |path|) && FollowsOrbit(g, members, longer, |longer|)
  {
    assert path[|path| - 1] == Orbit(g, members, |path| - 1);
    assert Orbit(g, members, |path|) == LeastName(Succ(g, path[|path| - 1]) * Elems(members));
  }

  lemma FollowsPrefix(g: Graph, members: seq<Name>, p: seq<Name>, x: Name)
    requires members != [] && FollowsOrbit(g, members, p, |p|)
    ensures FollowsOrbit(g, members, p + [x], |p|)
  {
  }

  lemma DistinctFromStart(path: seq<Name>, next: Name)
    requires path != [] && next != path[0]
    ensures (path + [next, next])[|path| + 1] != (path + [next, next])[0]
    ensures path + [next, next] == (path + [next]) + [next]
  {
  }

  /** Where a lasso's last step leads back to. */
  lemma LassoLoop(g: Graph, members: seq<Name>, p: seq<Name>) returns (i: nat)
    requires members != [] && DoubledLasso(g, members, p)
    ensures |p| >= 4 && 1 <= i < |p| - 2 && p[i] == p[|p| - 2] == p[|p| - 1]
  {
    hide Walk, Distinct, Elems;
    var q :| 0 <= q < |p[1..|p| - 2]| && p[1..|p| - 2][q] == p[|p| - 1];
    i := q + 1;
  }

  /** Once inside the loop of a lasso the greedy walk stays among its inner nodes. */
  lemma {:induction false} OrbitStaysInLasso(g: Graph, members: seq<Name>, p: seq<Name>, k: nat) returns (i: nat)
    requires members != [] && DoubledLasso(g, members, p)
    requires FollowsOrbit(g, members, p, |p| - 1)
    requires k >= 1
    ensures 1 <= i < |p| - 2 && Orbit(g, members, k) == p[i]
  {
    hide DoubledLasso, Orbit;
    var back := LassoLoop(g, members, p);
    if k == 1 {
      assert p[1] == Orbit(g, members, 1);
      i := 1;
    } else {
      var j := OrbitStaysInLasso(g, members, p, k - 1);
      assert p[j] == Orbit(g, members, j) && p[j + 1] == Orbit(g, members, j + 1);
      OrbitStep(g, members, k - 1, j);
      i := if j + 1 < |p| - 2 then j + 1 else back;
    }
  }

  lemma OrbitStep(g: Graph, members: seq<Name>, k: nat, j: nat)
    requires members != [] && Orbit(g, members, k) == Orbit(g, members, j)
    ensures Orbit(g, members, k + 1) == Orbit(g, members, j + 1)
  {
  }

  /** The greedy walk comes back to the least member. */
  ghost predicate Returns(g: Graph, members: seq<Name>)
    requires members != []
  {
    exists k: nat :: k >= 1 && Orbit(g, members, k) == members[0]
  }

  lemma LassoNeverReturns(g: Graph, members: seq<Name>, p: seq<Name>)
    requires members != [] && DoubledLasso(g, members, p) && FollowsOrbit(g, members, p, |p| - 1)
    ensures !Returns(g, members)
  {
    forall k: nat | k >= 1
      ensures Orbit(g, members, k) != members[0]
    {
      var i := OrbitStaysInLasso(g, members, p, k);
      assert p[..|p| - 2][i] == p[i] && p[..|p| - 2][0] == members[0];
    }
  }

  lemma StartFollowsOrbit(g: Graph, members: seq<Name>)
    requires members != []
    ensures FollowsOrbit(g, members, [members[0]], 1) && Elems([members[0]]) <= Elems(members)
  {
  }

  lemma CyclePathExtends(g: Graph, members: seq<Name>)
    requires |members| >= 2
    ensures CyclePathOf(g, members) == Extend(g, members, [members[0]])
  {
  }

  lemma LassoIsNotClosed(g: Graph, members: seq<Name>, p: seq<Name>)
    requires members != [] && DoubledLasso(g, members, p)
    ensures !ClosedWalk(g, members, p)
  {
    hide Walk, Elems, Distinct;
    LassoMissesStart(g, members, p);
  }

  lemma ClosedWalkReturns(g: Graph, members: seq<Name>, p: seq<Name>)
    requires members != [] && ClosedWalk(g, members, p) && |p| >= 2
    requires p[|p| - 1] == p[0] ==> FollowsOrbit(g, members, p, |p|)
    ensures Returns(g, members)
  {
    hide Walk, Elems, Distinct, Orbit;
    assert p[|p| - 1] == Orbit(g, members, |p| - 1);
  }

  /** The printed path is a closed walk exactly when the greedy walk from the
      least member comes back to it. */
  lemma ClosedWalkIff(g: Graph, members: seq<Name>)
    requires IsScc(g, Elems(members)) && Distinct(members) && |members| >= 2
    ensures ClosedWalk(g, members, CyclePathOf(g, members)) <==> Returns(g, members)
  {
    hide *;
    CyclePathShape(g, members);
    var p := CyclePathOf(g, members);
    StartFollowsOrbit(g, members);
    ExtendFollowsOrbit(g, members, [members[0]]);
    CyclePathExtends(g, members);
    if DoubledLasso(g, members, p) {
      LassoIsNotClosed(g, members, p);
      LassoNeverReturns(g, members, p);
    } else {
      ClosedWalkReturns(g, members, p);
    }
  }

  /** The first step at which the greedy walk meets a node it has been at before. */
  ghost predicate FirstRepeat(g: Graph, members: seq<Name>, k: nat)
    requires members != []
  {
    && (exists i: nat :: i < k && Orbit(g, members, i) == Orbit(g, members, k))
    && (forall i: nat, j: nat :: i < j < k ==> Orbit(g, members, i) != Orbit(g, members, j))
  }

  lemma FirstRepeatIsUnique(g: Graph, members: seq<Name>, j: nat, k: nat)
    requires members != [] && FirstRepeat(g, members, j) && FirstRepeat(g, members, k)
    ensures j == k
  {
    var i: nat :| i < j && Orbit(g, members, i) == Orbit(g, members, j);
    var h: nat :| h < k && Orbit(g, members, h) == Orbit(g, members, k);
    hide Orbit;
  }

  lemma LassoRepeats(g: Graph, members: seq<Name>, p: seq<Name>)
    requires members != [] && DoubledLasso(g, members, p) && FollowsOrbit(g, members, p, |p| - 1)
    ensures FirstRepeat(g, members, |p| - 2) && Orbit(g, members, |p| - 2) == p[|p| - 1]
  {
    hide Orbit, Walk, LeastName;
    var k, stem := |p| - 2, p[..|p| - 2];
    assert p[k] == Orbit(g, members, k);
    var q :| 0 <= q < |p[1..k]| && p[1..k][q] == p[|p| - 1];
    assert p[q + 1] == Orbit(g, members, q + 1);
    forall i: nat, j: nat | i < j < k
      ensures Orbit(g, members, i) != Orbit(g, members, j)
    {
      assert stem[i] == p[i] == Orbit(g, members, i) && stem[j] == p[j] == Orbit(g, members, j);
    }
  }

  /** Every printed arrow is an edge exactly when the greedy walk comes back to
      the least member, or the node where it first meets itself has an edge to itself. */
  lemma ArrowsAreEdges(g: Graph, members: seq<Name>)
    requires IsScc(g, Elems(members)) && Distinct(members) && |members| >= 2
    ensures Walk(g, CyclePathOf(g, members)) <==>
      Returns(g, members)
      || exists k: nat :: FirstRepeat(g, members, k) && Orbit(g, members, k) in Succ(g, Orbit(g, members, k))
  {
    hide IsScc, Walk, DoubledLasso, LeastName, Extend, Orbit, FirstRepeat, Returns;
    CyclePathShape(g, members);
    ClosedWalkIff(g, members);
    var p := CyclePathOf(g, members);
    if !ClosedWalk(g, members, p) {
      LassoArrows(g, members, p);
      StartFollowsOrbit(g, members);
      ExtendFollowsOrbit(g, members, [members[0]]);
      LassoRepeats(g, members, p);
      forall k: nat | FirstRepeat(g, members, k)
        ensures k == |p| - 2
      {
        FirstRepeatIsUnique(g, members, k, |p| - 2);
      }
    }
  }

  /** Four nodes in a round, with no edge that leaves them, are a component. */
  lemma RoundIsScc(g: Graph, a: Name, b: Name, c: Name, d: Name)
    requires b in Succ(g, a) && c in Succ(g, b) && d in Succ(g, c) && a in Succ(g, d)
    requires forall x :: x in {a, b, c, d} ==> Succ(g, x) <= {a, b, c, d}
    ensures IsScc(g, {a, b, c, d})
  {
    hide Reach, Succ;
    var s := {a, b, c, d};
    RoundReaches(g, a, b, c, d);
    RoundReaches(g, b, c, d, a);
    RoundReaches(g, c, d, a, b);
    RoundReaches(g, d, a, b, c);
    forall x, y | x in s && Reach(g, x, y)
      ensures y in s
    {
      ReachStaysInClosed(g, s, x, y);
    }
  }

  lemma RoundReaches(g: Graph, a: Name, b: Name, c: Name, d: Name)
    requires b in Succ(g, a) && c in Succ(g, b) && d in Succ(g, c)
    ensures Reach(g, a, a) && Reach(g, a, b) && Reach(g, a, c) && Reach(g, a, d)
  {
    hide Reach;
    ReachRefl(g, a);
    ReachEdge(g, a, b);
    ReachEdge(g, b, c);
    ReachEdge(g, c, d);
    ReachTrans(g, a, b, c);
    ReachTrans(g, a, c, d);
  }

  lemma ExampleWalk(g: Graph, a: Name, b: Name, c: Name, members: seq<Name>)
    requires members != [] && members[0] == a && |members| >= 2 && a != b && a != c && b != c
    requires Succ(g, a) * Elems(members) == {b} && Succ(g, b) * Elems(members) == {c}
    requires b in Succ(g, c) * Elems(members) && LeastName(Succ(g, c) * Elems(members)) == b
    ensures CyclePathOf(g, members) == [a, b, c, b, b]
  {
    hide Succ, Elems;
    LeastOfOne(b);
    LeastOfOne(c);
    hide LeastName;
    ExtendCases(g, members, [a, b, c]);
    ExtendCases(g, members, [a, b]);
    ExtendCases(g, members, [a]);
    CyclePathExtends(g, members);
    assert [a, b, c] + [b, b] == [a, b, c, b, b] && [a, b] + [c] == [a, b, c] && [a] + [b] == [a, b];
  }

  lemma LeastOfOne(x: Name)
    ensures LeastName({x}) == x
  {
  }

  /** A component on which the printed path is not a walk: from a the walk goes
      a, b, c and back to b, and the arrow b -> b it then prints is no edge. */
  lemma PrintedPathNeedNotBeAWalk()
    ensures exists g: Graph, members: seq<Name> ::
      IsScc(g, Elems(members)) && Distinct(members) && |members| >= 2 && !Walk(g, CyclePathOf(g, members))
  {
    hide Reach, CyclePathOf, IsScc;
    var a, b, c, d := Name("a"), Name("b"), Name("c"), Name("d");
    var g: Graph := map[a := {b}, b := {c}, c := {b, d}, d := {a}];
    var members := [a, b, c, d];
    assert Elems(members) == {a, b, c, d};
    assert Succ(g, a) * Elems(members) == {b};
    assert Succ(g, b) * Elems(members) == {c};
    assert Succ(g, c) * Elems(members) == {b, d};
    RoundIsScc(g, a, b, c, d);
    LeastIsUnique({b, d}, b);
    ExampleWalk(g, a, b, c, members);
    assert CyclePathOf(g, members)[4] !in Succ(g, CyclePathOf(g, members)[3]);
  }
}
