/** The recursive strongly-connected-components search of the risk rules, with
    its mutable index, stack, on-stack set, index and lowlink tables. */
module Tarjan {
  import opened Graphs
  import opened Ordering

  /** Every older stack node reaches every newer one. */
  ghost predicate OlderReachNewer(g: Graph, indices: map<Name, nat>, stacked: set<Name>)
    requires stacked <= indices.Keys
  {
    forall x, y {:trigger Reach(g, x, y)} ::
      x in stacked && y in stacked && indices[x] <= indices[y] ==> Reach(g, x, y)
  }

  /** The node reaches an open node no newer than itself. */
  ghost predicate Grounded(g: Graph, indices: map<Name, nat>, open: set<Name>, y: Name)
    requires open <= indices.Keys && y in indices
  {
    exists x :: x in open && indices[x] <= indices[y] && Reach(g, y, x)
  }

  /** Every stack node reaches a node no newer than itself whose call is still open. */
  ghost predicate ReachesOpen(g: Graph, indices: map<Name, nat>, stacked: set<Name>, open: set<Name>)
    requires open <= stacked <= indices.Keys
  {
    forall y {:trigger Grounded(g, indices, open, y)} :: y in stacked ==> Grounded(g, indices, open, y)
  }

  /** The edges of every visited node whose call has returned lead to visited nodes. */
  ghost predicate Explored(g: Graph, visited: set<Name>, open: set<Name>) {
    forall x :: x in visited && x !in open ==> Succ(g, x) <= visited
  }

  /** The invariant of the search: visited nodes are either on the stack or
      emitted, emitted nodes are closed under edges, and the two reachability
      facts hold of the stack. */
  ghost predicate Shape(g: Graph, indices: map<Name, nat>, stacked: set<Name>, done: set<Name>, open: set<Name>) {
    && stacked !! done
    && indices.Keys == stacked + done
    && open <= stacked
    && ClosedUnder(g, done)
    && OlderReachNewer(g, indices, stacked)
    && ReachesOpen(g, indices, stacked, open)
    && Explored(g, indices.Keys, open)
  }

  /** Opening a call on an unvisited node that every open node reaches. */
  lemma PushKeepsShape(g: Graph, indices: map<Name, nat>, index: nat, stacked: set<Name>, done: set<Name>,
      open: set<Name>, node: Name)
    requires Shape(g, indices, stacked, done, open)
    requires node !in indices && forall x :: x in indices ==> indices[x] < index
    requires forall x :: x in open ==> Reach(g, x, node)
    ensures Shape(g, indices[node := index], stacked + {node}, done, open + {node})
  {
    hide Reach;
    var stacked', open', indices' := stacked + {node}, open + {node}, indices[node := index];
    ReachRefl(g, node);
    forall x | x in stacked
      ensures Reach(g, x, node)
    {
      assert Grounded(g, indices, open, x);
      var k :| k in open && indices[k] <= indices[x] && Reach(g, x, k);
      ReachTrans(g, x, k, node);
    }
    forall y | y in stacked'
      ensures Grounded(g, indices', open', y)
    {
      if y == node {
        assert node in open';
      } else {
        assert Grounded(g, indices, open, y);
        var x :| x in open && indices[x] <= indices[y] && Reach(g, y, x);
        assert x in open';
      }
    }
  }

  /** The stack nodes from the given node upwards. */
  ghost function Top(indices: map<Name, nat>, stacked: set<Name>, node: Name): set<Name>
    requires stacked <= indices.Keys && node in indices
  {
    set x | x in stacked && indices[node] <= indices[x]
  }

  /** No edge leads from `top` to a node of `below` whose index is under `low`. */
  ghost predicate LowBounds(g: Graph, indices: map<Name, nat>, top: set<Name>, below: set<Name>, low: int)
    requires below <= indices.Keys
  {
    forall x, y {:trigger y in Succ(g, x)} :: x in top && y in below && y in Succ(g, x) ==> low <= indices[y]
  }

  /** The lowlink is the index of a stack node that the given node reaches. */
  ghost predicate LowReached(g: Graph, indices: map<Name, nat>, stacked: set<Name>, node: Name, low: int)
    requires stacked <= indices.Keys
  {
    exists y :: y in stacked && indices[y] == low && Reach(g, node, y)
  }

  /** Closing a call whose lowlink is below its own index: the node stays on
      the stack and reaches an open node below it. */
  lemma ReturnKeepsShape(g: Graph, indices: map<Name, nat>, stacked: set<Name>, done: set<Name>, open: set<Name>,
      node: Name, low: int)
    requires Shape(g, indices, stacked, done, open)
    requires node in open && low < indices[node]
    requires Succ(g, node) <= indices.Keys
    requires LowReached(g, indices, stacked, node, low)
    ensures Shape(g, indices, stacked, done, open - {node})
  {
    hide Reach;
    var m :| m in stacked && indices[m] == low && Reach(g, node, m);
    assert Grounded(g, indices, open, m);
    var r :| r in open && indices[r] <= indices[m] && Reach(g, m, r);
    ReachTrans(g, node, m, r);
    assert r in open - {node};
    forall y {:trigger Grounded(g, indices, open - {node}, y)} | y in stacked
      ensures Grounded(g, indices, open - {node}, y)
    {
      assert Grounded(g, indices, open, y);
      var x :| x in open && indices[x] <= indices[y] && Reach(g, y, x);
      if x == node {
        ReachTrans(g, y, node, r);
        assert r in open - {node};
      } else {
        assert x in open - {node};
      }
    }
  }

  /** What holds when a call finds its lowlink equal to its own index. */
  ghost predicate AtRoot(g: Graph, indices: map<Name, nat>, stacked: set<Name>, done: set<Name>, open: set<Name>,
      node: Name) {
    && Shape(g, indices, stacked, done, open)
    && node in open
    && (forall x :: x in open ==> indices[x] <= indices[node])
    && (forall x :: x in open && indices[x] == indices[node] ==> x == node)
    && Succ(g, node) <= indices.Keys
    && LowBounds(g, indices, Top(indices, stacked, node), stacked - Top(indices, stacked, node), indices[node])
  }

  /** The top part of the stack and the emitted nodes together are closed under edges. */
  lemma TopIsClosed(g: Graph, indices: map<Name, nat>, stacked: set<Name>, done: set<Name>, open: set<Name>, node: Name)
    requires AtRoot(g, indices, stacked, done, open, node)
    ensures ClosedUnder(g, done + Top(indices, stacked, node))
  {
    hide Reach;
    var top := Top(indices, stacked, node);
    forall x, y | x in top && y in Succ(g, x)
      ensures y in done + top
    {
      assert x == node || x !in open;
      assert y in indices;
    }
  }

  /** The top part of the stack is exactly one strongly connected component. */
  lemma TopIsScc(g: Graph, indices: map<Name, nat>, stacked: set<Name>, done: set<Name>, open: set<Name>, node: Name)
    requires AtRoot(g, indices, stacked, done, open, node)
    ensures IsScc(g, Top(indices, stacked, node))
  {
    hide Reach;
    TopIsClosed(g, indices, stacked, done, open, node);
    var top := Top(indices, stacked, node);
    assert node in top;
    forall x | x in top
      ensures Mutual(g, node, x)
    {
      assert Reach(g, node, x);
      assert Grounded(g, indices, open, x);
      var o :| o in open && indices[o] <= indices[x] && Reach(g, x, o);
      ReachStaysInClosed(g, done + top, x, o);
    }
    forall x, y | x in top
      ensures y in top <==> Mutual(g, x, y)
    {
      if y in top {
        ReachTrans(g, x, node, y);
        ReachTrans(g, y, node, x);
      } else if Mutual(g, x, y) {
        ReachStaysInClosed(g, done + top, x, y);
        ReachStaysInClosed(g, done, y, x);
        assert false;
      }
    }
  }

  /** Popping that component keeps the invariant of what remains. */
  lemma PopKeepsShape(g: Graph, indices: map<Name, nat>, stacked: set<Name>, done: set<Name>, open: set<Name>,
      node: Name)
    requires AtRoot(g, indices, stacked, done, open, node)
    ensures var top := Top(indices, stacked, node);
      Shape(g, indices, stacked - top, done + top, open - {node})
  {
    hide Reach;
    TopIsClosed(g, indices, stacked, done, open, node);
    var top := Top(indices, stacked, node);
    forall y | y in stacked - top
      ensures Grounded(g, indices, open - {node}, y)
    {
      assert Grounded(g, indices, open, y);
      var x :| x in open && indices[x] <= indices[y] && Reach(g, y, x);
      assert x in open - {node};
    }
  }

  /** The components emitted so far: each one a whole strongly connected
      component without repetition, no node in two of them, and every edge that
      leaves a component leads to the same or an earlier one. */
  ghost predicate Emitted(g: Graph, result: seq<seq<Name>>, done: set<Name>) {
    && (forall x :: x in done <==> exists c :: 0 <= c < |result| && x in result[c])
    && (forall c :: 0 <= c < |result| ==> Distinct(result[c]) && IsScc(g, Elems(result[c])))
    && (forall c, d, x :: 0 <= c < d < |result| && x in result[c] ==> x !in result[d])
    && (forall c, x, y :: 0 <= c < |result| && x in result[c] && y in Succ(g, x) ==>
          exists d :: 0 <= d <= c && y in result[d])
  }

  /** Appending the popped component keeps the emitted list in order. */
  lemma EmitKeepsEmitted(g: Graph, result: seq<seq<Name>>, done: set<Name>, c: seq<Name>)
    requires Emitted(g, result, done)
    requires Distinct(c) && IsScc(g, Elems(c)) && Elems(c) !! done
    requires ClosedUnder(g, done + Elems(c))
    ensures Emitted(g, result + [c], done + Elems(c))
  {
    hide Reach, IsScc;
    var result' := result + [c];
    forall x
      ensures x in done + Elems(c) <==> exists d :: 0 <= d < |result'| && x in result'[d]
    {
      if x in done {
        var d :| 0 <= d < |result| && x in result[d];
        assert x in result'[d];
      }
      if x in c { assert x in result'[|result|]; }
    }
    forall d, e, x | 0 <= d < e < |result'| && x in result'[d]
      ensures x !in result'[e]
    {
      if e == |result| {
        assert x in result[d] && x in done;
        assert x !in Elems(c);
      }
    }
    forall d, x, y | 0 <= d < |result'| && x in result'[d] && y in Succ(g, x)
      ensures exists e :: 0 <= e <= d && y in result'[e]
    {
      if d < |result| {
        var e :| 0 <= e <= d && y in result[e];
        assert y in result'[e];
      } else {
        assert x in done + Elems(c) && y in done + Elems(c);
        if y in c { assert y in result'[d]; }
      }
    }
  }

  /** Indices grow along the stack. */
  ghost predicate Rising(indices: map<Name, nat>, stack: seq<Name>)
    requires Elems(stack) <= indices.Keys
  {
    forall i, j :: 0 <= i < j < |stack| ==> indices[stack[i]] < indices[stack[j]]
  }

  /** The lists cover the nodes of the graph, each node once, and two nodes
      share a list exactly when each reaches the other; whatever a list
      reaches is in that list or in an earlier one. */
  ghost predicate SccPartition(g: Graph, result: seq<seq<Name>>) {
    && (forall c :: 0 <= c < |result| ==> result[c] != [] && Distinct(result[c]))
    && (forall c, x :: 0 <= c < |result| && x in result[c] ==> x in Nodes(g))
    && (forall x :: x in Nodes(g) ==> exists c :: 0 <= c < |result| && x in result[c])
    && (forall c, d, x, y :: 0 <= c < |result| && 0 <= d < |result| && x in result[c] && y in result[d] ==>
          (c == d <==> Mutual(g, x, y)))
    && (forall c, d, x, y ::
          0 <= c < |result| && 0 <= d < |result| && x in result[c] && y in result[d] && Reach(g, x, y) ==>
          d <= c)
  }

  function Min(a: int, b: int): int {
    if a <= b then a else b
  }

  /** On a rising stack the suffix from a position is the top part, and the prefix the rest. */
  lemma AboveIsTop(indices: map<Name, nat>, stack: seq<Name>, k: nat)
    requires Elems(stack) <= indices.Keys && Rising(indices, stack) && k < |stack|
    ensures Elems(stack[k..]) == Top(indices, Elems(stack), stack[k])
    ensures Elems(stack[..k]) == Elems(stack) - Top(indices, Elems(stack), stack[k])
  {
    assert stack == stack[..k] + stack[k..];
    forall i | 0 <= i < |stack|
      ensures i < k <==> indices[stack[i]] < indices[stack[k]]
      ensures i < k ==> stack[..k][i] == stack[i]
      ensures k <= i ==> stack[k..][i - k] == stack[i]
    {
    }
  }

  ghost function Reversed(s: seq<Name>): seq<Name> {
    if s == [] then [] else Reversed(s[1..]) + [s[0]]
  }

  lemma {:induction false} ReversedElems(s: seq<Name>)
    requires Distinct(s)
    ensures Distinct(Reversed(s)) && Elems(Reversed(s)) == Elems(s)
  {
    if s != [] {
      ReversedElems(s[1..]);
      assert s == [s[0]] + s[1..];
      assert s[0] !in Elems(s[1..]);
      assert Elems(Reversed(s)) == Elems(Reversed(s[1..])) + {s[0]};
    }
  }

  /** One pop from a stack without repetition. */
  lemma PopStep(full: seq<Name>, n: nat, k: nat)
    requires Distinct(full) && k < n <= |full|
    ensures Elems(full[..n - 1]) == Elems(full[..n]) - {full[n - 1]}
    ensures Reversed(full[n - 1..]) == Reversed(full[n..]) + [full[n - 1]]
    ensures full[n - 1] == full[k] <==> n - 1 == k
    ensures full[..n][..n - 1] == full[..n - 1]
  {
    assert full[..n] == full[..n - 1] + [full[n - 1]];
    assert full[n - 1..][1..] == full[n..];
  }

  lemma RisingNoDup(indices: map<Name, nat>, stack: seq<Name>)
    requires Elems(stack) <= indices.Keys && Rising(indices, stack)
    ensures Distinct(stack)
  {
    forall i, j | 0 <= i < j < |stack|
      ensures stack[i] != stack[j]
    {
      assert indices[stack[i]] < indices[stack[j]];
    }
  }

  lemma RisingPrefix(indices: map<Name, nat>, stack: seq<Name>, k: nat)
    requires Elems(stack) <= indices.Keys && Rising(indices, stack) && k <= |stack|
    ensures Elems(stack[..k]) <= indices.Keys && Rising(indices, stack[..k])
  {
  }

  lemma RisingPush(indices: map<Name, nat>, stack: seq<Name>, node: Name, index: nat)
    requires Elems(stack) <= indices.Keys && node !in indices && Rising(indices, stack)
    requires forall x :: x in indices ==> indices[x] < index
    ensures Elems(stack + [node]) <= indices.Keys + {node}
    ensures Rising(indices[node := index], stack + [node])
  {
    forall i | 0 <= i < |stack|
      ensures stack[i] != node && indices[stack[i]] < index
    {
      assert stack[i] in Elems(stack);
    }
  }

  lemma EdgesStayInNodes(g: Graph, x: Name, y: Name)
    requires y in Succ(g, x)
    ensures x in Nodes(g) && y in Nodes(g)
  {
  }

  /** The tables of the search at one moment. */
  datatype Numbers = Numbers(index: nat, stack: seq<Name>, indices: map<Name, nat>, lowlinks: map<Name, int>)

  /** What a call leaves alone: visited nodes keep their numbers, new nodes
      get higher ones, and the stack only grows at its end. */
  ghost predicate Extends(a: Numbers, b: Numbers) {
    && a.stack <= b.stack
    && a.index <= b.index
    && a.indices.Keys == a.lowlinks.Keys
    && b.indices.Keys == b.lowlinks.Keys
    && (forall x :: x in a.indices ==> x in b.indices && b.indices[x] == a.indices[x] && b.lowlinks[x] == a.lowlinks[x])
    && (forall x :: x in b.indices && x !in a.indices ==> a.index <= b.indices[x])
  }

  ghost predicate InTables(n: Numbers, node: Name) {
    && Elems(n.stack) <= n.indices.Keys
    && node in n.indices && node in n.lowlinks
  }

  /** The lowlink of an open call whose neighbours in `seen` have been handled;
      `below` holds the stack nodes older than the call. */
  ghost predicate LowFacts(g: Graph, n: Numbers, below: set<Name>, node: Name, seen: set<Name>)
    requires InTables(n, node) && below <= n.indices.Keys
  {
    var low := n.lowlinks[node];
    && low <= n.indices[node]
    && LowReached(g, n.indices, Elems(n.stack), node, low)
    && LowBounds(g, n.indices, Elems(n.stack) - below - {node}, below, low)
    && (forall y :: y in seen ==> y in n.indices && (y in below ==> low <= n.indices[y]))
  }

  /** The lowlink a call leaves behind: its own index if it emitted its
      component, else the index of an older stack node it reaches; and no edge
      from the nodes it left on the stack goes below that bound. */
  ghost predicate CallLow(g: Graph, a: Numbers, b: Numbers, node: Name)
    requires InTables(b, node) && Elems(a.stack) <= b.indices.Keys
  {
    var low := b.lowlinks[node];
    && low <= b.indices[node]
    && (if b.stack == a.stack then low == b.indices[node] else LowReached(g, b.indices, Elems(b.stack), node, low))
    && LowBounds(g, b.indices, Elems(b.stack) - Elems(a.stack), Elems(a.stack), low)
  }

  lemma PrefixElems(s: seq<Name>, t: seq<Name>)
    requires s <= t
    ensures Elems(s) <= Elems(t)
  {
  }

  /** A fresh node is its own lowlink. */
  lemma LowAtOpen(g: Graph, a: Numbers, b: Numbers, node: Name)
    requires Elems(a.stack) <= a.indices.Keys == a.lowlinks.Keys && node !in a.indices
    requires forall x :: x in a.indices ==> a.indices[x] < a.index
    requires b == Numbers(a.index + 1, a.stack + [node], a.indices[node := a.index], a.lowlinks[node := a.index])
    ensures Extends(a, b) && Elems(b.stack) == Elems(a.stack) + {node}
    ensures InTables(b, node) && LowFacts(g, b, Elems(a.stack), node, {})
  {
    hide Reach;
    ReachRefl(g, node);
    assert b.stack[|a.stack|] == node;
    assert Elems(b.stack) == Elems(a.stack) + {node};
  }

  /** A call that returns with its node still on the stack. */
  lemma CallLowOfReturn(g: Graph, a: Numbers, b: Numbers, node: Name)
    requires InTables(b, node) && Elems(a.stack) <= b.indices.Keys && a.stack + [node] <= b.stack
    requires LowFacts(g, b, Elems(a.stack), node, Succ(g, node))
    ensures CallLow(g, a, b, node)
    ensures LowReached(g, b.indices, Elems(b.stack), node, b.lowlinks[node])
    ensures b.lowlinks[node] <= b.indices[node]
  {
    hide Reach;
    LowBoundsWithNode(g, b, Elems(a.stack), node);
  }

  /** A call that returns having emitted everything it pushed. */
  lemma CallLowOfEmit(g: Graph, a: Numbers, b: Numbers, node: Name)
    requires InTables(b, node) && a.stack == b.stack && b.lowlinks[node] == b.indices[node]
    ensures CallLow(g, a, b, node)
  {
  }

  /** Lowering the lowlink by what a finished neighbour call left behind. */
  lemma LowAfterCall(g: Graph, b: Numbers, c: Numbers, below: set<Name>, node: Name, y: Name, seen: set<Name>)
    requires InTables(b, node) && InTables(c, node) && InTables(c, y)
    requires Extends(b, c) && below <= Elems(b.stack) && node in Elems(b.stack)
    requires LowFacts(g, b, below, node, seen)
    requires y in Succ(g, node) && y !in b.indices && b.indices[node] <= c.indices[y]
    requires CallLow(g, b, c, y)
    ensures below <= c.indices.Keys
    ensures
      LowFacts(g, c.(lowlinks := c.lowlinks[node := Min(c.lowlinks[node], c.lowlinks[y])]), below, node, seen + {y})
  {
    hide Reach;
    PrefixElems(b.stack, c.stack);
    ReachEdge(g, node, y);
    if c.lowlinks[y] < b.lowlinks[node] {
      var z :| z in Elems(c.stack) && c.indices[z] == c.lowlinks[y] && Reach(g, y, z);
      ReachTrans(g, node, y, z);
    } else {
      var z :| z in Elems(b.stack) && b.indices[z] == b.lowlinks[node] && Reach(g, node, z);
      assert z in Elems(c.stack) && c.indices[z] == c.lowlinks[node];
    }
  }

  /** Lowering the lowlink by the index of a neighbour on the stack. */
  lemma LowAfterStacked(g: Graph, b: Numbers, below: set<Name>, node: Name, y: Name, seen: set<Name>)
    requires InTables(b, node) && below <= b.indices.Keys
    requires LowFacts(g, b, below, node, seen)
    requires y in Succ(g, node) && y in Elems(b.stack)
    ensures
      LowFacts(g, b.(lowlinks := b.lowlinks[node := Min(b.lowlinks[node], b.indices[y])]), below, node, seen + {y})
  {
    hide Reach;
    ReachEdge(g, node, y);
  }

  /** An already emitted neighbour puts no bound on the lowlink. */
  lemma LowAfterEmitted(g: Graph, b: Numbers, below: set<Name>, node: Name, y: Name, seen: set<Name>)
    requires InTables(b, node) && below <= Elems(b.stack)
    requires LowFacts(g, b, below, node, seen)
    requires y in b.indices && y !in Elems(b.stack)
    ensures LowFacts(g, b, below, node, seen + {y})
  {
    hide Reach;
  }

  /** With every neighbour handled, the bound covers the node's own edges too. */
  lemma LowBoundsWithNode(g: Graph, n: Numbers, below: set<Name>, node: Name)
    requires InTables(n, node) && below <= n.indices.Keys
    requires LowFacts(g, n, below, node, Succ(g, node))
    ensures LowBounds(g, n.indices, Elems(n.stack) - below, below, n.lowlinks[node])
  {
    hide Reach;
  }

  lemma NeighboursVisited(g: Graph, n: Numbers, below: set<Name>, node: Name)
    requires InTables(n, node) && below <= n.indices.Keys
    requires LowFacts(g, n, below, node, Succ(g, node))
    ensures Succ(g, node) <= n.indices.Keys
  {
  }

  /** The root condition, from what the neighbour loop has established. */
  lemma AtRootWhenLowIsOwn(g: Graph, n: Numbers, done: set<Name>, open: set<Name>, node: Name, k: nat)
    requires InTables(n, node) && Rising(n.indices, n.stack)
    requires Shape(g, n.indices, Elems(n.stack), done, open)
    requires k < |n.stack| && n.stack[k] == node && node in open
    requires open <= Elems(n.stack[..k]) + {node}
    requires Elems(n.stack[..k]) <= n.indices.Keys
    requires LowFacts(g, n, Elems(n.stack[..k]), node, Succ(g, node)) && n.lowlinks[node] == n.indices[node]
    ensures AtRoot(g, n.indices, Elems(n.stack), done, open, node)
  {
    hide Reach;
    LowBoundsWithNode(g, n, Elems(n.stack[..k]), node);
    AboveIsTop(n.indices, n.stack, k);
    forall x | x in open
      ensures n.indices[x] <= n.indices[node] && (n.indices[x] == n.indices[node] ==> x == node)
    {
      if x != node {
        var i :| 0 <= i < k && n.stack[i] == x;
        assert n.indices[n.stack[i]] < n.indices[n.stack[k]];
      }
    }
  }

  lemma ExtendsKeeps(a: Numbers, b: Numbers, x: Name)
    requires Extends(a, b) && x in a.indices
    ensures a.stack <= b.stack && x in b.indices && x in b.lowlinks
    ensures b.indices[x] == a.indices[x] && b.lowlinks[x] == a.lowlinks[x]
  {
  }

  /** Every open node reaches the newest open one, hence its neighbours. */
  lemma OpenReachNeighbor(g: Graph, a: Numbers, b: Numbers, done: set<Name>, open: set<Name>, node: Name, y: Name)
    requires Extends(a, b) && Elems(b.stack) <= b.indices.Keys
    requires open <= a.indices.Keys && forall x :: x in a.indices ==> a.indices[x] < a.index
    requires Shape(g, b.indices, Elems(b.stack), done, open + {node})
    requires node in b.indices && b.indices[node] == a.index && y in Succ(g, node)
    ensures forall x :: x in open + {node} ==> Reach(g, x, y)
  {
    hide Reach;
    ReachEdge(g, node, y);
    forall x | x in open
      ensures Reach(g, x, y)
    {
      assert b.indices[x] <= b.indices[node] && x in Elems(b.stack) && node in Elems(b.stack);
      assert Reach(g, x, node);
      ReachTrans(g, x, node, y);
    }
  }

  lemma FewerUnvisited(nodes: set<Name>, a: Numbers, b: Numbers, node: Name)
    requires Extends(a, b) && node in nodes && node !in a.indices && node in b.indices
    ensures nodes - b.indices.Keys < nodes - a.indices.Keys
  {
    assert node in nodes - a.indices.Keys;
  }

  lemma ExtendsAfterPop(a: Numbers, b: Numbers)
    requires Extends(a, b)
    ensures Extends(a, b.(stack := a.stack))
  {
  }

  lemma OpenIsStacked(g: Graph, indices: map<Name, nat>, stacked: set<Name>, done: set<Name>, open: set<Name>)
    requires Shape(g, indices, stacked, done, open)
    ensures open <= stacked
  {
  }

  lemma ExtendsThenLower(a: Numbers, b: Numbers, c: Numbers, node: Name, low: int)
    requires Extends(a, b) && Extends(b, c)
    requires node in b.indices && node !in a.indices
    ensures Extends(a, c.(lowlinks := c.lowlinks[node := low]))
  {
  }

  class SccSearch {
    const graph: Graph
    var index: nat
    var stack: seq<Name>
    var onStack: set<Name>
    var indices: map<Name, nat>
    var lowlinks: map<Name, int>
    var result: seq<seq<Name>>

    ghost predicate Tables()
      reads this
    {
      && indices.Keys <= Nodes(graph)
      && (forall x :: x in indices ==> indices[x] < index)
      && lowlinks.Keys == indices.Keys
      && onStack == Elems(stack) <= indices.Keys
      && Rising(indices, stack)
    }

    ghost function Done(): set<Name>
      reads this
    {
      indices.Keys - Elems(stack)
    }

    /** `open` is the set of nodes whose calls have not returned. */
    ghost predicate Valid(open: set<Name>)
      reads this
    {
      && Tables()
      && Shape(graph, indices, Elems(stack), Done(), open)
      && Emitted(graph, result, Done())
    }

    constructor (g: Graph)
      ensures graph == g && Valid({}) && indices == map[] && stack == []
    {
      graph := g;
      index, stack, onStack, indices, lowlinks, result := 0, [], {}, map[], map[], [];
    }

    ghost function Now(): Numbers
      reads this
    {
      Numbers(index, stack, indices, lowlinks)
    }

    /** The first steps of a call: number the node and push it. */
    method Open(node: Name, ghost open: set<Name>)
      requires Valid(open)
      requires node in Nodes(graph) && node !in indices
      requires forall x :: x in open ==> Reach(graph, x, node)
      modifies this`index, this`stack, this`onStack, this`indices, this`lowlinks
      ensures Valid(open + {node}) && Extends(old(Now()), Now())
      ensures node in indices && indices[node] == old(index) && index == old(index) + 1
      ensures stack == old(stack) + [node]
      ensures LowFacts(graph, Now(), Elems(old(stack)), node, {})
    {
      hide Reach, IsScc, Nodes, Rising, Shape, Emitted, LowFacts, Extends;
      PushKeepsShape(graph, indices, index, Elems(stack), Done(), open, node);
      ghost var start := Now();
      indices := indices[node := index];
      lowlinks := lowlinks[node := index];
      index := index + 1;
      stack := stack + [node];
      onStack := onStack + {node};
      LowAtOpen(graph, start, Now(), node);
      assert Done() == old(Done());
      RisingPush(start.indices, start.stack, node, start.index);
    }

    method StrongConnect(node: Name, ghost open: set<Name>)
      requires Valid(open)
      requires node in Nodes(graph) && node !in indices
      requires forall x :: x in open ==> Reach(graph, x, node)
      modifies this
      decreases Nodes(graph) - indices.Keys
      ensures Valid(open) && Extends(old(Now()), Now())
      ensures node in indices && indices[node] == old(index)
      ensures CallLow(graph, old(Now()), Now(), node)
    {
      hide Reach, IsScc, Nodes, Rising, Shape, Emitted, LowFacts, Extends, CallLow, LowReached, LowBounds;
      ghost var start := Now();
      OpenIsStacked(graph, indices, Elems(stack), Done(), open);
      Open(node, open);
      ghost var open' := open + {node};
      var todo := Succ(graph, node);
      assert Succ(graph, node) - todo == {};
      while todo != {}
        invariant Valid(open') && todo <= Succ(graph, node)
        invariant Extends(start, Now()) && start.stack + [node] <= stack
        invariant node in indices && indices[node] == start.index
        invariant InTables(Now(), node) && Elems(start.stack) <= indices.Keys
        invariant LowFacts(graph, Now(), Elems(start.stack), node, Succ(graph, node) - todo)
        decreases todo
      {
        var neighbor :| neighbor in todo;
        ghost var seen := Succ(graph, node) - todo;
        todo := todo - {neighbor};
        assert Succ(graph, node) - todo == seen + {neighbor};
        ghost var before := Now();
        assert stack[|start.stack|] == node;
        if neighbor !in indices {
          EdgesStayInNodes(graph, node, neighbor);
          OpenReachNeighbor(graph, start, before, Done(), open, node, neighbor);
          FewerUnvisited(Nodes(graph), start, before, node);
          StrongConnect(neighbor, open');
          ExtendsKeeps(before, Now(), node);
          PrefixElems(start.stack, before.stack);
          LowAfterCall(graph, before, Now(), Elems(start.stack), node, neighbor, seen);
          ExtendsThenLower(start, before, Now(), node, Min(lowlinks[node], lowlinks[neighbor]));
          lowlinks := lowlinks[node := Min(lowlinks[node], lowlinks[neighbor])];
        } else if neighbor in onStack {
          LowAfterStacked(graph, before, Elems(start.stack), node, neighbor, seen);
          ExtendsThenLower(start, before, before, node, Min(lowlinks[node], indices[neighbor]));
          lowlinks := lowlinks[node := Min(lowlinks[node], indices[neighbor])];
        } else {
          PrefixElems(start.stack, stack);
          LowAfterEmitted(graph, before, Elems(start.stack), node, neighbor, seen);
        }
      }
      assert Succ(graph, node) - todo == Succ(graph, node);
      if lowlinks[node] != indices[node] {
        CallLowOfReturn(graph, start, Now(), node);
        NeighboursVisited(graph, Now(), Elems(start.stack), node);
        ReturnKeepsShape(graph, indices, Elems(stack), Done(), open', node, lowlinks[node]);
        assert open' - {node} == open;
        return;
      }
      assert stack[..|start.stack|] == start.stack;
      ExtendsAfterPop(start, Now());
      AtRootWhenLowIsOwn(graph, Now(), Done(), open', node, |start.stack|);
      EmitComponent(node, open', |start.stack|);
      assert open' - {node} == open;
      CallLowOfEmit(graph, start, Now(), node);
    }

    /** The end of a call whose lowlink equals its index: what lies above the
        node on the stack is emitted as one component. */
    method EmitComponent(node: Name, ghost open: set<Name>, ghost k: nat)
      requires Valid(open) && k < |stack| && stack[k] == node
      requires AtRoot(graph, indices, Elems(stack), Done(), open, node)
      modifies this`stack, this`onStack, this`result
      ensures Valid(open - {node}) && stack == old(stack)[..k]
    {
      hide Reach, IsScc, Nodes, Shape, Emitted, AtRoot, Rising;
      ghost var full, done := Elems(stack), Done();
      AboveIsTop(indices, stack, k);
      TopIsClosed(graph, indices, full, done, open, node);
      TopIsScc(graph, indices, full, done, open, node);
      PopKeepsShape(graph, indices, full, done, open, node);
      var component := PopDownTo(node, k);
      EmitKeepsEmitted(graph, result, done, component);
      result := result + [component];
      assert Done() == done + Elems(component);
    }

    /** Pops the stack down to and including the given node. */
    method PopDownTo(node: Name, ghost k: nat) returns (component: seq<Name>)
      requires Tables() && k < |stack| && stack[k] == node
      modifies this`stack, this`onStack
      ensures Tables() && stack == old(stack)[..k]
      ensures Distinct(component) && Elems(component) == Elems(old(stack)[k..])
      ensures component == Reversed(old(stack)[k..])
    {
      hide Reach, IsScc, Nodes, Rising;
      component := [];
      RisingNoDup(indices, stack);
      while stack != []
        invariant k < |stack| <= |old(stack)| && stack == old(stack)[..|stack|]
        invariant onStack == Elems(stack) <= indices.Keys
        invariant component == Reversed(old(stack)[|stack|..])
      {
        PopStep(old(stack), |stack|, k);
        var item := stack[|stack| - 1];
        stack := stack[..|stack| - 1];
        onStack := onStack - {item};
        component := component + [item];
        if item == node {
          break;
        }
      }
      ReversedElems(old(stack)[k..]);
      RisingPrefix(indices, old(stack), k);
    }

    /** The search from every node, in name order. */
    method Run()
      requires Valid({}) && indices == map[]
      modifies this
      ensures Valid({}) && indices.Keys == Nodes(graph) && Elems(stack) == {}
    {
      hide Reach, IsScc, Nodes, Rising, Emitted, Extends, CallLow;
      NamesAreOrdered();
      var order := Sorted(NameLe, Nodes(graph));
      for i := 0 to |order|
        invariant Valid({})
        invariant forall k :: 0 <= k < i ==> order[k] in indices
      {
        var node := order[i];
        if node !in indices {
          ghost var before := Now();
          StrongConnect(node, {});
          forall k | 0 <= k < i
            ensures order[k] in indices
          {
            ExtendsKeeps(before, Now(), order[k]);
          }
        }
      }
      NothingStacked(graph, indices, Elems(stack), Done());
    }
  }

  /** With no call open the stack is empty. */
  lemma NothingStacked(g: Graph, indices: map<Name, nat>, stacked: set<Name>, done: set<Name>)
    requires Shape(g, indices, stacked, done, {})
    ensures stacked == {}
  {
    assert forall y :: y in stacked ==> Grounded(g, indices, {}, y);
  }

  lemma EmittedIsPartition(g: Graph, result: seq<seq<Name>>)
    requires Emitted(g, result, Nodes(g))
    ensures SccPartition(g, result)
  {
    hide Reach, Nodes;
    forall c, d, x, y | 0 <= c < |result| && 0 <= d < |result| && x in result[c] && y in result[d]
      ensures c == d <==> Mutual(g, x, y)
      ensures Reach(g, x, y) ==> d <= c
    {
      assert IsScc(g, Elems(result[c])) && x in Elems(result[c]);
      if Reach(g, x, y) {
        ReachesNoLater(g, result, c, x, y);
      }
    }
  }

  /** The first lists up to c are closed under edges, so they hold all that c reaches. */
  lemma ReachesNoLater(g: Graph, result: seq<seq<Name>>, c: nat, x: Name, y: Name)
    requires Emitted(g, result, Nodes(g))
    requires c < |result| && x in result[c] && Reach(g, x, y)
    ensures exists d :: 0 <= d <= c && y in result[d]
  {
    hide Reach, IsScc;
    var closed := set d, z | 0 <= d <= c && z in result[d] :: z;
    forall u, v | u in closed && v in Succ(g, u)
      ensures v in closed
    {
      var d :| 0 <= d <= c && u in result[d];
      var e :| 0 <= e <= d && v in result[e];
    }
    ReachStaysInClosed(g, closed, x, y);
  }

  method TarjanScc(g: Graph) returns (result: seq<seq<Name>>)
    ensures SccPartition(g, result)
  {
    hide SccPartition, Emitted, Nodes, Reach;
    var search := new SccSearch(g);
    search.Run();
    assert search.Done() == Nodes(g);
    result := search.result;
    EmittedIsPartition(g, result);
  }
}
