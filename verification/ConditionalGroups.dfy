/** Which lines are carried out, said of the directives alone: those in the first branch
    whose condition holds, in every group around them. */
module ConditionalGroups {
  import opened Conditionals

  predicate Within(g: seq<nat>, p: nat) { forall k :: 0 <= k < |g| ==> g[k] < p }

  /** The open groups before line p, the outermost first: of each the positions of its
      directives so far. */
  function GroupsAt(lines: seq<Line>, p: nat): (gs: seq<seq<nat>>)
    requires p <= |lines|
    ensures forall d :: 0 <= d < |gs| ==> gs[d] != [] && Within(gs[d], p)
  {
    if p == 0 then []
    else
      var before := GroupsAt(lines, p - 1);
      match lines[p - 1]
      case Ifdef(_) => before + [[p - 1]]
      case Ifndef(_) => before + [[p - 1]]
      case Elsif(_) => WithDirective(before, p - 1)
      case Else => WithDirective(before, p - 1)
      case Endif => if before == [] then [] else before[..|before| - 1]
      case _ => before
  }

  /** One more directive of the innermost group. */
  function WithDirective(gs: seq<seq<nat>>, q: nat): seq<seq<nat>> {
    if gs == [] then [] else gs[..|gs| - 1] + [gs[|gs| - 1] + [q]]
  }

  /** The state before line p. */
  function StateAt<S>(m: Machine<S>, lines: seq<Line>, n: nat, s: S, p: nat): S
    requires p <= |lines|
  {
    Run(m, lines[..p], n, [], s).0
  }

  /** The condition of the directive at line q, on the macros known there. */
  predicate Condition<S>(m: Machine<S>, lines: seq<Line>, n: nat, s: S, q: nat)
    requires q < |lines|
  {
    match lines[q]
    case Ifdef(macro) => m.has(macro, StateAt(m, lines, n, s, q))
    case Ifndef(macro) => !m.has(macro, StateAt(m, lines, n, s, q))
    case Elsif(macro) => m.has(macro, StateAt(m, lines, n, s, q))
    case _ => true
  }

  /** The last of these directives is the first whose condition holds. */
  ghost predicate Chosen<S>(m: Machine<S>, lines: seq<Line>, n: nat, s: S, g: seq<nat>)
    requires g != [] && Within(g, |lines|)
  {
    && Condition(m, lines, n, s, g[|g| - 1])
    && forall k :: 0 <= k < |g| - 1 ==> !Condition(m, lines, n, s, g[k])
  }

  /** Some directive of the group had a condition that holds. */
  ghost predicate SomeHeld<S>(m: Machine<S>, lines: seq<Line>, n: nat, s: S, g: seq<nat>)
    requires Within(g, |lines|)
  {
    exists k :: 0 <= k < |g| && Condition(m, lines, n, s, g[k])
  }

  /** What each frame remembers of its group. */
  ghost predicate FramesAgree<S>(m: Machine<S>, lines: seq<Line>, n: nat, s: S, p: nat)
    requires p <= |lines|
  {
    var (frames, gs) := (FramesAt(m, lines, n, s, p), GroupsAt(lines, p));
    && |frames| == |gs|
    && forall d :: 0 <= d < |gs| ==> FrameAgrees(m, lines, n, s, frames, gs, d)
  }

  ghost predicate FrameAgrees<S>(m: Machine<S>, lines: seq<Line>, n: nat, s: S, frames: seq<Frame>, gs: seq<seq<nat>>,
      d: nat)
    requires d < |frames| == |gs| && gs[d] != [] && Within(gs[d], |lines|)
  {
    && frames[d].parentActive == (d == 0 || frames[d - 1].active)
    && (frames[d].branchTaken <==> SomeHeld(m, lines, n, s, gs[d]))
    && (frames[d].active <==> frames[d].parentActive && Chosen(m, lines, n, s, gs[d]))
  }

  lemma OpenAgrees<S>(m: Machine<S>, lines: seq<Line>, n: nat, s: S, p: nat)
    requires p < |lines| && FramesAgree(m, lines, n, s, p) && (lines[p].Ifdef? || lines[p].Ifndef?)
    ensures FramesAgree(m, lines, n, s, p + 1)
  {
    var (frames, gs) := (FramesAt(m, lines, n, s, p), GroupsAt(lines, p));
    var condition := Condition(m, lines, n, s, p);
    assert lines[..p + 1] == lines[..p] + [lines[p]];
    RunAppend(m, lines[..p], lines[p], n, [], s);
    hide Run;
    var (after, more) := (FramesAt(m, lines, n, s, p + 1), GroupsAt(lines, p + 1));
    assert more == gs + [[p]] && after == frames + [Frame(Active(frames), Active(frames) && condition, condition)];
    hide Condition, FramesAt, GroupsAt;
    forall d | 0 <= d < |more| ensures FrameAgrees(m, lines, n, s, after, more, d) {
      if d < |gs| {
        assert FrameAgrees(m, lines, n, s, frames, gs, d);
      } else {
        assert more[d] == [p] && Chosen(m, lines, n, s, [p]) == condition && SomeHeld(m, lines, n, s, [p]) == condition;
      }
    }
  }

  lemma StepAt<S>(m: Machine<S>, lines: seq<Line>, n: nat, s: S, p: nat)
    requires p < |lines|
    ensures var (frames, l) := (FramesAt(m, lines, n, s, p), lines[p]);
      FramesAt(m, lines, n, s, p + 1) ==
        if IsConditional(l) && (frames != [] || Opens(l))
        then StepFrames(frames, l, m.has(MacroOf(l), StateAt(m, lines, n, s, p))) else frames
  {
    hide Run, StepFrames;
    assert lines[..p + 1] == lines[..p] + [lines[p]];
    RunAppend(m, lines[..p], lines[p], n, [], s);
  }

  /** One more directive: the group has held if it had, or if this one does, and it is chosen
      if it had not and this one does. */
  lemma OneMoreDirective<S>(m: Machine<S>, lines: seq<Line>, n: nat, s: S, g: seq<nat>, p: nat)
    requires Within(g, |lines|) && p < |lines|
    ensures Within(g + [p], |lines|)
    ensures SomeHeld(m, lines, n, s, g + [p]) <==> SomeHeld(m, lines, n, s, g) || Condition(m, lines, n, s, p)
    ensures Chosen(m, lines, n, s, g + [p]) <==> !SomeHeld(m, lines, n, s, g) && Condition(m, lines, n, s, p)
  {
    hide Condition;
    var more := g + [p];
    assert forall k :: 0 <= k < |g| ==> more[k] == g[k];
    assert more[|more| - 1] == p;
    if Condition(m, lines, n, s, p) { assert Condition(m, lines, n, s, more[|g|]); }
    if SomeHeld(m, lines, n, s, g) {
      var k :| 0 <= k < |g| && Condition(m, lines, n, s, g[k]);
      assert Condition(m, lines, n, s, more[k]);
    }
  }

  lemma ContinueAgrees<S>(m: Machine<S>, lines: seq<Line>, n: nat, s: S, p: nat)
    requires p < |lines| && FramesAgree(m, lines, n, s, p) && (lines[p].Elsif? || lines[p].Else?)
    ensures FramesAgree(m, lines, n, s, p + 1)
  {
    var (frames, gs) := (FramesAt(m, lines, n, s, p), GroupsAt(lines, p));
    StepAt(m, lines, n, s, p);
    var (after, more) := (FramesAt(m, lines, n, s, p + 1), GroupsAt(lines, p + 1));
    var condition := Condition(m, lines, n, s, p);
    hide FramesAt;
    if gs != [] {
      var last := |gs| - 1;
      var (g, top) := (gs[last], frames[last]);
      assert more == gs[..last] + [g + [p]];
      assert after == frames[..last] + [Frame(top.parentActive, top.parentActive && !top.branchTaken && condition,
        top.branchTaken || condition)];
      OneMoreDirective(m, lines, n, s, g, p);
      hide Condition, GroupsAt;
      forall d | 0 <= d < |more| ensures FrameAgrees(m, lines, n, s, after, more, d) {
        assert FrameAgrees(m, lines, n, s, frames, gs, d);
        assert d < last ==> more[d] == gs[d] && after[d] == frames[d];
      }
    }
  }

  lemma CloseAgrees<S>(m: Machine<S>, lines: seq<Line>, n: nat, s: S, p: nat)
    requires p < |lines| && FramesAgree(m, lines, n, s, p) && lines[p].Endif?
    ensures FramesAgree(m, lines, n, s, p + 1)
  {
    var (frames, gs) := (FramesAt(m, lines, n, s, p), GroupsAt(lines, p));
    StepAt(m, lines, n, s, p);
    var (after, more) := (FramesAt(m, lines, n, s, p + 1), GroupsAt(lines, p + 1));
    hide FramesAt;
    if gs != [] {
      assert more == gs[..|gs| - 1] && after == frames[..|gs| - 1];
      hide GroupsAt, Chosen, SomeHeld;
      forall d | 0 <= d < |more| ensures FrameAgrees(m, lines, n, s, after, more, d) {
        assert FrameAgrees(m, lines, n, s, frames, gs, d);
      }
    }
  }

  lemma OtherAgrees<S>(m: Machine<S>, lines: seq<Line>, n: nat, s: S, p: nat)
    requires p < |lines| && FramesAgree(m, lines, n, s, p)
    requires var l := lines[p]; !l.Ifdef? && !l.Ifndef? && !l.Elsif? && !l.Else? && !l.Endif?
    ensures FramesAgree(m, lines, n, s, p + 1)
  {
    StepAt(m, lines, n, s, p);
    assert GroupsAt(lines, p + 1) == GroupsAt(lines, p);
    assert FramesAt(m, lines, n, s, p + 1) == FramesAt(m, lines, n, s, p);
    hide FramesAt, GroupsAt, FrameAgrees;
  }

  lemma {:induction false} FramesAlwaysAgree<S>(m: Machine<S>, lines: seq<Line>, n: nat, s: S, p: nat)
    requires p <= |lines|
    ensures FramesAgree(m, lines, n, s, p)
  {
    if p == 0 {
      assert lines[..0] == [];
    } else {
      FramesAlwaysAgree(m, lines, n, s, p - 1);
      hide FramesAgree;
      match lines[p - 1] {
        case Ifdef(_) => OpenAgrees(m, lines, n, s, p - 1);
        case Ifndef(_) => OpenAgrees(m, lines, n, s, p - 1);
        case Elsif(_) => ContinueAgrees(m, lines, n, s, p - 1);
        case Else => ContinueAgrees(m, lines, n, s, p - 1);
        case Endif => CloseAgrees(m, lines, n, s, p - 1);
        case _ => OtherAgrees(m, lines, n, s, p - 1);
      }
    }
  }

  /** All groups around line p are in their chosen branch. */
  ghost predicate AllChosen<S>(m: Machine<S>, lines: seq<Line>, n: nat, s: S, p: nat)
    requires p <= |lines|
  {
    var gs := GroupsAt(lines, p);
    forall d :: 0 <= d < |gs| ==> Chosen(m, lines, n, s, gs[d])
  }

  /** A line is carried out exactly when, in every group around it, the last directive before
      it is the first of the group whose condition holds. */
  lemma ActiveIffChosen<S>(m: Machine<S>, lines: seq<Line>, n: nat, s: S, p: nat)
    requires p <= |lines|
    ensures Active(FramesAt(m, lines, n, s, p)) <==> AllChosen(m, lines, n, s, p)
    ensures |FramesAt(m, lines, n, s, p)| == |GroupsAt(lines, p)|
  {
    FramesAlwaysAgree(m, lines, n, s, p);
    ActiveInRun(m, lines, n, s, p);
    var (frames, gs) := (FramesAt(m, lines, n, s, p), GroupsAt(lines, p));
    hide FramesAt, Chosen, SomeHeld;
    forall d | 0 <= d < |gs| ensures ActiveAt(m, lines, n, s, frames, gs, d) {
      assert FrameAgrees(m, lines, n, s, frames, gs, d);
    }
    AllOrNone(m, lines, n, s, frames, gs, |gs|);
  }

  ghost predicate ActiveAt<S>(m: Machine<S>, lines: seq<Line>, n: nat, s: S, frames: seq<Frame>, gs: seq<seq<nat>>,
      d: nat)
    requires d < |frames| == |gs| && gs[d] != [] && Within(gs[d], |lines|)
  {
    frames[d].active <==> (d == 0 || frames[d - 1].active) && Chosen(m, lines, n, s, gs[d])
  }

  lemma {:induction false} AllOrNone<S>(m: Machine<S>, lines: seq<Line>, n: nat, s: S, frames: seq<Frame>,
      gs: seq<seq<nat>>, k: nat)
    requires k <= |frames| == |gs| && forall d :: 0 <= d < |gs| ==> gs[d] != [] && Within(gs[d], |lines|)
    requires forall d :: 0 <= d < |gs| ==> ActiveAt(m, lines, n, s, frames, gs, d)
    ensures (forall d :: 0 <= d < k ==> frames[d].active) <==> forall d :: 0 <= d < k ==> Chosen(m, lines, n, s, gs[d])
  {
    hide Chosen;
    if k > 0 {
      AllOrNone(m, lines, n, s, frames, gs, k - 1);
      assert ActiveAt(m, lines, n, s, frames, gs, k - 1);
    }
  }
}
