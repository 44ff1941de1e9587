/** Conditional compilation: the flat stack of frames that the preprocessor
    keeps while it reads lines, against the recursive reading that takes the
    first true branch of every group. */
module Conditionals {
  import opened Tokens

  /** A line after comment removal. */
  datatype Line =
    | Ifdef(macro: string) | Ifndef(macro: string) | Elsif(macro: string) | Else | Endif
    | Include(name: Option<string>)
    | Define(macro: string, body: string) | EmptyDefine | FunctionMacro
    | Undef(undefined: Option<string>)
    | DefaultNettype(isNone: bool) | Timescale(text: string) | CellDefine | Unsupported(directive: string)
    | Text(text: string)

  predicate Opens(l: Line) { l.Ifdef? || l.Ifndef? }

  predicate Continues(l: Line) { l.Elsif? || l.Else? }

  predicate IsConditional(l: Line) { Opens(l) || Continues(l) || l.Endif? }

  datatype Frame = Frame(parentActive: bool, active: bool, branchTaken: bool)

  function Active(frames: seq<Frame>): bool {
    frames == [] || frames[|frames| - 1].active
  }

  /** The effect of a conditional directive on the frames. */
  function StepFrames(frames: seq<Frame>, l: Line, defined: bool): seq<Frame>
    requires IsConditional(l)
  {
    if Opens(l) then
      var condition := if l.Ifdef? then defined else !defined;
      frames + [Frame(Active(frames), Active(frames) && condition, condition)]
    else if frames == [] then frames
    else
      var (below, top) := (frames[..|frames| - 1], frames[|frames| - 1]);
      match l
      case Elsif(_) =>
        below + [top.(active := top.parentActive && !top.branchTaken && defined,
                      branchTaken := top.branchTaken || defined)]
      case Else => below + [top.(active := top.parentActive && !top.branchTaken, branchTaken := true)]
      case _ => below
  }

  function MacroOf(l: Line): string
    requires IsConditional(l)
  {
    match l
    case Ifdef(m) => m
    case Ifndef(m) => m
    case Elsif(m) => m
    case _ => ""
  }

  /** What holds of the frames in every run, on any lines: each frame remembers
      whether what is around it is active, and is active only if that is and a
      branch of its own has been taken. */
  ghost predicate FramesOk(frames: seq<Frame>) {
    forall k :: 0 <= k < |frames| ==> FrameOk(frames, k)
  }

  predicate FrameOk(frames: seq<Frame>, k: nat)
    requires k < |frames|
  {
    && frames[k].parentActive == (k == 0 || frames[k - 1].active)
    && (frames[k].active ==> frames[k].parentActive && frames[k].branchTaken)
  }

  lemma StepKeepsFramesOk(frames: seq<Frame>, l: Line, defined: bool)
    requires FramesOk(frames) && IsConditional(l)
    ensures FramesOk(StepFrames(frames, l, defined))
  {
    var after := StepFrames(frames, l, defined);
    forall k | 0 <= k < |after| ensures FrameOk(after, k) {
      if k < |frames| { assert FrameOk(frames, k); }
    }
  }

  lemma FramesBelowOk(frames: seq<Frame>)
    requires FramesOk(frames) && frames != []
    ensures FramesOk(frames[..|frames| - 1])
  {
    var below := frames[..|frames| - 1];
    forall k | 0 <= k < |below| ensures FrameOk(below, k) {
      assert FrameOk(frames, k);
    }
  }

  /** The top frame is active exactly when every frame is. */
  lemma {:induction false} ActiveIsConjunction(frames: seq<Frame>)
    requires FramesOk(frames)
    ensures Active(frames) <==> forall k :: 0 <= k < |frames| ==> frames[k].active
  {
    if frames != [] {
      var below := frames[..|frames| - 1];
      assert FramesOk(below) by { FramesBelowOk(frames); }
      assert FrameOk(frames, |below|);
      ActiveIsConjunction(below);
      assert forall k :: 0 <= k < |below| ==> below[k] == frames[k];
    }
  }

  /** What the rest of the preprocessor does with a line: carry it out, look a
      macro up, or note a directive with no group to belong to. */
  datatype Machine<!S> = Machine(exec: (Line, nat, S) -> S, has: (string, S) -> bool, fault: (Line, nat, S) -> S)

  /** Reading lines one by one with a stack of frames. */
  function Run<S>(m: Machine<S>, lines: seq<Line>, n: nat, frames: seq<Frame>, s: S): (S, seq<Frame>)
  {
    if lines == [] then (s, frames)
    else
      var l := lines[0];
      if IsConditional(l) then
        if frames == [] && !Opens(l) then Run(m, lines[1..], n + 1, frames, m.fault(l, n, s))
        else Run(m, lines[1..], n + 1, StepFrames(frames, l, m.has(MacroOf(l), s)), s)
      else Run(m, lines[1..], n + 1, frames, if Active(frames) then m.exec(l, n, s) else s)
  }

  /** One line of a run. */
  function RunLine<S>(m: Machine<S>, l: Line, n: nat, frames: seq<Frame>, s: S): (S, seq<Frame>) {
    if IsConditional(l) then
      if frames == [] && !Opens(l) then (m.fault(l, n, s), frames)
      else (s, StepFrames(frames, l, m.has(MacroOf(l), s)))
    else (if Active(frames) then m.exec(l, n, s) else s, frames)
  }

  lemma {:induction false} RunAppend<S>(m: Machine<S>, x: seq<Line>, l: Line, n: nat, frames: seq<Frame>, s: S)
    ensures var (s', frames') := Run(m, x, n, frames, s);
      Run(m, x + [l], n, frames, s) == RunLine(m, l, n + |x|, frames', s')
    decreases |x|
  {
    hide StepFrames;
    if x == [] {
      assert x + [l] == [l] && [l][1..] == [];
    } else {
      assert (x + [l])[1..] == x[1..] + [l];
      var (s', frames') := RunLine(m, x[0], n, frames, s);
      RunAppend(m, x[1..], l, n + 1, frames', s');
    }
  }

  /** The frame invariant holds in every run. */
  lemma {:induction false} RunKeepsFramesOk<S>(m: Machine<S>, lines: seq<Line>, n: nat, frames: seq<Frame>, s: S)
    requires FramesOk(frames)
    ensures FramesOk(Run(m, lines, n, frames, s).1)
    decreases |lines|
  {
    hide StepFrames, FramesOk;
    if lines != [] {
      var l := lines[0];
      if IsConditional(l) { StepKeepsFramesOk(frames, l, m.has(MacroOf(l), s)); }
      var (s', frames') := RunLine(m, l, n, frames, s);
      RunKeepsFramesOk(m, lines[1..], n + 1, frames', s');
    }
  }

  /** The frames after the first p lines of a file. */
  function FramesAt<S>(m: Machine<S>, lines: seq<Line>, n: nat, s: S, p: nat): seq<Frame>
    requires p <= |lines|
  {
    Run(m, lines[..p], n, [], s).1
  }

  /** At every point of every run a line is carried out exactly when every group around it is active. */
  lemma ActiveInRun<S>(m: Machine<S>, lines: seq<Line>, n: nat, s: S, p: nat)
    requires p <= |lines|
    ensures var frames := FramesAt(m, lines, n, s, p);
      Active(frames) <==> forall k :: 0 <= k < |frames| ==> frames[k].active
  {
    hide Run, FrameOk;
    assert FramesOk([]);
    RunKeepsFramesOk(m, lines[..p], n, [], s);
    ActiveIsConjunction(FramesAt(m, lines, n, s, p));
  }

  lemma FramesStep<S>(m: Machine<S>, lines: seq<Line>, n: nat, s: S, p: nat) returns (defined: bool)
    requires p < |lines|
    ensures var (before, after) := (FramesAt(m, lines, n, s, p), FramesAt(m, lines, n, s, p + 1));
      after ==
        if IsConditional(lines[p]) && (before != [] || Opens(lines[p])) then StepFrames(before, lines[p], defined)
        else before
  {
    hide Run, StepFrames;
    assert lines[..p + 1] == lines[..p] + [lines[p]];
    RunAppend(m, lines[..p], lines[p], n, [], s);
    var s' := Run(m, lines[..p], n, [], s).0;
    defined := IsConditional(lines[p]) && m.has(MacroOf(lines[p]), s');
  }

  /** What one line does to the d-th group, when it does not close it. */
  lemma GroupStep(frames: seq<Frame>, l: Line, defined: bool, d: nat)
    requires IsConditional(l) && d < |frames| && d < |StepFrames(frames, l, defined)| && frames[d].branchTaken
    ensures var after := StepFrames(frames, l, defined);
      && after[d].branchTaken
      && (!frames[d].active || (|frames| == d + 1 && Continues(l)) ==> !after[d].active)
  {
  }

  /** The d-th group is open, and stays open, from line i to line k. */
  ghost predicate StaysOpen<S>(m: Machine<S>, lines: seq<Line>, n: nat, s: S, d: nat, i: nat, k: nat)
    requires k <= |lines|
  {
    forall p :: i <= p <= k ==> |FramesAt(m, lines, n, s, p)| > d
  }

  lemma {:induction false} TakenStays<S>(m: Machine<S>, lines: seq<Line>, n: nat, s: S, d: nat, i: nat, k: nat)
    requires i <= k <= |lines| && StaysOpen(m, lines, n, s, d, i, k)
    requires FramesAt(m, lines, n, s, i)[d].branchTaken
    ensures FramesAt(m, lines, n, s, k)[d].branchTaken
    ensures !FramesAt(m, lines, n, s, i)[d].active ==> !FramesAt(m, lines, n, s, k)[d].active
    decreases k - i
  {
    hide FramesAt, StepFrames;
    if i < k {
      var defined := FramesStep(m, lines, n, s, i);
      var before := FramesAt(m, lines, n, s, i);
      assert |FramesAt(m, lines, n, s, i + 1)| > d;
      if IsConditional(lines[i]) { GroupStep(before, lines[i], defined, d); }
      TakenStays(m, lines, n, s, d, i + 1, k);
    }
  }

  /** At most one branch of a group is active in a run: once one has been, and
      another directive of the group has ended it, the group stays inactive, and
      with it every line, until it is closed. */
  lemma AtMostOneBranch<S>(m: Machine<S>, lines: seq<Line>, n: nat, s: S, d: nat, i: nat, j: nat, k: nat)
    requires i <= j < k <= |lines| && StaysOpen(m, lines, n, s, d, i, k)
    requires FramesAt(m, lines, n, s, i)[d].active
    requires |FramesAt(m, lines, n, s, j)| == d + 1 && Continues(lines[j])
    ensures !FramesAt(m, lines, n, s, k)[d].active && !Active(FramesAt(m, lines, n, s, k))
  {
    TakenInRun(m, lines, n, s, d, i);
    hide FramesAt, StepFrames;
    TakenStays(m, lines, n, s, d, i, j);
    var defined := FramesStep(m, lines, n, s, j);
    assert |FramesAt(m, lines, n, s, j + 1)| > d;
    GroupStep(FramesAt(m, lines, n, s, j), lines[j], defined, d);
    TakenStays(m, lines, n, s, d, j + 1, k);
    ActiveInRun(m, lines, n, s, k);
  }

  lemma TakenInRun<S>(m: Machine<S>, lines: seq<Line>, n: nat, s: S, d: nat, i: nat)
    requires i <= |lines| && d < |FramesAt(m, lines, n, s, i)| && FramesAt(m, lines, n, s, i)[d].active
    ensures FramesAt(m, lines, n, s, i)[d].branchTaken
  {
    assert FramesOk([]);
    RunKeepsFramesOk(m, lines[..i], n, [], s);
    hide Run;
    assert FrameOk(FramesAt(m, lines, n, s, i), d);
  }

  /** Lines with their groups: a group has a first branch and further sections,
      and ends with its closing directive. */
  datatype Block =
    | Nil
    | Plain(line: Line, next: Block)
    | Group(head: Line, body: Block, sections: Sections, next: Block)

  datatype Sections = End | Section(guard: Line, body: Block, more: Sections)

  predicate BlockOk(b: Block) {
    match b
    case Nil => true
    case Plain(l, next) => !IsConditional(l) && BlockOk(next)
    case Group(head, body, sections, next) => Opens(head) && BlockOk(body) && SectionsOk(sections) && BlockOk(next)
  }

  predicate SectionsOk(ss: Sections) {
    match ss
    case End => true
    case Section(guard, body, more) => Continues(guard) && BlockOk(body) && SectionsOk(more)
  }

  function Flatten(b: Block): seq<Line> {
    match b
    case Nil => []
    case Plain(l, next) => [l] + Flatten(next)
    case Group(head, body, sections, next) =>
      [head] + (Flatten(body) + (FlattenSections(sections) + ([Endif] + Flatten(next))))
  }

  function FlattenSections(ss: Sections): seq<Line> {
    match ss
    case End => []
    case Section(guard, body, more) => [guard] + (Flatten(body) + FlattenSections(more))
  }

  function Size(b: Block): nat {
    match b
    case Nil => 0
    case Plain(_, next) => 1 + Size(next)
    case Group(_, body, sections, next) => 2 + Size(body) + SizeSections(sections) + Size(next)
  }

  function SizeSections(ss: Sections): nat {
    match ss
    case End => 0
    case Section(_, body, more) => 1 + Size(body) + SizeSections(more)
  }

  function Holds<S>(m: Machine<S>, l: Line, s: S): bool {
    match l
    case Ifdef(macro) => m.has(macro, s)
    case Ifndef(macro) => !m.has(macro, s)
    case Elsif(macro) => m.has(macro, s)
    case _ => true
  }

  /** The recursive reading. The guards of a group are all looked up in the
      macro table at the start of the group. */
  function Eval<S>(m: Machine<S>, b: Block, n: nat, s: S): S {
    match b
    case Nil => s
    case Plain(l, next) => Eval(m, next, n + 1, m.exec(l, n, s))
    case Group(head, body, sections, next) =>
      var after := if Holds(m, head, s) then Eval(m, body, n + 1, s) else Choose(m, sections, n + 1 + Size(body), s);
      Eval(m, next, n + 2 + Size(body) + SizeSections(sections), after)
  }

  function Choose<S>(m: Machine<S>, ss: Sections, n: nat, s: S): S {
    match ss
    case End => s
    case Section(guard, body, more) =>
      if Holds(m, guard, s) then Eval(m, body, n + 1, s) else Choose(m, more, n + 1 + Size(body), s)
  }

  lemma RunStep<S>(m: Machine<S>, l: Line, rest: seq<Line>, n: nat, frames: seq<Frame>, s: S)
    ensures Run(m, [l] + rest, n, frames, s) ==
      if IsConditional(l) then
        if frames == [] && !Opens(l) then Run(m, rest, n + 1, frames, m.fault(l, n, s))
        else Run(m, rest, n + 1, StepFrames(frames, l, m.has(MacroOf(l), s)), s)
      else Run(m, rest, n + 1, frames, if Active(frames) then m.exec(l, n, s) else s)
  {
    assert ([l] + rest)[1..] == rest;
  }

  /** The flat run over a block is the recursive reading of it, in active
      surroundings, and nothing at all in inactive ones. */
  lemma {:induction false} RunIsEval<S>(m: Machine<S>, b: Block, rest: seq<Line>, n: nat, frames: seq<Frame>, s: S)
    requires BlockOk(b)
    ensures Run(m, Flatten(b) + rest, n, frames, s) ==
      Run(m, rest, n + Size(b), frames, if Active(frames) then Eval(m, b, n, s) else s)
    decreases b
  {
    hide Run, StepFrames;
    match b
    case Nil =>
      assert Flatten(b) + rest == rest;
    case Plain(l, next) =>
      assert Flatten(b) + rest == [l] + (Flatten(next) + rest);
      RunStep(m, l, Flatten(next) + rest, n, frames, s);
      RunIsEval(m, next, rest, n + 1, frames, if Active(frames) then m.exec(l, n, s) else s);
    case Group(head, body, sections, next) =>
      var tail := Flatten(next) + rest;
      var lines := FlattenSections(sections) + ([Endif] + tail);
      RegroupGroup(head, Flatten(body), FlattenSections(sections), Flatten(next), rest);
      RunStep(m, head, Flatten(body) + lines, n, frames, s);
      var top := Frame(Active(frames), Active(frames) && Holds(m, head, s), Holds(m, head, s));
      OpenStep(m, head, frames, s);
      PushTop(frames, top);
      var s1 := if top.active then Eval(m, body, n + 1, s) else s;
      RunIsEval(m, body, lines, n + 1, frames + [top], s);
      RunSections(m, sections, tail, n + 1 + Size(body), frames, top, s1);
      var s2 := if Active(frames) && !Holds(m, head, s) then Choose(m, sections, n + 1 + Size(body), s1) else s1;
      RunIsEval(m, next, rest, n + 2 + Size(body) + SizeSections(sections), frames, s2);
  }

  /** The sections of a group, after its first branch: the first whose guard
      holds is carried out if nothing has been taken yet. */
  lemma {:induction false} RunSections<S>(m: Machine<S>, ss: Sections, tail: seq<Line>, n: nat, frames: seq<Frame>,
      top: Frame, s: S)
    requires SectionsOk(ss) && top.parentActive == Active(frames)
    ensures Run(m, FlattenSections(ss) + ([Endif] + tail), n, frames + [top], s) ==
      Run(m, tail, n + SizeSections(ss) + 1, frames,
        if top.parentActive && !top.branchTaken then Choose(m, ss, n, s) else s)
    decreases ss
  {
    hide Run, StepFrames;
    match ss
    case End =>
      assert [] + ([Endif] + tail) == [Endif] + tail;
      RunStep(m, Endif, tail, n, frames + [top], s);
      CloseStep(frames, top, m.has(MacroOf(Endif), s));
    case Section(guard, body, more) =>
      var lines := FlattenSections(more) + ([Endif] + tail);
      RegroupSection(guard, Flatten(body), FlattenSections(more), [Endif] + tail);
      RunStep(m, guard, Flatten(body) + lines, n, frames + [top], s);
      var holds := Holds(m, guard, s);
      var top' := Frame(top.parentActive, top.parentActive && !top.branchTaken && holds, top.branchTaken || holds);
      ContinueStep(m, guard, frames, top, s);
      PushTop(frames, top');
      RunIsEval(m, body, lines, n + 1, frames + [top'], s);
      var s1 := if top'.active then Eval(m, body, n + 1, s) else s;
      RunSections(m, more, tail, n + 1 + Size(body), frames, top', s1);
  }

  lemma PushTop(frames: seq<Frame>, top: Frame)
    ensures Active(frames + [top]) == top.active && frames + [top] != []
  {
  }

  lemma OpenStep<S>(m: Machine<S>, l: Line, frames: seq<Frame>, s: S)
    requires Opens(l)
    ensures var h := Holds(m, l, s);
      StepFrames(frames, l, m.has(MacroOf(l), s)) == frames + [Frame(Active(frames), Active(frames) && h, h)]
  {
  }

  lemma ContinueStep<S>(m: Machine<S>, l: Line, frames: seq<Frame>, top: Frame, s: S)
    requires Continues(l)
    ensures var h := Holds(m, l, s);
      StepFrames(frames + [top], l, m.has(MacroOf(l), s)) ==
        frames + [Frame(top.parentActive, top.parentActive && !top.branchTaken && h, top.branchTaken || h)]
  {
    assert (frames + [top])[..|frames|] == frames;
  }

  lemma CloseStep(frames: seq<Frame>, top: Frame, defined: bool)
    ensures StepFrames(frames + [top], Endif, defined) == frames && frames + [top] != []
  {
    assert (frames + [top])[..|frames|] == frames;
  }

  lemma RegroupGroup(head: Line, body: seq<Line>, sections: seq<Line>, next: seq<Line>, rest: seq<Line>)
    ensures [head] + (body + (sections + ([Endif] + next))) + rest ==
      [head] + (body + (sections + ([Endif] + (next + rest))))
  {
  }

  lemma RegroupSection(guard: Line, body: seq<Line>, more: seq<Line>, rest: seq<Line>)
    ensures [guard] + (body + more) + rest == [guard] + (body + (more + rest))
  {
  }

  /** The lines close every group they open, and continue or close no other. */
  predicate Balanced(lines: seq<Line>, depth: nat) {
    if lines == [] then depth == 0
    else
      var l := lines[0];
      if Opens(l) then Balanced(lines[1..], depth + 1)
      else if Continues(l) then depth > 0 && Balanced(lines[1..], depth)
      else if l.Endif? then depth > 0 && Balanced(lines[1..], depth - 1)
      else Balanced(lines[1..], depth)
  }

  /** Balanced lines are the lines of some block. */
  lemma {:induction false} BuildBlock(lines: seq<Line>, depth: nat) returns (b: Block, rest: seq<Line>)
    requires Balanced(lines, depth)
    ensures BlockOk(b) && lines == Flatten(b) + rest
    ensures
      if depth == 0 then rest == []
      else rest != [] && (Continues(rest[0]) || rest[0].Endif?) && Balanced(rest, depth)
    decreases |lines|, 1
  {
    if lines == [] {
      return Nil, [];
    }
    var l := lines[0];
    assert lines == [l] + lines[1..];
    if Opens(l) {
      var body, r1 := BuildBlock(lines[1..], depth + 1);
      var sections, r2 := BuildSections(r1, depth);
      var next, r3 := BuildBlock(r2, depth);
      RegroupGroup(l, Flatten(body), FlattenSections(sections), Flatten(next), r3);
      return Group(l, body, sections, next), r3;
    } else if Continues(l) || l.Endif? {
      assert [] + lines == lines;
      return Nil, lines;
    } else {
      var next, r := BuildBlock(lines[1..], depth);
      assert [l] + Flatten(next) + r == [l] + (Flatten(next) + r);
      return Plain(l, next), r;
    }
  }

  lemma {:induction false} BuildSections(lines: seq<Line>, depth: nat) returns (ss: Sections, rest: seq<Line>)
    requires lines != [] && (Continues(lines[0]) || lines[0].Endif?) && Balanced(lines, depth + 1)
    ensures SectionsOk(ss) && lines == FlattenSections(ss) + ([Endif] + rest) && Balanced(rest, depth)
    decreases |lines|, 0
  {
    var l := lines[0];
    assert lines == [l] + lines[1..];
    if l.Endif? {
      assert [] + lines == lines;
      return End, lines[1..];
    } else {
      var body, r1 := BuildBlock(lines[1..], depth + 1);
      var more, r2 := BuildSections(r1, depth);
      RegroupSection(l, Flatten(body), FlattenSections(more), [Endif] + r2);
      return Section(l, body, more), r2;
    }
  }

  /** The lines of a block are balanced. */
  lemma {:induction false} BlockIsBalanced(b: Block, rest: seq<Line>, depth: nat)
    requires BlockOk(b)
    ensures Balanced(Flatten(b) + rest, depth) == Balanced(rest, depth)
    decreases b
  {
    hide Balanced;
    match b
    case Nil =>
      assert Flatten(b) + rest == rest;
    case Plain(l, next) =>
      assert Flatten(b) + rest == [l] + (Flatten(next) + rest);
      BalancedStep(l, Flatten(next) + rest, depth);
      BlockIsBalanced(next, rest, depth);
    case Group(head, body, sections, next) =>
      var tail := Flatten(next) + rest;
      var lines := FlattenSections(sections) + ([Endif] + tail);
      RegroupGroup(head, Flatten(body), FlattenSections(sections), Flatten(next), rest);
      BalancedStep(head, Flatten(body) + lines, depth);
      BlockIsBalanced(body, lines, depth + 1);
      SectionsAreBalanced(sections, tail, depth);
      BlockIsBalanced(next, rest, depth);
  }

  lemma {:induction false} SectionsAreBalanced(ss: Sections, tail: seq<Line>, depth: nat)
    requires SectionsOk(ss)
    ensures Balanced(FlattenSections(ss) + ([Endif] + tail), depth + 1) == Balanced(tail, depth)
    decreases ss
  {
    hide Balanced;
    match ss
    case End =>
      assert [] + ([Endif] + tail) == [Endif] + tail;
      BalancedStep(Endif, tail, depth + 1);
    case Section(guard, body, more) =>
      var lines := FlattenSections(more) + ([Endif] + tail);
      RegroupSection(guard, Flatten(body), FlattenSections(more), [Endif] + tail);
      BalancedStep(guard, Flatten(body) + lines, depth + 1);
      BlockIsBalanced(body, lines, depth + 1);
      SectionsAreBalanced(more, tail, depth);
  }

  lemma BalancedStep(l: Line, rest: seq<Line>, depth: nat)
    ensures Balanced([l] + rest, depth) ==
      if Opens(l) then Balanced(rest, depth + 1)
      else if Continues(l) then depth > 0 && Balanced(rest, depth)
      else if l.Endif? then depth > 0 && Balanced(rest, depth - 1)
      else Balanced(rest, depth)
  {
    assert ([l] + rest)[1..] == rest;
  }

  /** The flat run meets no stray directive and leaves no group open exactly on
      balanced lines. `faults` counts the strays noted in a state. */
  lemma {:induction false} FaultlessIffBalanced<S(!new)>(m: Machine<S>, faults: S -> nat, lines: seq<Line>, n: nat,
      frames: seq<Frame>, s: S)
    requires forall l, k, t :: faults(m.exec(l, k, t)) == faults(t)
    requires forall l, k, t :: faults(m.fault(l, k, t)) == faults(t) + 1
    ensures var (after, open) := Run(m, lines, n, frames, s);
      faults(after) >= faults(s) && (faults(after) == faults(s) && open == [] <==> Balanced(lines, |frames|))
    decreases |lines|
  {
    if lines != [] {
      var l := lines[0];
      if IsConditional(l) {
        if frames == [] && !Opens(l) {
          FaultlessIffBalanced(m, faults, lines[1..], n + 1, frames, m.fault(l, n, s));
        } else {
          var frames' := StepFrames(frames, l, m.has(MacroOf(l), s));
          assert |frames'| == if Opens(l) then |frames| + 1 else if l.Endif? then |frames| - 1 else |frames|;
          FaultlessIffBalanced(m, faults, lines[1..], n + 1, frames', s);
        }
      } else {
        FaultlessIffBalanced(m, faults, lines[1..], n + 1, frames, if Active(frames) then m.exec(l, n, s) else s);
      }
    }
  }

  /** Every balanced list of lines has a recursive reading, and the flat run computes it. */
  lemma BalancedRunIsEval<S>(m: Machine<S>, lines: seq<Line>, n: nat, s: S) returns (b: Block)
    requires Balanced(lines, 0)
    ensures BlockOk(b) && Flatten(b) == lines && Run(m, lines, n, [], s) == (Eval(m, b, n, s), [])
  {
    var rest;
    b, rest := BuildBlock(lines, 0);
    assert Flatten(b) + [] == Flatten(b);
    RunIsEval(m, b, [], n, [], s);
  }
}
