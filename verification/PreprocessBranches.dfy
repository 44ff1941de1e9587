/** Which lines of a file reach the output: those in the chosen branch of every group
    around them, where a macro is known if the last line carried out that sets it defines it. */
module PreprocessBranches {
  import opened Conditionals
  import opened ConditionalGroups
  import opened Preprocess
  import opened PreprocessMeaning
  import opened PreprocessTrace
  import Comments

  /** The reading of a file after its first p lines. */
  function ReadTo(w: World, stack: seq<Path>, path: Path, st: State, block: bool, p: nat): (State, bool, seq<Frame>)
    requires path in w.files && p <= |w.files[path]|
  {
    ReadLines(w, stack + [path], path, w.files[path][..p], 1, [], Opened(st, path), block)
  }

  /** The events of the first p lines of a file. */
  function EventsTo(w: World, stack: seq<Path>, path: Path, st: State, block: bool, p: nat): seq<Event>
    requires path in w.files && p <= |w.files[path]|
  {
    EventsOfLines(w, stack + [path], path, w.files[path][..p], 1, [], Opened(st, path), block)
  }

  /** The events of line p of a file, lines counted from 0. */
  function EventsAt(w: World, stack: seq<Path>, path: Path, st: State, block: bool, p: nat): seq<Event>
    requires path in w.files && p < |w.files[path]|
  {
    var (before, b, frames) := ReadTo(w, stack, path, st, block, p);
    EventsOfLine(w, stack + [path], path, w.files[path][p], p + 1, frames, before, b)
  }

  /** The machine of the whole file. */
  function Reader(w: World, stack: seq<Path>, path: Path, st: State, block: bool): Machine<State>
    requires path in w.files
  {
    MachineOf(w, stack + [path], path, SeenIn(w, stack, path, st, block))
  }

  /** The lines of the file as they are read. */
  function Lines(w: World, stack: seq<Path>, path: Path, st: State, block: bool): seq<Line>
    requires path in w.files
  {
    LinesOf(SeenIn(w, stack, path, st, block))
  }

  lemma {:induction false} SeenPrefix(w: World, stack: seq<Path>, path: Path, lines: seq<string>, n: nat,
      frames: seq<Frame>, st: State, block: bool, p: nat)
    requires p <= |lines|
    ensures Seen(w, stack, path, lines[..p], n, frames, st, block) ==
      Seen(w, stack, path, lines, n, frames, st, block)[..p]
    decreases |lines|
  {
    hide ReadLine, Comments.Strip;
    if p > 0 {
      var (st', b', frames') := ReadLine(w, stack, path, lines[0], n, frames, st, block);
      assert lines[..p][1..] == lines[1..][..p - 1];
      SeenPrefix(w, stack, path, lines[1..], n + 1, frames', st', b', p - 1);
    }
  }

  lemma {:induction false} LinesOfPrefix(rs: seq<Reading>, p: nat)
    requires p <= |rs|
    ensures LinesOf(rs[..p]) == LinesOf(rs)[..p]
  {
    if p > 0 {
      assert rs[..p][1..] == rs[1..][..p - 1];
      LinesOfPrefix(rs[1..], p - 1);
    }
  }

  /** The reading of the first lines is the conditional run over them. */
  lemma ReadToIsRun(w: World, stack: seq<Path>, path: Path, st: State, block: bool, p: nat)
    requires path in w.files && p <= |w.files[path]|
    ensures |Lines(w, stack, path, st, block)| == |w.files[path]|
    ensures var (m, ls) := (Reader(w, stack, path, st, block), Lines(w, stack, path, st, block));
      var (after, _, frames) := ReadTo(w, stack, path, st, block, p);
      (after, frames) == Run(m, ls[..p], 1, [], Opened(st, path))
  {
    hide Run, Seen, ReadLines, LinesOf;
    var (rs, lines) := (SeenIn(w, stack, path, st, block), w.files[path]);
    SeenPrefix(w, stack + [path], path, lines, 1, [], Opened(st, path), block, p);
    LinesOfPrefix(rs, p);
    assert rs[0..0 + |lines[..p]|] == rs[..p];
    ReadIsRun(w, stack + [path], path, lines[..p], 1, [], Opened(st, path), block, rs);
  }

  /** The file is its lines one after another, between entering and leaving it. */
  lemma EventsOfFile(w: World, stack: seq<Path>, path: Path, st: State, block: bool)
    requires path in w.files && path !in stack
    ensures var n := |w.files[path]|; var (_, b, frames) := ReadTo(w, stack, path, st, block, n);
      EventsOf(w, stack, path, st, block) ==
        [Enter(path)] + EventsTo(w, stack, path, st, block, n) + [Leave(path, n, frames != [], b)]
  {
    var lines := w.files[path];
    assert lines[..|lines|] == lines;
    hide EventsOfLines, ReadLines;
  }

  lemma {:induction false} LinesSplit(w: World, stack: seq<Path>, path: Path, lines: seq<string>, n: nat,
      frames: seq<Frame>, st: State, block: bool, p: nat)
    requires p < |lines|
    ensures var (st', b', frames') := ReadLines(w, stack, path, lines[..p], n, frames, st, block);
      EventsOfLines(w, stack, path, lines[..p + 1], n, frames, st, block) ==
        EventsOfLines(w, stack, path, lines[..p], n, frames, st, block) +
        EventsOfLine(w, stack, path, lines[p], n + p, frames', st', b')
    decreases p
  {
    hide ReadLine, EventsOfLine;
    var (here, rest) := (lines[..p + 1], lines[1..]);
    var (st', b', frames') := ReadLine(w, stack, path, lines[0], n, frames, st, block);
    assert here[0] == lines[0] && here[1..] == rest[..p];
    if p == 0 {
      assert rest[..0] == [] && lines[..0] == [];
    } else {
      assert lines[..p][0] == lines[0] && lines[..p][1..] == rest[..p - 1];
      LinesSplit(w, stack, path, rest, n + 1, frames', st', b', p - 1);
    }
  }

  lemma EventsStep(w: World, stack: seq<Path>, path: Path, st: State, block: bool, p: nat)
    requires path in w.files && p < |w.files[path]|
    ensures EventsTo(w, stack, path, st, block, p + 1) ==
      EventsTo(w, stack, path, st, block, p) + EventsAt(w, stack, path, st, block, p)
  {
    LinesSplit(w, stack + [path], path, w.files[path], 1, [], Opened(st, path), block, p);
    hide EventsOfLines, EventsOfLine, ReadLines;
  }

  /** The state after the first lines is that of their events. */
  lemma ReadToIsReplay(w: World, stack: seq<Path>, path: Path, st: State, block: bool, p: nat)
    requires path in w.files && p <= |w.files[path]|
    ensures ReadTo(w, stack, path, st, block, p).0 == After(w, EventsTo(w, stack, path, st, block, p), Opened(st, path))
    ensures ReadTo(w, stack, path, st, block, p).0.defines ==
      Table(EventsTo(w, stack, path, st, block, p), st.defines)
  {
    hide EventsOfLines, ReadLines;
    LinesAreReplay(w, stack + [path], path, w.files[path][..p], 1, [], Opened(st, path), block);
  }

  /** The condition of a directive holds as the macros known before its line say. */
  lemma ConditionKnown(w: World, stack: seq<Path>, path: Path, st: State, block: bool, q: nat)
    requires path in w.files && q < |w.files[path]|
    ensures |Lines(w, stack, path, st, block)| == |w.files[path]|
    ensures var known := Table(EventsTo(w, stack, path, st, block, q), st.defines);
      var (m, ls) := (Reader(w, stack, path, st, block), Lines(w, stack, path, st, block));
      Condition(m, ls, 1, Opened(st, path), q) <==>
        match ls[q]
        case Ifdef(macro) => macro in known
        case Ifndef(macro) => macro !in known
        case Elsif(macro) => macro in known
        case _ => true
  {
    hide Run, EventsOfLines, ReadLines, LinesOf, Seen;
    ReadToIsRun(w, stack, path, st, block, q);
    ReadToIsReplay(w, stack, path, st, block, q);
    hide EventsTo, ReadTo, SeenIn;
  }

  lemma {:induction false} SeenLine(w: World, stack: seq<Path>, path: Path, lines: seq<string>, n: nat,
      frames: seq<Frame>, st: State, block: bool, p: nat)
    requires p < |lines|
    ensures var (_, b, _) := ReadLines(w, stack, path, lines[..p], n, frames, st, block);
      LinesOf(Seen(w, stack, path, lines, n, frames, st, block))[p] == w.classify(Comments.Strip(lines[p], b).0)
    decreases p
  {
    hide ReadLine, Comments.Strip;
    var (st', b', frames') := ReadLine(w, stack, path, lines[0], n, frames, st, block);
    if p == 0 {
      assert lines[..0] == [];
    } else {
      assert lines[..p][0] == lines[0] && lines[..p][1..] == lines[1..][..p - 1];
      SeenLine(w, stack, path, lines[1..], n + 1, frames', st', b', p - 1);
    }
  }

  lemma FramesToIsFramesAt(w: World, stack: seq<Path>, path: Path, st: State, block: bool, p: nat)
    requires path in w.files && p <= |w.files[path]|
    ensures |Lines(w, stack, path, st, block)| == |w.files[path]|
    ensures ReadTo(w, stack, path, st, block, p).2 ==
      FramesAt(Reader(w, stack, path, st, block), Lines(w, stack, path, st, block), 1, Opened(st, path), p)
  {
    ReadToIsRun(w, stack, path, st, block, p);
    hide Run, ReadTo, Reader, Lines;
  }

  lemma EventsAtIs(w: World, stack: seq<Path>, path: Path, st: State, block: bool, p: nat)
    requires path in w.files && p < |w.files[path]|
    ensures var (before, b, frames) := ReadTo(w, stack, path, st, block, p);
      EventsAt(w, stack, path, st, block, p) ==
        EventsOfLine(w, stack + [path], path, w.files[path][p], p + 1, frames, before, b)
  {
    hide ReadTo, EventsOfLine;
  }

  /** What a line gives, by its kind and by whether the groups around it are active. */
  lemma EventsOfKind(w: World, stack: seq<Path>, path: Path, line: string, n: nat, frames: seq<Frame>, st: State,
      block: bool)
    ensures var l := w.classify(Comments.Strip(line, block).0);
      var events := EventsOfLine(w, stack, path, line, n, frames, st, block);
      if !l.Ifdef? && !l.Ifndef? && !l.Elsif? && !l.Else? && !l.Endif? && Active(frames)
      then events != [] && events[0] == Carried(path, n, l)
      else events == [] || events == [Stray(path, n)]
  {
    hide EventsOf, Comments.Strip;
  }

  /** A line of a file is carried out exactly when it is no conditional directive and every
      group around it is in the first branch whose condition holds. */
  lemma CarriedIffChosen(w: World, stack: seq<Path>, path: Path, st: State, block: bool, p: nat)
    requires path in w.files && p < |w.files[path]|
    ensures |Lines(w, stack, path, st, block)| == |w.files[path]|
    ensures var (m, ls) := (Reader(w, stack, path, st, block), Lines(w, stack, path, st, block));
      var events := EventsAt(w, stack, path, st, block, p);
      if !ls[p].Ifdef? && !ls[p].Ifndef? && !ls[p].Elsif? && !ls[p].Else? && !ls[p].Endif? &&
        AllChosen(m, ls, 1, Opened(st, path), p)
      then events != [] && events[0] == Carried(path, p + 1, ls[p])
      else events == [] || events == [Stray(path, p + 1)]
  {
    var (m, ls) := (Reader(w, stack, path, st, block), Lines(w, stack, path, st, block));
    FramesToIsFramesAt(w, stack, path, st, block, p);
    SeenLine(w, stack + [path], path, w.files[path], 1, [], Opened(st, path), block, p);
    var (before, b, frames) := ReadTo(w, stack, path, st, block, p);
    assert ls[p] == w.classify(Comments.Strip(w.files[path][p], b).0);
    hide *;
    ActiveIffChosen(m, ls, 1, Opened(st, path), p);
    EventsOfKind(w, stack + [path], path, w.files[path][p], p + 1, frames, before, b);
    EventsAtIs(w, stack, path, st, block, p);
  }
}
