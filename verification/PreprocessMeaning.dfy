/** What preprocessing a file means: the recursive reading of its conditional
    groups, and exactly when a conditional error is reported. */
module PreprocessMeaning {
  import opened Tokens
  import opened Conditionals
  import opened Preprocess
  import Comments

  /** A line as it is read: what is left of it after comment removal, and
      whether a block comment is open at its end. */
  datatype Reading = Reading(line: Line, open: bool)

  /** The lines of a file as the preprocessor reads them. An included file that
      is entered always hands the comment state back closed, so what is read
      depends on the files entered on the way. */
  function Seen(w: World, stack: seq<Path>, path: Path, lines: seq<string>, n: nat, frames: seq<Frame>, st: State,
      block: bool): (r: seq<Reading>)
    ensures |r| == |lines|
    decreases |lines|
  {
    if lines == [] then []
    else
      var (text, b) := Comments.Strip(lines[0], block);
      var (st', b', frames') := ReadLine(w, stack, path, lines[0], n, frames, st, block);
      [Reading(w.classify(text), b)] + Seen(w, stack, path, lines[1..], n + 1, frames', st', b')
  }

  function LinesOf(rs: seq<Reading>): (r: seq<Line>)
    ensures |r| == |rs|
  {
    if rs == [] then [] else [rs[0].line] + LinesOf(rs[1..])
  }

  /** What is read of a file from its first line on. */
  function SeenIn(w: World, stack: seq<Path>, path: Path, st: State, block: bool): seq<Reading>
    requires path in w.files
  {
    Seen(w, stack + [path], path, w.files[path], 1, [], Opened(st, path), block)
  }

  /** Whether a block comment is open after line n; lines are counted from 1. */
  predicate OpenAfter(rs: seq<Reading>, n: nat) {
    0 < n <= |rs| && rs[n - 1].open
  }

  /** The preprocessor as a machine for the conditional reading of a file. */
  function MachineOf(w: World, stack: seq<Path>, path: Path, rs: seq<Reading>): Machine<State> {
    Machine(
      (l, n, st) => ExecLine(w, stack, path, l, n, st, OpenAfter(rs, n)).0,
      (macro, st: State) => macro in st.defines,
      (l, n, st) => Note(st, StrayConditional, path, n))
  }

  lemma LinesOfCons(r: Reading, rs: seq<Reading>)
    ensures LinesOf([r] + rs) == [r.line] + LinesOf(rs)
  {
    assert ([r] + rs)[1..] == rs;
  }

  /** Reading lines is the conditional run over what is read of them, as a part of all that is read. */
  lemma {:induction false} ReadIsRun(w: World, stack: seq<Path>, path: Path, lines: seq<string>, n: nat,
      frames: seq<Frame>, st: State, block: bool, all: seq<Reading>)
    requires n >= 1 && n - 1 + |lines| <= |all|
    requires all[n - 1..n - 1 + |lines|] == Seen(w, stack, path, lines, n, frames, st, block)
    ensures var (after, _, open) := ReadLines(w, stack, path, lines, n, frames, st, block);
      (after, open) == Run(MachineOf(w, stack, path, all), LinesOf(all[n - 1..n - 1 + |lines|]), n, frames, st)
    decreases |lines|
  {
    hide ExecLine, StepFrames;
    if lines != [] {
      var m := MachineOf(w, stack, path, all);
      var (text, b) := Comments.Strip(lines[0], block);
      var l := w.classify(text);
      var (st', b', frames') := ReadLine(w, stack, path, lines[0], n, frames, st, block);
      var later := Seen(w, stack, path, lines[1..], n + 1, frames', st', b');
      var here := all[n - 1..n - 1 + |lines|];
      assert here == [Reading(l, b)] + later;
      assert here[0] == Reading(l, b) == all[n - 1] && here[1..] == later == all[n..n + |lines[1..]|];
      LinesOfCons(Reading(l, b), later);
      RunStep(m, l, LinesOf(later), n, frames, st);
      hide Run;
      ReadIsRun(w, stack, path, lines[1..], n + 1, frames', st', b', all);
    }
  }

  /** Processing a file is the conditional run over what is read of it. */
  lemma ProcessIsRun(w: World, stack: seq<Path>, path: Path, st: State, block: bool)
    requires path !in stack && path in w.files
    ensures var (lines, rs) := (w.files[path], SeenIn(w, stack, path, st, block));
      var (after, frames) := Run(MachineOf(w, stack + [path], path, rs), LinesOf(rs), 1, [], Opened(st, path));
      var (_, b, _) := ReadLines(w, stack + [path], path, lines, 1, [], Opened(st, path), block);
      Process(w, stack, path, st, block) == (Closing(after, path, |lines|, frames != [], b), false)
  {
    hide Run, ReadLines, Seen, LinesOf;
    var rs := SeenIn(w, stack, path, st, block);
    assert rs[0..|rs|] == rs;
    ReadIsRun(w, stack + [path], path, w.files[path], 1, [], Opened(st, path), block, rs);
  }

  /** The frames of a file are those of a run, so that what holds of runs holds of them. */
  lemma ReadKeepsFramesOk(w: World, stack: seq<Path>, path: Path, st: State, block: bool, p: nat)
    requires path in w.files && p <= |w.files[path]|
    ensures FramesOk(ReadLines(w, stack, path, w.files[path][..p], 1, [], st, block).2)
  {
    hide Run, ReadLines, Seen, LinesOf;
    var rs := Seen(w, stack, path, w.files[path][..p], 1, [], st, block);
    assert rs[0..|rs|] == rs && FramesOk([]);
    ReadIsRun(w, stack, path, w.files[path][..p], 1, [], st, block, rs);
    RunKeepsFramesOk(MachineOf(w, stack, path, rs), LinesOf(rs), 1, [], st);
  }

  /** A file whose conditional directives balance is read group by group, the
      first true branch of each, whatever the files it includes do. */
  lemma FileMeaning(w: World, stack: seq<Path>, path: Path, st: State, block: bool) returns (b: Block)
    requires path !in stack && path in w.files
    requires Balanced(LinesOf(SeenIn(w, stack, path, st, block)), 0)
    ensures var (lines, rs) := (w.files[path], SeenIn(w, stack, path, st, block));
      var after := Eval(MachineOf(w, stack + [path], path, rs), b, 1, Opened(st, path));
      var (_, open, _) := ReadLines(w, stack + [path], path, lines, 1, [], Opened(st, path), block);
      && BlockOk(b) && Flatten(b) == LinesOf(rs)
      && Process(w, stack, path, st, block) == (Closing(after, path, |lines|, false, open), false)
  {
    hide Run, Eval, ReadLines, SeenIn, Process;
    ProcessIsRun(w, stack, path, st, block);
    var rs := SeenIn(w, stack, path, st, block);
    b := BalancedRunIsEval(MachineOf(w, stack + [path], path, rs), LinesOf(rs), 1, Opened(st, path));
  }

  // ----- the reading that looks at no other file -----

  /** The lines of a file after comment removal, as if it included no other. */
  function Stripped(w: World, lines: seq<string>, block: bool): seq<Reading> {
    if lines == [] then []
    else
      var (text, b) := Comments.Strip(lines[0], block);
      [Reading(w.classify(text), b)] + Stripped(w, lines[1..], b)
  }

  lemma {:induction false} StrippedIsClassified(w: World, lines: seq<string>, block: bool, n: nat)
    requires n < |lines|
    ensures |Stripped(w, lines, block)| == |lines|
    ensures Stripped(w, lines, block)[n].line == w.classify(Comments.StripLines(lines, block).0[n])
    decreases |lines|
  {
    hide Comments.Strip;
    var b := Comments.Strip(lines[0], block).1;
    if n > 0 {
      StrippedIsClassified(w, lines[1..], b, n - 1);
    } else {
      StrippedLength(w, lines[1..], b);
    }
  }

  lemma {:induction false} StrippedLength(w: World, lines: seq<string>, block: bool)
    ensures |Stripped(w, lines, block)| == |lines|
    decreases |lines|
  {
    hide Comments.Strip;
    if lines != [] { StrippedLength(w, lines[1..], Comments.Strip(lines[0], block).1); }
  }

  /** No block comment is open at the end of a line that includes a file. */
  predicate ClosedAtIncludes(w: World, lines: seq<string>, block: bool) {
    lines != [] ==>
      var (text, b) := Comments.Strip(lines[0], block);
      (w.classify(text).Include? ==> !b) && ClosedAtIncludes(w, lines[1..], b)
  }

  /** Only an include looks at the comment state, and a closed one stays closed. */
  lemma BlockMattersToIncludesOnly(w: World, stack: seq<Path>, path: Path, l: Line, n: nat, st: State, block: bool)
    requires l.Include? ==> !block
    ensures ExecLine(w, stack, path, l, n, st, block).1 == block
  {
  }

  /** Without a comment open at an include line, what is read of a file does not
      depend on the files it includes, on macros or on anything read before. */
  lemma {:induction false} SeenIsStripped(w: World, stack: seq<Path>, path: Path, lines: seq<string>, n: nat,
      frames: seq<Frame>, st: State, block: bool)
    requires ClosedAtIncludes(w, lines, block)
    ensures Seen(w, stack, path, lines, n, frames, st, block) == Stripped(w, lines, block)
    decreases |lines|
  {
    hide ExecLine, StepFrames;
    if lines != [] {
      var (text, b) := Comments.Strip(lines[0], block);
      BlockMattersToIncludesOnly(w, stack, path, w.classify(text), n, st, b);
      var (st', b', frames') := ReadLine(w, stack, path, lines[0], n, frames, st, block);
      assert b' == b;
      SeenIsStripped(w, stack, path, lines[1..], n + 1, frames', st', b);
    }
  }

  /** The line reads the same from inside a block comment and from outside: the same
      kind of line, and the same comment state at its end. */
  predicate ReadsAlike(w: World, line: string) {
    var (inside, outside) := (Comments.Strip(line, true), Comments.Strip(line, false));
    w.classify(inside.0) == w.classify(outside.0) && inside.1 == outside.1
  }

  /** An active include line that ends inside a block comment and enters a file. */
  predicate EntersInComment(w: World, stack: seq<Path>, path: Path, line: string, frames: seq<Frame>, block: bool) {
    var (text, b) := Comments.Strip(line, block);
    var l := w.classify(text);
    && b && Active(frames) && l.Include? && l.name.Some?
    && var target := w.resolve(l.name.value, path);
       target.Some? && target.value !in stack && target.value in w.files
  }

  lemma ProcessCloses(w: World, stack: seq<Path>, path: Path, st: State, block: bool)
    requires path !in stack && path in w.files
    ensures !Process(w, stack, path, st, block).1
  {
    hide ReadLines;
  }

  lemma EnteredCloses(w: World, stack: seq<Path>, path: Path, line: string, n: nat, frames: seq<Frame>, st: State,
      block: bool)
    requires EntersInComment(w, stack, path, line, frames, block)
    ensures !ReadLine(w, stack, path, line, n, frames, st, block).1
    ensures Comments.Strip(line, block).1
  {
    var l := w.classify(Comments.Strip(line, block).0);
    ProcessCloses(w, stack, w.resolve(l.name.value, path).value, st, true);
    hide Process, Comments.StripFrom;
    assert !ExecLine(w, stack, path, l, n, st, true).1;
    hide ExecLine;
  }

  /** Which line decides: from a line that enters a file inside a block comment, and
      with no such line after it, what is read differs from the file's own text exactly
      when the next line reads differently from inside the comment. */
  lemma SeenDiffersIff(w: World, stack: seq<Path>, path: Path, lines: seq<string>, n: nat, frames: seq<Frame>,
      st: State, block: bool)
    requires lines != [] && EntersInComment(w, stack, path, lines[0], frames, block)
    requires ClosedAtIncludes(w, lines[1..], false)
    ensures Seen(w, stack, path, lines, n, frames, st, block) == Stripped(w, lines, block) <==>
      |lines| == 1 || ReadsAlike(w, lines[1])
  {
    EnteredCloses(w, stack, path, lines[0], n, frames, st, block);
    hide ReadLine, Comments.Strip, EntersInComment, ClosedAtIncludes;
    var rest := lines[1..];
    var (st', b', frames') := ReadLine(w, stack, path, lines[0], n, frames, st, block);
    SeenIsStripped(w, stack, path, rest, n + 1, frames', st', false);
    var seen := Seen(w, stack, path, lines, n, frames, st, block);
    var own := Stripped(w, lines, block);
    assert seen[0] == own[0] && seen[1..] == Stripped(w, rest, false) && own[1..] == Stripped(w, rest, true);
    assert seen == [seen[0]] + seen[1..] && own == [own[0]] + own[1..];
    StrippedAlikeIff(w, rest);
  }

  lemma StrippedAlikeIff(w: World, lines: seq<string>)
    ensures Stripped(w, lines, false) == Stripped(w, lines, true) <==> lines == [] || ReadsAlike(w, lines[0])
  {
    hide Comments.Strip;
    if lines != [] {
      var (inside, outside) := (Stripped(w, lines, true), Stripped(w, lines, false));
      assert inside[0] == outside[0] <==> ReadsAlike(w, lines[0]);
    }
  }

  predicate IsConditionalError(d: Diagnostic, path: Path) {
    d.file == path && (d.rule.StrayConditional? || d.rule.UnterminatedConditional?)
  }

  /** The conditional errors reported against one file. */
  function Errors(st: State, path: Path): nat {
    ErrorsIn(st.diagnostics, path)
  }

  function ErrorsIn(ds: seq<Diagnostic>, path: Path): nat {
    if ds == [] then 0
    else ErrorsIn(ds[..|ds| - 1], path) + if IsConditionalError(ds[|ds| - 1], path) then 1 else 0
  }

  lemma NoteErrors(st: State, rule: Rule, file: Path, line: nat, path: Path)
    ensures Errors(Note(st, rule, file, line), path) ==
      Errors(st, path) + if IsConditionalError(Diagnostic(rule, file, line), path) then 1 else 0
  {
    var ds := st.diagnostics + [Diagnostic(rule, file, line)];
    assert ds[..|ds| - 1] == st.diagnostics;
  }

  lemma {:induction false} NoteTimesErrors(st: State, file: Path, line: nat, times: nat, path: Path)
    ensures Errors(NoteTimes(st, UndefinedMacro, file, line, times), path) == Errors(st, path)
    decreases times
  {
    if times > 0 {
      NoteErrors(st, UndefinedMacro, file, line, path);
      NoteTimesErrors(Note(st, UndefinedMacro, file, line), file, line, times - 1, path);
    }
  }

  /** Processing another file, with this one on the include stack, reports no
      conditional error against this one. */
  lemma {:induction false} ProcessKeepsErrors(w: World, stack: seq<Path>, path: Path, st: State, block: bool,
      mine: Path)
    requires mine in stack
    ensures Errors(Process(w, stack, path, st, block).0, mine) == Errors(st, mine)
    decreases Left(w, stack), 0, 0
  {
    hide ReadLines;
    if path in stack {
      NoteErrors(st, RecursiveInclude, path, 1, mine);
    } else if path !in w.files {
      NoteErrors(st, FileNotFound, path, 1, mine);
    } else {
      assert path in Left(w, stack) && path !in Left(w, stack + [path]);
      var lines := w.files[path];
      ReadKeepsErrors(w, stack + [path], path, lines, 1, [], Opened(st, path), block, mine);
      var (after, b, frames) := ReadLines(w, stack + [path], path, lines, 1, [], Opened(st, path), block);
      NoteErrors(after, UnterminatedConditional, path, |lines|, mine);
      NoteErrors(after, UnterminatedComment, path, |lines|, mine);
      NoteErrors(Note(after, UnterminatedConditional, path, |lines|), UnterminatedComment, path, |lines|, mine);
    }
  }

  lemma {:induction false} ReadKeepsErrors(w: World, stack: seq<Path>, path: Path, lines: seq<string>, n: nat,
      frames: seq<Frame>, st: State, block: bool, mine: Path)
    requires mine in stack && mine != path
    ensures Errors(ReadLines(w, stack, path, lines, n, frames, st, block).0, mine) == Errors(st, mine)
    decreases Left(w, stack), 2, |lines|
  {
    hide ExecLine, StepFrames, Errors;
    if lines != [] {
      var (text, b) := Comments.Strip(lines[0], block);
      ExecKeepsErrors(w, stack, path, w.classify(text), n, st, b, mine);
      NoteErrors(st, StrayConditional, path, n, mine);
      var (st', b', frames') := ReadLine(w, stack, path, lines[0], n, frames, st, block);
      ReadKeepsErrors(w, stack, path, lines[1..], n + 1, frames', st', b', mine);
    }
  }

  lemma {:induction false} ExecKeepsErrors(w: World, stack: seq<Path>, path: Path, l: Line, n: nat, st: State,
      block: bool, mine: Path)
    requires mine in stack
    ensures Errors(ExecLine(w, stack, path, l, n, st, block).0, mine) == Errors(st, mine)
    decreases Left(w, stack), 1, 0
  {
    hide Process;
    match l
    case Include(Some(name)) =>
      var target := w.resolve(name, path);
      if target.None? {
        NoteErrors(st, IncludeNotFound, path, n, mine);
      } else {
        ProcessKeepsErrors(w, stack, target.value, st, block, mine);
      }
    case Include(None) =>
      NoteErrors(st, InvalidInclude, path, n, mine);
    case EmptyDefine =>
      NoteErrors(st, EmptyDefineDirective, path, n, mine);
    case FunctionMacro =>
      NoteErrors(st, FunctionLikeMacro, path, n, mine);
    case Unsupported(_) =>
      NoteErrors(st, UnsupportedDirective, path, n, mine);
    case Text(text) =>
      NoteTimesErrors(st, path, n, w.expand(text, st.defines).1, mine);
    case _ =>
  }

  /** A conditional error is reported against a file exactly when the directives
      read of it do not balance. */
  lemma ErrorsIffUnbalanced(w: World, stack: seq<Path>, path: Path, st: State, block: bool)
    requires path !in stack && path in w.files
    ensures Errors(Process(w, stack, path, st, block).0, path) == Errors(st, path)
      <==> Balanced(LinesOf(SeenIn(w, stack, path, st, block)), 0)
  {
    hide Run, ReadLines, ExecLine, Errors, Process, SeenIn;
    var (lines, rs) := (w.files[path], SeenIn(w, stack, path, st, block));
    var m := MachineOf(w, stack + [path], path, rs);
    ProcessIsRun(w, stack, path, st, block);
    forall l, k, t
      ensures Errors(m.exec(l, k, t), path) == Errors(t, path)
      ensures Errors(m.fault(l, k, t), path) == Errors(t, path) + 1
    {
      ExecKeepsErrors(w, stack + [path], path, l, k, t, OpenAfter(rs, k), path);
      NoteErrors(t, StrayConditional, path, k, path);
    }
    FaultlessIffBalanced(m, (t: State) => Errors(t, path), LinesOf(rs), 1, [], Opened(st, path));
    OpenedErrors(st, path);
    var (after, frames) := Run(m, LinesOf(rs), 1, [], Opened(st, path));
    NoteErrors(after, UnterminatedConditional, path, |lines|, path);
    NoteErrors(after, UnterminatedComment, path, |lines|, path);
    NoteErrors(Note(after, UnterminatedConditional, path, |lines|), UnterminatedComment, path, |lines|, path);
  }

  lemma OpenedErrors(st: State, path: Path)
    ensures Errors(Opened(st, path), path) == Errors(st, path)
  {
  }

  predicate NeverCloses(line: string) {
    forall i :: 0 <= i < |line| ==> !Comments.IsAt(line, i, '*', '/')
  }

  lemma {:induction false} HiddenLine(line: string, i: nat)
    requires i <= |line| && NeverCloses(line)
    ensures Comments.StripFrom(line, i, true, false) == (Comments.Blanks(|line| - i), true)
    decreases |line| - i
  {
    if i < |line| {
      HiddenLine(line, i + 1);
      assert Comments.StepAt(line, i, true, false) == Comments.Step(1, Comments.Blanks(1), true, false);
      assert Comments.Blanks(1) == " " + Comments.Blanks(0) == " ";
    }
  }

  /** A blank line is text, and macro expansion leaves it as it is. */
  ghost predicate BlanksAreText(w: World) {
    && (forall k: nat :: w.classify(Comments.Blanks(k)) == Line.Text(Comments.Blanks(k)))
    && (forall k: nat, macros: Macros :: w.expand(Comments.Blanks(k), macros) == (Comments.Blanks(k), 0))
  }

  function BlankLines(path: Path, lines: seq<string>, n: nat): seq<SourceLine> {
    if lines == [] then []
    else [SourceLine(Comments.Blanks(|lines[0]|), path, n)] + BlankLines(path, lines[1..], n + 1)
  }

  lemma HiddenStep(w: World, stack: seq<Path>, path: Path, line: string, n: nat, st: State)
    requires BlanksAreText(w) && NeverCloses(line)
    ensures ReadLine(w, stack, path, line, n, [], st, true) ==
      (st.(output := st.output + [SourceLine(Comments.Blanks(|line|), path, n)]), true, [])
  {
    HiddenLine(line, 0);
    var blanks := Comments.Blanks(|line|);
    assert w.classify(blanks) == Line.Text(blanks) && w.expand(blanks, st.defines) == (blanks, 0);
  }

  lemma {:induction false} HiddenLines(w: World, stack: seq<Path>, path: Path, lines: seq<string>, n: nat, st: State)
    requires BlanksAreText(w) && forall line :: line in lines ==> NeverCloses(line)
    ensures ReadLines(w, stack, path, lines, n, [], st, true) ==
      (st.(output := st.output + BlankLines(path, lines, n)), true, [])
    decreases |lines|
  {
    hide ReadLine, BlanksAreText, NeverCloses;
    if lines == [] {
      assert st.output + [] == st.output;
    } else {
      HiddenStep(w, stack, path, lines[0], n, st);
      var blank := SourceLine(Comments.Blanks(|lines[0]|), path, n);
      HiddenLines(w, stack, path, lines[1..], n + 1, st.(output := st.output + [blank]));
      assert (st.output + [blank]) + BlankLines(path, lines[1..], n + 1) == st.output + BlankLines(path, lines, n);
    }
  }

  /** The comment state is shared with included files: a file entered with a
      block comment open, and never closing it, contributes blank lines only,
      whatever it says; the comment is reported against it and closed for its includer. */
  lemma OpenCommentHidesFile(w: World, stack: seq<Path>, path: Path, st: State)
    requires path !in stack && path in w.files
    requires BlanksAreText(w) && forall line :: line in w.files[path] ==> NeverCloses(line)
    ensures var (lines, st1) := (w.files[path], Opened(st, path));
      Process(w, stack, path, st, true) ==
        (Note(st1.(output := st1.output + BlankLines(path, lines, 1)), UnterminatedComment, path, |lines|), false)
  {
    hide ReadLines;
    HiddenLines(w, stack + [path], path, w.files[path], 1, Opened(st, path));
  }

  /** A line that opens a comment after an include, then a stray endif. */
  function CommentAfterInclude(): World {
    World(
      map["a" := ["i/*", "e"], "b" := []],
      s => if s == "i  " then Include(Some("b")) else if s == "e" then Endif else Line.Text(s),
      (name, from) => Some("b"),
      (text, macros) => (text, 0))
  }

  lemma StripExamples()
    ensures Comments.Strip("i/*", false) == ("i  ", true)
    ensures Comments.Strip("e", true) == (" ", true)
    ensures Comments.Strip("e", false) == ("e", false)
  {
    assert Comments.StripFrom("i/*", 3, true, false) == ("", true);
    assert Comments.StepAt("i/*", 1, false, false) == Comments.Step(2, Comments.Blanks(2), true, false);
    assert Comments.Blanks(2) == "  ";
    assert "  " + "" == "  ";
    assert Comments.StripFrom("i/*", 1, false, false) == ("  ", true);
    assert Comments.StepAt("i/*", 0, false, false) == Comments.Step(1, "i", false, false);
    assert "i" + "  " == "i  ";
    assert Comments.StepAt("e", 0, false, false) == Comments.Step(1, "e", false, false);
    assert Comments.StepAt("e", 0, true, false) == Comments.Step(1, Comments.Blanks(1), true, false);
    assert "e" + "" == "e" && " " + "" == " ";
    assert Comments.StripFrom("e", 1, true, false) == ("", true);
    assert Comments.StripFrom("e", 1, false, false) == ("", false);
    assert Comments.Blanks(1) == " ";
  }

  lemma ExampleIsBalanced()
    ensures Balanced(LinesOf(Stripped(CommentAfterInclude(), ["i/*", "e"], false)), 0)
  {
    StripExamples();
    var w := CommentAfterInclude();
    hide Comments.Strip;
    assert ["i/*", "e"][1..] == ["e"] && ["e"][1..] == [];
    var (first, second) := (Reading(Include(Some("b")), true), Reading(Line.Text(" "), true));
    assert Stripped(w, ["e"], true) == [second] + Stripped(w, [], true);
    assert Stripped(w, ["i/*", "e"], false) == [first] + Stripped(w, ["e"], true);
    LinesOfCons(second, []);
    LinesOfCons(first, [second]);
    BalancedStep(first.line, [second.line], 0);
    BalancedStep(second.line, [], 0);
  }

  /** The included file, though empty, closes the comment of its includer. */
  lemma ExampleInclude(st: State)
    ensures Process(CommentAfterInclude(), ["a"], "b", st, true) ==
      (Note(Opened(st, "b"), UnterminatedComment, "b", 0), false)
  {
    var w := CommentAfterInclude();
    assert w.files["b"] == [];
    assert ReadLines(w, ["a"] + ["b"], "b", [], 1, [], Opened(st, "b"), true) == (Opened(st, "b"), true, []);
  }

  lemma ExampleLines(st: State)
    ensures var w := CommentAfterInclude(); var st2 := Note(Opened(st, "b"), UnterminatedComment, "b", 0);
      && ReadLine(w, ["a"], "a", "i/*", 1, [], st, false) == (st2, false, [])
      && ReadLine(w, ["a"], "a", "e", 2, [], st2, false) == (Note(st2, StrayConditional, "a", 2), false, [])
  {
    ExampleInclude(st);
    StripExamples();
    hide Process, Comments.Strip, Note, Opened;
  }

  lemma ExampleReads(st: State)
    ensures Process(CommentAfterInclude(), [], "a", st, false)
         == (Note(Note(Opened(Opened(st, "a"), "b"), UnterminatedComment, "b", 0), StrayConditional, "a", 2), false)
  {
    var w, lines := CommentAfterInclude(), ["i/*", "e"];
    var st1 := Opened(st, "a");
    var st2 := Note(Opened(st1, "b"), UnterminatedComment, "b", 0);
    ExampleLines(st1);
    hide Process, ReadLine, Note, Opened;
    assert lines[0..] == lines && lines[2..] == lines[|lines|..];
    ReadStep(w, ["a"], "a", lines, 0, [], st1, false);
    ReadStep(w, ["a"], "a", lines, 1, [], st2, false);
    ReadEnd(w, ["a"], "a", lines, [], Note(st2, StrayConditional, "a", 2), false);
    hide ReadLines;
    assert [] + ["a"] == ["a"];
    ProcessFromReading(w, [], "a", st, false, Note(st2, StrayConditional, "a", 2), false, []);
  }

  lemma ProcessFromReading(w: World, stack: seq<Path>, path: Path, st: State, block: bool, after: State, b: bool,
      frames: seq<Frame>)
    requires path !in stack && path in w.files
    requires ReadLines(w, stack + [path], path, w.files[path], 1, [], Opened(st, path), block) == (after, b, frames)
    ensures Process(w, stack, path, st, block) == (Closing(after, path, |w.files[path]|, frames != [], b), false)
  {
    hide ReadLines;
  }

  /** With a comment open at an include line what is read need not be what the
      file's own lines say: these balance, yet an error is reported against the
      file, because the included file has closed the comment. */
  lemma OpenCommentAtIncludeBreaksReading(st: State)
    ensures var w := CommentAfterInclude();
      && "a" in w.files && !ClosedAtIncludes(w, w.files["a"], false)
      && Balanced(LinesOf(Stripped(w, w.files["a"], false)), 0)
      && Errors(Process(w, [], "a", st, false).0, "a") == Errors(st, "a") + 1
  {
    var w := CommentAfterInclude();
    ExampleIsBalanced();
    ExampleReads(st);
    StripExamples();
    assert w.files["a"] == ["i/*", "e"];
    hide Process, Stripped, Balanced, Comments.Strip;
    var st2 := Note(Opened(Opened(st, "a"), "b"), UnterminatedComment, "b", 0);
    OpenedErrors(st, "a");
    NoteErrors(Opened(Opened(st, "a"), "b"), UnterminatedComment, "b", 0, "a");
    NoteErrors(st2, StrayConditional, "a", 2, "a");
  }
}
