/** The preprocessor: comment removal, conditional compilation and recursive
    include, over a finite map from paths to lines. */
module Preprocess {
  import opened Tokens
  import opened Conditionals
  import Comments

  type Path = string

  type Macros = map<string, string>

  datatype Rule =
    | RecursiveInclude | FileNotFound | InvalidInclude | IncludeNotFound
    | EmptyDefineDirective | FunctionLikeMacro | UndefinedMacro | UnsupportedDirective
    | StrayConditional | UnterminatedConditional | UnterminatedComment

  datatype Diagnostic = Diagnostic(rule: Rule, file: Path, line: nat)

  datatype SourceLine = SourceLine(text: string, file: Path, line: nat)

  /** The files, and the text-level helpers: what kind of line a stripped text
      is, where an include name leads, and macro expansion with the number of
      undefined macros it met. */
  datatype World = World(
    files: map<Path, seq<string>>,
    classify: string -> Line,
    resolve: (string, Path) -> Option<Path>,
    expand: (string, Macros) -> (string, nat))

  datatype State = State(
    defines: Macros, output: seq<SourceLine>, diagnostics: seq<Diagnostic>,
    sourceFiles: seq<Path>, timescales: map<Path, Option<string>>, nettypeNone: bool)

  function Note(st: State, rule: Rule, file: Path, line: nat): State {
    st.(diagnostics := st.diagnostics + [Diagnostic(rule, file, line)])
  }

  function NoteTimes(st: State, rule: Rule, file: Path, line: nat, times: nat): State
    decreases times
  {
    if times == 0 then st else NoteTimes(Note(st, rule, file, line), rule, file, line, times - 1)
  }

  function OnStack(stack: seq<Path>): set<Path> {
    set p | p in stack
  }

  /** The files an include can still enter. */
  function Left(w: World, stack: seq<Path>): set<Path> {
    w.files.Keys - OnStack(stack)
  }

  lemma LeftShrinks(w: World, stack: seq<Path>, path: Path)
    requires path !in stack && path in w.files
    ensures Left(w, stack + [path]) < Left(w, stack)
  {
    assert path in Left(w, stack) && path !in Left(w, stack + [path]);
  }

  function Opened(st: State, path: Path): State {
    st.(sourceFiles := st.sourceFiles + [path],
        timescales := if path in st.timescales then st.timescales else st.timescales[path := None])
  }

  function Closing(st: State, path: Path, lines: nat, open: bool, block: bool): State {
    var st1 := if open then Note(st, UnterminatedConditional, path, lines) else st;
    if block then Note(st1, UnterminatedComment, path, lines) else st1
  }

  /** Processing a file with the given include stack; the flag is whether a
      block comment is open. */
  function Process(w: World, stack: seq<Path>, path: Path, st: State, block: bool): (State, bool)
    decreases Left(w, stack), 0, 0
  {
    if path in stack then (Note(st, RecursiveInclude, path, 1), block)
    else if path !in w.files then (Note(st, FileNotFound, path, 1), block)
    else
      assert path in Left(w, stack) && path !in Left(w, stack + [path]);
      var lines := w.files[path];
      var (after, b, frames) := ReadLines(w, stack + [path], path, lines, 1, [], Opened(st, path), block);
      (Closing(after, path, |lines|, frames != [], b), false)
  }

  function ReadLines(w: World, stack: seq<Path>, path: Path, lines: seq<string>, n: nat, frames: seq<Frame>, st: State,
      block: bool): (State, bool, seq<Frame>)
    decreases Left(w, stack), 3, |lines|
  {
    if lines == [] then (st, block, frames)
    else
      var (st', b, frames') := ReadLine(w, stack, path, lines[0], n, frames, st, block);
      ReadLines(w, stack, path, lines[1..], n + 1, frames', st', b)
  }

  function ReadLine(w: World, stack: seq<Path>, path: Path, line: string, n: nat, frames: seq<Frame>, st: State,
      block: bool): (State, bool, seq<Frame>)
    decreases Left(w, stack), 2, 0
  {
    var (text, b) := Comments.Strip(line, block);
    var l := w.classify(text);
    if IsConditional(l) then
      if frames == [] && !Opens(l) then (Note(st, StrayConditional, path, n), b, frames)
      else (st, b, StepFrames(frames, l, MacroOf(l) in st.defines))
    else if Active(frames) then
      var (st', b') := ExecLine(w, stack, path, l, n, st, b);
      (st', b', frames)
    else (st, b, frames)
  }

  /** An active line that is no conditional directive. */
  function ExecLine(w: World, stack: seq<Path>, path: Path, l: Line, n: nat, st: State, block: bool): (State, bool)
    decreases Left(w, stack), 1, 0
  {
    match l
    case Include(None) => (Note(st, InvalidInclude, path, n), block)
    case Include(Some(name)) =>
      var target := w.resolve(name, path);
      if target.None? then (Note(st, IncludeNotFound, path, n), block) else Process(w, stack, target.value, st, block)
    case Define(macro, body) => (st.(defines := st.defines[macro := body]), block)
    case EmptyDefine => (Note(st, EmptyDefineDirective, path, n), block)
    case FunctionMacro => (Note(st, FunctionLikeMacro, path, n), block)
    case Undef(macro) => (if macro.Some? then st.(defines := st.defines - {macro.value}) else st, block)
    case DefaultNettype(isNone) => (if isNone then st.(nettypeNone := true) else st, block)
    case Timescale(text) => (st.(timescales := st.timescales[path := Some(text)]), block)
    case CellDefine => (st, block)
    case Unsupported(_) => (Note(st, UnsupportedDirective, path, n), block)
    case Text(text) =>
      var (expanded, undefined) := w.expand(text, st.defines);
      var st' := NoteTimes(st, UndefinedMacro, path, n, undefined);
      (st'.(output := st'.output + [SourceLine(expanded, path, n)]), block)
    case _ => (st, block)
  }

  lemma ReadStep(w: World, stack: seq<Path>, path: Path, lines: seq<string>, i: nat, frames: seq<Frame>, st: State,
      block: bool)
    requires i < |lines|
    ensures var (st', b, frames') := ReadLine(w, stack, path, lines[i], i + 1, frames, st, block);
      ReadLines(w, stack, path, lines[i..], i + 1, frames, st, block) ==
      ReadLines(w, stack, path, lines[i + 1..], i + 2, frames', st', b)
  {
    hide ReadLine;
    assert lines[i..][1..] == lines[i + 1..];
  }

  lemma ReadEnd(w: World, stack: seq<Path>, path: Path, lines: seq<string>, frames: seq<Frame>, st: State, block: bool)
    ensures ReadLines(w, stack, path, lines[|lines|..], |lines| + 1, frames, st, block) == (st, block, frames)
  {
  }

  class Preprocessor {
    const world: World
    var defines: Macros
    var output: seq<SourceLine>
    var diagnostics: seq<Diagnostic>
    var sourceFiles: seq<Path>
    var timescales: map<Path, Option<string>>
    var nettypeNone: bool
    var includeStack: seq<Path>
    var blockComment: bool

    constructor (w: World, initial: Macros)
      ensures world == w && includeStack == [] && !blockComment
      ensures Now() == State(initial, [], [], [], map[], false)
    {
      world, defines, output, diagnostics, sourceFiles := w, initial, [], [], [];
      timescales, nettypeNone, includeStack, blockComment := map[], false, [], false;
    }

    ghost function Now(): State
      reads this
    {
      State(defines, output, diagnostics, sourceFiles, timescales, nettypeNone)
    }

    method Report(rule: Rule, file: Path, line: nat)
      modifies this`diagnostics
      ensures Now() == Note(old(Now()), rule, file, line)
    {
      diagnostics := diagnostics + [Diagnostic(rule, file, line)];
    }

    method RemoveComments(line: string) returns (text: string)
      modifies this`blockComment
      ensures (text, blockComment) == Comments.Strip(line, old(blockComment))
    {
      text := "";
      var index := 0;
      var inString := false;
      assert "" + Comments.Strip(line, blockComment).0 == Comments.Strip(line, blockComment).0;
      while index < |line|
        invariant 0 <= index <= |line|
        invariant Comments.Strip(line, old(blockComment)) ==
          var (rest, b) := Comments.StripFrom(line, index, blockComment, inString); (text + rest, b)
      {
        Comments.StripStep(line, index, blockComment, inString, text);
        if blockComment {
          if Comments.IsAt(line, index, '*', '/') {
            text := text + "  ";
            index := index + 2;
            blockComment := false;
          } else {
            text := text + " ";
            index := index + 1;
          }
          continue;
        }
        if line[index] == '"' && (index == 0 || line[index - 1] != '\\') {
          inString := !inString;
          text := text + [line[index]];
          index := index + 1;
          continue;
        }
        if !inString && Comments.IsAt(line, index, '/', '*') {
          text := text + "  ";
          index := index + 2;
          blockComment := true;
          continue;
        }
        if !inString && Comments.IsAt(line, index, '/', '/') {
          text := text + Comments.Blanks(|line| - index);
          return;
        }
        text := text + [line[index]];
        index := index + 1;
      }
      assert text + "" == text;
    }

    method HandleDirective(l: Line, path: Path, n: nat, frames: seq<Frame>) returns (frames': seq<Frame>)
      requires !l.Text?
      modifies this
      decreases Left(world, includeStack), 1
      ensures includeStack == old(includeStack)
      ensures frames' ==
        if IsConditional(l) && (frames != [] || Opens(l)) then StepFrames(frames, l, MacroOf(l) in old(defines))
        else frames
      ensures (Now(), blockComment) ==
        if IsConditional(l) then
          (if frames == [] && !Opens(l) then Note(old(Now()), StrayConditional, path, n) else old(Now()),
           old(blockComment))
        else if Active(frames) then ExecLine(world, old(includeStack), path, l, n, old(Now()), old(blockComment))
        else (old(Now()), old(blockComment))
    {
      frames' := frames;
      var active := if frames == [] then true else frames[|frames| - 1].active;
      if l.Ifdef? || l.Ifndef? {
        var condition := l.macro in defines;
        if l.Ifndef? {
          condition := !condition;
        }
        frames' := frames + [Frame(active, active && condition, condition)];
        return;
      }
      if l.Elsif? || l.Else? || l.Endif? {
        if frames == [] {
          Report(StrayConditional, path, n);
          return;
        }
        var below, top := frames[..|frames| - 1], frames[|frames| - 1];
        if l.Elsif? {
          var condition := l.macro in defines;
          frames' := below + [top.(active := top.parentActive && !top.branchTaken && condition,
                                   branchTaken := top.branchTaken || condition)];
        } else if l.Else? {
          frames' := below + [top.(active := top.parentActive && !top.branchTaken, branchTaken := true)];
        } else {
          frames' := below;
        }
        return;
      }
      if !active {
        return;
      }
      match l {
        case Include(None) =>
          Report(InvalidInclude, path, n);
        case Include(Some(name)) =>
          var target := world.resolve(name, path);
          if target.None? {
            Report(IncludeNotFound, path, n);
            return;
          }
          ProcessFile(target.value);
        case Define(macro, body) =>
          defines := defines[macro := body];
        case EmptyDefine =>
          Report(EmptyDefineDirective, path, n);
        case FunctionMacro =>
          Report(FunctionLikeMacro, path, n);
        case Undef(macro) =>
          if macro.Some? {
            defines := defines - {macro.value};
          }
        case DefaultNettype(isNone) =>
          if isNone {
            nettypeNone := true;
          }
        case Timescale(text) =>
          timescales := timescales[path := Some(text)];
        case CellDefine =>
        case Unsupported(_) =>
          Report(UnsupportedDirective, path, n);
      }
    }

    method AppendText(text: string, path: Path, n: nat)
      modifies this`diagnostics, this`output
      ensures (Now(), blockComment) ==
        ExecLine(world, includeStack, path, Line.Text(text), n, old(Now()), old(blockComment))
    {
      var (expanded, undefined) := world.expand(text, defines);
      for k := 0 to undefined
        invariant NoteTimes(Now(), UndefinedMacro, path, n, undefined - k) ==
          NoteTimes(old(Now()), UndefinedMacro, path, n, undefined)
        invariant output == old(output)
      {
        Report(UndefinedMacro, path, n);
      }
      output := output + [SourceLine(expanded, path, n)];
    }

    /** Terminates on every include graph, cyclic ones too, and gives the
        include stack back as it was. */
    method ProcessFile(path: Path)
      modifies this
      decreases Left(world, includeStack), 0
      ensures includeStack == old(includeStack)
      ensures (Now(), blockComment) == Process(world, old(includeStack), path, old(Now()), old(blockComment))
    {
      hide ReadLines, Note, Left;
      if path in includeStack {
        Report(RecursiveInclude, path, 1);
        return;
      }
      if path !in world.files {
        Report(FileNotFound, path, 1);
        return;
      }
      LeftShrinks(world, includeStack, path);
      sourceFiles := sourceFiles + [path];
      if path !in timescales {
        timescales := timescales[path := None];
      }
      includeStack := includeStack + [path];
      var lines := world.files[path];
      var frames := ReadFile(path, lines);
      if frames != [] {
        Report(UnterminatedConditional, path, |lines|);
      }
      if blockComment {
        Report(UnterminatedComment, path, |lines|);
        blockComment := false;
      }
      includeStack := includeStack[..|includeStack| - 1];
    }

    method ReadFile(path: Path, lines: seq<string>) returns (frames: seq<Frame>)
      modifies this
      decreases Left(world, includeStack), 3
      ensures includeStack == old(includeStack)
      ensures (Now(), blockComment, frames) ==
        ReadLines(world, old(includeStack), path, lines, 1, [], old(Now()), old(blockComment))
    {
      hide ReadLines, ReadLine;
      assert lines[0..] == lines;
      frames := [];
      for i := 0 to |lines|
        invariant includeStack == old(includeStack)
        invariant ReadLines(world, includeStack, path, lines[i..], i + 1, frames, Now(), blockComment)
          == ReadLines(world, includeStack, path, lines, 1, [], old(Now()), old(blockComment))
      {
        ReadStep(world, includeStack, path, lines, i, frames, Now(), blockComment);
        frames := ReadOne(path, lines[i], i + 1, frames);
      }
      ReadEnd(world, includeStack, path, lines, frames, Now(), blockComment);
    }

    /** The body of the line loop. */
    method ReadOne(path: Path, line: string, n: nat, frames: seq<Frame>) returns (frames': seq<Frame>)
      modifies this
      decreases Left(world, includeStack), 2
      ensures includeStack == old(includeStack)
      ensures (Now(), blockComment, frames') ==
        ReadLine(world, old(includeStack), path, line, n, frames, old(Now()), old(blockComment))
    {
      hide ExecLine, StepFrames;
      var text := RemoveComments(line);
      var l := world.classify(text);
      if !l.Text? {
        frames' := HandleDirective(l, path, n, frames);
        return;
      }
      frames' := frames;
      if frames != [] && !frames[|frames| - 1].active {
        return;
      }
      AppendText(l.text, path, n);
    }

    /** All the source files, one after another. */
    method PreprocessAll(paths: seq<Path>)
      requires includeStack == []
      modifies this
      ensures includeStack == []
      ensures (Now(), blockComment) == ProcessAll(world, paths, old(Now()), old(blockComment))
    {
      for i := 0 to |paths|
        invariant includeStack == []
        invariant ProcessAll(world, paths[i..], Now(), blockComment) ==
          ProcessAll(world, paths, old(Now()), old(blockComment))
      {
        assert paths[i..][1..] == paths[i + 1..];
        ProcessFile(paths[i]);
      }
    }
  }

  function ProcessAll(w: World, paths: seq<Path>, st: State, block: bool): (State, bool) {
    if paths == [] then (st, block)
    else
      var (st', b) := Process(w, [], paths[0], st, block);
      ProcessAll(w, paths[1..], st', b)
  }
}
