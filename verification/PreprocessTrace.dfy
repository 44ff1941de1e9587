/** What preprocessing does, said of the lines it carries out: the macros known, the
    output and the reports after any files, whatever they include. */
module PreprocessTrace {
  import opened Tokens
  import opened Conditionals
  import opened Preprocess
  import Comments

  /** What happens while files are read: a file is entered, turned away or left, a line is
      carried out, or a directive has no group to belong to. */
  datatype Event =
    | Enter(path: Path)
    | Again(path: Path)
    | Missing(path: Path)
    | Carried(path: Path, n: nat, line: Line)
    | Stray(path: Path, n: nat)
    | Leave(path: Path, lines: nat, inGroup: bool, inComment: bool)

  /** The events of a file, those of the files it includes among them. */
  function EventsOf(w: World, stack: seq<Path>, path: Path, st: State, block: bool): seq<Event>
    decreases Left(w, stack), 0, 0
  {
    if path in stack then [Again(path)]
    else if path !in w.files then [Missing(path)]
    else
      assert path in Left(w, stack) && path !in Left(w, stack + [path]);
      var lines := w.files[path];
      var (_, b, frames) := ReadLines(w, stack + [path], path, lines, 1, [], Opened(st, path), block);
      [Enter(path)] + EventsOfLines(w, stack + [path], path, lines, 1, [], Opened(st, path), block)
        + [Leave(path, |lines|, frames != [], b)]
  }

  function EventsOfLines(w: World, stack: seq<Path>, path: Path, lines: seq<string>, n: nat, frames: seq<Frame>,
      st: State, block: bool): seq<Event>
    decreases Left(w, stack), 3, |lines|
  {
    if lines == [] then []
    else
      var (st', b, frames') := ReadLine(w, stack, path, lines[0], n, frames, st, block);
      EventsOfLine(w, stack, path, lines[0], n, frames, st, block) +
        EventsOfLines(w, stack, path, lines[1..], n + 1, frames', st', b)
  }

  function EventsOfLine(w: World, stack: seq<Path>, path: Path, line: string, n: nat, frames: seq<Frame>, st: State,
      block: bool): seq<Event>
    decreases Left(w, stack), 2, 0
  {
    var (text, b) := Comments.Strip(line, block);
    var l := w.classify(text);
    if l.Ifdef? || l.Ifndef? then []
    else if l.Elsif? || l.Else? || l.Endif? then (if frames == [] then [Stray(path, n)] else [])
    else if frames != [] && !frames[|frames| - 1].active then []
    else if EntersFile(w, path, l).Some? then
      [Carried(path, n, l)] + EventsOf(w, stack, EntersFile(w, path, l).value, st, b)
    else [Carried(path, n, l)]
  }

  /** The file an include line leads to. */
  function EntersFile(w: World, path: Path, l: Line): Option<Path> {
    match l
    case Include(Some(name)) => w.resolve(name, path)
    case _ => None
  }

  // ----- what the events add up to -----

  /** The macros known after some events. */
  function Table(events: seq<Event>, known: Macros): Macros {
    if events == [] then known
    else
      var (before, e) := (Table(events[..|events| - 1], known), events[|events| - 1]);
      if e.Carried? && e.line.Define? then before[e.line.macro := e.line.body]
      else if e.Carried? && e.line.Undef? && e.line.undefined.Some? then before - {e.line.undefined.value}
      else before
  }

  /** The lines put out: every text line carried out, expanded with the macros known there. */
  function Written(w: World, events: seq<Event>, known: Macros): seq<SourceLine> {
    if events == [] then []
    else
      var (front, e) := (events[..|events| - 1], events[|events| - 1]);
      Written(w, front, known) +
        if e.Carried? && e.line.Text? then [SourceLine(w.expand(e.line.text, Table(front, known)).0, e.path, e.n)]
          else []
  }

  function Repeated(d: Diagnostic, times: nat): seq<Diagnostic> {
    if times == 0 then [] else Repeated(d, times - 1) + [d]
  }

  /** What is reported of one event. */
  function ReportsOf(w: World, e: Event, known: Macros): seq<Diagnostic> {
    match e
    case Enter(_) => []
    case Again(path) => [Diagnostic(RecursiveInclude, path, 1)]
    case Missing(path) => [Diagnostic(FileNotFound, path, 1)]
    case Stray(path, n) => [Diagnostic(StrayConditional, path, n)]
    case Leave(path, lines, inGroup, inComment) =>
      (if inGroup then [Diagnostic(UnterminatedConditional, path, lines)] else []) +
        (if inComment then [Diagnostic(UnterminatedComment, path, lines)] else [])
    case Carried(path, n, l) =>
      match l
      case Include(None) => [Diagnostic(InvalidInclude, path, n)]
      case Include(Some(name)) =>
        if w.resolve(name, path).None? then [Diagnostic(IncludeNotFound, path, n)] else []
      case EmptyDefine => [Diagnostic(EmptyDefineDirective, path, n)]
      case FunctionMacro => [Diagnostic(FunctionLikeMacro, path, n)]
      case Unsupported(_) => [Diagnostic(UnsupportedDirective, path, n)]
      case Text(text) => Repeated(Diagnostic(UndefinedMacro, path, n), w.expand(text, known).1)
      case _ => []
  }

  function Reported(w: World, events: seq<Event>, known: Macros): seq<Diagnostic> {
    if events == [] then []
    else
      var (front, e) := (events[..|events| - 1], events[|events| - 1]);
      Reported(w, front, known) + ReportsOf(w, e, Table(front, known))
  }

  /** The files entered, in order. */
  function Entered(events: seq<Event>): seq<Path> {
    if events == [] then []
    else
      var e := events[|events| - 1];
      Entered(events[..|events| - 1]) + if e.Enter? then [e.path] else []
  }

  /** The timescale of every file entered: that of its last timescale line, if any. */
  function Scales(events: seq<Event>, scales: map<Path, Option<string>>): map<Path, Option<string>> {
    if events == [] then scales
    else
      var (before, e) := (Scales(events[..|events| - 1], scales), events[|events| - 1]);
      if e.Enter? && e.path !in before then before[e.path := None]
      else if e.Carried? && e.line.Timescale? then before[e.path := Some(e.line.text)]
      else before
  }

  /** A default_nettype none was carried out. */
  ghost predicate SomeNettypeNone(events: seq<Event>) {
    exists k :: 0 <= k < |events| && SetsNettypeNone(events[k])
  }

  predicate SetsNettypeNone(e: Event) { e.Carried? && e.line == DefaultNettype(true) }

  /** The state after some events. */
  ghost function After(w: World, events: seq<Event>, st: State): State {
    State(
      Table(events, st.defines),
      st.output + Written(w, events, st.defines),
      st.diagnostics + Reported(w, events, st.defines),
      st.sourceFiles + Entered(events),
      Scales(events, st.timescales),
      st.nettypeNone || SomeNettypeNone(events))
  }

  // ----- joining events -----

  lemma Snoc(x: seq<Event>, e: Event)
    ensures (x + [e])[..|x|] == x && (x + [e])[|x|] == e
  {
  }

  lemma NettypeSnoc(x: seq<Event>, e: Event)
    ensures SomeNettypeNone(x + [e]) <==> SomeNettypeNone(x) || SetsNettypeNone(e)
  {
    var more := x + [e];
    assert forall k :: 0 <= k < |x| ==> more[k] == x[k];
    if SetsNettypeNone(e) { assert SetsNettypeNone(more[|x|]); }
    if k :| 0 <= k < |x| && SetsNettypeNone(x[k]) { assert SetsNettypeNone(more[k]); }
  }

  /** What one event does. */
  ghost function Effect(w: World, e: Event, st: State): State {
    State(
      if e.Carried? && e.line.Define? then st.defines[e.line.macro := e.line.body]
      else if e.Carried? && e.line.Undef? && e.line.undefined.Some? then st.defines - {e.line.undefined.value}
      else st.defines,
      if e.Carried? && e.line.Text? then
        st.output + [SourceLine(w.expand(e.line.text, st.defines).0, e.path, e.n)]
      else st.output,
      st.diagnostics + ReportsOf(w, e, st.defines),
      if e.Enter? then st.sourceFiles + [e.path] else st.sourceFiles,
      if e.Enter? && e.path !in st.timescales then st.timescales[e.path := None]
      else if e.Carried? && e.line.Timescale? then st.timescales[e.path := Some(e.line.text)]
      else st.timescales,
      st.nettypeNone || SetsNettypeNone(e))
  }

  lemma AfterSnoc(w: World, x: seq<Event>, e: Event, st: State)
    ensures After(w, x + [e], st) == Effect(w, e, After(w, x, st))
  {
    Snoc(x, e);
    NettypeSnoc(x, e);
    hide SomeNettypeNone, SetsNettypeNone, ReportsOf;
    var (front, all) := (After(w, x, st), After(w, x + [e], st));
    assert all.diagnostics == front.diagnostics + ReportsOf(w, e, front.defines);
    assert all.sourceFiles == front.sourceFiles + if e.Enter? then [e.path] else [];
    assert all.output == front.output +
      if e.Carried? && e.line.Text? then [SourceLine(w.expand(e.line.text, front.defines).0, e.path, e.n)] else [];
  }

  lemma NoEvents(w: World, st: State)
    ensures After(w, [], st) == st
  {
  }

  lemma OneEvent(w: World, e: Event, st: State)
    ensures After(w, [e], st) == Effect(w, e, st)
  {
    AfterSnoc(w, [], e, st);
    assert [] + [e] == [e];
    NoEvents(w, st);
  }

  lemma {:induction false} AfterAppend(w: World, x: seq<Event>, y: seq<Event>, st: State)
    ensures After(w, x + y, st) == After(w, y, After(w, x, st))
    decreases |y|
  {
    hide After, Effect;
    if y == [] {
      assert x + y == x;
      NoEvents(w, After(w, x, st));
    } else {
      var (front, e) := (y[..|y| - 1], y[|y| - 1]);
      assert x + y == (x + front) + [e] && y == front + [e];
      AfterSnoc(w, x + front, e, st);
      AfterAppend(w, x, front, st);
      AfterSnoc(w, front, e, After(w, x, st));
    }
  }

  // ----- preprocessing is its events -----

  lemma NotesAreReports(st: State, path: Path, n: nat, times: nat)
    ensures NoteTimes(st, UndefinedMacro, path, n, times) ==
      st.(diagnostics := st.diagnostics + Repeated(Diagnostic(UndefinedMacro, path, n), times))
  {
    RepeatedNotes(st, path, n, times);
  }

  lemma {:induction false} RepeatedNotes(st: State, path: Path, n: nat, times: nat)
    ensures NoteTimes(st, UndefinedMacro, path, n, times) ==
      st.(diagnostics := st.diagnostics + Repeated(Diagnostic(UndefinedMacro, path, n), times))
    decreases times
  {
    var d := Diagnostic(UndefinedMacro, path, n);
    if times > 0 {
      RepeatedNotes(Note(st, UndefinedMacro, path, n), path, n, times - 1);
      RepeatedFront(d, times - 1);
      assert st.diagnostics + ([d] + Repeated(d, times - 1)) == st.diagnostics + [d] + Repeated(d, times - 1);
    }
  }

  lemma {:induction false} RepeatedFront(d: Diagnostic, times: nat)
    ensures Repeated(d, times) + [d] == [d] + Repeated(d, times)
  {
    if times > 0 {
      RepeatedFront(d, times - 1);
      assert Repeated(d, times) + [d] == ([d] + Repeated(d, times - 1)) + [d];
    }
  }

  /** A line carried out that leads into no file. */
  lemma LineEffect(w: World, stack: seq<Path>, path: Path, l: Line, n: nat, st: State, block: bool)
    requires !IsConditional(l) && EntersFile(w, path, l).None?
    ensures ExecLine(w, stack, path, l, n, st, block) == (Effect(w, Carried(path, n, l), st), block)
  {
    hide Process, NoteTimes, Repeated;
    assert st.diagnostics + [] == st.diagnostics;
    if l.Text? { NotesAreReports(st, path, n, w.expand(l.text, st.defines).1); }
  }

  lemma IncludeEffect(w: World, stack: seq<Path>, path: Path, l: Line, n: nat, st: State, block: bool)
    requires !IsConditional(l) && EntersFile(w, path, l).Some?
    ensures ExecLine(w, stack, path, l, n, st, block) == Process(w, stack, EntersFile(w, path, l).value, st, block)
    ensures Effect(w, Carried(path, n, l), st) == st
  {
    hide Process;
  }

  lemma {:induction false} ProcessIsReplay(w: World, stack: seq<Path>, path: Path, st: State, block: bool)
    ensures Process(w, stack, path, st, block).0 == After(w, EventsOf(w, stack, path, st, block), st)
    decreases Left(w, stack), 0, 1
  {
    hide After, ReadLines, EventsOfLines;
    if path in stack {
      OneEvent(w, Again(path), st);
    } else if path !in w.files {
      OneEvent(w, Missing(path), st);
    } else {
      LeftShrinks(w, stack, path);
      var lines := w.files[path];
      var (after, b, frames) := ReadLines(w, stack + [path], path, lines, 1, [], Opened(st, path), block);
      var middle := EventsOfLines(w, stack + [path], path, lines, 1, [], Opened(st, path), block);
      var last := Leave(path, |lines|, frames != [], b);
      LinesAreReplay(w, stack + [path], path, lines, 1, [], Opened(st, path), block);
      OneEvent(w, Enter(path), st);
      OneEvent(w, last, after);
      AfterAppend(w, [Enter(path)], middle, st);
      AfterAppend(w, [Enter(path)] + middle, [last], st);
      EnterIsOpened(w, path, st);
      LeaveIsClosing(w, path, |lines|, frames != [], b, after);
    }
  }

  lemma EnterIsOpened(w: World, path: Path, st: State)
    ensures Effect(w, Enter(path), st) == Opened(st, path)
  {
  }

  lemma LeaveIsClosing(w: World, path: Path, lines: nat, open: bool, block: bool, st: State)
    ensures Effect(w, Leave(path, lines, open, block), st) == Closing(st, path, lines, open, block)
  {
    assert st.diagnostics + [] == st.diagnostics;
  }

  lemma {:induction false} LinesAreReplay(w: World, stack: seq<Path>, path: Path, lines: seq<string>, n: nat,
      frames: seq<Frame>, st: State, block: bool)
    ensures ReadLines(w, stack, path, lines, n, frames, st, block).0 ==
      After(w, EventsOfLines(w, stack, path, lines, n, frames, st, block), st)
    decreases Left(w, stack), 3, |lines|, 1
  {
    hide After, ReadLine, EventsOfLine;
    if lines == [] {
      NoEvents(w, st);
    } else {
      var (st', b, frames') := ReadLine(w, stack, path, lines[0], n, frames, st, block);
      LineIsReplay(w, stack, path, lines[0], n, frames, st, block);
      LinesAreReplay(w, stack, path, lines[1..], n + 1, frames', st', b);
      AfterAppend(w, EventsOfLine(w, stack, path, lines[0], n, frames, st, block),
        EventsOfLines(w, stack, path, lines[1..], n + 1, frames', st', b), st);
    }
  }

  lemma {:induction false} LineIsReplay(w: World, stack: seq<Path>, path: Path, line: string, n: nat,
      frames: seq<Frame>, st: State, block: bool)
    ensures ReadLine(w, stack, path, line, n, frames, st, block).0 ==
      After(w, EventsOfLine(w, stack, path, line, n, frames, st, block), st)
    decreases Left(w, stack), 2, 1
  {
    hide After, ExecLine, Process, EventsOf, Effect;
    var (text, b) := Comments.Strip(line, block);
    var l := w.classify(text);
    hide Comments.Strip;
    NoEvents(w, st);
    OneEvent(w, Stray(path, n), st);
    StrayIsNote(w, path, n, st);
    if !IsConditional(l) && Active(frames) {
      var e := Carried(path, n, l);
      OneEvent(w, e, st);
      if EntersFile(w, path, l).Some? {
        var target := EntersFile(w, path, l).value;
        IncludeEffect(w, stack, path, l, n, st, b);
        ProcessIsReplay(w, stack, target, st, b);
        AfterAppend(w, [e], EventsOf(w, stack, target, st, b), st);
      } else {
        LineEffect(w, stack, path, l, n, st, b);
      }
    }
  }

  lemma StrayIsNote(w: World, path: Path, n: nat, st: State)
    ensures Effect(w, Stray(path, n), st) == Note(st, StrayConditional, path, n)
  {
  }

  // ----- the macros known -----

  /** The event defines or undefines the name. */
  predicate Sets(e: Event, name: string) {
    && e.Carried?
    && ((e.line.Define? && e.line.macro == name) || (e.line.Undef? && e.line.undefined == Some(name)))
  }

  /** The k-th event is the last that defines or undefines the name. */
  ghost predicate LastSets(events: seq<Event>, k: nat, name: string) {
    k < |events| && Sets(events[k], name) && forall j :: k < j < |events| ==> !Sets(events[j], name)
  }

  /** A name that no line sets is known as at the start. */
  lemma {:induction false} TableUnset(events: seq<Event>, known: Macros, name: string)
    requires forall j :: 0 <= j < |events| ==> !Sets(events[j], name)
    ensures name in Table(events, known) <==> name in known
    ensures name in known ==> Table(events, known)[name] == known[name]
    decreases |events|
  {
    if events != [] {
      var (front, e) := (events[..|events| - 1], events[|events| - 1]);
      assert !Sets(e, name);
      TableUnset(front, known, name);
    }
  }

  /** Of the lines carried out that define or undefine a name the last one counts: the name
      is known with the body it defines, or not known if it undefines it. */
  lemma {:induction false} TableIsLast(events: seq<Event>, known: Macros, k: nat, name: string)
    requires LastSets(events, k, name)
    ensures
      if events[k].line.Define? then name in Table(events, known) && Table(events, known)[name] == events[k].line.body
      else name !in Table(events, known)
    decreases |events|
  {
    var (front, e) := (events[..|events| - 1], events[|events| - 1]);
    if k < |front| {
      assert !Sets(e, name);
      TableIsLast(front, known, k, name);
    }
  }

  // ----- the output -----

  /** The text lines among some events, in order. */
  function TextEvents(events: seq<Event>): (ks: seq<nat>)
    ensures forall i :: 0 <= i < |ks| ==> ks[i] < |events| && IsText(events[ks[i]])
  {
    if events == [] then []
    else
      var n := |events| - 1;
      TextEvents(events[..n]) + if IsText(events[n]) then [n] else []
  }

  predicate IsText(e: Event) { e.Carried? && e.line.Text? }

  lemma {:induction false} TextEventsAreAll(events: seq<Event>, k: nat)
    requires k < |events| && IsText(events[k])
    ensures k in TextEvents(events)
    ensures forall i, j :: 0 <= i < j < |TextEvents(events)| ==> TextEvents(events)[i] < TextEvents(events)[j]
  {
    var n := |events| - 1;
    var front := events[..n];
    TextEventsInOrder(events);
    if k < n {
      assert IsText(front[k]);
      TextEventsAreAll(front, k);
    }
  }

  lemma {:induction false} TextEventsInOrder(events: seq<Event>)
    ensures forall i, j :: 0 <= i < j < |TextEvents(events)| ==> TextEvents(events)[i] < TextEvents(events)[j]
  {
    if events != [] { TextEventsInOrder(events[..|events| - 1]); }
  }

  /** The output is the text lines carried out, in order, each expanded with the macros
      known where it stands and at its own file and line. */
  lemma {:induction false} OutputIsTexts(w: World, events: seq<Event>, known: Macros)
    ensures var (out, ks) := (Written(w, events, known), TextEvents(events));
      && |out| == |ks|
      && forall i :: 0 <= i < |ks| ==>
           var e := events[ks[i]];
           out[i] == SourceLine(w.expand(e.line.text, Table(events[..ks[i]], known)).0, e.path, e.n)
    decreases |events|
  {
    if events != [] {
      var n := |events| - 1;
      var front := events[..n];
      OutputIsTexts(w, front, known);
      hide Table;
      var (out, ks) := (Written(w, events, known), TextEvents(events));
      forall i | 0 <= i < |ks|
        ensures out[i] == SourceLine(w.expand(events[ks[i]].line.text, Table(events[..ks[i]], known)).0,
          events[ks[i]].path, events[ks[i]].n)
      {
        if i < |TextEvents(front)| {
          assert ks[i] == TextEvents(front)[i] && front[ks[i]] == events[ks[i]] && front[..ks[i]] == events[..ks[i]];
        }
      }
    }
  }

  // ----- several files -----

  /** The events of files read one after another. */
  function EventsOfAll(w: World, paths: seq<Path>, st: State, block: bool): seq<Event> {
    if paths == [] then []
    else
      var (after, b) := Process(w, [], paths[0], st, block);
      EventsOf(w, [], paths[0], st, block) + EventsOfAll(w, paths[1..], after, b)
  }

  lemma {:induction false} AllIsReplay(w: World, paths: seq<Path>, st: State, block: bool)
    ensures ProcessAll(w, paths, st, block).0 == After(w, EventsOfAll(w, paths, st, block), st)
    decreases |paths|
  {
    hide After, Process, EventsOf;
    if paths == [] {
      NoEvents(w, st);
    } else {
      var (after, b) := Process(w, [], paths[0], st, block);
      ProcessIsReplay(w, [], paths[0], st, block);
      AllIsReplay(w, paths[1..], after, b);
      AfterAppend(w, EventsOf(w, [], paths[0], st, block), EventsOfAll(w, paths[1..], after, b), st);
    }
  }
}
