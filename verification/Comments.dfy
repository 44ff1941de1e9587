/** Comment removal: every comment character becomes a space, and the only
    memory from one line to the next is whether a block comment is open. */
module Comments {
  function Blanks(n: nat): (s: string)
    ensures |s| == n && forall k :: 0 <= k < n ==> s[k] == ' '
  {
    if n == 0 then "" else " " + Blanks(n - 1)
  }

  predicate IsAt(line: string, i: nat, a: char, b: char) {
    i + 1 < |line| && line[i] == a && line[i + 1] == b
  }

  /** A quote counts unless the character before it is a backslash. */
  predicate QuoteAt(line: string, i: nat) {
    i < |line| && line[i] == '"' && (i == 0 || line[i - 1] != '\\')
  }

  /** One step of the scan: how many characters it takes, what it writes for
      them, and the state after it. */
  datatype Step = Step(taken: nat, out: string, block: bool, inString: bool)

  function StepAt(line: string, i: nat, block: bool, inString: bool): (r: Step)
    requires i < |line|
    ensures 0 < r.taken == |r.out| <= |line| - i
  {
    if block then
      if IsAt(line, i, '*', '/') then Step(2, Blanks(2), false, inString) else Step(1, Blanks(1), true, inString)
    else if QuoteAt(line, i) then Step(1, [line[i]], false, !inString)
    else if !inString && IsAt(line, i, '/', '*') then Step(2, Blanks(2), true, inString)
    else if !inString && IsAt(line, i, '/', '/') then Step(|line| - i, Blanks(|line| - i), false, inString)
    else Step(1, [line[i]], false, inString)
  }

  /** What the line becomes from position i on, and the comment state after it. */
  function StripFrom(line: string, i: nat, block: bool, inString: bool): (r: (string, bool))
    requires i <= |line|
    ensures |r.0| == |line| - i
    decreases |line| - i
  {
    if i == |line| then ("", block)
    else
      var s := StepAt(line, i, block, inString);
      var (rest, b) := StripFrom(line, i + s.taken, s.block, s.inString);
      (s.out + rest, b)
  }

  function Strip(line: string, block: bool): (r: (string, bool))
    ensures |r.0| == |line|
  {
    StripFrom(line, 0, block, false)
  }

  /** One step of the scan, with the text written so far in front. */
  lemma StripStep(line: string, i: nat, block: bool, inString: bool, text: string)
    requires i < |line|
    ensures var (rest, b) := StripFrom(line, i, block, inString);
      var s := StepAt(line, i, block, inString);
      var (rest', b') := StripFrom(line, i + s.taken, s.block, s.inString);
      text + rest == (text + s.out) + rest' && b == b' && (text + s.out) + "" == text + s.out
    ensures Blanks(1) == " " && Blanks(2) == "  "
    ensures var (rest, b) := StripFrom(line, |line|, false, inString); rest == "" && !b
  {
    hide StepAt;
    assert Blanks(0) == "" && Blanks(1) == " " + "" && Blanks(2) == " " + Blanks(1);
  }

  /** Text r keeps the characters of the line from position i on, or blanks them. */
  ghost predicate Blanked(line: string, i: nat, r: string) {
    i + |r| <= |line| && forall k {:trigger r[k]} :: 0 <= k < |r| ==> r[k] == line[i + k] || r[k] == ' '
  }

  lemma BlankedConcat(line: string, i: nat, x: string, y: string)
    requires Blanked(line, i, x) && Blanked(line, i + |x|, y)
    ensures Blanked(line, i, x + y)
  {
    forall k | 0 <= k < |x + y|
      ensures (x + y)[k] == line[i + k] || (x + y)[k] == ' '
    {
      if k >= |x| {
        assert y[k - |x|] == (x + y)[k];
      }
    }
  }

  /** Every character is kept or replaced by a space. */
  lemma {:induction false} KeptOrBlank(line: string, i: nat, block: bool, inString: bool)
    requires i <= |line|
    ensures Blanked(line, i, StripFrom(line, i, block, inString).0)
    decreases |line| - i
  {
    if i < |line| {
      var s := StepAt(line, i, block, inString);
      assert Blanked(line, i, s.out);
      KeptOrBlank(line, i + s.taken, s.block, s.inString);
      BlankedConcat(line, i, s.out, StripFrom(line, i + s.taken, s.block, s.inString).0);
    }
  }

  /** Spaces pass through the scan outside block comments. */
  lemma {:induction false} BlanksPass(line: string, i: nat, n: nat, inString: bool)
    requires i + n <= |line| && forall k :: i <= k < i + n ==> line[k] == ' '
    decreases n
    ensures StripFrom(line, i, false, inString) ==
      var (rest, b) := StripFrom(line, i + n, false, inString);
      (line[i..i + n] + rest, b)
  {
    if n == 0 {
      assert line[i..i] == "";
      var (rest, b) := StripFrom(line, i, false, inString);
      assert "" + rest == rest;
    } else {
      BlanksPass(line, i + 1, n - 1, inString);
      assert StepAt(line, i, false, inString) == Step(1, [' '], false, inString);
      var (rest, b) := StripFrom(line, i + n, false, inString);
      assert [line[i]] + (line[i + 1..i + n] + rest) == line[i..i + n] + rest;
    }
  }

  /** The two scans agree on backslashes just before the position. */
  ghost predicate SameEscape(line: string, out: string, i: nat)
    requires i <= |line| == |out|
  {
    i > 0 ==> (out[i - 1] == '\\' <==> line[i - 1] == '\\')
  }

  /** A kept character is kept again, with the same effect on the string state. */
  lemma KeptAgain(line: string, out: string, i: nat, inString: bool)
    requires i < |line| == |out| && SameEscape(line, out, i)
    requires out[i] == line[i] && (i + 1 < |line| ==> out[i + 1] == line[i + 1] || out[i + 1] == ' ')
    requires StepAt(line, i, false, inString).out == [line[i]]
    requires !StepAt(line, i, false, inString).block && StepAt(line, i, false, inString).taken == 1
    ensures StepAt(out, i, false, inString) == StepAt(line, i, false, inString)
  {
  }

  ghost predicate SuffixIs(out: string, i: nat, x: string) {
    i <= |out| && out[i..] == x
  }

  /** Stripping the stripped text from the same position changes nothing: the
      two scans agree on where strings start and end. */
  lemma {:induction false} StripAgain(line: string, out: string, i: nat, block: bool, inString: bool)
    requires i <= |line| == |out|
    requires SuffixIs(out, i, StripFrom(line, i, block, inString).0)
    requires block ==> !inString
    requires !block && i < |line| ==> SameEscape(line, out, i)
    ensures StripFrom(out, i, false, inString) == (out[i..], false)
    decreases |line| - i
  {
    hide SuffixIs, Blanked, StripFrom, StepAt, SameEscape;
    if i == |line| {
      StripEnd(out, inString);
    } else {
      var s := StepAt(line, i, block, inString);
      var rest := StripFrom(line, i + s.taken, s.block, s.inString).0;
      StripUnfolds(line, i, block, inString);
      SuffixParts(out, i, s.out, rest);
      if s.out == [line[i]] && !block {
        KeptOrBlank(line, i, block, inString);
        NextInSuffix(line, out, i, s.out + rest);
        KeptFacts(line, out, i, inString);
        StripAgain(line, out, i + 1, s.block, s.inString);
        KeptAgain(line, out, i, inString);
        KeptStep(out, i, inString, s.inString);
      } else {
        BlankStep(line, i, block, inString);
        BlankEscape(line, out, i + s.taken);
        StripAgain(line, out, i + s.taken, s.block, s.inString);
        BlankRun(out, i, s.taken, inString);
      }
    }
  }

  lemma StripUnfolds(line: string, i: nat, block: bool, inString: bool)
    requires i < |line|
    ensures var s := StepAt(line, i, block, inString);
      StripFrom(line, i, block, inString).0 == s.out + StripFrom(line, i + s.taken, s.block, s.inString).0
  {
    hide StepAt;
  }

  lemma StripEnd(out: string, inString: bool)
    ensures StripFrom(out, |out|, false, inString) == (out[|out|..], false)
  {
    assert out[|out|..] == "";
  }

  lemma KeptFacts(line: string, out: string, i: nat, inString: bool)
    requires i < |line| == |out| && out[i] == line[i] && StepAt(line, i, false, inString).out == [line[i]]
    ensures StepAt(line, i, false, inString).taken == 1 && !StepAt(line, i, false, inString).block
    ensures SameEscape(line, out, i + 1)
  {
  }

  lemma BlankEscape(line: string, out: string, i: nat)
    requires 0 < i <= |line| == |out| && out[i - 1] == ' '
    ensures line[i - 1] == '/' ==> SameEscape(line, out, i)
  {
  }

  lemma KeptStep(out: string, i: nat, inString: bool, after: bool)
    requires i < |out| && StepAt(out, i, false, inString) == Step(1, [out[i]], false, after)
    requires StripFrom(out, i + 1, false, after) == (out[i + 1..], false)
    ensures StripFrom(out, i, false, inString) == (out[i..], false)
  {
    hide StepAt;
    assert [out[i]] + out[i + 1..] == out[i..];
  }

  lemma BlankRun(out: string, i: nat, n: nat, inString: bool)
    requires i + n <= |out| && forall k :: i <= k < i + n ==> out[k] == ' '
    requires StripFrom(out, i + n, false, inString) == (out[i + n..], false)
    ensures StripFrom(out, i, false, inString) == (out[i..], false)
  {
    hide StripFrom;
    BlanksPass(out, i, n, inString);
    assert out[i..i + n] + out[i + n..] == out[i..];
  }

  /** A step that does not keep its character writes spaces, leaves the string
      state alone, and stops neither after a backslash nor inside a string. */
  lemma BlankStep(line: string, i: nat, block: bool, inString: bool)
    requires i < |line| && (block ==> !inString)
    requires var s := StepAt(line, i, block, inString); s.out != [line[i]] || block
    ensures var s := StepAt(line, i, block, inString);
      && (forall k :: 0 <= k < s.taken ==> s.out[k] == ' ')
      && s.inString == inString && !inString
      && (!s.block && i + s.taken < |line| ==> line[i + s.taken - 1] == '/')
  {
  }

  lemma NextInSuffix(line: string, out: string, i: nat, x: string)
    requires i < |out| == |line| && SuffixIs(out, i, x) && Blanked(line, i, x)
    ensures i + 1 < |out| ==> out[i + 1] == line[i + 1] || out[i + 1] == ' '
  {
    assert |x| == |out| - i;
    if i + 1 < |out| {
      assert x[1] == out[i..][1] == out[i + 1];
    }
  }

  lemma SuffixParts(out: string, i: nat, x: string, y: string)
    requires SuffixIs(out, i, x + y)
    ensures i + |x| <= |out| && SuffixIs(out, i + |x|, y) && (x != [] ==> out[i] == x[0])
    ensures forall k :: i <= k < i + |x| ==> out[k] == x[k - i]
  {
    assert out[i..][|x|..] == out[i + |x|..];
    assert forall k :: 0 <= k < |x| ==> out[i..][k] == out[i + k];
  }

  /** Comment removal is idempotent: a stripped line has no comments left. */
  lemma StripIsIdempotent(line: string, block: bool)
    ensures Strip(Strip(line, block).0, false) == (Strip(line, block).0, false)
  {
    var out := Strip(line, block).0;
    assert out[0..] == out;
    StripAgain(line, out, 0, block, false);
  }

  // ----- the automaton -----

  /** What a character is: code, part of a string literal, the two halves of an opening
      or closing mark (the star of an opening one counts as inside), inside a block
      comment, or in the comment that takes the rest of a line. */
  datatype Mode = Code | Str | Opening | Block | Closing | Closed | Rest

  predicate Hidden(m: Mode) { !m.Code? && !m.Str? }

  /** The mode of character i after a character of mode m. */
  function NextMode(m: Mode, line: string, i: nat): Mode
    requires i < |line|
  {
    match m
    case Opening => Block
    case Closing => Closed
    case Rest => Rest
    case Block => if line[i] == '*' && Follows(line, i, '/') then Closing else Block
    case Str => if line[i] == '"' && !(i > 0 && line[i - 1] == '\\') then Code else Str
    case _ =>
      if line[i] == '"' && !(i > 0 && line[i - 1] == '\\') then Str
      else if line[i] == '/' && Follows(line, i, '*') then Opening
      else if line[i] == '/' && Follows(line, i, '/') then Rest
      else Code
  }

  predicate Follows(line: string, i: nat, c: char) { i + 1 < |line| && line[i + 1] == c }

  /** The mode of the character before position i, one step for each character. */
  function ModeBefore(line: string, i: nat, start: Mode): Mode
    requires i <= |line|
  {
    if i == 0 then start else NextMode(ModeBefore(line, i - 1, start), line, i - 1)
  }

  function ModeOf(line: string, i: nat, start: Mode): Mode
    requires i < |line|
  {
    ModeBefore(line, i + 1, start)
  }

  function StartMode(block: bool): Mode {
    if block then Block else Code
  }

  /** The scan's two flags at a position it stops at, as a mode. */
  predicate Matches(m: Mode, block: bool, inString: bool) {
    if block then m.Block? && !inString else if inString then m.Str? else m.Code? || m.Closed?
  }

  /** Text r, standing from position i, shows the characters that are not hidden. */
  ghost predicate Shows(line: string, i: nat, start: Mode, r: string) {
    i + |r| <= |line| &&
    forall k {:trigger r[k]} :: 0 <= k < |r| ==> r[k] == if Hidden(ModeOf(line, i + k, start)) then ' ' else line[i + k]
  }

  lemma ShowsConcat(line: string, i: nat, start: Mode, x: string, y: string)
    requires Shows(line, i, start, x) && Shows(line, i + |x|, start, y)
    ensures Shows(line, i, start, x + y)
  {
    hide ModeOf;
    forall k | 0 <= k < |x + y|
      ensures (x + y)[k] == if Hidden(ModeOf(line, i + k, start)) then ' ' else line[i + k]
    {
      if k >= |x| {
        assert y[k - |x|] == (x + y)[k];
      }
    }
  }

  lemma {:induction false} RestStays(line: string, i: nat, k: nat, start: Mode)
    requires i <= k <= |line| && ModeBefore(line, i, start) == Rest
    ensures ModeBefore(line, k, start) == Rest
    decreases k
  {
    if i < k { RestStays(line, i, k - 1, start); }
  }

  /** One step of the scan writes what the automaton shows, and the two agree after it. */
  lemma StepShows(line: string, i: nat, block: bool, inString: bool, start: Mode)
    requires i < |line| && Matches(ModeBefore(line, i, start), block, inString)
    ensures var s := StepAt(line, i, block, inString);
      && Shows(line, i, start, s.out)
      && (i + s.taken < |line| ==> Matches(ModeBefore(line, i + s.taken, start), s.block, s.inString))
      && (s.block <==> ModeBefore(line, i + s.taken, start) == Block)
  {
    var s := StepAt(line, i, block, inString);
    var m := ModeOf(line, i, start);
    if m == Rest {
      forall k | i < k <= |line| ensures ModeBefore(line, k, start) == Rest {
        RestStays(line, i + 1, k, start);
      }
    } else if s.taken == 2 {
      assert ModeBefore(line, i + 2, start) == NextMode(m, line, i + 1);
    }
  }

  lemma {:induction false} ScanShows(line: string, i: nat, block: bool, inString: bool, start: Mode)
    requires i <= |line| && (i < |line| ==> Matches(ModeBefore(line, i, start), block, inString))
    requires block <==> ModeBefore(line, i, start) == Block
    ensures var (r, b) := StripFrom(line, i, block, inString);
      Shows(line, i, start, r) && (b <==> ModeBefore(line, |line|, start) == Block)
    decreases |line| - i
  {
    hide StepAt, ModeBefore, Matches;
    if i < |line| {
      var s := StepAt(line, i, block, inString);
      StepShows(line, i, block, inString, start);
      ScanShows(line, i + s.taken, s.block, s.inString, start);
      ShowsConcat(line, i, start, s.out, StripFrom(line, i + s.taken, s.block, s.inString).0);
    }
  }

  /** A character becomes a space exactly when the automaton hides it, and a block
      comment stays open exactly when the automaton ends inside one. */
  lemma StripIsAutomaton(line: string, block: bool)
    ensures var (r, b) := Strip(line, block);
      && (forall k :: 0 <= k < |line| ==> r[k] == if Hidden(ModeOf(line, k, StartMode(block))) then ' ' else line[k])
      && (b <==> ModeBefore(line, |line|, StartMode(block)) == Block)
  {
    ScanShows(line, 0, block, false, StartMode(block));
  }

  /** The lines of a file one after another. */
  function StripLines(lines: seq<string>, block: bool): (r: (seq<string>, bool))
    ensures |r.0| == |lines|
  {
    if lines == [] then ([], block)
    else
      var (text, b) := Strip(lines[0], block);
      var (rest, end) := StripLines(lines[1..], b);
      ([text] + rest, end)
  }

  /** The mode a line starts in: inside a block comment if the line before ends in
      one, and otherwise in code, whatever string was left open. */
  function LineStart(lines: seq<string>, n: nat, start: Mode): Mode
    requires n <= |lines|
  {
    if n == 0 then start
    else StartMode(ModeBefore(lines[n - 1], |lines[n - 1]|, LineStart(lines, n - 1, start)) == Block)
  }

  lemma {:induction false} LineStartShift(lines: seq<string>, n: nat, start: Mode)
    requires 0 < n <= |lines|
    ensures LineStart(lines, n, start) == LineStart(lines[1..], n - 1, LineStart(lines, 1, start))
  {
    hide ModeBefore;
    if n > 1 { LineStartShift(lines, n - 1, start); }
  }

  /** The same over a whole file: the automaton runs through all its lines, and only
      block comments reach from one line into the next. */
  lemma {:induction false} FileIsAutomaton(lines: seq<string>, block: bool, n: nat, k: nat)
    requires n < |lines| && k < |lines[n]|
    ensures var texts := StripLines(lines, block).0;
      |texts[n]| == |lines[n]| &&
      texts[n][k] == if Hidden(ModeOf(lines[n], k, LineStart(lines, n, StartMode(block)))) then ' ' else lines[n][k]
    decreases |lines|
  {
    hide Strip, ModeOf, ModeBefore;
    StripIsAutomaton(lines[0], block);
    if n > 0 {
      var b := Strip(lines[0], block).1;
      LineStartShift(lines, n, StartMode(block));
      FileIsAutomaton(lines[1..], b, n - 1, k);
    }
  }

  lemma {:induction false} FileEndsInBlock(lines: seq<string>, block: bool)
    ensures StripLines(lines, block).1 <==> LineStart(lines, |lines|, StartMode(block)) == Block
    decreases |lines|
  {
    hide Strip, ModeBefore;
    if lines != [] {
      StripIsAutomaton(lines[0], block);
      LineStartShift(lines, |lines|, StartMode(block));
      FileEndsInBlock(lines[1..], Strip(lines[0], block).1);
    }
  }
}
