/** Statements written out and read back: exactly which if and case statements the
    parser reads to their end. */
module ParserStatements {
  import opened Tokens
  import opened ParserSpec
  import opened ParserGrammar
  import opened ParserTexts

  /** A statement of an always or initial block. The label of a block is empty or `: name`;
      the label of an arm of a case statement ends with its colon. */
  datatype Stmt =
    | Plain(text: seq<Token>, semi: Token)
    | Begin(first: Token, mark: seq<Token>, body: Stmts, last: Token)
    | If(keyword: Token, cond: Parens, yes: Stmt, otherwise: Else)
    | Case(keyword: Token, subject: Parens, arms: Arms, last: Token)

  datatype Else = NoElse | Else(keyword: Token, no: Stmt)

  datatype Stmts = Nil | Cons(head: Stmt, tail: Stmts)

  datatype Arms = NoArm | Arm(mark: seq<Token>, stmt: Stmt, rest: Arms)

  function StmtText(s: Stmt): (t: seq<Token>)
    ensures t != []
  {
    match s
    case Plain(text, semi) => text + [semi]
    case Begin(first, mark, body, last) => [first] + (mark + (StmtsText(body) + [last]))
    case If(keyword, cond, yes, otherwise) => [keyword] + (ParensText(cond) + (StmtText(yes) + ElseText(otherwise)))
    case Case(keyword, subject, arms, last) => [keyword] + (ParensText(subject) + (ArmsText(arms) + [last]))
  }

  function ElseText(e: Else): seq<Token> {
    match e
    case NoElse => []
    case Else(keyword, no) => [keyword] + StmtText(no)
  }

  function StmtsText(ss: Stmts): seq<Token> {
    match ss
    case Nil => []
    case Cons(head, tail) => StmtText(head) + StmtsText(tail)
  }

  function ArmsText(a: Arms): seq<Token> {
    match a
    case NoArm => []
    case Arm(mark, stmt, rest) => mark + (StmtText(stmt) + ArmsText(rest))
  }

  const BLOCK_WORDS := {"begin", "end", "case", "casez", "casex", "endcase", "else"}

  /** No word of the text opens, closes or continues a statement. */
  predicate Calm(t: seq<Token>) { forall k :: 0 <= k < |t| ==> t[k].value !in BLOCK_WORDS }

  /** Nor is there a semicolon in it. */
  predicate Quiet(t: seq<Token>) { Calm(t) && NoneIs(t, ";") }

  predicate StmtFits(s: Stmt) {
    match s
    case Plain(text, semi) => Calm(text) && semi.value == ";"
    case Begin(first, mark, body, last) =>
      first.value == "begin" && Quiet(mark) && StmtsFit(body) && last.value == "end"
    case If(keyword, cond, yes, otherwise) =>
      && keyword.value == "if" && ParensFit(cond) && Quiet(cond.inner) && StmtFits(yes)
      && (otherwise.Else? ==> otherwise.keyword.value == "else" && StmtFits(otherwise.no))
    case Case(keyword, subject, arms, last) =>
      && keyword.value in {"case", "casez", "casex"} && ParensFit(subject) && Quiet(subject.inner) && ArmsFit(arms)
      && last.value == "endcase"
  }

  predicate StmtsFit(ss: Stmts) {
    match ss
    case Nil => true
    case Cons(head, tail) => StmtFits(head) && StmtsFit(tail)
  }

  predicate ArmsFit(a: Arms) {
    match a
    case NoArm => true
    case Arm(mark, stmt, rest) => Quiet(mark) && StmtFits(stmt) && ArmsFit(rest)
  }

  // ----- what is passed over -----

  /** One token inside a begin or case. */
  lemma WordPassed(ts: seq<Token>, i: nat, begins: nat, cases: nat)
    requires i + 1 < |ts| && ts[i].value !in BLOCK_WORDS
    requires ts[i].value != ";" || begins + cases > 0
    ensures CompoundEnd(ts, i, begins, cases) == CompoundEnd(ts, i + 1, begins, cases)
  {
  }

  lemma {:induction false} TextPassed(ts: seq<Token>, i: nat, t: seq<Token>, begins: nat, cases: nat)
    requires Stands(ts, i, t) && Calm(t) && (NoneIs(t, ";") || begins + cases > 0)
    ensures CompoundEnd(ts, i, begins, cases) == CompoundEnd(ts, i + |t|, begins, cases)
    decreases |t|
  {
    hide CompoundEnd;
    if t != [] {
      StandsFirst(ts, i, t);
      hide Stands;
      assert t[1..] != [] ==> t[1..][0] == t[1];
      WordPassed(ts, i, begins, cases);
      TextPassed(ts, i + 1, t[1..], begins, cases);
    }
  }

  lemma BeginPassed(ts: seq<Token>, i: nat, begins: nat, cases: nat)
    requires i + 1 < |ts|
    ensures ts[i].value == "begin" ==>
      CompoundEnd(ts, i, begins, cases) == CompoundEnd(ts, i + 1, begins + 1, cases)
    ensures ts[i].value in {"case", "casez", "casex"} ==>
      CompoundEnd(ts, i, begins, cases) == CompoundEnd(ts, i + 1, begins, cases + 1)
    ensures ts[i].value == "else" ==> CompoundEnd(ts, i, begins, cases) == CompoundEnd(ts, i + 1, begins, cases)
    ensures ts[i].value == "end" && begins > 0 ==>
      CompoundEnd(ts, i, begins, cases) ==
        if begins == 1 && cases == 0 then i + 1 else CompoundEnd(ts, i + 1, begins - 1, cases)
    ensures ts[i].value == "endcase" && cases > 0 ==>
      CompoundEnd(ts, i, begins, cases) ==
        if cases == 1 && begins == 0 then i + 1 else CompoundEnd(ts, i + 1, begins, cases - 1)
    ensures ts[i].value == ";" && begins == 0 && cases == 0 ==>
      CompoundEnd(ts, i, begins, cases) == if ts[i + 1].value == "else" then CompoundEnd(ts, i + 1, 0, 0) else i + 1
  {
  }

  lemma ParensQuiet(g: Parens)
    requires ParensFit(g) && Quiet(g.inner)
    ensures Quiet(ParensText(g))
  {
    hide Nests;
    var t := ParensText(g);
    assert g.open.value == "(" && g.close.value == ")";
    forall k | 0 <= k < |t| ensures t[k].value !in BLOCK_WORDS && !Is(t[k], ";") {
      if 0 < k < |t| - 1 { assert t[k] == g.inner[k - 1]; }
    }
  }

  lemma QuietPassed(ts: seq<Token>, i: nat, t: seq<Token>, begins: nat, cases: nat)
    requires Stands(ts, i, t) && Quiet(t)
    ensures CompoundEnd(ts, i, begins, cases) == CompoundEnd(ts, i + |t|, begins, cases)
  {
    hide CompoundEnd, Stands;
    TextPassed(ts, i, t, begins, cases);
  }

  /** The keyword and the condition at the start of an if or case statement. */
  lemma HeadStands(ts: seq<Token>, i: nat, keyword: Token, g: Parens, rest: seq<Token>)
    requires Stands(ts, i, [keyword] + (ParensText(g) + rest))
    ensures i + 1 < |ts| && ts[i] == keyword && Stands(ts, i + 1, ParensText(g))
    ensures Stands(ts, i + 1 + |ParensText(g)|, rest) && i + 1 + |ParensText(g)| + |rest| < |ts|
  {
    hide Stands, ParensText;
    StandsApart(ts, i, [keyword], ParensText(g) + rest);
    StandsOne(ts, i, keyword);
    StandsApart(ts, i + 1, ParensText(g), rest);
  }

  /** Passing `if (...)`. */
  lemma IfPassed(ts: seq<Token>, i: nat, keyword: Token, g: Parens, rest: seq<Token>, begins: nat, cases: nat)
    requires keyword.value == "if" && ParensFit(g) && Quiet(g.inner)
    requires Stands(ts, i, [keyword] + (ParensText(g) + rest))
    ensures var next := i + 1 + |ParensText(g)|;
      && next + |rest| < |ts| && Stands(ts, next, rest)
      && CompoundEnd(ts, i, begins, cases) == CompoundEnd(ts, next, begins, cases)
  {
    hide CompoundEnd, Stands, ParensText, Quiet, ParensFit;
    HeadStands(ts, i, keyword, g, rest);
    ParensQuiet(g);
    WordPassed(ts, i, begins, cases);
    QuietPassed(ts, i + 1, ParensText(g), begins, cases);
  }

  /** Passing `case (...)`. */
  lemma CasePassed(ts: seq<Token>, i: nat, keyword: Token, g: Parens, rest: seq<Token>, begins: nat, cases: nat)
    requires keyword.value in {"case", "casez", "casex"} && ParensFit(g) && Quiet(g.inner)
    requires Stands(ts, i, [keyword] + (ParensText(g) + rest))
    ensures var next := i + 1 + |ParensText(g)|;
      && next + |rest| < |ts| && Stands(ts, next, rest)
      && CompoundEnd(ts, i, begins, cases) == CompoundEnd(ts, next, begins, cases + 1)
  {
    hide CompoundEnd, Stands, ParensText, Quiet, ParensFit;
    HeadStands(ts, i, keyword, g, rest);
    ParensQuiet(g);
    BeginPassed(ts, i, begins, cases);
    QuietPassed(ts, i + 1, ParensText(g), begins, cases + 1);
  }

  /** Inside a begin or case every statement is passed over whole. */
  lemma {:induction false} StmtPassed(ts: seq<Token>, i: nat, s: Stmt, begins: nat, cases: nat)
    requires StmtFits(s) && Stands(ts, i, StmtText(s)) && begins + cases > 0
    ensures i + |StmtText(s)| < |ts| &&
      CompoundEnd(ts, i, begins, cases) == CompoundEnd(ts, i + |StmtText(s)|, begins, cases)
    decreases s, 1
  {
    hide CompoundEnd, Stands, ParensText, ParensFit, Quiet, Calm;
    StandsInside(ts, i, StmtText(s));
    match s
    case Plain(text, semi) =>
      StandsApart(ts, i, text, [semi]);
      StandsOne(ts, i + |text|, semi);
      TextPassed(ts, i, text, begins, cases);
      WordPassed(ts, i + |text|, begins, cases);
    case Begin(first, mark, body, last) =>
      BlockPassed(ts, i, s, begins, cases);
    case If(keyword, cond, yes, otherwise) =>
      var next := i + 1 + |ParensText(cond)|;
      IfPassed(ts, i, keyword, cond, StmtText(yes) + ElseText(otherwise), begins, cases);
      StandsApart(ts, next, StmtText(yes), ElseText(otherwise));
      StmtPassed(ts, next, yes, begins, cases);
      if otherwise.Else? {
        var e := next + |StmtText(yes)|;
        StandsApart(ts, e, [otherwise.keyword], StmtText(otherwise.no));
        StandsOne(ts, e, otherwise.keyword);
        BeginPassed(ts, e, begins, cases);
        StmtPassed(ts, e + 1, otherwise.no, begins, cases);
      }
    case Case(keyword, subject, arms, last) =>
      ArmsPassed(ts, i, s, begins, cases);
  }

  lemma BlockParts(s: Stmt)
    requires s.Begin? && StmtFits(s)
    ensures s.first.value == "begin" && Quiet(s.mark) && StmtsFit(s.body) && s.last.value == "end"
    ensures StmtText(s) == [s.first] + (s.mark + (StmtsText(s.body) + [s.last]))
    ensures |StmtText(s)| == 2 + |s.mark| + |StmtsText(s.body)|
  {
    hide Quiet;
  }

  lemma BlockOpens(ts: seq<Token>, i: nat, s: Stmt, begins: nat, cases: nat)
    requires s.Begin? && StmtFits(s) && Stands(ts, i, StmtText(s))
    ensures var from := i + 1 + |s.mark|;
      && from < |ts| && Stands(ts, from, StmtsText(s.body) + [s.last])
      && CompoundEnd(ts, i, begins, cases) == CompoundEnd(ts, from, begins + 1, cases)
  {
    hide *;
    BlockParts(s);
    var rest := StmtsText(s.body) + [s.last];
    StandsApart(ts, i, [s.first], s.mark + rest);
    StandsOne(ts, i, s.first);
    BeginPassed(ts, i, begins, cases);
    StandsApart(ts, i + 1, s.mark, rest);
    QuietPassed(ts, i + 1, s.mark, begins + 1, cases);
  }

  lemma BlockCloses(ts: seq<Token>, i: nat, last: Token, begins: nat, cases: nat)
    requires last.value == "end" && Stands(ts, i, [last])
    ensures i + 1 < |ts|
    ensures CompoundEnd(ts, i, begins + 1, cases) ==
      if begins + cases == 0 then i + 1 else CompoundEnd(ts, i + 1, begins, cases)
  {
    hide *;
    StandsOne(ts, i, last);
    BeginPassed(ts, i, begins + 1, cases);
  }

  /** A block is passed over whole, except that its end may end the reading. */
  lemma {:induction false} BlockPassed(ts: seq<Token>, i: nat, s: Stmt, begins: nat, cases: nat)
    requires s.Begin? && StmtFits(s) && Stands(ts, i, StmtText(s))
    ensures var end := i + |StmtText(s)|;
      && end < |ts|
      && CompoundEnd(ts, i, begins, cases) ==
           if begins + cases == 0 then end else CompoundEnd(ts, end, begins, cases)
    decreases s, 0
  {
    hide *;
    BlockParts(s);
    BlockOpens(ts, i, s, begins, cases);
    var (body, from) := (s.body, i + 1 + |s.mark|);
    StandsApart(ts, from, StmtsText(body), [s.last]);
    StmtsPassed(ts, from, body, begins + 1, cases);
    BlockCloses(ts, from + |StmtsText(body)|, s.last, begins, cases);
  }

  lemma {:induction false} StmtsPassed(ts: seq<Token>, i: nat, ss: Stmts, begins: nat, cases: nat)
    requires StmtsFit(ss) && Stands(ts, i, StmtsText(ss)) && begins + cases > 0
    ensures i + |StmtsText(ss)| < |ts|
    ensures CompoundEnd(ts, i, begins, cases) == CompoundEnd(ts, i + |StmtsText(ss)|, begins, cases)
    decreases ss, 1
  {
    hide CompoundEnd, Stands, StmtText, StmtFits;
    StandsInside(ts, i, StmtsText(ss));
    match ss
    case Nil =>
    case Cons(head, tail) =>
      StandsApart(ts, i, StmtText(head), StmtsText(tail));
      StmtPassed(ts, i, head, begins, cases);
      StmtsPassed(ts, i + |StmtText(head)|, tail, begins, cases);
  }

  /** A case statement is passed over whole, except that its end may end the reading. */
  lemma {:induction false} ArmsPassed(ts: seq<Token>, i: nat, s: Stmt, begins: nat, cases: nat)
    requires s.Case? && StmtFits(s) && Stands(ts, i, StmtText(s))
    ensures var end := i + |StmtText(s)|;
      && end < |ts|
      && CompoundEnd(ts, i, begins, cases) ==
           if begins + cases == 0 then end else CompoundEnd(ts, end, begins, cases)
    decreases s, 0
  {
    hide CompoundEnd, Stands, Quiet, Calm, ParensText, ParensFit;
    var (keyword, subject, arms, last) := (s.keyword, s.subject, s.arms, s.last);
    StandsInside(ts, i, StmtText(s));
    CasePassed(ts, i, keyword, subject, ArmsText(arms) + [last], begins, cases);
    var from := i + 1 + |ParensText(subject)|;
    StandsApart(ts, from, ArmsText(arms), [last]);
    EachArmPassed(ts, from, arms, begins, cases + 1);
    StandsOne(ts, from + |ArmsText(arms)|, last);
    BeginPassed(ts, from + |ArmsText(arms)|, begins, cases + 1);
  }

  lemma {:induction false} EachArmPassed(ts: seq<Token>, i: nat, a: Arms, begins: nat, cases: nat)
    requires ArmsFit(a) && Stands(ts, i, ArmsText(a)) && begins + cases > 0
    ensures i + |ArmsText(a)| < |ts|
    ensures CompoundEnd(ts, i, begins, cases) == CompoundEnd(ts, i + |ArmsText(a)|, begins, cases)
    decreases a, 1
  {
    hide CompoundEnd, Stands, StmtText, StmtFits, Quiet;
    StandsInside(ts, i, ArmsText(a));
    match a
    case NoArm =>
    case Arm(mark, stmt, rest) =>
      StandsApart(ts, i, mark, StmtText(stmt) + ArmsText(rest));
      QuietPassed(ts, i, mark, begins, cases);
      StandsApart(ts, i + |mark|, StmtText(stmt), ArmsText(rest));
      StmtPassed(ts, i + |mark|, stmt, begins, cases);
      EachArmPassed(ts, i + |mark| + |StmtText(stmt)|, rest, begins, cases);
  }

  // ----- where the reading stops -----

  /** The position after the first semicolon. */
  function FirstSemicolon(t: seq<Token>): (r: Option<nat>)
    ensures r.Some? ==> 0 < r.value <= |t|
    ensures r.None? <==> NoneIs(t, ";")
  {
    if t == [] then None
    else if Is(t[0], ";") then Some(1)
    else
      assert t == [t[0]] + t[1..];
      var later := FirstSemicolon(t[1..]);
      if later.Some? then Some(1 + later.value) else None
  }

  /** How much of a statement is read when the reading stops before its final semicolon,
      or at its end for good: at the end of the first block or case statement that
      stands in no other, or at a semicolon inside a plain statement. */
  function StopIn(s: Stmt): (r: Option<nat>)
    ensures r.Some? ==> r.value <= |StmtText(s)|
  {
    match s
    case Plain(text, _) => FirstSemicolon(text)
    case Begin(_, _, _, _) => Some(|StmtText(s)|)
    case Case(_, _, _, _) => Some(|StmtText(s)|)
    case If(_, cond, yes, otherwise) =>
      var from := 1 + |ParensText(cond)|;
      if StopIn(yes).Some? then Some(from + StopIn(yes).value)
      else if otherwise.Else? && StopIn(otherwise.no).Some? then
        Some(from + |StmtText(yes)| + 1 + StopIn(otherwise.no).value)
      else None
  }

  lemma SemicolonEnds(ts: seq<Token>, i: nat)
    requires i + 1 < |ts| && ts[i].value == ";"
    ensures CompoundEnd(ts, i, 0, 0) == if ts[i + 1].value == "else" then CompoundEnd(ts, i + 1, 0, 0) else i + 1
  {
    BeginPassed(ts, i, 0, 0);
  }

  lemma {:induction false} PlainStops(ts: seq<Token>, i: nat, text: seq<Token>, semi: Token)
    requires Calm(text) && semi.value == ";" && Stands(ts, i, text + [semi])
    ensures var end := i + |text| + 1;
      && end < |ts|
      && CompoundEnd(ts, i, 0, 0) ==
           match FirstSemicolon(text)
           case Some(k) => i + k
           case None => if ts[end].value == "else" then CompoundEnd(ts, end, 0, 0) else end
    decreases |text|
  {
    hide CompoundEnd;
    StandsInside(ts, i, text + [semi]);
    StandsFirst(ts, i, text + [semi]);
    if text == [] {
      SemicolonEnds(ts, i);
    } else {
      assert (text + [semi])[1..] == text[1..] + [semi];
      StandsFirst(ts, i + 1, text[1..] + [semi]);
      hide Stands, FirstSemicolon;
      assert ts[i] == text[0] && ts[i + 1].value != "else";
      if Is(text[0], ";") {
        SemicolonEnds(ts, i);
      } else {
        WordPassed(ts, i, 0, 0);
        PlainStops(ts, i + 1, text[1..], semi);
      }
      SemicolonStep(text);
    }
  }

  lemma SemicolonStep(t: seq<Token>)
    requires t != []
    ensures FirstSemicolon(t) ==
      if Is(t[0], ";") then Some(1)
      else if FirstSemicolon(t[1..]).Some? then Some(1 + FirstSemicolon(t[1..]).value)
      else None
  {
  }

  /** Where the reading of any statement stops, when it starts outside blocks. */
  lemma {:induction false} StatementStops(ts: seq<Token>, i: nat, s: Stmt)
    requires StmtFits(s) && Stands(ts, i, StmtText(s))
    ensures var end := i + |StmtText(s)|;
      && end < |ts|
      && CompoundEnd(ts, i, 0, 0) ==
           match StopIn(s)
           case Some(k) => i + k
           case None => if ts[end].value == "else" then CompoundEnd(ts, end, 0, 0) else end
    decreases s
  {
    hide CompoundEnd, Stands, ParensText, ParensFit, Quiet, Calm, FirstSemicolon;
    StandsInside(ts, i, StmtText(s));
    match s
    case Plain(text, semi) =>
      PlainStops(ts, i, text, semi);
    case Begin(_, _, _, _) =>
      BlockPassed(ts, i, s, 0, 0);
    case Case(_, _, _, _) =>
      ArmsPassed(ts, i, s, 0, 0);
    case If(keyword, cond, yes, otherwise) =>
      var next := i + 1 + |ParensText(cond)|;
      IfPassed(ts, i, keyword, cond, StmtText(yes) + ElseText(otherwise), 0, 0);
      StandsApart(ts, next, StmtText(yes), ElseText(otherwise));
      StatementStops(ts, next, yes);
      if otherwise.Else? {
        var e := next + |StmtText(yes)|;
        StandsApart(ts, e, [otherwise.keyword], StmtText(otherwise.no));
        StandsOne(ts, e, otherwise.keyword);
        BeginPassed(ts, e, 0, 0);
        StatementStops(ts, e + 1, otherwise.no);
      }
  }

  /** A reading that starts here stops before or at the end of the statement for good. */
  predicate Stops(s: Stmt) {
    match s
    case Plain(text, _) => !NoneIs(text, ";")
    case If(_, _, yes, otherwise) => Stops(yes) || (otherwise.Else? && Stops(otherwise.no))
    case _ => true
  }

  /** No block, case statement or inner semicolon stands before an else of the statement. */
  predicate Whole(s: Stmt) {
    match s
    case Plain(text, _) => NoneIs(text, ";")
    case If(_, _, yes, otherwise) => if otherwise.Else? then !Stops(yes) && Whole(otherwise.no) else Whole(yes)
    case _ => true
  }

  lemma {:induction false} WholeIffNoStop(s: Stmt)
    ensures Stops(s) <==> StopIn(s).Some?
    ensures Whole(s) <==> StopIn(s).None? || StopIn(s).value == |StmtText(s)|
    ensures s.Plain? && StopIn(s).Some? ==> StopIn(s).value < |StmtText(s)|
  {
    hide NoneIs, ParensText;
    if s.If? {
      WholeIffNoStop(s.yes);
      if s.otherwise.Else? { WholeIffNoStop(s.otherwise.no); }
    }
  }

  /** An if or case statement that is the body of an always or initial block is read to
      its end, and nothing else with it, exactly when no block, case statement or inner
      semicolon stands before one of its elses. */
  lemma CompoundReadWholeIff(ts: seq<Token>, i: nat, s: Stmt)
    requires (s.If? || s.Case?) && StmtFits(s) && Stands(ts, i, StmtText(s))
    requires i + |StmtText(s)| < |ts| && ts[i + |StmtText(s)|].value != "else"
    ensures var end := i + |StmtText(s)|;
      BlockPart(ts, i) == (end, Slice(i, end, StmtText(s))) <==> Whole(s)
    ensures i < |ts| && BlockPart(ts, i).0 == if StopIn(s).Some? then i + StopIn(s).value else i + |StmtText(s)|
  {
    hide *;
    StatementStops(ts, i, s);
    WholeIffNoStop(s);
    CompoundPart(ts, i, s);
    StandsCut(ts, i, StmtText(s));
  }

  lemma CompoundPart(ts: seq<Token>, i: nat, s: Stmt)
    requires (s.If? || s.Case?) && StmtFits(s) && Stands(ts, i, StmtText(s))
    ensures i < |ts| && BlockPart(ts, i) == (CompoundEnd(ts, i, 0, 0), Cut(ts, i, CompoundEnd(ts, i, 0, 0)))
  {
    hide Stands, ParensText, ParensFit, Quiet, CompoundEnd;
    StandsFirst(ts, i, StmtText(s));
  }

  /** After a block the else is lost: the statement ends with the block. */
  lemma ElseAfterBlockIsLost(ts: seq<Token>, i: nat, s: Stmt)
    requires s.If? && s.yes.Begin? && s.otherwise.Else? && StmtFits(s) && Stands(ts, i, StmtText(s))
    requires i + |StmtText(s)| < |ts| && ts[i + |StmtText(s)|].value != "else"
    ensures var end := i + 1 + |ParensText(s.cond)| + |StmtText(s.yes)|;
      && end + 1 < i + |StmtText(s)| < |ts| && BlockPart(ts, i).0 == end && ts[end] == s.otherwise.keyword
      && ts[end].value == "else"
  {
    CompoundReadWholeIff(ts, i, s);
    hide BlockPart, Stands, ParensText;
    var next := i + 1 + |ParensText(s.cond)|;
    HeadStands(ts, i, s.keyword, s.cond, StmtText(s.yes) + ElseText(s.otherwise));
    StandsApart(ts, next, StmtText(s.yes), ElseText(s.otherwise));
    StandsFirst(ts, next + |StmtText(s.yes)|, ElseText(s.otherwise));
  }

  // ----- the body of an always or initial block -----

  /** What the item keeps of its body; a plain statement is kept without its semicolon. */
  function BodySlice(i: nat, s: Stmt): Slice {
    if s.Plain? then Slice(i, i + |s.text|, s.text) else Slice(i, i + |StmtText(s)|, StmtText(s))
  }

  /** A body that is read whole: a block always is, a plain statement if its text runs to
      its semicolon. */
  predicate BodyFits(s: Stmt) {
    && StmtFits(s)
    && match s
       case Plain(text, _) => Runs(text, 0) &&
         (text != [] ==> text[0].value !in {"begin", "if", "case", "casez", "casex"})
       case Begin(_, _, _, _) => true
       case _ => Whole(s)
  }

  lemma {:induction false} CalmNests(t: seq<Token>, rest: seq<Token>, d: nat)
    requires Calm(t)
    ensures Nests(t + rest, d, "begin", "end") == Nests(rest, d, "begin", "end")
    decreases |t|
  {
    if t == [] {
      assert t + rest == rest;
    } else {
      assert (t + rest)[1..] == t[1..] + rest && (t + rest)[0] == t[0];
      assert t[0].value !in BLOCK_WORDS;
      CalmNests(t[1..], rest, d);
    }
  }

  lemma NestsStep(t: Token, rest: seq<Token>, d: nat)
    requires d > 0
    ensures t.value == "begin" ==> Nests([t] + rest, d, "begin", "end") == Nests(rest, d + 1, "begin", "end")
    ensures t.value == "end" && d > 1 ==> Nests([t] + rest, d, "begin", "end") == Nests(rest, d - 1, "begin", "end")
    ensures t.value != "begin" && t.value != "end" ==>
      Nests([t] + rest, d, "begin", "end") == Nests(rest, d, "begin", "end")
  {
    assert ([t] + rest)[1..] == rest;
  }

  /** The begins and ends of a statement match. */
  lemma {:induction false} StmtNests(s: Stmt, rest: seq<Token>, d: nat)
    requires StmtFits(s) && d > 0
    ensures Nests(StmtText(s) + rest, d, "begin", "end") == Nests(rest, d, "begin", "end")
    decreases s, 1
  {
    match s
    case Plain(text, semi) =>
      hide Nests, Calm;
      assert StmtText(s) + rest == text + ([semi] + rest);
      CalmNests(text, [semi] + rest, d);
      NestsStep(semi, rest, d);
    case Begin(_, _, _, _) => BlockNests(s, rest, d);
    case If(_, _, _, _) => IfNests(s, rest, d);
    case Case(_, _, _, _) => CaseNests(s, rest, d);
  }

  lemma {:induction false} BlockNests(s: Stmt, rest: seq<Token>, d: nat)
    requires s.Begin? && StmtFits(s) && d > 0
    ensures Nests(StmtText(s) + rest, d, "begin", "end") == Nests(rest, d, "begin", "end")
    decreases s, 0
  {
    BlockParts(s);
    hide *;
    var (first, mark, body, last) := (s.first, s.mark, s.body, s.last);
    var tail := [last] + rest;
    assert StmtText(s) + rest == [first] + (mark + (StmtsText(body) + tail));
    NestsStep(first, mark + (StmtsText(body) + tail), d);
    QuietIsCalm(mark);
    CalmNests(mark, StmtsText(body) + tail, d + 1);
    StmtsNest(body, tail, d + 1);
    NestsStep(last, rest, d + 1);
  }

  lemma {:induction false} IfNests(s: Stmt, rest: seq<Token>, d: nat)
    requires s.If? && StmtFits(s) && d > 0
    ensures Nests(StmtText(s) + rest, d, "begin", "end") == Nests(rest, d, "begin", "end")
    decreases s, 0
  {
    hide Nests, ParensText, ParensFit, Calm, Quiet;
    var (keyword, cond, yes, otherwise) := (s.keyword, s.cond, s.yes, s.otherwise);
    var tail := ElseText(otherwise) + rest;
    assert StmtText(s) + rest == [keyword] + (ParensText(cond) + (StmtText(yes) + tail));
    NestsStep(keyword, ParensText(cond) + (StmtText(yes) + tail), d);
    ParensNest(cond, StmtText(yes) + tail, d);
    StmtNests(yes, tail, d);
    if otherwise.Else? {
      assert tail == [otherwise.keyword] + (StmtText(otherwise.no) + rest);
      NestsStep(otherwise.keyword, StmtText(otherwise.no) + rest, d);
      StmtNests(otherwise.no, rest, d);
    } else {
      assert tail == rest;
    }
  }

  lemma {:induction false} CaseNests(s: Stmt, rest: seq<Token>, d: nat)
    requires s.Case? && StmtFits(s) && d > 0
    ensures Nests(StmtText(s) + rest, d, "begin", "end") == Nests(rest, d, "begin", "end")
    decreases s, 0
  {
    hide Nests, ParensText, ParensFit, Calm, Quiet;
    var (keyword, subject, arms, last) := (s.keyword, s.subject, s.arms, s.last);
    var tail := [last] + rest;
    assert StmtText(s) + rest == [keyword] + (ParensText(subject) + (ArmsText(arms) + tail));
    NestsStep(keyword, ParensText(subject) + (ArmsText(arms) + tail), d);
    ParensNest(subject, ArmsText(arms) + tail, d);
    ArmsNest(arms, tail, d);
    NestsStep(last, rest, d);
  }

  lemma QuietIsCalm(t: seq<Token>)
    requires Quiet(t)
    ensures Calm(t)
  {
  }

  lemma ParensNest(g: Parens, rest: seq<Token>, d: nat)
    requires ParensFit(g) && Quiet(g.inner) && d > 0
    ensures Nests(ParensText(g) + rest, d, "begin", "end") == Nests(rest, d, "begin", "end")
  {
    ParensQuiet(g);
    QuietIsCalm(ParensText(g));
    hide Nests, ParensText, Quiet, Calm;
    CalmNests(ParensText(g), rest, d);
  }

  lemma {:induction false} StmtsNest(ss: Stmts, rest: seq<Token>, d: nat)
    requires StmtsFit(ss) && d > 0
    ensures Nests(StmtsText(ss) + rest, d, "begin", "end") == Nests(rest, d, "begin", "end")
    decreases ss, 2
  {
    hide Nests, StmtFits, StmtText;
    match ss
    case Nil =>
      assert StmtsText(ss) + rest == rest;
    case Cons(head, tail) =>
      assert StmtsText(ss) + rest == StmtText(head) + (StmtsText(tail) + rest);
      StmtNests(head, StmtsText(tail) + rest, d);
      StmtsNest(tail, rest, d);
  }

  lemma {:induction false} ArmsNest(a: Arms, rest: seq<Token>, d: nat)
    requires ArmsFit(a) && d > 0
    ensures Nests(ArmsText(a) + rest, d, "begin", "end") == Nests(rest, d, "begin", "end")
    decreases a, 2
  {
    hide Nests, StmtFits, StmtText, Quiet, Calm;
    match a
    case NoArm =>
      assert ArmsText(a) + rest == rest;
    case Arm(mark, stmt, more) =>
      assert ArmsText(a) + rest == mark + (StmtText(stmt) + (ArmsText(more) + rest));
      QuietIsCalm(mark);
      CalmNests(mark, StmtText(stmt) + (ArmsText(more) + rest), d);
      StmtNests(stmt, ArmsText(more) + rest, d);
      ArmsNest(more, rest, d);
  }

  lemma BeginRead(ts: seq<Token>, i: nat, s: Stmt)
    requires s.Begin? && StmtFits(s) && Stands(ts, i, StmtText(s))
    ensures i < |ts| && BlockPart(ts, i) == (i + |StmtText(s)|, Slice(i, i + |StmtText(s)|, StmtText(s)))
  {
    var inner := s.mark + StmtsText(s.body);
    hide Nests, Stands, Quiet, Calm, BlockPart;
    QuietIsCalm(s.mark);
    CalmNests(s.mark, StmtsText(s.body), 1);
    StmtsNest(s.body, [], 1);
    assert StmtsText(s.body) + [] == StmtsText(s.body);
    assert Nests([], 1, "begin", "end") by { NothingNests(); }
    assert StmtText(s) == [s.first] + (inner + [s.last]);
    BlockReads(ts, i, s.first, inner, s.last);
  }

  lemma NothingNests()
    ensures Nests([], 1, "begin", "end")
  {
  }

  lemma PlainRead(ts: seq<Token>, i: nat, s: Stmt)
    requires s.Plain? && BodyFits(s) && Stands(ts, i, StmtText(s))
    ensures i < |ts| && BlockPart(ts, i) == (i + |StmtText(s)|, Slice(i, i + |s.text|, s.text))
  {
    StatementReads(ts, i, s.text, s.semi);
    StandsFirst(ts, i, StmtText(s));
    hide Stands, StatementPart, Runs, Calm;
  }

  /** A body that fits is read whole, and nothing else with it. */
  lemma BodyRead(ts: seq<Token>, i: nat, s: Stmt)
    requires BodyFits(s) && Stands(ts, i, StmtText(s))
    requires i + |StmtText(s)| < |ts| && ts[i + |StmtText(s)|].value != "else"
    ensures i < |ts| && BlockPart(ts, i) == (i + |StmtText(s)|, BodySlice(i, s))
  {
    hide BlockPart, Stands, StmtFits, StmtText, Runs, Whole;
    match s
    case Plain(_, _) => PlainRead(ts, i, s);
    case Begin(_, _, _, _) => BeginRead(ts, i, s);
    case _ => CompoundReadWholeIff(ts, i, s);
  }
}
