/** What the splits leave of a ternary, or of a list of expressions whose commas
    are gone: chains of operands with `?` and `:` between them in turn. A chain need
    not be an expression: cutting a ternary at an operator leaves pieces that end in
    a dangling `? x` or start with a stray `x :`, and where commas were removed
    several operands stand side by side. */
module WidthChains {
  import opened Tokens
  import opened Width
  import opened WidthTree

  datatype Chain = Last(x: Run) | Link(x: Run, sep: Token, rest: Chain)

  function ChainTokens(c: Chain): seq<Token> {
    match c
    case Last(x) => RunTokens(x)
    case Link(x, sep, rest) => RunTokens(x) + ([sep] + ChainTokens(rest))
  }

  predicate OperandOk(x: Expr) { Fits(x) && Tightness(x) >= 0 }

  predicate RunOk(r: Run) {
    r != [] && forall k :: 0 <= k < |r| ==> OperandOk(r[k])
  }

  predicate ChainOk(c: Chain) {
    RunOk(c.x)
    && (c.Link? ==>
          && Separator(RoleOf(c.sep.value)) && ChainOk(c.rest)
          && (c.rest.Link? ==> RoleOf(c.rest.sep.value) != RoleOf(c.sep.value)))
  }

  function ChainOf(e: Expr): Chain {
    if e.Ternary? then Link([e.cond], e.question, Link([e.yes], e.colon, ChainOf(e.no))) else Last([e])
  }

  /** The branches of the outermost `? :` of a chain; the false branch is a chain again. */
  function Branches(c: Chain): (r: Option<(Run, Chain)>)
    ensures r.Some? ==> r.value.1 < c
  {
    if c.Last? || c.rest.Last? then None
    else if RoleOf(c.sep.value).Query? then Some((c.rest.x, c.rest.rest))
    else Branches(c.rest)
  }

  /** One operand has its width; several side by side have none. */
  function RunWidth(r: Run, symbols: Symbols): Outcome {
    if |r| == 1 then TreeWidth(r[0], symbols) else NoWidth
  }

  /** A chain has a width when it is one operand that has, or when all the
      branches of its ternaries have; otherwise it has none. */
  function ChainWidth(c: Chain, symbols: Symbols): Outcome {
    if c.Last? then RunWidth(c.x, symbols)
    else
      match Branches(c)
      case None => NoWidth
      case Some((yes, no)) => Wider(RunWidth(yes, symbols), ChainWidth(no, symbols))
  }

  lemma {:induction false} ChainNeverRaises(c: Chain, symbols: Symbols)
    ensures ChainWidth(c, symbols) != IndexError
  {
    if c.Last? { RunNeverRaises(c.x, symbols); }
  }

  lemma RunNeverRaises(r: Run, symbols: Symbols)
    ensures RunWidth(r, symbols) != IndexError
  {
    if |r| == 1 { TreeNeverRaises(r[0], symbols); }
  }

  lemma {:induction false} TreeNeverRaises(e: Expr, symbols: Symbols)
    ensures TreeWidth(e, symbols) != IndexError
    decreases e
  {
    hide RowWidth, OperatorWidth, TokenWidth;
    match e
    case Paren(_, inner, _) => TreeNeverRaises(inner, symbols);
    case Braces(_, row, _) => RowNeverRaises(row, symbols);
    case Atom(t) => TokenNeverRaises(t, symbols);
    case _ =>
  }

  lemma TokenNeverRaises(t: Token, symbols: Symbols)
    ensures TokenWidth(t, symbols) != IndexError
  {
  }

  lemma {:induction false} RowNeverRaises(r: Run, symbols: Symbols)
    ensures RowWidth(r, symbols) != IndexError
    decreases r
  {
    hide TreeWidth;
    if |r| == 1 {
      TreeNeverRaises(r[0], symbols);
    } else if |r| >= 2 {
      RowNeverRaises(r[1..], symbols);
      ReadNeverRaises(r[0], RowWidth(r[1..], symbols), symbols);
    }
  }

  lemma {:induction false} ReadNeverRaises(e: Expr, after: Outcome, symbols: Symbols)
    requires after != IndexError
    ensures ReadWidth(e, after, symbols) != IndexError
  {
  }

  lemma OneOperand(x: Expr)
    ensures RunTokens([x]) == Flat(x) && (OperandOk(x) ==> RunOk([x]))
  {
    assert [x][1..] == [];
    assert Flat(x) + [] == Flat(x);
  }

  /** A tree is the chain of its conditions and branches. */
  lemma {:induction false} ChainOfTree(e: Expr, symbols: Symbols)
    requires Fits(e)
    ensures ChainOk(ChainOf(e)) && ChainTokens(ChainOf(e)) == Flat(e)
    ensures ChainWidth(ChainOf(e), symbols) == TreeWidth(e, symbols)
    ensures ChainOf(e).Link? ==> RoleOf(ChainOf(e).sep.value).Query?
  {
    if e.Ternary? {
      hide Fits, Flat, Tightness, RoleOf, RunTokens, RunOk, TokenWidth, OperatorWidth;
      TernaryRoles(e);
      NoOfTernary(e);
      ChainOfTree(e.no, symbols);
      FlatTernary(e);
      OneOperand(e.cond);
      OneOperand(e.yes);
    } else {
      OneOperand(e);
      hide RoleOf;
    }
  }

  lemma NoOfTernary(e: Expr)
    requires Fits(e) && e.Ternary?
    ensures Fits(e.no)
  {
  }

  // ----- the ternary split of a chain -----

  lemma ColonIsNoQuery()
    ensures Separator(Query) && Separator(Colon)
    ensures forall r: Role :: Separator(r) ==> !r.Open? && !r.Close? && (r == Query || r == Colon)
  {
  }

  lemma {:induction false} RunSkips(r: Run, s: seq<Token>, role: Role)
    requires (forall k :: 0 <= k < |r| ==> OperandOk(r[k])) && Separator(role)
    ensures FirstFrom(RunTokens(r) + s, 0, role) == FirstFrom(s, 0, role)
    decreases |r|
  {
    hide FirstFrom, Flat, RoleOf, Separator;
    if r == [] {
      assert RunTokens(r) + s == s;
    } else {
      assert OperandOk(r[0]);
      assert RunTokens(r) + s == Flat(r[0]) + (RunTokens(r[1..]) + s);
      SeparatorSkips(r[0], RunTokens(r[1..]) + s, 0, role);
      RunSkips(r[1..], s, role);
    }
  }

  /** The forward scan over one run of a chain. */
  lemma FirstInChain(c: Chain, role: Role)
    requires ChainOk(c) && Separator(role)
    ensures var ts := ChainTokens(c);
      if c.Last? then FirstFrom(ts, 0, role) == []
      else
        var tail := [c.sep] + ChainTokens(c.rest);
        FirstFrom(ts, 0, role) == if RoleOf(c.sep.value) == role then tail else FirstFrom(ChainTokens(c.rest), 0, role)
  {
    ColonIsNoQuery();
    hide RoleOf, Fits, Flat, Tightness, RunTokens, OperandOk;
    if c.Last? {
      assert RunTokens(c.x) + [] == RunTokens(c.x);
      RunSkips(c.x, [], role);
    } else {
      var tail := [c.sep] + ChainTokens(c.rest);
      hide FirstFrom, ChainTokens;
      RunSkips(c.x, tail, role);
      ChainHead(c);
      if RoleOf(c.sep.value) == role {
        FirstIsHere(c.sep, ChainTokens(c.rest), role);
      } else {
        ForwardOver(c.sep, ChainTokens(c.rest), 0, role);
      }
    }
  }

  lemma ChainHead(c: Chain)
    ensures c.Link? ==> ChainTokens(c) == RunTokens(c.x) + ([c.sep] + ChainTokens(c.rest))
    ensures c.Last? ==> ChainTokens(c) == RunTokens(c.x)
  {
  }

  /** The first link with a `?`, and the tokens before that `?`. */
  function QueryLink(c: Chain): (r: Option<Chain>)
    ensures r.Some? ==> r.value.Link?
  {
    if c.Last? then None else if RoleOf(c.sep.value).Query? then Some(c) else QueryLink(c.rest)
  }

  function BeforeQuery(c: Chain): seq<Token> {
    if c.Last? || RoleOf(c.sep.value).Query? then RunTokens(c.x) else RunTokens(c.x) + [c.sep] + BeforeQuery(c.rest)
  }

  lemma {:induction false} ScanToQuery(c: Chain)
    requires ChainOk(c)
    ensures match QueryLink(c)
      case None => FirstFrom(ChainTokens(c), 0, Query) == [] && Branches(c) == None
      case Some(d) =>
        && ChainOk(d) && FirstFrom(ChainTokens(c), 0, Query) == [d.sep] + ChainTokens(d.rest)
        && ChainTokens(c) == BeforeQuery(c) + ([d.sep] + ChainTokens(d.rest))
        && Branches(c) == if d.rest.Last? then None else Some((d.rest.x, d.rest.rest))
  {
    FirstInChain(c, Query);
    ColonIsNoQuery();
    ChainHead(c);
    hide RoleOf, FirstFrom, ChainTokens, RunTokens, RunOk;
    if c.Link? && !RoleOf(c.sep.value).Query? {
      ScanToQuery(c.rest);
      var d := QueryLink(c.rest);
      if d.Some? {
        Regroup(RunTokens(c.x), c.sep, BeforeQuery(c.rest), [d.value.sep] + ChainTokens(d.value.rest));
      }
    }
  }

  lemma Regroup(x: seq<Token>, s: Token, y: seq<Token>, z: seq<Token>)
    ensures x + ([s] + (y + z)) == (x + [s] + y) + z
  {
  }

  /** The split finds the branches, or nothing when there are none. */
  lemma TernaryOfChain(c: Chain)
    requires ChainOk(c)
    ensures var (ts, at) := (ChainTokens(c), TernaryAt(ChainTokens(c)));
      match Branches(c)
      case None => at == None
      case Some((yes, no)) =>
        && ChainOk(no) && RunOk(yes) && at.Some?
        && ts[at.value.0 + 1..at.value.1] == RunTokens(yes) && ts[at.value.1 + 1..] == ChainTokens(no)
  {
    hide RoleOf, FirstFrom, ChainTokens, ChainOk, RunOk, RunTokens, Branches, QueryLink, BeforeQuery, TernaryAt;
    ScanToQuery(c);
    var d := QueryLink(c);
    if d.None? {
      NoQueryNoTernary(ChainTokens(c));
    } else {
      var rest := d.value.rest;
      ColonIsNoQuery();
      RestOk(d.value);
      FirstInChain(rest, Colon);
      if rest.Link? { QueryThenColon(d.value); }
      QueryLinkIsQuery(c);
      ChainHead(rest);
      if rest.Link? {
        SplitBySuffixes(ChainTokens(c), BeforeQuery(c), d.value.sep, RunTokens(rest.x), rest.sep,
          ChainTokens(rest.rest));
      } else {
        NoColonNoTernary(ChainTokens(c), d.value.sep, ChainTokens(rest));
      }
    }
  }

  lemma SplitBySuffixes(ts: seq<Token>, before: seq<Token>, s: Token, y: seq<Token>, t: Token, z: seq<Token>)
    requires ts == before + ([s] + (y + ([t] + z)))
    requires FirstFrom(ts, 0, Query) == [s] + (y + ([t] + z)) && FirstFrom(y + ([t] + z), 0, Colon) == [t] + z
    ensures var at := TernaryAt(ts);
      at.Some? && ts[at.value.0 + 1..at.value.1] == y && ts[at.value.1 + 1..] == z
  {
    hide FirstFrom, TernaryAt;
    TailAfter(s, y + ([t] + z));
    PositionsFromSuffixes(ts, [s] + (y + ([t] + z)), [t] + z);
    SlicesOfTwo(before, s, y, t, z);
  }

  lemma NoColonNoTernary(ts: seq<Token>, s: Token, rest: seq<Token>)
    requires FirstFrom(ts, 0, Query) == [s] + rest && FirstFrom(rest, 0, Colon) == []
    ensures TernaryAt(ts) == None
  {
    hide FirstFrom;
    TailAfter(s, rest);
  }

  lemma {:induction false} QueryLinkIsQuery(c: Chain)
    ensures var d := QueryLink(c); d.Some? ==> RoleOf(d.value.sep.value).Query?
  {
    hide RoleOf;
    if c.Link? { QueryLinkIsQuery(c.rest); }
  }

  lemma RestOk(d: Chain)
    requires ChainOk(d)
    ensures d.Link? ==> ChainOk(d.rest)
  {
  }

  lemma TailAfter(t: Token, s: seq<Token>)
    ensures ([t] + s)[1..] == s
  {
  }

  lemma QueryThenColon(d: Chain)
    requires ChainOk(d) && d.Link? && d.rest.Link?
    ensures ChainOk(d.rest.rest) && RunOk(d.rest.x) && Separator(RoleOf(d.rest.sep.value))
    ensures RoleOf(d.rest.sep.value) != RoleOf(d.sep.value)
  {
  }

  lemma SlicesOfTwo(x: seq<Token>, s: Token, y: seq<Token>, t: Token, z: seq<Token>)
    ensures var ts := x + ([s] + (y + ([t] + z)));
      && |ts| - |[s] + (y + ([t] + z))| == |x| && |ts| - |[t] + z| == |x| + 1 + |y|
      && ts[|x| + 1..|x| + 1 + |y|] == y && ts[|x| + 1 + |y| + 1..] == z
  {
  }

  // ----- the operator split of a chain -----

  function Looser(a: int, b: int): int { if a < b then a else b }

  /** The loosest operator level among the operands. */
  function LoosestIn(r: Run): int
    requires r != []
  {
    if |r| == 1 then Tightness(r[0]) else Looser(Tightness(r[0]), LoosestIn(r[1..]))
  }

  function Loosest(c: Chain): int
    requires ChainOk(c)
  {
    if c.Last? then LoosestIn(c.x) else Looser(LoosestIn(c.x), Loosest(c.rest))
  }

  predicate RootHere(x: Expr, level: nat) { x.Binary? && RoleOf(x.op.value) == Infix(level) }

  /** The position of the rightmost operand root of a level. */
  function RootIn(r: Run, level: nat): Option<nat> {
    if r == [] then None
    else
      var later := RootIn(r[1..], level);
      if later.Some? then Some(|Flat(r[0])| + later.value)
      else if RootHere(r[0], level) then Some(|Flat(r[0].l)|)
      else None
  }

  function RootAt(c: Chain, level: nat): Option<nat> {
    var later := if c.Last? then None else RootAt(c.rest, level);
    if later.Some? then Some(|RunTokens(c.x)| + 1 + later.value) else RootIn(c.x, level)
  }

  lemma TightnessIsRoot(x: Expr, level: nat)
    requires OperandOk(x) && level < Levels
    ensures Tightness(x) <= Levels
    ensures Tightness(x) == level <==> RootHere(x, level)
  {
  }

  lemma BinaryBehind(p: seq<Token>, l: seq<Token>, op: Token, r: seq<Token>)
    ensures p + (l + [op] + r) == ((p + l) + [op]) + r
  {
  }

  lemma RootScan(p: seq<Token>, x: Expr, level: nat, last: nat)
    requires OperandOk(x) && level < Levels && RootHere(x, level) && |p| + |Flat(x)| - 1 <= last
    ensures OperatorAt(p + Flat(x), level, 0, last) == Some(|p| + |Flat(x.l)|)
  {
    RootOf(x, level);
    hide *;
    var q := p + Flat(x.l);
    BinaryBehind(p, Flat(x.l), x.op, Flat(x.r));
    OperatorSkips(q + [x.op], x.r, level, 0, last);
    StopHere(q, x.op, level, last);
  }

  lemma RootOf(x: Expr, level: nat)
    requires OperandOk(x) && RootHere(x, level)
    ensures x.Binary? && RoleOf(x.op.value) == Infix(level) && Fits(x.r) && Tightness(x.r) > level
    ensures Flat(x) == Flat(x.l) + [x.op] + Flat(x.r) && Flat(x.l) != [] && Flat(x.r) != []
  {
    OperandParts(x);
  }

  lemma OperandScan(p: seq<Token>, x: Expr, level: nat, last: nat)
    requires OperandOk(x) && level < Levels && Tightness(x) >= level && |p| + |Flat(x)| - 1 <= last
    ensures OperatorAt(p + Flat(x), level, 0, last) ==
      if RootHere(x, level) then Some(|p| + |Flat(x.l)|) else OperatorAt(p, level, 0, last)
  {
    TightnessIsRoot(x, level);
    hide RootHere, Flat, Tightness, OperatorAt;
    if RootHere(x, level) { RootScan(p, x, level, last); } else { OperatorSkips(p, x, level, 0, last); }
  }

  lemma OperandParts(x: Expr)
    requires OperandOk(x) && x.Binary? && RoleOf(x.op.value).Infix?
    ensures OperandOk(x.l) && OperandOk(x.r)
    ensures Tightness(x) == RoleOf(x.op.value).level < Tightness(x.r)
    ensures Flat(x) == Flat(x.l) + [x.op] + Flat(x.r) && Flat(x.l) != [] && Flat(x.r) != []
  {
  }

  lemma {:induction false} RunScan(p: seq<Token>, r: Run, level: nat, last: nat)
    requires (forall k :: 0 <= k < |r| ==> OperandOk(r[k]) && Tightness(r[k]) >= level)
    requires level < Levels && |p| + |RunTokens(r)| - 1 <= last
    ensures OperatorAt(p + RunTokens(r), level, 0, last) ==
      match RootIn(r, level) case Some(i) => Some(|p| + i) case None => OperatorAt(p, level, 0, last)
    decreases |r|
  {
    hide OperatorAt, RoleOf, Flat, Fits, Tightness, RootHere;
    if r == [] {
      assert p + RunTokens(r) == p;
    } else {
      assert OperandOk(r[0]);
      assert p + RunTokens(r) == (p + Flat(r[0])) + RunTokens(r[1..]);
      RunScan(p + Flat(r[0]), r[1..], level, last);
      OperandScan(p, r[0], level, last);
    }
  }

  lemma {:induction false} LoosestBounds(r: Run, level: int)
    requires r != []
    ensures LoosestIn(r) >= level <==> forall k :: 0 <= k < |r| ==> Tightness(r[k]) >= level
  {
    hide Tightness;
    if |r| > 1 {
      LoosestBounds(r[1..], level);
      assert forall k :: 0 < k < |r| ==> r[k] == r[1..][k - 1];
    }
  }

  /** Scanning a chain backwards for a level no operand is looser than stops at
      its rightmost root of that level. */
  lemma {:induction false} ChainScan(p: seq<Token>, c: Chain, level: nat, last: nat)
    requires ChainOk(c) && level < Levels && Loosest(c) >= level && |p| + |ChainTokens(c)| - 1 <= last
    ensures OperatorAt(p + ChainTokens(c), level, 0, last) ==
      match RootAt(c, level) case Some(i) => Some(|p| + i) case None => OperatorAt(p, level, 0, last)
    decreases c
  {
    hide OperatorAt, RoleOf, RunTokens, OperandOk, Tightness, LoosestIn, RootIn;
    ChainHead(c);
    LoosestBounds(c.x, level);
    if c.Last? {
      RunScan(p, c.x, level, last);
    } else {
      ColonIsNoQuery();
      assert p + ChainTokens(c) == (p + RunTokens(c.x) + [c.sep]) + ChainTokens(c.rest);
      ChainScan(p + RunTokens(c.x) + [c.sep], c.rest, level, last);
      BackOver(p + RunTokens(c.x), c.sep, level, 0, last);
      RunScan(p, c.x, level, last);
    }
  }

  lemma {:induction false} NoRootInTighter(r: Run, level: nat)
    requires RunOk(r) && level < Levels
    ensures LoosestIn(r) > level ==> RootIn(r, level) == None
    ensures LoosestIn(r) == level ==> RootIn(r, level).Some?
    ensures 0 <= LoosestIn(r) <= Levels
  {
    hide Fits, RootHere, Flat;
    TightnessIsRoot(r[0], level);
    if |r| > 1 {
      NoRootInTighter(r[1..], level);
    } else {
      assert RootIn(r[1..], level) == None;
    }
  }

  lemma {:induction false} NoRootBelowLoosest(c: Chain, level: nat)
    requires ChainOk(c) && level < Levels
    ensures Loosest(c) > level ==> RootAt(c, level) == None
    ensures Loosest(c) == level ==> RootAt(c, level).Some?
    ensures 0 <= Loosest(c) <= Levels
  {
    hide RunOk, RootIn, LoosestIn, RunTokens, RoleOf;
    NoRootInTighter(c.x, level);
    if c.Link? { NoRootBelowLoosest(c.rest, level); }
  }

  /** The operator split of a chain is the rightmost of its loosest roots. */
  lemma {:induction false} BinaryOfChain(c: Chain, level: nat, loosest: nat)
    requires ChainOk(c) && Loosest(c) == loosest && level <= loosest <= Levels
    ensures BinaryAt(ChainTokens(c), level) == if loosest < Levels then RootAt(c, loosest) else None
    decreases Levels - level
  {
    hide OperatorAt, RoleOf, ChainOk, Loosest, RootAt, ChainTokens;
    if level == Levels {
      NoLevels(ChainTokens(c));
    } else {
      ChainIsNotEmpty(c);
      LevelOfChain(c, level);
      BinaryAtStep(ChainTokens(c), level);
      NoRootBelowLoosest(c, level);
      if level < loosest {
        BinaryOfChain(c, level + 1, loosest);
      }
    }
  }

  lemma LevelOfChain(c: Chain, level: nat)
    requires ChainOk(c) && level < Levels && Loosest(c) >= level
    ensures OperatorAt(ChainTokens(c), level, 0, |ChainTokens(c)| - 1) == RootAt(c, level)
  {
    hide OperatorAt, RoleOf, ChainOk, Loosest, RootAt, ChainTokens;
    var ts := ChainTokens(c);
    ChainIsNotEmpty(c);
    ChainScan([], c, level, |ts| - 1);
    assert [] + ts == ts;
    EmptyScan(level, |ts| - 1);
  }

  lemma ChainIsNotEmpty(c: Chain)
    requires ChainOk(c)
    ensures ChainTokens(c) != []
  {
    assert RunTokens(c.x) != [];
  }

  lemma NoLevels(ts: seq<Token>)
    ensures BinaryAt(ts, Levels) == None
  {
  }

  /** The two runs left and right of a root. */
  function CutRun(r: Run, level: nat): (Run, Token, Run)
    requires RootIn(r, level).Some?
  {
    if RootIn(r[1..], level).Some? then
      var (left, op, right) := CutRun(r[1..], level);
      ([r[0]] + left, op, right)
    else ([r[0].l], r[0].op, [r[0].r] + r[1..])
  }

  /** The two chains left and right of a root. */
  function Cut(c: Chain, level: nat): (Chain, Token, Chain)
    requires RootAt(c, level).Some?
  {
    if c.Link? && RootAt(c.rest, level).Some? then
      var (left, op, right) := Cut(c.rest, level);
      (Link(c.x, c.sep, left), op, right)
    else
      var (left, op, right) := CutRun(c.x, level);
      (Last(left), op, if c.Last? then Last(right) else Link(right, c.sep, c.rest))
  }

  /** A cut divides the tokens at the operator. */
  ghost predicate Divides(ts: seq<Token>, i: nat, left: seq<Token>, op: Token, right: seq<Token>) {
    i < |ts| && ts[..i] == left && ts[i] == op && ts[i + 1..] == right
  }

  lemma DividesBehind(x: seq<Token>, ts: seq<Token>, i: nat, left: seq<Token>, op: Token, right: seq<Token>)
    requires Divides(ts, i, left, op, right)
    ensures Divides(x + ts, |x| + i, x + left, op, right)
  {
  }

  lemma DividesBefore(ts: seq<Token>, i: nat, left: seq<Token>, op: Token, right: seq<Token>, s: seq<Token>)
    requires Divides(ts, i, left, op, right)
    ensures Divides(ts + s, i, left, op, right + s)
  {
  }

  lemma DividesHere(l: seq<Token>, op: Token, r: seq<Token>, s: seq<Token>)
    ensures Divides((l + [op] + r) + s, |l|, l, op, r + s)
  {
  }

  lemma {:induction false} CutRunTokens(r: Run, level: nat)
    requires RunOk(r) && RootIn(r, level).Some?
    ensures var (left, op, right) := CutRun(r, level);
      && RunOk(left) && RunOk(right) && |left| + |right| == |r| + 1
      && Divides(RunTokens(r), RootIn(r, level).value, RunTokens(left), op, RunTokens(right))
    decreases |r|
  {
    hide Divides, OperandOk, RootHere, Flat;
    if RootIn(r[1..], level).Some? {
      CutRunTokens(r[1..], level);
      var (left, op, right) := CutRun(r[1..], level);
      assert ([r[0]] + left)[1..] == left;
      DividesBehind(Flat(r[0]), RunTokens(r[1..]), RootIn(r[1..], level).value, RunTokens(left), op, RunTokens(right));
    } else {
      HeadParts(r[0], level);
      DividesHere(Flat(r[0].l), r[0].op, Flat(r[0].r), RunTokens(r[1..]));
      OneOperand(r[0].l);
      assert ([r[0].r] + r[1..])[1..] == r[1..];
    }
  }

  lemma HeadParts(x: Expr, level: nat)
    requires OperandOk(x) && RootHere(x, level)
    ensures x.Binary? && OperandOk(x.l) && OperandOk(x.r) && Flat(x) == Flat(x.l) + [x.op] + Flat(x.r)
  {
    OperandParts(x);
  }

  lemma {:induction false} CutTokens(c: Chain, level: nat)
    requires ChainOk(c) && RootAt(c, level).Some?
    ensures var (left, op, right) := Cut(c, level);
      && ChainOk(left) && ChainOk(right) && (left.Link? ==> c.Link? && left.sep == c.sep)
      && Divides(ChainTokens(c), RootAt(c, level).value, ChainTokens(left), op, ChainTokens(right))
  {
    hide Divides, RunOk, RootIn, RunTokens, CutRun, RoleOf;
    if c.Link? && RootAt(c.rest, level).Some? {
      CutTokens(c.rest, level);
      var (left, op, right) := Cut(c.rest, level);
      var i := RootAt(c.rest, level).value;
      DividesBehind([c.sep], ChainTokens(c.rest), i, ChainTokens(left), op, ChainTokens(right));
      DividesBehind(RunTokens(c.x), [c.sep] + ChainTokens(c.rest), 1 + i,
        [c.sep] + ChainTokens(left), op, ChainTokens(right));
    } else {
      CutRunTokens(c.x, level);
      var (left, op, right) := CutRun(c.x, level);
      if c.Link? {
        DividesBefore(RunTokens(c.x), RootIn(c.x, level).value, RunTokens(left), op, RunTokens(right),
          [c.sep] + ChainTokens(c.rest));
      }
    }
  }

  predicate HasRule(op: Token) { OperatorWidth(op.value, 0, 0).Some? }

  lemma RuleIgnoresWidths(op: string, a: nat, b: nat)
    ensures OperatorWidth(op, a, b).Some? <==> OperatorWidth(op, 0, 0).Some?
  {
  }

  lemma OperandWidth(x: Expr, symbols: Symbols)
    requires x.Binary? && TreeWidth(x.l, symbols).Width? && TreeWidth(x.r, symbols).Width? && HasRule(x.op)
    ensures TreeWidth(x, symbols).Width?
  {
    RuleIgnoresWidths(x.op.value, TreeWidth(x.l, symbols).bits, TreeWidth(x.r, symbols).bits);
  }

  /** A run cut into two parts that both have a width was one operand. */
  lemma CutRunWidth(r: Run, level: nat, symbols: Symbols)
    requires RunOk(r) && RootIn(r, level).Some?
    ensures var (left, op, right) := CutRun(r, level);
      RunWidth(left, symbols).Width? && RunWidth(right, symbols).Width? && HasRule(op) ==> RunWidth(r, symbols).Width?
  {
    CutRunTokens(r, level);
    hide RoleOf, Flat, Fits, Tightness, TreeWidth, HasRule, Divides, RunOk, RunTokens;
    var (left, op, right) := CutRun(r, level);
    if RunWidth(left, symbols).Width? && RunWidth(right, symbols).Width? && HasRule(op) {
      assert RootIn(r[1..], level) == None;
      OperandWidth(r[0], symbols);
    }
  }

  /** A chain whose two parts both have a width has one itself, unless the
      operator between them has no width rule. */
  lemma {:induction false} CutWidth(c: Chain, level: nat, symbols: Symbols)
    requires ChainOk(c) && RootAt(c, level).Some?
    ensures var (left, op, right) := Cut(c, level);
      (ChainWidth(left, symbols).Width? && ChainWidth(right, symbols).Width? && HasRule(op)) ==>
        ChainWidth(c, symbols).Width?
  {
    hide RoleOf, RunTokens, RunOk, RunWidth, HasRule, CutRun, RootIn;
    if c.Link? && RootAt(c.rest, level).Some? {
      var (inner, _, _) := Cut(c.rest, level);
      CutWidth(c.rest, level, symbols);
      if c.rest.Link? && RootAt(c.rest.rest, level).Some? {
        CutWidth(c.rest.rest, level, symbols);
      }
      ColonIsNoQuery();
    } else if c.Last? {
      CutRunWidth(c.x, level, symbols);
    }
  }

  lemma TightEnough(e: Expr)
    requires Fits(e) && !e.Ternary?
    ensures Tightness(e) >= 0
  {
  }

  lemma LastIsRun(r: Run, symbols: Symbols)
    ensures ChainOk(Last(r)) <==> RunOk(r)
    ensures ChainTokens(Last(r)) == RunTokens(r) && ChainWidth(Last(r), symbols) == RunWidth(r, symbols)
  {
  }
}
