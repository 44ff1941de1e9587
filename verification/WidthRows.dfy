/** Rows of expressions, as they stand between braces, read as chains of operands. */
module WidthRows {
  import opened Tokens
  import opened Width
  import opened WidthTree
  import opened WidthChains

  /** An expression put before a chain: the last operand of the expression and
      the first of the chain stand side by side. */
  function Before(e: Expr, c: Chain): Chain {
    match e
    case Ternary(cond, question, yes, colon, no) => Link([cond], question, Link([yes], colon, Before(no, c)))
    case _ =>
      match c
      case Last(x) => Last([e] + x)
      case Link(x, sep, rest) => Link([e] + x, sep, rest)
  }

  function RowChain(r: Run): Chain
    requires r != []
  {
    if |r| == 1 then ChainOf(r[0]) else Before(r[0], RowChain(r[1..]))
  }

  predicate StartsQuery(c: Chain) { c.Link? ==> RoleOf(c.sep.value).Query? }

  lemma PutBefore(x: Expr, c: Chain)
    requires OperandOk(x) && ChainOk(c) && !x.Ternary?
    ensures ChainOk(Before(x, c)) && ChainTokens(Before(x, c)) == Flat(x) + ChainTokens(c)
  {
    hide RoleOf, Fits, Tightness, Flat, OperandOk;
    assert ([x] + c.x)[1..] == c.x;
    assert RunTokens([x] + c.x) == Flat(x) + RunTokens(c.x);
    if c.Link? {
      assert (Flat(x) + RunTokens(c.x)) + ([c.sep] + ChainTokens(c.rest))
        == Flat(x) + (RunTokens(c.x) + ([c.sep] + ChainTokens(c.rest)));
    }
  }

  lemma ChoiceChain(cond: Expr, question: Token, yes: Expr, colon: Token, d: Chain)
    requires OperandOk(cond) && OperandOk(yes) && RoleOf(question.value).Query? && RoleOf(colon.value).Colon?
    requires ChainOk(d) && StartsQuery(d)
    ensures var c := Link([cond], question, Link([yes], colon, d));
      && ChainOk(c) && StartsQuery(c)
      && ChainTokens(c) == Flat(cond) + ([question] + (Flat(yes) + ([colon] + ChainTokens(d))))
  {
    hide Flat, OperandOk, RunTokens, RunOk, RoleOf;
    OneOperand(cond);
    OneOperand(yes);
  }

  lemma BeforeTernary(e: Expr, c: Chain)
    requires e.Ternary?
    ensures Before(e, c) == Link([e.cond], e.question, Link([e.yes], e.colon, Before(e.no, c)))
  {
  }

  lemma TernaryOperands(e: Expr)
    requires Fits(e) && e.Ternary?
    ensures OperandOk(e.cond) && OperandOk(e.yes)
  {
  }

  lemma {:induction false} BeforeIsChain(e: Expr, c: Chain)
    requires Fits(e) && ChainOk(c) && StartsQuery(c)
    ensures ChainOk(Before(e, c)) && StartsQuery(Before(e, c))
    ensures ChainTokens(Before(e, c)) == Flat(e) + ChainTokens(c)
    decreases e
  {
    hide *;
    if e.Ternary? {
      TernaryRoles(e);
      TernaryOperands(e);
      NoOfTernary(e);
      BeforeIsChain(e.no, c);
      BeforeTernary(e, c);
      ChoiceChain(e.cond, e.question, e.yes, e.colon, Before(e.no, c));
      FlatTernary(e);
      TernaryThen(Flat(e.cond), e.question, Flat(e.yes), e.colon, Flat(e.no), ChainTokens(c));
    } else {
      TightOperand(e);
      PutBefore(e, c);
      PutStarts(e, c);
    }
  }

  lemma TightOperand(e: Expr)
    requires Fits(e) && !e.Ternary?
    ensures OperandOk(e)
  {
    TightEnough(e);
  }

  lemma PutStarts(e: Expr, c: Chain)
    requires !e.Ternary? && StartsQuery(c)
    ensures StartsQuery(Before(e, c))
  {
    hide RoleOf;
  }

  lemma TernaryThen(x: seq<Token>, q: Token, y: seq<Token>, k: Token, z: seq<Token>, s: seq<Token>)
    ensures (x + ([q] + (y + ([k] + z)))) + s == x + ([q] + (y + ([k] + (z + s))))
  {
  }

  lemma {:induction false} RowIsChain(r: Run)
    requires r != [] && AllFit(r)
    ensures ChainOk(RowChain(r)) && StartsQuery(RowChain(r)) && ChainTokens(RowChain(r)) == RunTokens(r)
    decreases |r|
  {
    hide RoleOf, Fits, Flat, ChainOk, StartsQuery;
    if |r| == 1 {
      assert r == [r[0]];
      OneOperand(r[0]);
      ChainOfTree(r[0], map[]);
      ChainOfStartsQuery(r[0]);
    } else {
      RowIsChain(r[1..]);
      BeforeIsChain(r[0], RowChain(r[1..]));
    }
  }

  lemma ChainOfStartsQuery(e: Expr)
    requires Fits(e)
    ensures StartsQuery(ChainOf(e))
  {
    ChainOfTree(e, map[]);
  }

  lemma QueryBranches(c: Chain, symbols: Symbols)
    requires c.Link? && RoleOf(c.sep.value).Query?
    ensures ChainWidth(c, symbols) ==
      if c.rest.Last? then NoWidth else Wider(RunWidth(c.rest.x, symbols), ChainWidth(c.rest.rest, symbols))
  {
  }

  /** An operand put before a chain hides a lone operand and is itself never read. */
  function Seen(c: Chain, symbols: Symbols): Outcome {
    if c.Last? then NoWidth else ChainWidth(c, symbols)
  }

  lemma {:induction false} BeforeWidth(e: Expr, c: Chain, symbols: Symbols)
    requires Fits(e) && StartsQuery(c) && ChainOk(c)
    ensures ChainWidth(Before(e, c), symbols) == ReadWidth(e, Seen(c, symbols), symbols)
    decreases e
  {
    if e.Ternary? {
      TernaryRoles(e);
      NoOfTernary(e);
      BeforeWidth(e.no, c, symbols);
      hide RoleOf, Fits, TreeWidth, ChainWidth, ChainOk;
      QueryBranches(Before(e, c), symbols);
    } else {
      hide RoleOf, Fits, TreeWidth, ChainWidth, OperandOk;
      if c.Link? {
        QueryBranches(c, symbols);
        QueryBranches(Before(e, c), symbols);
      } else {
        LastIsRun([e] + c.x, symbols);
      }
    }
  }

  lemma {:induction false} NoTernaryAtEnd(r: Run, symbols: Symbols)
    requires r != [] && AllFit(r)
    ensures r[|r| - 1].Ternary? ==> RowChain(r).Link?
    ensures !r[|r| - 1].Ternary? ==> Seen(RowChain(r), symbols) == NoWidth
    decreases |r|
  {
    hide RoleOf, Fits, TreeWidth;
    if |r| > 1 {
      NoTernaryAtEnd(r[1..], symbols);
      RowIsChain(r[1..]);
      BeforeWidth(r[0], RowChain(r[1..]), symbols);
      ReadNothing(r[0], symbols);
    }
  }

  lemma {:induction false} ReadNothing(e: Expr, symbols: Symbols)
    ensures ReadWidth(e, NoWidth, symbols) == NoWidth
  {
    if e.Ternary? { ReadNothing(e.no, symbols); }
  }

  lemma {:induction false} RowChainWidth(r: Run, symbols: Symbols)
    requires r != [] && AllFit(r)
    ensures ChainWidth(RowChain(r), symbols) == RowWidth(r, symbols)
    decreases |r|
  {
    hide RoleOf, Fits, TreeWidth, ChainWidth, Before;
    assert Fits(r[0]);
    if |r| == 1 {
      ChainOfTree(r[0], symbols);
    } else {
      RowIsChain(r[1..]);
      NoTernaryAtEnd(r[1..], symbols);
      RowChainWidth(r[1..], symbols);
      BeforeWidth(r[0], RowChain(r[1..]), symbols);
      ReadNothing(r[0], symbols);
    }
  }

  // ----- when a row has a width -----

  /** The false branches nested in an expression lead only over true branches with a width. */
  predicate BranchesKnown(e: Expr, symbols: Symbols) {
    e.Ternary? ==> TreeWidth(e.yes, symbols).Width? && BranchesKnown(e.no, symbols)
  }

  lemma {:induction false} ReadIffKnown(e: Expr, after: Outcome, symbols: Symbols)
    ensures ReadWidth(e, after, symbols).Width? <==> after.Width? && BranchesKnown(e, symbols)
  {
    hide TreeWidth;
    if e.Ternary? { ReadIffKnown(e.no, after, symbols); }
  }

  predicate EndsInTernary(r: Run) { r != [] && r[|r| - 1].Ternary? }

  predicate LastIsRead(r: Run, symbols: Symbols) {
    && EndsInTernary(r) && TreeWidth(r[|r| - 1], symbols).Width?
    && forall k :: 0 <= k < |r| - 1 ==> BranchesKnown(r[k], symbols)
  }

  /** Two or more operands get a width exactly when the last is a bare ternary that
      has one and the true branches of all bare ternaries before it have one. */
  lemma {:induction false} RowHasWidthIff(r: Run, symbols: Symbols)
    requires |r| >= 2
    ensures RowWidth(r, symbols).Width? <==> LastIsRead(r, symbols)
    decreases |r|
  {
    hide TreeWidth, BranchesKnown;
    if EndsInTernary(r) {
      ReadIffKnown(r[0], RowWidth(r[1..], symbols), symbols);
      if |r| > 2 {
        RowHasWidthIff(r[1..], symbols);
        assert forall k :: 0 < k < |r| ==> r[k] == r[1..][k - 1];
      }
    }
  }

  predicate RowKnown(r: Run, symbols: Symbols) {
    if |r| == 1 then TreeWidth(r[0], symbols).Width? else LastIsRead(r, symbols)
  }

  lemma RowKnownIff(r: Run, symbols: Symbols)
    ensures RowWidth(r, symbols).Width? <==> RowKnown(r, symbols)
  {
    hide TreeWidth, BranchesKnown;
    if |r| >= 2 { RowHasWidthIff(r, symbols); }
  }
}
