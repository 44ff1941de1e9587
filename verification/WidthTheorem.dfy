/** The token-level width of an expression equals the width of its tree. */
module WidthTheorem {
  import opened Tokens
  import opened Brackets
  import opened Literals
  import opened Width
  import opened WidthTree
  import opened WidthChains
  import opened WidthCommas
  import opened WidthRaises
  import opened WidthDangling
  import opened WidthRows
  import opened WidthBraces

  lemma LeafSelectCloses(e: Expr, s: seq<Token>)
    requires Fits(e) && (e.BitSelect? || e.RangeSelect?)
    ensures CloserFrom((Flat(e) + s)[2..], 1, "[", "]") == [e.rb] + s
  {
    hide CloserFrom;
    if e.BitSelect? {
      assert Flat(e) == [e.name, e.lb] + [e.bit, e.rb];
      AfterTwo(e.name, e.lb, [e.bit, e.rb], s);
      assert [e.bit, e.rb] + s == [e.bit] + ([e.rb] + s);
      SelectCloses([e.bit], e.rb, s);
    } else {
      var x := [e.left, e.colon, e.right];
      assert Flat(e) == [e.name, e.lb] + (x + [e.rb]);
      AfterTwo(e.name, e.lb, x + [e.rb], s);
      assert (x + [e.rb]) + s == x + ([e.rb] + s);
      SelectCloses(x, e.rb, s);
    }
  }

  /** A name with a bracket right after it closes the bracket inside the leftmost operand. */
  lemma {:induction false} LeadingSelectCloses(e: Expr, s: seq<Token>)
    requires Fits(e) && Flat(e)[0].kind.Identifier?
    requires s == [] || s[0].value != "["
    requires |Flat(e) + s| >= 2 && (Flat(e) + s)[1].value == "["
    ensures |CloserFrom((Flat(e) + s)[2..], 1, "[", "]")| > |s|
  {
    match e
    case Binary(l, op, r) =>
      RootParts(e);
      InfixIsNoBracket(op);
      hide *;
      RegroupBinary(Flat(l), op, Flat(r), s);
      assert Flat(e)[0] == Flat(l)[0];
      LeadingSelectCloses(l, [op] + (Flat(r) + s));
    case Ternary(cond, question, yes, colon, no) =>
      TernaryRoles(e);
      QueryIsNoBracket(question);
      hide *;
      TailOfTernary(e, s);
      LeadingSelectCloses(cond, [question] + (Flat(yes) + ([colon] + (Flat(no) + s))));
    case _ =>
      OnlySelectsLead(e, s);
      hide RoleOf, Flat, Fits;
      LeafSelectCloses(e, s);
  }

  lemma TailOfTernary(e: Expr, s: seq<Token>)
    requires e.Ternary?
    ensures Flat(e)[0] == Flat(e.cond)[0]
    ensures Flat(e) + s == Flat(e.cond) + ([e.question] + (Flat(e.yes) + ([e.colon] + (Flat(e.no) + s))))
  {
    RegroupTernary(Flat(e.cond), e.question, Flat(e.yes), e.colon, Flat(e.no), s);
  }

  lemma OnlySelectsLead(e: Expr, s: seq<Token>)
    requires Fits(e) && Flat(e)[0].kind.Identifier? && !e.Binary? && !e.Ternary?
    requires s == [] || s[0].value != "["
    requires |Flat(e) + s| >= 2 && (Flat(e) + s)[1].value == "["
    ensures e.BitSelect? || e.RangeSelect?
  {
    hide RoleOf, RunTokens;
  }

  lemma InfixIsNoBracket(t: Token)
    requires RoleOf(t.value).Infix?
    ensures t.value != "["
  {
  }

  lemma QueryIsNoBracket(t: Token)
    requires RoleOf(t.value).Query?
    ensures t.value != "["
  {
  }

  lemma AfterTwo(t: Token, u: Token, x: seq<Token>, s: seq<Token>)
    ensures (([t, u] + x) + s)[2..] == x + s
  {
  }

  lemma {:induction false} SelectCloses(x: seq<Token>, rb: Token, s: seq<Token>)
    requires rb.value == "]" && forall t :: t in x ==> !RoleOf(t.value).Open? && !RoleOf(t.value).Close?
    ensures CloserFrom(x + ([rb] + s), 1, "[", "]") == [rb] + s
  {
    if x == [] {
      assert x + ([rb] + s) == [rb] + s;
    } else {
      assert (x + ([rb] + s))[1..] == x[1..] + ([rb] + s);
      assert x[0] in x;
      SelectCloses(x[1..], rb, s);
    }
  }

  /** The tokens of a binary expression are never taken for a single select. */
  lemma BinaryIsNoLeaf(e: Expr, symbols: Symbols)
    requires Fits(e) && e.Binary?
    ensures LeafWidth(Flat(e), symbols) == NoWidth
  {
    var m := Flat(e);
    if |m| >= 4 && m[0].kind.Identifier? && m[1].value == "[" {
      assert m + [] == m;
      SizeOfBinary(e);
      RegroupBinary(Flat(e.l), e.op, Flat(e.r), []);
      assert e.op.value != "[";
      LeadingSelectCloses(e.l, [e.op] + (Flat(e.r) + []));
      MatchIsCloserFrom(m, 2, 1, "[", "]");
    }
  }

  lemma SizeOfBinary(e: Expr)
    requires e.Binary?
    ensures |Flat(e)| >= 3
  {
  }

  lemma AtomLeafWidth(e: Expr, symbols: Symbols)
    requires Fits(e) && e.Atom?
    ensures LeafWidth(Flat(e), symbols) == TreeWidth(e, symbols)
  {
  }

  lemma BitSelectLeafWidth(e: Expr, symbols: Symbols)
    requires Fits(e) && e.BitSelect?
    ensures LeafWidth(Flat(e), symbols) == TreeWidth(e, symbols)
  {
    var m, inner := Flat(e), [e.bit];
    assert m[2..] == inner + ([e.rb] + []);
    SelectCloses(inner, e.rb, []);
    MatchIsCloserFrom(m, 2, 1, "[", "]");
    assert m[2..3] == inner;
    assert ColonPositions(inner, 1) == [];
  }

  lemma RangeSelectGroup(e: Expr)
    requires Fits(e) && e.RangeSelect?
    ensures Group(Flat(e), 1, "[", "]") == ([e.left, e.colon, e.right], Some(5))
  {
    hide CloserFrom, MatchFrom, RoleOf;
    var m, inner := Flat(e), [e.left, e.colon, e.right];
    assert m[2..] == inner + ([e.rb] + []) && m[1].value == "[";
    SelectCloses(inner, e.rb, []);
    MatchIsCloserFrom(m, 2, 1, "[", "]");
    assert m[2..5] == inner;
  }

  lemma RangeWidthOfThree(left: Token, colon: Token, right: Token)
    requires RoleOf(left.value).Other? && RoleOf(colon.value).Colon? && RoleOf(right.value).Other?
    ensures var inner := [left, colon, right];
      ColonPositions(inner, 0) == [1] &&
      RangeWidth(inner, 1) ==
        var (a, b) := (ParseInt(left.value), ParseInt(right.value));
        if a.Some? && b.Some? then Some(Distance(a.value, b.value) + 1) else None
  {
    hide ParseInt;
    var inner := [left, colon, right];
    assert ColonPositions(inner, 3) == [] && ColonPositions(inner, 2) == [] && ColonPositions(inner, 1) == [1];
    assert inner[..1] == [left] && inner[2..] == [right];
    assert [left][1..] == [] && [right][1..] == [] && Values([]) == "";
    assert left.value + "" == left.value && right.value + "" == right.value;
  }

  lemma RangeSelectLeafWidth(e: Expr, symbols: Symbols)
    requires Fits(e) && e.RangeSelect?
    ensures LeafWidth(Flat(e), symbols) == TreeWidth(e, symbols)
  {
    RangeSelectFacts(e);
    RangeTreeWidth(e, symbols);
    hide *;
    RangeSelectGroup(e);
    RangeWidthOfThree(e.left, e.colon, e.right);
    LeafOfRange(Flat(e), [e.left, e.colon, e.right], symbols);
  }

  lemma RangeSelectFacts(e: Expr)
    requires Fits(e) && e.RangeSelect?
    ensures Flat(e) == [e.name, e.lb, e.left, e.colon, e.right, e.rb] && e.name.kind.Identifier? && e.lb.value == "["
    ensures RoleOf(e.left.value).Other? && RoleOf(e.colon.value).Colon? && RoleOf(e.right.value).Other?
  {
    hide RoleOf;
  }

  lemma RangeTreeWidth(e: Expr, symbols: Symbols)
    requires e.RangeSelect?
    ensures TreeWidth(e, symbols) ==
      var (a, b) := (ParseInt(e.left.value), ParseInt(e.right.value));
      OfOption(if a.Some? && b.Some? then Some(Distance(a.value, b.value) + 1) else None)
  {
    hide ParseInt;
  }

  lemma LeafOfRange(m: seq<Token>, inner: seq<Token>, symbols: Symbols)
    requires |m| >= 4 && m[0].kind.Identifier? && m[1].value == "["
    requires Group(m, 1, "[", "]") == (inner, Some(|m| - 1))
    requires |inner| == 3 && ColonPositions(inner, 0) == [1]
    ensures LeafWidth(m, symbols) == OfOption(RangeWidth(inner, 1))
  {
    hide Group, RangeWidth, ColonPositions;
  }

  lemma LeafWidthIsTreeWidth(e: Expr, symbols: Symbols)
    requires Fits(e) && IsLeaf(e)
    ensures LeafWidth(Flat(e), symbols) == TreeWidth(e, symbols)
  {
    hide LeafWidth;
    if e.Atom? {
      AtomLeafWidth(e, symbols);
    } else if e.BitSelect? {
      BitSelectLeafWidth(e, symbols);
    } else {
      RangeSelectLeafWidth(e, symbols);
    }
  }

  lemma {:induction false} CoreKeepsWidth(e: Expr, symbols: Symbols)
    ensures TreeWidth(Core(e), symbols) == TreeWidth(e, symbols)
  {
    if e.Paren? {
      CoreKeepsWidth(e.inner, symbols);
    }
  }

  lemma FirstTokenIsNoPrefix(t: Token)
    requires RoleOf(t.value).Other? || Spells(t, "(") || Spells(t, "{")
    ensures !IsReduction(t.value)
  {
  }

  /** Stripped of its parentheses a list is split as it stands, unless it is one brace group. */
  lemma SplitAsItStands(ts: seq<Token>, m: seq<Token>, symbols: Symbols)
    requires Tidy(false, ts) && ts != [] && Strip(ts, "(", ")") == m && m != [] && !IsReduction(m[0].value)
    requires OpenInside(m)
    ensures ExpressionWidth(ts, symbols) == TernaryOrLess(m, symbols, |m|)
  {
    hide *;
    InsideHasNoWidth(m, symbols);
    TidyIsUnfiltered(ts);
    WidthStep(ts, symbols);
  }

  lemma TidyIsUnfiltered(ts: seq<Token>)
    requires Tidy(false, ts)
    ensures NoCommas(ts) == ts
  {
    TidyIsSolid(false, ts);
    NothingToFilter(ts);
  }

  /** Filtering and stripping bring the tokens down to those of the core. */
  lemma WidthOfCore(e: Expr, symbols: Symbols)
    requires Fits(e) && !Core(e).Braces?
    ensures ExpressionWidth(Flat(e), symbols) == TernaryOrLess(Flat(Core(e)), symbols, |Flat(Core(e))|)
  {
    var c := Core(e);
    hide TernaryOrLess, Strip, IsReduction, Fits, Tidy, DepthOver, Flat, Core;
    StripIsCore(e);
    CoreFits(e);
    ExprIsTidy(e, 1);
    ExprIsTidy(c, 1);
    FirstToken(c);
    FirstTokenIsNoPrefix(Flat(c)[0]);
    assert Flat(c) + [] == Flat(c);
    MoreThanOneGroup(Flat(c), c, []);
    SplitAsItStands(Flat(e), Flat(c), symbols);
  }

  lemma ExprIsTidy(e: Expr, depth: nat)
    requires Fits(e)
    ensures Tidy(false, Flat(e)) && DepthOver(Flat(e), depth) == depth && CommaFree(Flat(e))
  {
    ExprTidy(e, [], false, depth);
    assert Flat(e) + [] == Flat(e);
    TidyIsSolid(false, Flat(e));
  }

  /** A brace group is read as what it holds, and looked at as a whole only when that has no width. */
  lemma WidthOfBraces(e: Expr, symbols: Symbols)
    requires Fits(e) && Core(e).Braces?
    ensures var (c, inner) := (Core(e), ExpressionWidth(RunTokens(Core(e).row), symbols));
      ExpressionWidth(Flat(e), symbols) == if inner.NoWidth? then TernaryOrLess(Flat(c), symbols, |Flat(c)|) else inner
  {
    var c := Core(e);
    var m := Flat(c);
    assert m == [c.lb] + RunTokens(c.row) + [c.rb] && m[1..|m| - 1] == RunTokens(c.row);
    BracesFit(e);
    hide *;
    StripIsCore(e);
    ExprIsTidy(e, 1);
    NothingToFilter(Flat(e));
    WidthStep(Flat(e), symbols);
  }

  lemma BracesFit(e: Expr)
    requires Fits(e) && Core(e).Braces?
    ensures AllFit(Core(e).row) && IsBraceGroup(Flat(Core(e))) && !IsReduction(Flat(Core(e))[0].value)
  {
    CoreFits(e);
  }

  /** The token-level inference returns the width of the tree, for every tree
      the code's table assigns to its tokens; it has none exactly when the tree has none. */
  lemma {:induction false} WidthIsTreeWidth(e: Expr, symbols: Symbols)
    requires Fits(e)
    ensures ExpressionWidth(Flat(e), symbols) == TreeWidth(e, symbols)
    decreases |Flat(e)|, 2
  {
    hide RoleOf, Spells, ExpressionWidth, LeafWidth, TernaryOrLess, BinaryOrLess, Flat, Fits, TernaryAt, BinaryAt,
      ChainTokens, AllFit;
    CoreKeepsWidth(e, symbols);
    CoreFits(e);
    var c := Core(e);
    CoreIsShorter(e);
    if c.Braces? {
      BracesFit(e);
      BracesAreLonger(c);
      WidthOfBraces(e, symbols);
      WidthOfRow(c.row, symbols);
      NoSplitOfOperand(c, symbols);
      RowNeverRaises(c.row, symbols);
    } else {
      WidthOfCore(e, symbols);
      if c.Ternary? {
        ChainOfTree(c, symbols);
        CompoundWidth(ChainOf(c), symbols, |Flat(c)|);
      } else if c.Binary? {
        WidthOfBinary(c, symbols);
      } else {
        NoSplitOfOperand(c, symbols);
        LeafWidthIsTreeWidth(c, symbols);
      }
    }
  }

  lemma {:induction false} WidthOfBinary(c: Expr, symbols: Symbols)
    requires Fits(c) && c.Binary?
    ensures TernaryOrLess(Flat(c), symbols, |Flat(c)|) == TreeWidth(c, symbols)
    decreases |Flat(c)|, 1
  {
    hide RoleOf, Spells, ExpressionWidth, LeafWidth, TernaryOrLess, BinaryOrLess, Flat, Fits, TernaryAt, BinaryAt;
    NoTernaryFound(c);
    NoTernaryOfParts(Flat(c), symbols, |Flat(c)|);
    TightEnough(c);
    BinaryFindsRoot(c, 0);
    BinaryParts(c);
    BinarySlices(c);
    WidthIsTreeWidth(c.l, symbols);
    WidthIsTreeWidth(c.r, symbols);
    BinaryIsNoLeaf(c, symbols);
    BinaryOfParts(c, symbols, |Flat(c)|);
  }

  /** An operand that is no operator has no split; only its own form can give it a width. */
  lemma NoSplitOfOperand(c: Expr, symbols: Symbols)
    requires Fits(c) && (IsLeaf(c) || c.Braces?)
    ensures TernaryOrLess(Flat(c), symbols, |Flat(c)|) == LeafWidth(Flat(c), symbols)
    ensures c.Braces? ==> LeafWidth(Flat(c), symbols) == NoWidth
  {
    NoTernaryFound(c);
    NoTernaryOfParts(Flat(c), symbols, |Flat(c)|);
    TightEnough(c);
    BinaryFindsRoot(c, 0);
    NoBinaryOfParts(Flat(c), symbols, |Flat(c)|);
    hide TernaryAt, BinaryAt, RoleOf, TernaryOrLess, BinaryOrLess, RunTokens;
    if c.Braces? { assert Flat(c)[0] == c.lb && |Flat(c)| >= 2; }
  }

  lemma {:induction false} CoreIsShorter(e: Expr)
    ensures |Flat(Core(e))| <= |Flat(e)|
  {
    if e.Paren? { CoreIsShorter(e.inner); }
  }

  lemma BracesAreLonger(c: Expr)
    requires c.Braces?
    ensures |RunTokens(c.row)| < |Flat(c)|
  {
  }

  /** Expressions side by side, with nothing between them. */
  lemma {:induction false} WidthOfRow(r: Run, symbols: Symbols)
    requires AllFit(r)
    ensures ExpressionWidth(RunTokens(r), symbols) == RowWidth(r, symbols)
    decreases |RunTokens(r)|, 5
  {
    hide ChainOk, ChainTokens, ChainWidth, RowChain, AllFit;
    if r != [] {
      RowIsChain(r);
      RowChainWidth(r, symbols);
      WidthOfChain(RowChain(r), symbols);
    }
  }

  /** Every token list that is a chain of operands: an expression, or a piece of
      one, or several side by side. */
  lemma {:induction false} WidthOfChain(c: Chain, symbols: Symbols)
    requires ChainOk(c)
    ensures ExpressionWidth(ChainTokens(c), symbols) == ChainWidth(c, symbols)
    decreases |ChainTokens(c)|, 4
  {
    hide RoleOf, ExpressionWidth, TernaryOrLess, Flat, Fits, Tightness, RunOk, RunTokens, RunWidth;
    ChainHead(c);
    if c.Last? {
      WidthOfRun(c.x, symbols);
    } else {
      CompoundIsWhole(c, symbols);
      CompoundWidth(c, symbols, |ChainTokens(c)|);
    }
  }

  lemma {:induction false} WidthOfRun(r: Run, symbols: Symbols)
    requires RunOk(r)
    ensures ExpressionWidth(RunTokens(r), symbols) == RunWidth(r, symbols)
    decreases |RunTokens(r)|, 3
  {
    hide RoleOf, ExpressionWidth, TernaryOrLess, Flat, Fits, Tightness;
    if |r| == 1 {
      assert [r[0]] == r && OperandOk(r[0]);
      OneOperand(r[0]);
      WidthIsTreeWidth(r[0], symbols);
    } else {
      hide RunTokens, RunOk;
      LastIsRun(r, symbols);
      CompoundIsWhole(Last(r), symbols);
      CompoundWidth(Last(r), symbols, |RunTokens(r)|);
    }
  }

  /** The ternary split of a chain gives the width of its branches; when one of
      them has none, no later case of the inference gives any. */
  lemma {:induction false} CompoundWidth(c: Chain, symbols: Symbols, bound: nat)
    requires ChainOk(c) && Compound(c) && |ChainTokens(c)| <= bound
    ensures TernaryOrLess(ChainTokens(c), symbols, bound) == ChainWidth(c, symbols)
    decreases |ChainTokens(c)|, 1
  {
    hide ExpressionWidth, TernaryOrLess, BinaryOrLess, TernaryAt, ChainTokens, ChainOk, RunOk, RunTokens, RunWidth;
    var ts := ChainTokens(c);
    TernaryOfChain(c);
    if Branches(c).None? {
      NoBranchesNoWidth(c, symbols);
      NoTernaryOfParts(ts, symbols, bound);
      CompoundBinary(c, symbols, bound);
    } else {
      var (yes, no) := Branches(c).value;
      var (q, k) := TernaryAt(ts).value;
      WidthOfRun(yes, symbols);
      WidthOfChain(no, symbols);
      var (a, b) := (RunWidth(yes, symbols), ChainWidth(no, symbols));
      if a.Width? && b.Width? {
        TernaryOfParts(ts, q, k, RunTokens(yes), ChainTokens(no), a.bits, b.bits, symbols, bound);
      } else {
        RunNeverRaises(yes, symbols);
        ChainNeverRaises(no, symbols);
        TernaryFallsThrough(ts, q, k, RunTokens(yes), ChainTokens(no), symbols, bound);
        CompoundBinary(c, symbols, bound);
      }
    }
  }

  lemma NoBranchesNoWidth(c: Chain, symbols: Symbols)
    requires Compound(c) && Branches(c).None?
    ensures ChainWidth(c, symbols) == NoWidth
  {
  }

  lemma {:induction false} CompoundBinary(c: Chain, symbols: Symbols, bound: nat)
    requires ChainOk(c) && Compound(c) && |ChainTokens(c)| <= bound && ChainWidth(c, symbols) == NoWidth
    ensures BinaryOrLess(ChainTokens(c), symbols, bound) == NoWidth
    decreases |ChainTokens(c)|, 0
  {
    hide RoleOf, ExpressionWidth, BinaryOrLess, LeafWidth, BinaryAt, ChainTokens, ChainOk, ChainWidth, Loosest, RootAt,
      Cut, Compound;
    var ts := ChainTokens(c);
    CompoundIsNoLeaf(c, symbols);
    NoRootBelowLoosest(c, 0);
    var level := Loosest(c);
    BinaryOfChain(c, 0, level);
    if level < Levels {
      NoRootBelowLoosest(c, level);
      CutTokens(c, level);
      CutWidth(c, level, symbols);
      var (left, op, right) := Cut(c, level);
      WidthOfChain(left, symbols);
      WidthOfChain(right, symbols);
      ChainNeverRaises(left, symbols);
      ChainNeverRaises(right, symbols);
      BinaryOfCut(ts, RootAt(c, level).value, op, ChainWidth(left, symbols), ChainWidth(right, symbols), symbols,
        bound);
    } else {
      NoBinaryOfParts(ts, symbols, bound);
    }
  }

  lemma TernaryFallsThrough(m: seq<Token>, q: nat, c: nat, yes: seq<Token>, no: seq<Token>, symbols: Symbols,
      bound: nat)
    requires |m| <= bound && q < c < |m| && TernaryAt(m) == Some((q, c))
    requires m[q + 1..c] == yes && m[c + 1..] == no
    requires ExpressionWidth(yes, symbols) != IndexError && ExpressionWidth(no, symbols) != IndexError
    requires !(ExpressionWidth(yes, symbols).Width? && ExpressionWidth(no, symbols).Width?)
    ensures TernaryOrLess(m, symbols, bound) == BinaryOrLess(m, symbols, bound)
  {
    hide ExpressionWidth, BinaryOrLess, TernaryAt;
  }

  lemma BinaryOfCut(m: seq<Token>, i: nat, op: Token, a: Outcome, b: Outcome, symbols: Symbols, bound: nat)
    requires |m| <= bound && i < |m| && BinaryAt(m, 0) == Some(i) && m[i] == op && LeafWidth(m, symbols) == NoWidth
    requires ExpressionWidth(m[..i], symbols) == a && ExpressionWidth(m[i + 1..], symbols) == b
    requires a != IndexError && b != IndexError && (a.Width? && b.Width? ==> !HasRule(op))
    ensures BinaryOrLess(m, symbols, bound) == NoWidth
  {
    hide ExpressionWidth, LeafWidth, BinaryAt, OperatorWidth;
    if a.Width? && b.Width? { RuleIgnoresWidths(op.value, a.bits, b.bits); }
  }

  /** A chain of more than one operand. */
  predicate Compound(c: Chain) { c.Link? || |c.x| >= 2 }

  function AfterOperand(c: Chain): seq<Token>
    requires c.x != []
  {
    RunTokens(c.x[1..]) + if c.Link? then [c.sep] + ChainTokens(c.rest) else []
  }

  lemma RunHead(r: Run)
    requires RunOk(r)
    ensures r != [] && OperandOk(r[0]) && RunTokens(r) == Flat(r[0]) + RunTokens(r[1..])
    ensures |r| >= 2 ==> RunOk(r[1..])
    ensures |r| == 1 ==> RunTokens(r[1..]) == []
  {
    hide Flat, OperandOk;
  }

  lemma RunStart(r: Run)
    requires RunOk(r)
    ensures RunTokens(r) != [] && RunTokens(r)[0].value != "["
  {
    RunHead(r);
    FirstToken(r[0]);
    FirstTokenIsNoBracket(Flat(r[0])[0]);
    hide Flat, Fits, RoleOf, RunTokens;
    assert RunTokens(r)[0] == Flat(r[0])[0];
  }

  lemma CompoundHead(c: Chain)
    requires ChainOk(c) && Compound(c)
    ensures OperandOk(c.x[0]) && ChainTokens(c) == Flat(c.x[0]) + AfterOperand(c)
    ensures AfterOperand(c) != [] && AfterOperand(c)[0].value != "["
  {
    hide Flat, Fits, RoleOf, OperandOk, RunOk, RunTokens;
    RunHead(c.x);
    ChainHead(c);
    if c.Link? {
      SeparatorIsNoBracket(c.sep);
      ThreeParts(Flat(c.x[0]), RunTokens(c.x[1..]), [c.sep] + ChainTokens(c.rest));
    }
    if |c.x| >= 2 { RunStart(c.x[1..]); }
  }

  /** A chain of more than one operand is neither filtered nor stripped, and starts no special case. */
  lemma CompoundIsWhole(c: Chain, symbols: Symbols)
    requires ChainOk(c) && Compound(c)
    ensures ExpressionWidth(ChainTokens(c), symbols) == TernaryOrLess(ChainTokens(c), symbols, |ChainTokens(c)|)
  {
    hide *;
    ChainTidy(c, 1);
    CompoundIsStripped(c);
    CompoundStart(c);
    CompoundInner(c);
    SplitAsItStands(ChainTokens(c), ChainTokens(c), symbols);
  }

  lemma CompoundInner(c: Chain)
    requires ChainOk(c) && Compound(c)
    ensures OpenInside(ChainTokens(c))
  {
    hide *;
    HeadFits(c);
    CompoundHead(c);
    ChainTidy(c, 1);
    MoreThanOneGroup(ChainTokens(c), c.x[0], AfterOperand(c));
  }

  lemma HeadFits(c: Chain)
    requires ChainOk(c)
    ensures c.x != [] && Fits(c.x[0])
  {
  }

  lemma MoreThanOneGroup(ts: seq<Token>, e: Expr, s: seq<Token>)
    requires ts == Flat(e) + s && Fits(e) && !(e.Braces? && s == [])
    requires Tidy(false, ts) && DepthOver(ts, 1) == 1
    ensures OpenInside(ts)
  {
    hide Flat, Fits, Tidy, DepthOver, Dangling;
    if IsBraceGroup(ts) { InnerDangles(e, s); }
  }

  lemma CompoundStart(c: Chain)
    requires ChainOk(c) && Compound(c)
    ensures ChainTokens(c) != [] && !IsReduction(ChainTokens(c)[0].value)
  {
    CompoundHead(c);
    FirstToken(c.x[0]);
    FirstTokenIsNoPrefix(Flat(c.x[0])[0]);
    hide Flat, ChainTokens, RoleOf, Spells, IsReduction, Fits, Tightness;
    assert ChainTokens(c)[0] == Flat(c.x[0])[0];
  }

  lemma CompoundIsStripped(c: Chain)
    requires ChainOk(c) && Compound(c)
    ensures Strip(ChainTokens(c), "(", ")") == ChainTokens(c)
  {
    CompoundHead(c);
    hide ChainTokens, Flat, Fits, Tightness, RoleOf, CloserFrom, AfterOperand, ChainOk;
    var ts, s := ChainTokens(c), AfterOperand(c);
    assert ts[0] == Flat(c.x[0])[0];
    if ts[0].value == "(" {
      LeadingParenCloses(c.x[0], s);
      MatchIsCloserFrom(ts, 1, 1, "(", ")");
    }
  }

  lemma CompoundIsNoLeaf(c: Chain, symbols: Symbols)
    requires ChainOk(c) && Compound(c)
    ensures LeafWidth(ChainTokens(c), symbols) == NoWidth
  {
    CompoundHead(c);
    hide ChainTokens, Flat, Fits, Tightness, RoleOf, CloserFrom, AfterOperand, ChainOk;
    var m, s := ChainTokens(c), AfterOperand(c);
    assert m[0] == Flat(c.x[0])[0];
    if |m| >= 4 && m[0].kind.Identifier? && m[1].value == "[" {
      LeadingSelectCloses(c.x[0], s);
      MatchIsCloserFrom(m, 2, 1, "[", "]");
    }
  }

  lemma SeparatorIsNoBracket(t: Token)
    requires Separator(RoleOf(t.value))
    ensures t.value != "["
  {
  }

  lemma BinaryParts(e: Expr)
    requires Fits(e) && e.Binary?
    ensures Fits(e.l) && Fits(e.r)
  {
  }

  lemma BinaryOfParts(e: Expr, symbols: Symbols, bound: nat)
    requires e.Binary? && |Flat(e)| <= bound
    requires BinaryAt(Flat(e), 0) == Some(|Flat(e.l)|)
    requires ExpressionWidth(Flat(e.l), symbols) == TreeWidth(e.l, symbols)
    requires ExpressionWidth(Flat(e.r), symbols) == TreeWidth(e.r, symbols)
    requires LeafWidth(Flat(e), symbols) == NoWidth
    ensures BinaryOrLess(Flat(e), symbols, bound) == TreeWidth(e, symbols)
  {
    hide ExpressionWidth, LeafWidth, BinaryAt, Flat;
    BinarySlices(e);
    TreeNeverRaises(e.l, symbols);
    TreeNeverRaises(e.r, symbols);
  }

  lemma BinarySlices(e: Expr)
    requires e.Binary?
    ensures var (m, i) := (Flat(e), |Flat(e.l)|);
      i < |m| && m[..i] == Flat(e.l) && m[i] == e.op && m[i + 1..] == Flat(e.r)
  {
  }

  /** The right kinds of tokens in the right places, whatever the precedences. */
  predicate TokensFit(e: Expr) {
    match e
    case Paren(lp, inner, rp) => IsPair(lp, "(", rp, ")") && TokensFit(inner)
    case Binary(l, op, r) => RoleOf(op.value).Infix? && TokensFit(l) && TokensFit(r)
    case Ternary(cond, question, yes, colon, no) =>
      RoleOf(question.value).Query? && RoleOf(colon.value).Colon? && TokensFit(cond) && TokensFit(yes) && TokensFit(no)
    case Braces(lb, row, rb) => IsPair(lb, "{", rb, "}") && forall k :: 0 <= k < |row| ==> TokensFit(row[k])
    case _ => Fits(e)
  }

  /** Every name looked up has a declaration, every literal a width, and no
      operator is one without a width rule. */
  predicate AllKnown(e: Expr, symbols: Symbols) {
    match e
    case Atom(t) => TokenWidth(t, symbols).Width?
    case BitSelect(_, _, _, _) => true
    case RangeSelect(_, _, _, _, _, _) => TreeWidth(e, symbols).Width?
    case Paren(_, inner, _) => AllKnown(inner, symbols)
    case Binary(l, op, r) => op.value != "/" && op.value != "%" && AllKnown(l, symbols) && AllKnown(r, symbols)
    case Ternary(_, _, yes, _, no) => AllKnown(yes, symbols) && AllKnown(no, symbols)
    case Braces(_, row, _) =>
      if |row| == 1 then AllKnown(row[0], symbols)
      else
        && EndsInTernary(row) && AllKnown(row[|row| - 1], symbols)
        && forall k :: 0 <= k < |row| - 1 ==> BranchesAllKnown(row[k], symbols)
  }

  predicate BranchesAllKnown(e: Expr, symbols: Symbols) {
    e.Ternary? ==> AllKnown(e.yes, symbols) && BranchesAllKnown(e.no, symbols)
  }

  lemma RuleForOperator(op: string, a: nat, b: nat)
    requires RoleOf(op).Infix?
    ensures OperatorWidth(op, a, b).Some? <==> op != "/" && op != "%"
  {
  }

  /** Exactly the trees over known operands have a width. */
  lemma {:induction false} WidthIffKnown(e: Expr, symbols: Symbols)
    requires TokensFit(e)
    ensures TreeWidth(e, symbols).Width? <==> AllKnown(e, symbols)
    decreases e, 1
  {
    hide RoleOf, Spells, OperatorWidth, TokenWidth;
    match e
    case Paren(_, inner, _) =>
      WidthIffKnown(inner, symbols);
    case Binary(l, op, r) =>
      WidthIffKnown(l, symbols);
      WidthIffKnown(r, symbols);
      if TreeWidth(l, symbols).Width? && TreeWidth(r, symbols).Width? {
        RuleForOperator(op.value, TreeWidth(l, symbols).bits, TreeWidth(r, symbols).bits);
      }
    case Ternary(_, _, yes, _, no) =>
      WidthIffKnown(yes, symbols);
      WidthIffKnown(no, symbols);
    case Braces(_, row, _) =>
      RowKnownIff(row, symbols);
      forall k | 0 <= k < |row|
        ensures TreeWidth(row[k], symbols).Width? <==> AllKnown(row[k], symbols)
        ensures BranchesKnown(row[k], symbols) <==> BranchesAllKnown(row[k], symbols)
      {
        WidthIffKnown(row[k], symbols);
        BranchesIffKnown(row[k], symbols);
      }
    case _ =>
  }

  lemma {:induction false} BranchesIffKnown(e: Expr, symbols: Symbols)
    requires TokensFit(e)
    ensures BranchesKnown(e, symbols) <==> BranchesAllKnown(e, symbols)
    decreases e, 0
  {
    hide TreeWidth, AllKnown;
    if e.Ternary? {
      WidthIffKnown(e.yes, symbols);
      BranchesIffKnown(e.no, symbols);
    }
  }

  function Parenthesised(e: Expr): Expr {
    Paren(Token(Symbol, "(", "", 0, 0), e, Token(Symbol, ")", "", 0, 0))
  }

  /** Parentheses around an operand that binds too loosely, and around no other. */
  function Guard(e: Expr, least: int): Expr {
    if Tightness(e) < least then Parenthesised(e) else e
  }

  function Minimal(e: Expr): Expr {
    match e
    case Paren(lp, inner, rp) => Paren(lp, Minimal(inner), rp)
    case Binary(l, op, r) =>
      var level := Tightness(e);
      Binary(Guard(Minimal(l), level), op, Guard(Minimal(r), level + 1))
    case Ternary(cond, question, yes, colon, no) =>
      Ternary(Guard(Minimal(cond), 0), question, Guard(Minimal(yes), 0), colon, Minimal(no))
    case Braces(lb, row, rb) => Braces(lb, MinimalRow(row), rb)
    case _ => e
  }

  function MinimalRow(r: Run): (m: Run)
    ensures |m| == |r| && forall k :: 0 <= k < |r| ==> m[k] == Minimal(r[k])
  {
    if r == [] then [] else [Minimal(r[0])] + MinimalRow(r[1..])
  }

  lemma GuardFits(e: Expr, least: int)
    requires Fits(e) && least <= Levels
    ensures Fits(Guard(e, least)) && Tightness(Guard(e, least)) >= least
  {
  }

  lemma {:induction false} MinimalFits(e: Expr)
    requires TokensFit(e)
    ensures Fits(Minimal(e)) && Tightness(Minimal(e)) == Tightness(e)
  {
    hide RoleOf, Spells, Guard, IsPair;
    match e
    case Paren(_, inner, _) =>
      MinimalFits(inner);
    case Binary(l, op, r) =>
      MinimalFits(l);
      MinimalFits(r);
      GuardFits(Minimal(l), Tightness(e));
      GuardFits(Minimal(r), Tightness(e) + 1);
    case Ternary(cond, _, yes, _, no) =>
      MinimalFits(cond);
      MinimalFits(yes);
      MinimalFits(no);
      GuardFits(Minimal(cond), 0);
      GuardFits(Minimal(yes), 0);
    case Braces(_, row, _) =>
      forall k | 0 <= k < |row| ensures Fits(MinimalRow(row)[k]) {
        MinimalFits(row[k]);
      }
    case _ =>
  }

  /** Added parentheses change neither the width nor what is known. */
  lemma {:induction false} MinimalKeepsWidth(e: Expr, symbols: Symbols)
    ensures TreeWidth(Minimal(e), symbols) == TreeWidth(e, symbols)
    decreases e
  {
    hide RoleOf, TokenWidth, OperatorWidth, Max;
    match e
    case Paren(_, inner, _) =>
      MinimalKeepsWidth(inner, symbols);
    case Binary(l, op, r) =>
      MinimalKeepsWidth(l, symbols);
      MinimalKeepsWidth(r, symbols);
    case Ternary(cond, _, yes, _, no) =>
      MinimalKeepsWidth(yes, symbols);
      MinimalKeepsWidth(no, symbols);
    case Braces(_, row, _) =>
      MinimalRowKeepsWidth(row, symbols);
    case _ =>
  }

  lemma {:induction false} MinimalRowKeepsWidth(r: Run, symbols: Symbols)
    ensures RowWidth(MinimalRow(r), symbols) == RowWidth(r, symbols)
    decreases r
  {
    hide TreeWidth, ReadWidth, Minimal;
    if r != [] {
      assert MinimalRow(r)[1..] == MinimalRow(r[1..]);
      MinimalIsTernary(r[|r| - 1]);
      MinimalKeepsWidth(r[0], symbols);
      MinimalRowKeepsWidth(r[1..], symbols);
      MinimalKeepsReading(r[0], RowWidth(r[1..], symbols), symbols);
    }
  }

  lemma MinimalIsTernary(e: Expr)
    ensures Minimal(e).Ternary? <==> e.Ternary?
  {
  }

  lemma {:induction false} MinimalKeepsReading(e: Expr, after: Outcome, symbols: Symbols)
    ensures ReadWidth(Minimal(e), after, symbols) == ReadWidth(e, after, symbols)
    decreases e
  {
    hide TreeWidth, Guard;
    MinimalIsTernary(e);
    if e.Ternary? {
      MinimalKeepsWidth(e.yes, symbols);
      GuardKeepsWidth(Minimal(e.yes), 0, symbols);
      MinimalKeepsReading(e.no, after, symbols);
    }
  }

  lemma GuardKeepsWidth(e: Expr, least: int, symbols: Symbols)
    ensures TreeWidth(Guard(e, least), symbols) == TreeWidth(e, symbols)
  {
  }

  /** Any tree, written out with the parentheses the table makes necessary,
      gets the width of the tree, and gets one exactly when its operands are known. */
  lemma PrintedWidth(e: Expr, symbols: Symbols)
    requires TokensFit(e)
    ensures ExpressionWidth(Flat(Minimal(e)), symbols) == TreeWidth(e, symbols)
    ensures ExpressionWidth(Flat(Minimal(e)), symbols).Width? <==> AllKnown(e, symbols)
  {
    hide ExpressionWidth, Flat, Minimal, Fits;
    MinimalFits(e);
    MinimalKeepsWidth(e, symbols);
    WidthIffKnown(e, symbols);
    WidthIsTreeWidth(Minimal(e), symbols);
  }

  lemma FirstTokenIsNoBracket(t: Token)
    requires RoleOf(t.value).Other? || Spells(t, "(") || Spells(t, "{")
    ensures t.value != "["
  {
  }
}
