/** Expressions and chains that begin with one brace group and end with another. */
module WidthBraces {
  import opened Tokens
  import opened Width
  import opened WidthTree
  import opened WidthChains
  import opened WidthDangling

  // One step: over a token, into a group, out of a group.

  lemma TidyOver(t: Token, s: seq<Token>, after: bool, depth: nat)
    requires var r := RoleOf(t.value); !r.Comma? && !r.Open? && !r.Close? && !r.Prefix? && (r.Infix? ==> after)
    ensures Tidy(after, [t] + s) == Tidy(RoleOf(t.value).Other?, s) && DepthOver([t] + s, depth) == DepthOver(s, depth)
  {
    assert ([t] + s)[1..] == s;
  }

  lemma TidyIn(t: Token, s: seq<Token>, after: bool, depth: nat)
    requires RoleOf(t.value).Open? && !t.kind.Identifier? && t.value != "["
    requires t.value == "(" && s != [] ==> s[0].value != ")"
    ensures Tidy(after, [t] + s) == Tidy(false, s) && DepthOver([t] + s, depth) == DepthOver(s, depth + 1)
  {
    assert ([t] + s)[1..] == s;
  }

  lemma TidyOut(t: Token, s: seq<Token>, after: bool, depth: nat)
    requires RoleOf(t.value).Close? && depth > 0
    ensures Tidy(after, [t] + s) == Tidy(true, s) && DepthOver([t] + s, depth) == DepthOver(s, depth - 1)
  {
    assert ([t] + s)[1..] == s;
  }

  lemma TidySelect(t: Token, s: seq<Token>, after: bool, depth: nat)
    requires t.value == "[" && !t.kind.Identifier? && SelectClosed(s)
    ensures Tidy(after, [t] + s) == Tidy(false, s) && DepthOver([t] + s, depth) == DepthOver(s, depth + 1)
  {
    assert ([t] + s)[1..] == s;
  }

  lemma SelectOver(t: Token, s: seq<Token>)
    requires Bare(t) || t.value == "]"
    ensures SelectClosed([t] + s) <==> t.value == "]" || SelectClosed(s)
  {
    assert ([t] + s)[1..] == s;
  }

  lemma LeafTidy(e: Expr, s: seq<Token>, after: bool, depth: nat)
    requires Fits(e) && IsLeaf(e)
    ensures Tidy(after, Flat(e) + s) == Tidy(true, s) && DepthOver(Flat(e) + s, depth) == DepthOver(s, depth)
  {
    SpelledRoles();
    hide Tidy, DepthOver, RoleOf, SelectClosed, Spells;
    match e
    case BitSelect(name, lb, bit, rb) =>
      var last := [rb] + s;
      assert Flat(e) + s == [name] + ([lb] + ([bit] + last));
      TidyOver(name, [lb] + ([bit] + last), after, depth);
      SelectOver(rb, s);
      SelectOver(bit, last);
      TidySelect(lb, [bit] + last, true, depth);
      TidyOver(bit, last, false, depth + 1);
      TidyOut(rb, s, true, depth + 1);
    case RangeSelect(name, lb, left, colon, right, rb) =>
      var last := [rb] + s;
      var range := [left] + ([colon] + ([right] + last));
      assert Flat(e) + s == [name] + ([lb] + range);
      TidyOver(name, [lb] + range, after, depth);
      SelectOver(rb, s);
      SelectOver(right, last);
      SelectOver(colon, [right] + last);
      SelectOver(left, [colon] + ([right] + last));
      TidySelect(lb, range, true, depth);
      TidyOver(left, [colon] + ([right] + last), false, depth + 1);
      TidyOver(colon, [right] + last, true, depth + 1);
      TidyOver(right, last, false, depth + 1);
      TidyOut(rb, s, true, depth + 1);
    case Atom(t) =>
      TidyOver(t, s, after, depth);
  }

  lemma SpelledRoles()
    ensures forall t {:trigger Spells(t, "(")} :: Spells(t, "(") ==> t.value == "("
    ensures forall t {:trigger Spells(t, "[")} :: Spells(t, "[") ==> t.value == "["
    ensures forall t {:trigger Spells(t, "]")} :: Spells(t, "]") ==> t.value == "]"
    ensures forall t {:trigger Spells(t, "{")} :: Spells(t, "{") ==> t.value == "{"
    ensures forall t {:trigger Spells(t, "}")} :: Spells(t, "}") ==> t.value == "}"
  {
  }

  lemma FirstIsNoCloser(e: Expr, s: seq<Token>)
    requires Fits(e)
    ensures (Flat(e) + s)[0].value != ")"
  {
    FirstToken(e);
  }

  /** An expression is tidy wherever it may stand, and leaves no bracket open. */
  lemma {:induction false} ExprTidy(e: Expr, s: seq<Token>, after: bool, depth: nat)
    requires Fits(e)
    ensures Tidy(after, Flat(e) + s) == Tidy(true, s) && DepthOver(Flat(e) + s, depth) == DepthOver(s, depth)
    decreases e
  {
    SpelledRoles();
    hide Tidy, DepthOver, RoleOf, Spells;
    match e
    case Paren(lp, inner, rp) =>
      RegroupParen(lp, Flat(inner), rp, s);
      FirstIsNoCloser(inner, [rp] + s);
      TidyIn(lp, Flat(inner) + ([rp] + s), after, depth);
      ExprTidy(inner, [rp] + s, false, depth + 1);
      TidyOut(rp, s, true, depth + 1);
    case Binary(l, op, r) =>
      RegroupBinary(Flat(l), op, Flat(r), s);
      ExprTidy(l, [op] + (Flat(r) + s), after, depth);
      TidyOver(op, Flat(r) + s, true, depth);
      ExprTidy(r, s, false, depth);
    case Ternary(cond, question, yes, colon, no) =>
      RegroupTernary(Flat(cond), question, Flat(yes), colon, Flat(no), s);
      ExprTidy(cond, [question] + (Flat(yes) + ([colon] + (Flat(no) + s))), after, depth);
      TidyOver(question, Flat(yes) + ([colon] + (Flat(no) + s)), true, depth);
      ExprTidy(yes, [colon] + (Flat(no) + s), false, depth);
      TidyOver(colon, Flat(no) + s, true, depth);
      ExprTidy(no, s, false, depth);
    case Braces(lb, row, rb) =>
      RegroupParen(lb, RunTokens(row), rb, s);
      TidyIn(lb, RunTokens(row) + ([rb] + s), after, depth);
      RunTidy(row, [rb] + s, false, depth + 1);
      TidyOut(rb, s, row != [], depth + 1);
    case _ =>
      LeafTidy(e, s, after, depth);
  }

  lemma {:induction false} RunTidy(r: Run, s: seq<Token>, after: bool, depth: nat)
    requires AllFit(r)
    ensures Tidy(after, RunTokens(r) + s) == Tidy(after || r != [], s)
    ensures DepthOver(RunTokens(r) + s, depth) == DepthOver(s, depth)
    decreases r
  {
    hide Tidy, DepthOver, Flat, Fits;
    if r == [] {
      assert RunTokens(r) + s == s;
    } else {
      assert RunTokens(r) + s == Flat(r[0]) + (RunTokens(r[1..]) + s);
      assert Fits(r[0]);
      ExprTidy(r[0], RunTokens(r[1..]) + s, after, depth);
      RunTidy(r[1..], s, true, depth);
    }
  }

  lemma {:induction false} ChainTidy(c: Chain, depth: nat)
    requires ChainOk(c)
    ensures Tidy(false, ChainTokens(c)) && DepthOver(ChainTokens(c), depth) == depth
  {
    hide RunTokens, RoleOf, OperandOk;
    assert AllFit(c.x) by { OperandsFit(c.x); }
    ChainHead(c);
    if c.Last? {
      RunTidy(c.x, [], false, depth);
      assert RunTokens(c.x) + [] == RunTokens(c.x);
    } else {
      RunTidy(c.x, [c.sep] + ChainTokens(c.rest), false, depth);
      SeparatorIsNoOperator(c.sep);
      TidyOver(c.sep, ChainTokens(c.rest), true, depth);
      ChainTidy(c.rest, depth);
    }
  }

  lemma SeparatorIsNoOperator(t: Token)
    requires Separator(RoleOf(t.value))
    ensures var r := RoleOf(t.value); !r.Comma? && !r.Open? && !r.Close? && !r.Prefix? && !r.Infix? && !r.Other?
  {
  }

  lemma OperandsFit(r: Run)
    requires RunOk(r)
    ensures AllFit(r)
  {
  }

  // ----- between the first and the last brace -----

  /** The brace group an expression starts with, and the tokens after it. */
  lemma {:induction false} LeadingBraces(e: Expr, s: seq<Token>) returns (row: Run, rb: Token, g: seq<Token>)
    requires Fits(e) && Flat(e)[0].value == "{"
    ensures AllFit(row) && RoleOf(rb.value).Close? && Flat(e) + s == [Flat(e)[0]] + (RunTokens(row) + ([rb] + g))
    ensures if e.Braces? then g == s else g != []
  {
    FirstToken(e);
    SpelledRoles();
    hide RoleOf, Spells;
    match e
    case Binary(l, op, r) =>
      RegroupBinary(Flat(l), op, Flat(r), s);
      row, rb, g := LeadingBraces(l, [op] + (Flat(r) + s));
    case Ternary(cond, question, yes, colon, no) =>
      RegroupTernary(Flat(cond), question, Flat(yes), colon, Flat(no), s);
      row, rb, g := LeadingBraces(cond, [question] + (Flat(yes) + ([colon] + (Flat(no) + s))));
    case Braces(lb, r, close) =>
      RegroupParen(lb, RunTokens(r), close, s);
      row, rb, g := r, close, s;
    case _ =>
      assert false;
  }

  /** Where more follows the first group, what stands between the first and the last
      brace closes that group and leaves the last one open. */
  lemma InnerDangles(e: Expr, s: seq<Token>)
    requires Fits(e) && !(e.Braces? && s == [])
    requires var all := Flat(e) + s;
      Tidy(false, all) && DepthOver(all, 1) == 1 && all[0].value == "{" && all[|all| - 1].value == "}"
    ensures var all := Flat(e) + s; Dangling(all[1..|all| - 1])
  {
    hide Tidy, DepthOver, RoleOf, RunTokens, Fits, Flat, AllFit;
    var all := Flat(e) + s;
    var row, rb, g := LeadingBraces(e, s);
    var (first, last, h) := (all[0], g[|g| - 1], g[..|g| - 1]);
    var x := RunTokens(row) + ([rb] + h);
    EndsApart(first, RunTokens(row), rb, h, last);
    assert g == h + [last];
    PairRoles();
    LastStaysOpen(first, row, rb, h, last);
    SuffixIsTidy(all, 0);
    TidyPrefix(false, x, [last]);
  }

  lemma EndsApart(first: Token, x: seq<Token>, rb: Token, h: seq<Token>, last: Token)
    ensures var (all, inner) := ([first] + (x + ([rb] + (h + [last]))), x + ([rb] + h));
      all[0] == first && all[1..] == inner + [last] && all[1..|all| - 1] == inner && all[|all| - 1] == last
  {
  }

  lemma LastStaysOpen(first: Token, row: Run, rb: Token, h: seq<Token>, last: Token)
    requires AllFit(row) && first.value == "{" && RoleOf(rb.value).Close? && RoleOf(last.value).Close?
    requires DepthOver([first] + (RunTokens(row) + ([rb] + (h + [last]))), 1) == 1
    ensures DepthOver(RunTokens(row) + ([rb] + h), 0) > 0
  {
    PairRoles();
    hide Tidy, RoleOf, RunTokens, AllFit;
    var g := h + [last];
    var x := RunTokens(row) + ([rb] + g);
    assert ([first] + x)[1..] == x;
    assert DepthOver([first] + x, 1) == DepthOver(x, 2);
    hide DepthOver;
    RunTidy(row, [rb] + h, false, 0);
    OutAtZero(rb, h);
    RunTidy(row, [rb] + g, false, 2);
    TidyOut(rb, g, row != [], 2);
    DepthAppend(h, [last], 1);
    OutAlone(last, DepthOver(h, 1));
    DepthOneMore(h, 0);
  }

  lemma OutAtZero(t: Token, s: seq<Token>)
    requires RoleOf(t.value).Close?
    ensures DepthOver([t] + s, 0) == DepthOver(s, 0)
  {
    assert ([t] + s)[1..] == s;
  }

  lemma OutAlone(t: Token, depth: nat)
    requires RoleOf(t.value).Close?
    ensures DepthOver([t], depth) == if depth > 0 then depth - 1 else 0
  {
    assert [t][1..] == [];
  }
}
