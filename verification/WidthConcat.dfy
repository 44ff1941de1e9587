/** Where width inference departs from what its concatenation branch is
    written for: commas are filtered out before the split at commas, so the
    elements of a brace list are read as one row of operands. */
module WidthConcat {
  import opened Tokens
  import opened Width
  import opened WidthTree
  import opened WidthChains
  import opened WidthCommas
  import opened WidthDangling
  import opened WidthBraces
  import opened WidthTheorem

  // ----- a reduction operator in front -----

  /** A group that starts with a reduction operator is one bit wide, however many elements follow. */
  lemma ReductionTakesAll(lb: Token, op: Token, x: seq<Token>, rb: Token, symbols: Symbols)
    requires IsBraces(lb, rb) && IsReduction(op.value)
    ensures ExpressionWidth([lb] + ([op] + x) + [rb], symbols) == Width(1)
  {
    BraceGroup(lb, [op] + x, rb, symbols);
    ReductionFirst(op);
    FilterOne(op, x);
    var y := [op] + NoCommas(x);
    assert y[0] == op;
    hide RoleOf, NoCommas, TernaryOrLess, IsReduction;
    assert Strip(y, "(", ")") == y;
  }

  lemma ReductionFirst(op: Token)
    requires IsReduction(op.value)
    ensures !RoleOf(op.value).Comma? && op.value != "("
  {
  }

  // ----- a brace list of expressions -----

  /** The elements of a list one after another; an element is an expression, or several
      operands side by side, such as an operator without a rule and what it applies to. */
  function Joined(es: seq<Run>): Run {
    if es == [] then [] else es[0] + Joined(es[1..])
  }

  /** The texts with a comma after each but the last. */
  function Listed(xs: seq<seq<Token>>, comma: Token): seq<Token> {
    if xs == [] then []
    else if |xs| == 1 then xs[0]
    else xs[0] + ([comma] + Listed(xs[1..], comma))
  }

  /** Each text is that of an element, with commas in nested brace lists. */
  ghost predicate Texts(xs: seq<seq<Token>>, es: seq<Run>) {
    |xs| == |es| && forall k :: 0 <= k < |es| ==> AllFit(es[k]) && NoCommas(xs[k]) == RunTokens(es[k])
  }

  lemma {:induction false} RunTokensAppend(x: Run, y: Run)
    ensures RunTokens(x + y) == RunTokens(x) + RunTokens(y)
    decreases |x|
  {
    hide Flat;
    if x == [] {
      assert x + y == y;
    } else {
      assert (x + y)[1..] == x[1..] + y;
      RunTokensAppend(x[1..], y);
    }
  }

  lemma {:induction false} ListedWithoutCommas(xs: seq<seq<Token>>, es: seq<Run>, comma: Token)
    requires Texts(xs, es) && RoleOf(comma.value).Comma?
    ensures NoCommas(Listed(xs, comma)) == RunTokens(Joined(es)) && AllFit(Joined(es))
    decreases |es|
  {
    hide RoleOf, AllFit, RunTokens, NoCommas;
    if es == [] {
      NoRun();
    } else {
      assert NoCommas(xs[0]) == RunTokens(es[0]) && Texts(xs[1..], es[1..]);
      RunTokensAppend(es[0], Joined(es[1..]));
      ListedWithoutCommas(xs[1..], es[1..], comma);
      BothFit(es[0], Joined(es[1..]));
      if |es| == 1 {
        assert es[0] + [] == es[0];
      } else {
        FilterAppend(xs[0], [comma] + Listed(xs[1..], comma));
        FilterOne(comma, Listed(xs[1..], comma));
        assert [] + NoCommas(Listed(xs[1..], comma)) == NoCommas(Listed(xs[1..], comma));
      }
    }
  }

  lemma NoRun()
    ensures RunTokens([]) == [] && NoCommas([]) == [] && AllFit([])
  {
  }

  lemma BothFit(x: Run, y: Run)
    requires AllFit(x) && AllFit(y)
    ensures AllFit(x + y)
  {
    hide Fits;
  }

  /** An expression written with commas wherever they may stand. */
  lemma WrittenWidth(ts: seq<Token>, e: Expr, symbols: Symbols)
    requires Fits(e) && NoCommas(ts) == Flat(e)
    ensures ExpressionWidth(ts, symbols) == TreeWidth(e, symbols)
  {
    FilterTwice(ts);
    CommasNeverMatter(ts, Flat(e), symbols);
    WidthIsTreeWidth(e, symbols);
  }

  /** Any brace group whose tokens, commas left out, are a row of expressions. */
  lemma GroupWidth(lb: Token, x: seq<Token>, r: Run, rb: Token, symbols: Symbols)
    requires IsBraces(lb, rb) && AllFit(r) && NoCommas(x) == RunTokens(r)
    ensures ExpressionWidth([lb] + x + [rb], symbols) == RowWidth(r, symbols)
  {
    var e := Braces(lb, r, rb);
    BraceRoles();
    hide RunTokens, NoCommas, RowWidth, AllFit, RoleOf;
    FilterAppend([lb] + x, [rb]);
    FilterAppend([lb], x);
    FilterOne(lb, []);
    FilterOne(rb, []);
    assert [lb] + [] == [lb] && [rb] + [] == [rb];
    assert Flat(e) == [lb] + RunTokens(r) + [rb] && TreeWidth(e, symbols) == RowWidth(r, symbols) && Fits(e);
    WrittenWidth([lb] + x + [rb], e, symbols);
  }

  /** The width of `{a, b, ...}` for every list of elements: that of all of them read as one row. */
  lemma ConcatWidth(lb: Token, xs: seq<seq<Token>>, es: seq<Run>, comma: Token, rb: Token, symbols: Symbols)
    requires IsBraces(lb, rb) && Texts(xs, es) && RoleOf(comma.value).Comma?
    ensures ExpressionWidth([lb] + Listed(xs, comma) + [rb], symbols) == RowWidth(Joined(es), symbols)
  {
    hide *;
    ListedWithoutCommas(xs, es, comma);
    GroupWidth(lb, Listed(xs, comma), Joined(es), rb, symbols);
  }

  /** A replication `{n{...}}` has no width, whatever is repeated and however often. */
  lemma ReplicationHasNoWidth(lb: Token, n: Token, inner: Expr, rb: Token, symbols: Symbols)
    requires IsBraces(lb, rb) && Plain(n) && Fits(inner) && inner.Braces?
    ensures ExpressionWidth([lb] + ([n] + Flat(inner)) + [rb], symbols) == NoWidth
  {
    var r := [Atom(n), inner];
    PairFacts(n, inner, symbols);
    hide *;
    RowIsUnfiltered(r);
    GroupWidth(lb, RunTokens(r), r, rb, symbols);
  }

  lemma PairFacts(n: Token, inner: Expr, symbols: Symbols)
    requires Plain(n) && Fits(inner) && inner.Braces?
    ensures var r := [Atom(n), inner];
      AllFit(r) && RunTokens(r) == [n] + Flat(inner) && RowWidth(r, symbols) == NoWidth
  {
    var r := [Atom(n), inner];
    assert r[1..] == [inner] && r[0] == Atom(n) && r[1] == inner;
    assert Fits(r[0]);
    AtomTokens(n);
    OneOperand(inner);
    hide Flat, TreeWidth, RoleOf, Fits;
    assert RunTokens(r) == Flat(r[0]) + RunTokens(r[1..]);
    assert RowWidth(r, symbols) == NoWidth;
  }

  lemma AtomTokens(t: Token)
    ensures Flat(Atom(t)) == [t]
  {
  }

  lemma RowIsUnfiltered(r: Run)
    requires AllFit(r)
    ensures NoCommas(RunTokens(r)) == RunTokens(r)
  {
    RunTidy(r, [], false, 0);
    assert RunTokens(r) + [] == RunTokens(r);
    TidyIsSolid(false, RunTokens(r));
    NothingToFilter(RunTokens(r));
  }

  // ----- two lists read as something else -----

  lemma ChoiceFits(c: Token, question: Token, x: Token, colon: Token, y: Token)
    requires PlainName(c) && PlainName(x) && PlainName(y)
    requires RoleOf(question.value).Query? && RoleOf(colon.value).Colon?
    ensures var e := Ternary(Atom(c), question, Atom(x), colon, Atom(y));
      Fits(e) && Flat(e) == [c, question, x, colon, y]
  {
    hide RoleOf;
  }

  lemma ListedPair(a: Expr, comma: Token, b: Expr)
    requires Fits(a) && Fits(b)
    ensures Listed([Flat(a), Flat(b)], comma) == Flat(a) + ([comma] + Flat(b)) && Joined([[a], [b]]) == [a, b]
    ensures Texts([Flat(a), Flat(b)], [[a], [b]])
  {
    hide Flat, RunTokens, NoCommas, Fits, AllFit;
    OneText(a);
    OneText(b);
    JoinedPair([a], [b]);
    ListedTwo(Flat(a), comma, Flat(b));
  }

  lemma JoinedPair(x: Run, y: Run)
    ensures Joined([x, y]) == x + y
  {
    assert [x, y][1..] == [y] && [y][1..] == [];
    assert Joined([y]) == y + Joined([]) == y;
  }

  lemma ListedTwo(x: seq<Token>, comma: Token, y: seq<Token>)
    ensures Listed([x, y], comma) == x + ([comma] + y)
  {
    assert [x, y][1..] == [y];
  }

  lemma OneText(e: Expr)
    requires Fits(e)
    ensures AllFit([e]) && NoCommas(Flat(e)) == RunTokens([e])
  {
    hide Fits, Flat, NoCommas;
    OneOperand(e);
    assert AllFit([e]);
    RowIsUnfiltered([e]);
  }

  /** `{d, c ? x : y}` gets the wider of x and y, whatever d and c are. */
  lemma TernaryHidesElement(lb: Token, d: Token, comma: Token, c: Token, question: Token, x: Token, colon: Token,
      y: Token, rb: Token, symbols: Symbols)
    requires IsBraces(lb, rb) && RoleOf(comma.value).Comma? && PlainName(d) && PlainName(c) && PlainName(x) &&
      PlainName(y)
    requires RoleOf(question.value).Query? && RoleOf(colon.value).Colon?
    ensures ExpressionWidth([lb, d, comma, c, question, x, colon, y, rb], symbols) ==
      Wider(TokenWidth(x, symbols), TokenWidth(y, symbols))
  {
    hide *;
    var t := Ternary(Atom(c), question, Atom(x), colon, Atom(y));
    ChoiceFits(c, question, x, colon, y);
    NameFits(d);
    ListedPair(Atom(d), comma, t);
    ChoiceWidth(d, t, symbols);
    ConcatWidth(lb, [Flat(Atom(d)), Flat(t)], [[Atom(d)], [t]], comma, rb, symbols);
    assert [lb] + ([d] + ([comma] + [c, question, x, colon, y])) + [rb] == [lb, d, comma, c, question, x, colon, y, rb];
  }

  lemma NameFits(t: Token)
    requires PlainName(t)
    ensures Fits(Atom(t)) && Flat(Atom(t)) == [t]
  {
  }

  lemma ChoiceWidth(d: Token, t: Expr, symbols: Symbols)
    requires t.Ternary? && t.yes.Atom? && t.no.Atom?
    ensures RowWidth([Atom(d), t], symbols) == Wider(TokenWidth(t.yes.t, symbols), TokenWidth(t.no.t, symbols))
  {
    hide TokenWidth, Wider;
    var es := [Atom(d), t];
    assert es[1..] == [t] && es[0] == Atom(d);
    assert TreeWidth(t, symbols) == Wider(TreeWidth(t.yes, symbols), TreeWidth(t.no, symbols));
    assert RowWidth([t], symbols) == TreeWidth(t, symbols);
    assert RowWidth(es, symbols) == ReadWidth(es[0], RowWidth(es[1..], symbols), symbols);
  }

  lemma DifferenceFits(a: Token, minus: Token, b: Token)
    requires PlainName(a) && PlainName(b) && minus.value == "-"
    ensures var e := Binary(Atom(a), minus, Atom(b));
      Fits(e) && Flat(e) == [a] + ([minus] + [b])
  {
    assert RoleOf(minus.value) == Infix(4);
    hide RoleOf;
  }

  lemma DifferenceWidth(e: Expr, symbols: Symbols)
    requires e.Binary? && e.op.value == "-"
    ensures TreeWidth(e, symbols) == Wider(TreeWidth(e.l, symbols), TreeWidth(e.r, symbols))
  {
  }

  /** A comma anywhere in a list can be dropped. */
  lemma CommaInside(x: seq<Token>, comma: Token, y: seq<Token>)
    requires RoleOf(comma.value).Comma?
    ensures NoCommas(x + ([comma] + y)) == NoCommas(x + y)
  {
    hide RoleOf;
    FilterAppend(x, [comma] + y);
    FilterAppend(x, y);
    FilterOne(comma, y);
    assert [] + NoCommas(y) == NoCommas(y);
  }

  /** `{a, -b}` gets the width of the difference. */
  lemma SignIsMinus(lb: Token, a: Token, comma: Token, minus: Token, b: Token, rb: Token, symbols: Symbols)
    requires IsBraces(lb, rb) && RoleOf(comma.value).Comma? && PlainName(a) && PlainName(b) && minus.value == "-"
    ensures ExpressionWidth([lb, a, comma, minus, b, rb], symbols) ==
      Wider(TokenWidth(a, symbols), TokenWidth(b, symbols))
  {
    hide *;
    var e := Binary(Atom(a), minus, Atom(b));
    var x := [a] + ([comma] + [minus, b]);
    DifferenceFits(a, minus, b);
    AtomWidths(e, symbols);
    OneRow(e, symbols);
    CommaInside([a], comma, [minus, b]);
    assert [a] + [minus, b] == [a] + ([minus] + [b]);
    OneText(e);
    GroupWidth(lb, x, [e], rb, symbols);
    assert [lb] + x + [rb] == [lb, a, comma, minus, b, rb];
  }

  lemma OneRow(e: Expr, symbols: Symbols)
    ensures RunTokens([e]) == Flat(e) && RowWidth([e], symbols) == TreeWidth(e, symbols)
    ensures Fits(e) ==> AllFit([e])
  {
    OneOperand(e);
    hide Fits, Flat, TreeWidth;
  }

  lemma AtomWidths(e: Expr, symbols: Symbols)
    requires e.Binary? && e.op.value == "-" && e.l.Atom? && e.r.Atom?
    ensures TreeWidth(e, symbols) == Wider(TokenWidth(e.l.t, symbols), TokenWidth(e.r.t, symbols))
  {
    DifferenceWidth(e, symbols);
  }
}
