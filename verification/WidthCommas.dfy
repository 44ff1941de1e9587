/** Commas are filtered out before anything else is looked at, so the split of a
    brace group at its commas never finds one. */
module WidthCommas {
  import opened Tokens
  import opened Brackets
  import opened Width

  ghost predicate CommaFree(x: seq<Token>) {
    forall t :: t in x ==> !RoleOf(t.value).Comma?
  }

  lemma {:induction false} NothingToFilter(x: seq<Token>)
    requires CommaFree(x)
    ensures NoCommas(x) == x
  {
    if x != [] {
      assert x[0] in x;
      NothingToFilter(x[1..]);
    }
  }

  lemma ThreeParts(x: seq<Token>, y: seq<Token>, z: seq<Token>)
    ensures (x + y) + z == x + (y + z)
  {
  }

  // ----- commas are never seen -----

  lemma {:induction false} FilterTwice(x: seq<Token>)
    ensures NoCommas(NoCommas(x)) == NoCommas(x)
  {
    hide RoleOf;
    if x != [] {
      FilterTwice(x[1..]);
      FilterOne(x[0], NoCommas(x[1..]));
      assert [] + NoCommas(x[1..]) == NoCommas(x[1..]);
    }
  }

  lemma FilterOne(t: Token, s: seq<Token>)
    ensures NoCommas([t] + s) == (if RoleOf(t.value).Comma? then [] else [t]) + NoCommas(s)
    ensures NoCommas([]) == []
  {
    assert ([t] + s)[1..] == s;
  }

  lemma {:induction false} FilterAppend(x: seq<Token>, y: seq<Token>)
    ensures NoCommas(x + y) == NoCommas(x) + NoCommas(y)
    decreases |x|
  {
    hide NoCommas, RoleOf;
    FilterNothing();
    if x == [] {
      assert x + y == y && [] + NoCommas(y) == NoCommas(y);
    } else {
      var (t, rest) := (x[0], x[1..]);
      assert x + y == [t] + (rest + y) && x == [t] + rest;
      FilterOne(t, rest + y);
      FilterOne(t, rest);
      FilterAppend(rest, y);
      ThreeParts(if RoleOf(t.value).Comma? then [] else [t], NoCommas(rest), NoCommas(y));
    }
  }

  lemma FilterNothing()
    ensures NoCommas([]) == []
  {
  }

  lemma {:induction false} FilteredHasNoComma(x: seq<Token>)
    ensures forall t :: t in NoCommas(x) ==> t.value != ","
  {
    if x != [] {
      FilteredHasNoComma(x[1..]);
    }
  }

  lemma BoundIsIrrelevant(m: seq<Token>, symbols: Symbols, a: nat, b: nat)
    requires |m| <= a && |m| <= b
    ensures TernaryOrLess(m, symbols, a) == TernaryOrLess(m, symbols, b)
  {
    hide ExpressionWidth, TernaryAt, BinaryAt, LeafWidth, OperatorWidth;
    assert BinaryOrLess(m, symbols, a) == BinaryOrLess(m, symbols, b);
  }

  lemma {:induction false} PartsBoundIsIrrelevant(parts: seq<seq<Token>>, symbols: Symbols, a: nat, b: nat)
    requires forall p :: p in parts ==> |p| < a && |p| < b
    ensures PartsWidth(parts, symbols, a) == PartsWidth(parts, symbols, b)
  {
    hide ExpressionWidth;
    if |parts| > 1 {
      PartsBoundIsIrrelevant(parts[1..], symbols, a, b);
    }
  }

  /** Two lists that differ in commas only have the same width. */
  lemma CommasNeverMatter(x: seq<Token>, y: seq<Token>, symbols: Symbols)
    requires NoCommas(x) == NoCommas(y)
    ensures ExpressionWidth(x, symbols) == ExpressionWidth(y, symbols)
  {
    hide NoCommas, Strip, TernaryOrLess, PartsWidth, SplitTopLevel, IsReduction;
    var filtered := NoCommas(x);
    var m := Strip(filtered, "(", ")");
    if filtered != [] && m != [] {
      BoundIsIrrelevant(m, symbols, |x|, |y|);
      if m[0].value == "{" && m[|m| - 1].value == "}" {
        assert |m| >= 2;
        PartsBoundIsIrrelevant(SplitTopLevel(m[1..|m| - 1], ","), symbols, |x|, |y|);
      }
    }
  }

  // ----- a brace group is read as its contents -----

  /** Without commas the split at commas is one part, so no widths are ever added up. */
  lemma {:induction false} OnePartOnly(tokens: seq<Token>, i: nat, depth: nat, current: seq<Token>)
    requires i <= |tokens| && forall t :: t in tokens ==> t.value != ","
    ensures SplitFrom(tokens, i, depth, current, ",") == [current + tokens[i..]]
    decreases |tokens| - i
  {
    if i < |tokens| {
      assert tokens[i] in tokens;
      OnePartOnly(tokens, i + 1, DepthAfter(depth, tokens[i].value), current + [tokens[i]]);
      assert current + [tokens[i]] + tokens[i + 1..] == current + tokens[i..];
    } else {
      assert current + tokens[i..] == current;
    }
  }

  predicate IsBraces(lb: Token, rb: Token) {
    !lb.kind.Identifier? && lb.value == "{" && rb.value == "}"
  }

  lemma BraceRoles()
    ensures RoleOf("{").Open? && RoleOf("}").Close? && !IsReduction("{")
  {
  }

  /** Whatever stands between the braces: its width as one expression is the
      width of the group, and only when it has none is the group looked at as a whole. */
  lemma BraceGroup(lb: Token, x: seq<Token>, rb: Token, symbols: Symbols)
    requires IsBraces(lb, rb)
    ensures var (group, inner) := ([lb] + x + [rb], ExpressionWidth(x, symbols));
      |NoCommas(x)| <= |x| && ExpressionWidth(group, symbols) ==
        if inner.NoWidth? then TernaryOrLess([lb] + NoCommas(x) + [rb], symbols, |x| + 2) else inner
  {
    BraceRoles();
    var y := NoCommas(x);
    var m := [lb] + y + [rb];
    FilterAppend([lb] + x, [rb]);
    FilterAppend([lb], x);
    FilterOne(lb, []);
    FilterOne(rb, []);
    assert [lb] + [] == [lb] && [rb] + [] == [rb];
    FilterTwice(x);
    CommasNeverMatter(y, x, symbols);
    FilteredHasNoComma(x);
    OnePartOnly(y, 0, 0, []);
    assert [] + y[0..] == y;
    assert m[1..|m| - 1] == y;
    hide NoCommas, RoleOf, IsReduction, ExpressionWidth, TernaryOrLess;
    ConcatSteps([lb] + x + [rb], m, y, symbols);
  }

  lemma ConcatSteps(tokens: seq<Token>, m: seq<Token>, x: seq<Token>, symbols: Symbols)
    requires NoCommas(tokens) == m && |m| >= 2 && m[0].value == "{" && m[|m| - 1].value == "}" && m[1..|m| - 1] == x
    requires |m| <= |tokens| && SplitTopLevel(x, ",") == [x]
    requires !IsReduction("{")
    ensures var inner := ExpressionWidth(x, symbols);
      ExpressionWidth(tokens, symbols) == if inner.NoWidth? then TernaryOrLess(m, symbols, |tokens|) else inner
  {
    hide NoCommas, TernaryOrLess, IsReduction, SplitTopLevel;
    assert Strip(m, "(", ")") == m;
  }
}
