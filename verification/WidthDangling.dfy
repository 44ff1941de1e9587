/** Lists in which a bracket is opened and never closed, such as what stands between
    the first and the last brace of `{a} + {b}`. The inference asks for the width of
    this one before it looks at the operator, and never gets any. */
module WidthDangling {
  import opened Tokens
  import opened Brackets
  import opened Literals
  import opened Width
  import opened WidthTree
  import opened WidthCommas
  import opened WidthRaises

  /** The bracket depth after some tokens; closers at depth zero do not count. */
  function DepthOver(ts: seq<Token>, depth: nat): nat {
    if ts == [] then depth
    else
      var r := RoleOf(ts[0].value);
      DepthOver(ts[1..], if r.Open? then depth + 1 else if r.Close? && depth > 0 then depth - 1 else depth)
  }

  lemma {:induction false} DepthAppend(x: seq<Token>, y: seq<Token>, depth: nat)
    ensures DepthOver(x + y, depth) == DepthOver(y, DepthOver(x, depth))
    decreases |x|
  {
    hide RoleOf;
    if x == [] {
      assert x + y == y;
    } else {
      assert (x + y)[1..] == x[1..] + y;
      var r := RoleOf(x[0].value);
      DepthAppend(x[1..], y, if r.Open? then depth + 1 else if r.Close? && depth > 0 then depth - 1 else depth);
    }
  }

  /** One level more at the start is at most one level more at the end. */
  lemma {:induction false} DepthOneMore(ts: seq<Token>, depth: nat)
    ensures DepthOver(ts, depth) <= DepthOver(ts, depth + 1) <= DepthOver(ts, depth) + 1
    decreases |ts|
  {
    hide RoleOf;
    if ts != [] {
      var r := RoleOf(ts[0].value);
      if r.Open? {
        DepthOneMore(ts[1..], depth + 1);
      } else if r.Close? {
        if depth > 0 { DepthOneMore(ts[1..], depth - 1); }
      } else {
        DepthOneMore(ts[1..], depth);
      }
    }
  }

  // ----- lists that look like expressions from close by -----

  predicate EndsOperand(t: Token) { RoleOf(t.value).Other? || RoleOf(t.value).Close? }

  /** Tokens that may stand inside a bit or range select. */
  predicate Bare(t: Token) { RoleOf(t.value).Other? || RoleOf(t.value).Colon? }

  predicate SelectClosed(s: seq<Token>) {
    s != [] && (s[0].value == "]" || (Bare(s[0]) && SelectClosed(s[1..])))
  }

  /** A token fits its surroundings: a reduction operator only after an operand, no
      empty parentheses, and selects closed. */
  predicate TokenTidy(t: Token, after: bool, s: seq<Token>) {
    && !RoleOf(t.value).Comma?
    && (IsReduction(t.value) ==> after)
    && (RoleOf(t.value).Open? ==> !t.kind.Identifier?)
    && (t.value == "(" && s != [] ==> s[0].value != ")")
    && (t.value == "[" ==> SelectClosed(s))
  }

  predicate Tidy(after: bool, ts: seq<Token>)
    decreases |ts|
  {
    ts == [] || (TokenTidy(ts[0], after, ts[1..]) && Tidy(EndsOperand(ts[0]), ts[1..]))
  }

  lemma {:induction false} TidySuffix(after: bool, x: seq<Token>, s: seq<Token>)
    requires Tidy(after, x + s)
    ensures Tidy(if x == [] then after else EndsOperand(x[|x| - 1]), s)
    decreases |x|
  {
    hide TokenTidy, EndsOperand;
    if x == [] {
      assert x + s == s;
    } else {
      assert (x + s)[0] == x[0] && (x + s)[1..] == x[1..] + s;
      TidySuffix(EndsOperand(x[0]), x[1..], s);
      assert |x| > 1 ==> x[1..][|x| - 2] == x[|x| - 1];
    }
  }

  lemma {:induction false} SelectInPrefix(x: seq<Token>, s: seq<Token>)
    requires SelectClosed(x + s) && s != [] && !Bare(s[0]) && s[0].value != "]"
    ensures SelectClosed(x)
    decreases |x|
  {
    hide Bare;
    assert x == [] ==> x + s == s;
    if x != [] {
      assert (x + s)[0] == x[0] && (x + s)[1..] == x[1..] + s;
      if x[0].value != "]" { SelectInPrefix(x[1..], s); }
    }
  }

  lemma {:induction false} TidyPrefix(after: bool, x: seq<Token>, s: seq<Token>)
    requires Tidy(after, x + s) && s != [] && !Bare(s[0]) && s[0].value != "]"
    ensures Tidy(after, x)
    decreases |x|
  {
    hide Bare, EndsOperand, SelectClosed, RoleOf, IsReduction;
    if x != [] {
      assert (x + s)[0] == x[0] && (x + s)[1..] == x[1..] + s;
      if x[0].value == "[" { SelectInPrefix(x[1..], s); }
      TidyPrefix(EndsOperand(x[0]), x[1..], s);
      assert x[1..] != [] ==> (x[1..] + s)[0] == x[1..][0];
    }
  }

  lemma {:induction false} TidyIsSolid(after: bool, ts: seq<Token>)
    requires Tidy(after, ts)
    ensures Solid(ts)
    decreases |ts|
  {
    hide EndsOperand, SelectClosed, RoleOf, IsReduction;
    if ts != [] {
      TidyIsSolid(EndsOperand(ts[0]), ts[1..]);
      var rest := ts[1..];
      assert forall i :: 0 < i < |ts| ==> ts[i] == rest[i - 1];
      forall i | 0 < i < |ts| ensures !(ts[i - 1].value == "(" && ts[i].value == ")") {
        if i > 1 { assert ts[i - 1] == rest[i - 2]; }
      }
    }
  }

  lemma SolidNeverRaises(ts: seq<Token>, symbols: Symbols)
    requires Solid(ts)
    ensures NoCommas(ts) == ts && ExpressionWidth(ts, symbols) != IndexError
  {
    NothingToFilter(ts);
    NoPairNoRaise(ts, symbols);
  }

  predicate Dangling(ts: seq<Token>) { Tidy(false, ts) && DepthOver(ts, 0) > 0 }

  // ----- the pieces of such a list -----

  lemma DropEnds(a: Token, x: seq<Token>, b: Token)
    requires Dangling([a] + (x + [b])) && RoleOf(a.value).Open? && RoleOf(b.value).Close? && b.value != "]"
    ensures Dangling(x)
  {
    hide RoleOf;
    assert ([a] + (x + [b]))[1..] == x + [b];
    TidyPrefix(false, x, [b]);
    DepthAppend(x, [b], 1);
    assert [b][1..] == [] && [b][0] == b;
    DepthOneMore(x, 0);
  }

  lemma EndsOfStrip(m: seq<Token>)
    requires |m| >= 2
    ensures m == [m[0]] + (m[1..|m| - 1] + [m[|m| - 1]])
  {
  }

  lemma PairRoles()
    ensures RoleOf("(").Open? && RoleOf(")").Close? && RoleOf("{").Open? && RoleOf("}").Close?
    ensures !IsReduction("{") && !IsReduction("(")
  {
  }

  lemma {:induction false} StripDangles(m: seq<Token>)
    requires Dangling(m)
    ensures Dangling(Strip(m, "(", ")"))
    decreases |m|
  {
    if |m| >= 2 && m[0].value == "(" && m[|m| - 1].value == ")" {
      PairRoles();
      EndsOfStrip(m);
      hide RoleOf, Dangling;
      DropEnds(m[0], m[1..|m| - 1], m[|m| - 1]);
      if Group(m, 0, "(", ")").1 == Some(|m| - 1) { StripDangles(m[1..|m| - 1]); }
    }
  }

  /** What the forward scan passes leaves no bracket open. */
  lemma {:induction false} FoundAtTop(s: seq<Token>, depth: nat, role: Role)
    requires FirstFrom(s, depth, role) != []
    ensures var rest := FirstFrom(s, depth, role);
      && s == s[..|s| - |rest|] + rest && DepthOver(s[..|s| - |rest|], depth) == 0 && RoleOf(rest[0].value) == role
      && !role.Open? && !role.Close?
    decreases |s|
  {
    hide RoleOf;
    var rest := FirstFrom(s, depth, role);
    var r := RoleOf(s[0].value);
    if rest == s && !r.Open? && !r.Close? && depth == 0 && r == role {
      assert s[..|s| - |rest|] == [];
    } else {
      FoundAtTop(s[1..], if r.Open? then depth + 1 else if r.Close? && depth > 0 then depth - 1 else depth, role);
      assert s[..|s| - |rest|][1..] == s[1..][..|s| - 1 - |rest|];
      assert s == [s[0]] + s[1..];
    }
  }

  /** The false branch of a ternary split, or one side of an operator split, keeps the
      open bracket. */
  lemma TernaryDangles(m: seq<Token>)
    requires Dangling(m) && TernaryAt(m).Some?
    ensures Dangling(m[TernaryAt(m).value.1 + 1..])
  {
    hide Tidy, DepthOver, TernaryAt, RoleOf;
    DepthOfTernary(m);
    SuffixIsTidy(m, TernaryAt(m).value.1);
  }

  /** What is left from the first top-level token of a role on, and the depth after that token. */
  lemma AfterFound(s: seq<Token>, role: Role)
    requires FirstFrom(s, 0, role) != []
    ensures var rest := FirstFrom(s, 0, role);
      rest == s[|s| - |rest|..] && RoleOf(rest[0].value) == role && DepthOver(rest[1..], 0) == DepthOver(s, 0)
  {
    FoundAtTop(s, 0, role);
    var rest := FirstFrom(s, 0, role);
    hide FirstFrom, DepthOver, RoleOf;
    DepthAppend(s[..|s| - |rest|], rest, 0);
    OverToken(rest, 0);
  }

  lemma DepthOfTernary(m: seq<Token>)
    requires TernaryAt(m).Some?
    ensures var c := TernaryAt(m).value.1; RoleOf(m[c].value).Colon? && DepthOver(m[c + 1..], 0) == DepthOver(m, 0)
  {
    hide FirstFrom, DepthOver, RoleOf;
    var fromQuery := FirstFrom(m, 0, Query);
    var fromColon := FirstFrom(fromQuery[1..], 0, Colon);
    AfterFound(m, Query);
    AfterFound(fromQuery[1..], Colon);
    SuffixOfTail(m, |m| - |fromQuery|, |m| - |fromColon|);
  }

  lemma SuffixOfTail(m: seq<Token>, q: nat, c: nat)
    requires q < c < |m|
    ensures m[q..][1..][c - q - 1..] == m[c..] && m[c..][0] == m[c] && m[c..][1..] == m[c + 1..]
  {
  }

  lemma OverToken(s: seq<Token>, depth: nat)
    requires s != [] && !RoleOf(s[0].value).Open? && !RoleOf(s[0].value).Close?
    ensures DepthOver(s, depth) == DepthOver(s[1..], depth)
  {
  }

  lemma SuffixIsTidy(m: seq<Token>, i: nat)
    requires Tidy(false, m) && i < |m| && !EndsOperand(m[i])
    ensures Tidy(false, m[i + 1..])
  {
    assert m == m[..i + 1] + m[i + 1..];
    TidySuffix(false, m[..i + 1], m[i + 1..]);
  }

  lemma {:induction false} RoleAtOperator(p: seq<Token>, level: nat, depth: nat, last: nat)
    requires OperatorAt(p, level, depth, last).Some?
    ensures RoleOf(p[OperatorAt(p, level, depth, last).value].value) == Infix(level)
  {
    hide RoleOf;
    var n := |p| - 1;
    match RoleOf(p[n].value)
    case Close => RoleAtOperator(p[..n], level, depth + 1, last);
    case Open => RoleAtOperator(p[..n], level, if depth > 0 then depth - 1 else 0, last);
    case Infix(l) =>
      if !(depth == 0 && l == level && 0 < n < last) { RoleAtOperator(p[..n], level, depth, last); }
    case _ => RoleAtOperator(p[..n], level, depth, last);
  }

  lemma {:induction false} RoleAtSplit(m: seq<Token>, level: nat)
    requires level <= Levels && BinaryAt(m, level).Some?
    ensures RoleOf(m[BinaryAt(m, level).value].value).Infix?
    decreases Levels - level
  {
    hide OperatorAt, RoleOf;
    var found := OperatorAt(m, level, 0, |m| - 1);
    if found.Some? { RoleAtOperator(m, level, 0, |m| - 1); } else { RoleAtSplit(m, level + 1); }
  }

  lemma BinaryDangles(m: seq<Token>, i: nat)
    requires Dangling(m) && i < |m| && RoleOf(m[i].value).Infix?
    ensures Dangling(m[..i]) || Dangling(m[i + 1..])
  {
    hide TokenTidy, RoleOf, DepthOver, Tidy;
    assert m == m[..i] + m[i..] && m[i..][0] == m[i] && m[i..][1..] == m[i + 1..];
    DepthAppend(m[..i], m[i..], 0);
    OverToken(m[i..], DepthOver(m[..i], 0));
    InfixIsNoClose(m[i]);
    TidyPrefix(false, m[..i], m[i..]);
    SuffixIsTidy(m, i);
  }

  lemma InfixIsNoClose(t: Token)
    requires RoleOf(t.value).Infix?
    ensures t.value != "]"
  {
  }

  lemma {:induction false} SelectEnds(s: seq<Token>)
    requires SelectClosed(s)
    ensures CloserFrom(s, 1, "[", "]") != [] && DepthOver(s, 1) == DepthOver(CloserFrom(s, 1, "[", "]"), 1)
    decreases |s|
  {
    if s[0].value != "]" {
      BareIsNoBracket(s[0]);
      hide RoleOf;
      SelectEnds(s[1..]);
    }
  }

  lemma BareIsNoBracket(t: Token)
    requires Bare(t)
    ensures t.value != "[" && t.value != "]"
  {
  }

  lemma OpenerHasNoWidth(t: Token, symbols: Symbols)
    requires RoleOf(t.value).Open? && !t.kind.Identifier?
    ensures TokenWidth(t, symbols) == NoWidth
  {
    var v := t.value;
    assert v == "(" || v == "[" || v == "{";
    assert v[1..] == "" && Without("", '_') == "";
    assert Without(v, '_') == v;
    assert Unsigned(v, 10) == None;
    assert ParseInt(v) == None;
  }

  lemma OneOpen(m: seq<Token>)
    requires |m| == 1 && DepthOver(m, 0) > 0
    ensures RoleOf(m[0].value).Open?
  {
    assert m[1..] == [];
  }

  /** A name with a select after it, and nothing else, leaves nothing open. */
  lemma SelectFollows(m: seq<Token>)
    requires Tidy(false, m) && |m| >= 2 && m[0].kind.Identifier? && m[1].value == "["
    ensures SelectClosed(m[2..]) && DepthOver(m, 0) == DepthOver(m[2..], 1)
  {
    assert m[1..][1..] == m[2..] && m[1..][0] == m[1];
    assert TokenTidy(m[1], EndsOperand(m[0]), m[2..]);
  }

  lemma {:induction false} CloserIsCloser(s: seq<Token>, depth: nat, open: string, close: string)
    requires depth > 0
    ensures var rest := CloserFrom(s, depth, open, close); rest != [] ==> rest[0].value == close
  {
    if s != [] {
      var d := if s[0].value == open then depth + 1 else if s[0].value == close then depth - 1 else depth;
      if d > 0 { CloserIsCloser(s[1..], d, open, close); }
    }
  }

  lemma LeafDangles(m: seq<Token>, symbols: Symbols)
    requires Dangling(m)
    ensures LeafWidth(m, symbols) == NoWidth
  {
    hide TokenWidth, RangeWidth;
    if |m| == 1 {
      OneOpen(m);
      OpenerHasNoWidth(m[0], symbols);
    } else if |m| >= 4 && m[0].kind.Identifier? && m[1].value == "[" {
      var rest := CloserFrom(m[2..], 1, "[", "]");
      SelectFollows(m);
      SelectEnds(m[2..]);
      MatchIsCloserFrom(m, 2, 1, "[", "]");
      CloserIsCloser(m[2..], 1, "[", "]");
      CloserAlone(rest);
    }
  }

  lemma CloserAlone(s: seq<Token>)
    ensures |s| == 1 && s[0].value == "]" ==> DepthOver(s, 1) == 0
  {
    if |s| == 1 { assert s[1..] == []; }
  }

  // ----- no width -----

  lemma {:induction false} DanglingNoWidth(ts: seq<Token>, symbols: Symbols)
    requires Dangling(ts)
    ensures ExpressionWidth(ts, symbols) == NoWidth
    decreases |ts|, 1
  {
    TidyIsSolid(false, ts);
    SolidNeverRaises(ts, symbols);
    StripDangles(ts);
    var m := Strip(ts, "(", ")");
    assert m != [] && !IsReduction(m[0].value);
    SplitsDangle(m, symbols, |m|);
    if IsBraceGroup(m) {
      PairRoles();
      EndsOfStrip(m);
      DropEnds(m[0], m[1..|m| - 1], m[|m| - 1]);
      DanglingNoWidth(m[1..|m| - 1], symbols);
    }
    hide *;
    WidthStep(ts, symbols);
  }

  lemma {:induction false} SplitsDangle(m: seq<Token>, symbols: Symbols, bound: nat)
    requires Dangling(m) && |m| <= bound
    ensures TernaryOrLess(m, symbols, bound) == NoWidth
    decreases |m|, 0
  {
    hide Dangling, ExpressionWidth, TernaryAt, BinaryAt, LeafWidth, Solid, RoleOf;
    assert Solid(m) by { hide *; DanglingIsSolid(m); }
    LeafDangles(m, symbols);
    var at := BinaryAt(m, 0);
    if at.Some? {
      var (left, right) := (m[..at.value], m[at.value + 1..]);
      RoleAtSplit(m, 0);
      BinaryDangles(m, at.value);
      PieceNeverRaises(m, 0, at.value, symbols);
      PieceNeverRaises(m, at.value + 1, |m|, symbols);
      if Dangling(left) { DanglingNoWidth(left, symbols); } else { DanglingNoWidth(right, symbols); }
    }
    assert BinaryOrLess(m, symbols, bound) == NoWidth;
    if TernaryAt(m).Some? {
      var (q, c) := TernaryAt(m).value;
      TernaryDangles(m);
      DanglingNoWidth(m[c + 1..], symbols);
      PieceNeverRaises(m, q + 1, c, symbols);
    }
  }

  lemma DanglingIsSolid(m: seq<Token>)
    requires Dangling(m)
    ensures Solid(m)
  {
    TidyIsSolid(false, m);
  }

  lemma PieceNeverRaises(m: seq<Token>, i: nat, j: nat, symbols: Symbols)
    requires Solid(m) && i <= j <= |m|
    ensures m[..j] == m[0..j] && m[i..|m|] == m[i..] && ExpressionWidth(m[i..j], symbols) != IndexError
  {
    SliceIsSolid(m, i, j);
    SolidNeverRaises(m[i..j], symbols);
  }

  /** If braces stand at both ends of a list, they are not those of one group. */
  predicate OpenInside(m: seq<Token>) { IsBraceGroup(m) ==> Dangling(m[1..|m| - 1]) }

  lemma InsideHasNoWidth(m: seq<Token>, symbols: Symbols)
    requires OpenInside(m)
    ensures IsBraceGroup(m) ==> ExpressionWidth(m[1..|m| - 1], symbols) == NoWidth
  {
    hide Dangling, ExpressionWidth;
    if IsBraceGroup(m) { DanglingNoWidth(m[1..|m| - 1], symbols); }
  }
}
