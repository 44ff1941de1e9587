/** When width inference raises. It looks at the first token of a list it has
    stripped of outer parentheses without asking whether any token is left. */
module WidthRaises {
  import opened Tokens
  import opened Brackets
  import opened Width
  import opened WidthCommas

  /** Some opening parentheses, then as many closing ones. */
  predicate Hollow(ts: seq<Token>) {
    var k := |ts| / 2;
    && k > 0 && |ts| == 2 * k
    && (forall i :: 0 <= i < k ==> ts[i].value == "(")
    && (forall i :: k <= i < 2 * k ==> ts[i].value == ")")
  }

  lemma {:induction false} MatchAmongClosers(ts: seq<Token>, i: nat, depth: nat)
    requires 0 < depth && i + depth <= |ts| && forall j :: i <= j < |ts| ==> ts[j].value == ")"
    ensures MatchFrom(ts, i, depth, "(", ")") == Some(i + depth - 1)
    decreases |ts| - i
  {
    if depth > 1 {
      MatchAmongClosers(ts, i + 1, depth - 1);
    }
  }

  lemma {:induction false} MatchAmongOpeners(ts: seq<Token>, i: nat)
    requires Hollow(ts) && 0 < i <= |ts| / 2
    ensures MatchFrom(ts, i, i, "(", ")") == Some(|ts| - 1)
    decreases |ts| - i
  {
    if i == |ts| / 2 {
      MatchAmongClosers(ts, i, i);
    } else {
      MatchAmongOpeners(ts, i + 1);
    }
  }

  lemma HollowInside(ts: seq<Token>)
    requires |ts| >= 2 && ts[0].value == "(" && ts[|ts| - 1].value == ")"
    ensures var inner := ts[1..|ts| - 1];
      Hollow(ts) <==> inner == [] || Hollow(inner)
  {
    var inner := ts[1..|ts| - 1];
    assert forall i :: 0 <= i < |inner| ==> inner[i] == ts[i + 1];
    assert forall i :: 0 < i < |ts| - 1 ==> ts[i] == inner[i - 1];
  }

  /** Nothing is left of a list after stripping exactly when it is empty or hollow. */
  lemma {:induction false} StripsToNothing(ts: seq<Token>)
    ensures Strip(ts, "(", ")") == [] <==> ts == [] || Hollow(ts)
    decreases |ts|
  {
    if |ts| >= 2 && ts[0].value == "(" && ts[|ts| - 1].value == ")" {
      HollowInside(ts);
      if Hollow(ts) { MatchAmongOpeners(ts, 1); }
      hide Hollow, MatchFrom;
      var (inner, end) := Group(ts, 0, "(", ")");
      if end == Some(|ts| - 1) { StripsToNothing(inner); }
    }
  }

  // ----- the lists the inference looks at -----

  predicate IsBraceGroup(m: seq<Token>) { |m| >= 2 && m[0].value == "{" && m[|m| - 1].value == "}" }

  /** The lists passed to the inference, itself included, with their commas gone:
      the inside of a brace group; both branches of a ternary; and both operands of
      an operator, unless the group or the ternary already gave a width. */
  function Visited(tokens: seq<Token>, symbols: Symbols): set<seq<Token>>
    decreases |tokens|, 2
  {
    var m := Strip(NoCommas(tokens), "(", ")");
    {NoCommas(tokens)} +
    if m == [] || IsReduction(m[0].value) then {}
    else if IsBraceGroup(m) then
      var inner := m[1..|m| - 1];
      Visited(inner, symbols) + if ExpressionWidth(inner, symbols).Width? then {} else VisitedBySplits(m, symbols)
    else VisitedBySplits(m, symbols)
  }

  function VisitedBySplits(m: seq<Token>, symbols: Symbols): set<seq<Token>>
    decreases |m|, 1
  {
    match TernaryAt(m)
    case None => VisitedByOperator(m, symbols)
    case Some((q, c)) =>
      var (yes, no) := (m[q + 1..c], m[c + 1..]);
      Visited(yes, symbols) + Visited(no, symbols) +
      if ExpressionWidth(yes, symbols).Width? && ExpressionWidth(no, symbols).Width? then {}
      else VisitedByOperator(m, symbols)
  }

  function VisitedByOperator(m: seq<Token>, symbols: Symbols): set<seq<Token>>
    decreases |m|, 0
  {
    match BinaryAt(m, 0)
    case None => {}
    case Some(i) => Visited(m[..i], symbols) + Visited(m[i + 1..], symbols)
  }

  ghost predicate SomeHollow(s: set<seq<Token>>) { exists x :: x in s && Hollow(x) }

  lemma HollowInUnion(a: set<seq<Token>>, b: set<seq<Token>>)
    ensures SomeHollow(a + b) <==> SomeHollow(a) || SomeHollow(b)
  {
    hide Hollow;
  }

  lemma HollowInOne(x: seq<Token>)
    ensures SomeHollow({x}) <==> Hollow(x)
    ensures !SomeHollow({})
  {
    hide Hollow;
    assert x in {x};
  }

  lemma {:induction false} StripKeepsTokens(ts: seq<Token>, open: string, close: string)
    ensures forall t :: t in Strip(ts, open, close) ==> t in ts
    decreases |ts|
  {
    if |ts| >= 2 && ts[0].value == open && ts[|ts| - 1].value == close {
      var (inner, end) := Group(ts, 0, open, close);
      if end == Some(|ts| - 1) { StripKeepsTokens(inner, open, close); }
    }
  }

  /** One call of the inference, step by step. */
  lemma WidthStep(tokens: seq<Token>, symbols: Symbols)
    ensures var m := Strip(NoCommas(tokens), "(", ")");
      ExpressionWidth(tokens, symbols) ==
        if NoCommas(tokens) == [] then NoWidth
        else if m == [] then IndexError
        else if IsReduction(m[0].value) then Width(1)
        else if IsBraceGroup(m) && ExpressionWidth(m[1..|m| - 1], symbols) != NoWidth
        then ExpressionWidth(m[1..|m| - 1], symbols)
        else TernaryOrLess(m, symbols, |m|)
  {
    FilteredHasNoComma(tokens);
    StripKeepsTokens(NoCommas(tokens), "(", ")");
    hide NoCommas, Strip, TernaryOrLess, IsReduction, RoleOf, SplitFrom;
    var m := Strip(NoCommas(tokens), "(", ")");
    BoundIsIrrelevant(m, symbols, |tokens|, |m|);
    if IsBraceGroup(m) {
      var inner := m[1..|m| - 1];
      OnePartOnly(inner, 0, 0, []);
      assert [] + inner[0..] == inner;
      assert SplitTopLevel(inner, ",") == [inner];
    }
  }

  lemma VisitedStep(tokens: seq<Token>, symbols: Symbols)
    ensures var y := NoCommas(tokens);
      var m := Strip(y, "(", ")");
      SomeHollow(Visited(tokens, symbols)) <==>
        || Hollow(y)
        || (m != [] && !IsReduction(m[0].value)
            && (if IsBraceGroup(m) then
                  var inner := m[1..|m| - 1];
                  || SomeHollow(Visited(inner, symbols))
                  || (!ExpressionWidth(inner, symbols).Width? && SomeHollow(VisitedBySplits(m, symbols)))
                else SomeHollow(VisitedBySplits(m, symbols))))
  {
    hide ExpressionWidth, NoCommas, Strip, IsReduction, SomeHollow, Hollow, VisitedBySplits;
    var y := NoCommas(tokens);
    var m := Strip(y, "(", ")");
    HollowInOne(y);
    if m == [] || IsReduction(m[0].value) {
      HollowInUnion({y}, {});
    } else {
      var splits := VisitedBySplits(m, symbols);
      HollowInUnion({y}, splits);
      if IsBraceGroup(m) {
        var inner := Visited(m[1..|m| - 1], symbols);
        HollowInUnion(inner, {});
        HollowInUnion(inner, splits);
        HollowInUnion({y}, inner + {});
        HollowInUnion({y}, inner + splits);
      }
    }
  }

  /** The inference raises exactly when one of the lists it looks at is hollow. */
  lemma {:induction false} RaisesIff(tokens: seq<Token>, symbols: Symbols)
    ensures ExpressionWidth(tokens, symbols).IndexError? <==> SomeHollow(Visited(tokens, symbols))
    decreases |tokens|, 2
  {
    assert !Hollow([]);
    hide ExpressionWidth, TernaryOrLess, NoCommas, Strip, IsReduction, SomeHollow, Hollow, Visited, VisitedBySplits;
    var y := NoCommas(tokens);
    var m := Strip(y, "(", ")");
    WidthStep(tokens, symbols);
    VisitedStep(tokens, symbols);
    StripsToNothing(y);
    if m != [] && !IsReduction(m[0].value) {
      SplitsRaiseIff(m, symbols);
      if IsBraceGroup(m) { RaisesIff(m[1..|m| - 1], symbols); }
    }
  }

  lemma {:induction false} SplitsRaiseIff(m: seq<Token>, symbols: Symbols)
    ensures TernaryOrLess(m, symbols, |m|).IndexError? <==> SomeHollow(VisitedBySplits(m, symbols))
    decreases |m|, 1
  {
    hide ExpressionWidth, BinaryOrLess, TernaryAt, SomeHollow, Visited, VisitedByOperator;
    OperatorRaisesIff(m, symbols);
    match TernaryAt(m) {
      case None =>
      case Some((q, c)) =>
        var (yes, no) := (m[q + 1..c], m[c + 1..]);
        RaisesIff(yes, symbols);
        RaisesIff(no, symbols);
        HollowInUnion(Visited(yes, symbols), Visited(no, symbols));
        HollowInUnion(Visited(yes, symbols) + Visited(no, symbols), {});
        HollowInUnion(Visited(yes, symbols) + Visited(no, symbols), VisitedByOperator(m, symbols));
        HollowInOne(m);
    }
  }

  lemma {:induction false} OperatorRaisesIff(m: seq<Token>, symbols: Symbols)
    ensures BinaryOrLess(m, symbols, |m|).IndexError? <==> SomeHollow(VisitedByOperator(m, symbols))
    decreases |m|, 0
  {
    LeafNeverRaises(m, symbols);
    hide ExpressionWidth, BinaryAt, LeafWidth, OperatorWidth, SomeHollow, Visited;
    HollowInOne(m);
    match BinaryAt(m, 0) {
      case None =>
      case Some(i) =>
        RaisesIff(m[..i], symbols);
        RaisesIff(m[i + 1..], symbols);
        HollowInUnion(Visited(m[..i], symbols), Visited(m[i + 1..], symbols));
    }
  }

  lemma LeafNeverRaises(m: seq<Token>, symbols: Symbols)
    ensures LeafWidth(m, symbols) != IndexError
  {
  }

  // ----- two conditions that can be read off the list -----

  /** No opening parenthesis stands directly before a closing one. */
  ghost predicate NoEmptyPair(ts: seq<Token>) {
    forall i :: 0 < i < |ts| ==> !(ts[i - 1].value == "(" && ts[i].value == ")")
  }

  lemma HollowHasEmptyPair(ts: seq<Token>)
    requires Hollow(ts)
    ensures !NoEmptyPair(ts)
  {
    var i := |ts| / 2;
    assert ts[i - 1].value == "(" && ts[i].value == ")";
  }

  lemma {:induction false} StripIsSlice(ts: seq<Token>)
    requires NoEmptyPair(ts)
    ensures NoEmptyPair(Strip(ts, "(", ")"))
    decreases |ts|
  {
    if |ts| >= 2 && ts[0].value == "(" && ts[|ts| - 1].value == ")" {
      var (inner, end) := Group(ts, 0, "(", ")");
      if end == Some(|ts| - 1) { StripIsSlice(inner); }
    }
  }

  ghost predicate Solid(ts: seq<Token>) { NoEmptyPair(ts) && CommaFree(ts) }

  lemma SliceIsSolid(ts: seq<Token>, i: nat, j: nat)
    requires Solid(ts) && i <= j <= |ts|
    ensures Solid(ts[i..j]) && NoCommas(ts[i..j]) == ts[i..j]
  {
    NothingToFilter(ts[i..j]);
  }

  lemma {:induction false} StripIsSolid(ts: seq<Token>)
    requires Solid(ts)
    ensures Solid(Strip(ts, "(", ")")) && NoCommas(Strip(ts, "(", ")")) == Strip(ts, "(", ")")
  {
    StripIsSlice(ts);
    StripKeepsTokens(ts, "(", ")");
    NothingToFilter(Strip(ts, "(", ")"));
  }

  ghost predicate AllSolid(s: set<seq<Token>>) { forall x :: x in s ==> Solid(x) }

  lemma {:induction false} VisitedIsSolid(tokens: seq<Token>, symbols: Symbols)
    requires Solid(NoCommas(tokens))
    ensures AllSolid(Visited(tokens, symbols))
    decreases |tokens|, 2
  {
    hide Solid, NoCommas, Strip, IsReduction, ExpressionWidth, VisitedBySplits;
    var m := Strip(NoCommas(tokens), "(", ")");
    StripIsSolid(NoCommas(tokens));
    if m != [] {
      SplitsAreSolid(m, symbols);
      if IsBraceGroup(m) {
        SliceIsSolid(m, 1, |m| - 1);
        VisitedIsSolid(m[1..|m| - 1], symbols);
      }
    }
  }

  lemma {:induction false} SplitsAreSolid(m: seq<Token>, symbols: Symbols)
    requires Solid(m)
    ensures AllSolid(VisitedBySplits(m, symbols))
    decreases |m|, 1
  {
    hide Solid, NoCommas, ExpressionWidth, TernaryAt, BinaryAt, Visited;
    match TernaryAt(m) {
      case None =>
      case Some((q, c)) =>
        SliceIsSolid(m, q + 1, c);
        SliceIsSolid(m, c + 1, |m|);
        assert m[c + 1..|m|] == m[c + 1..];
        VisitedIsSolid(m[q + 1..c], symbols);
        VisitedIsSolid(m[c + 1..], symbols);
    }
    match BinaryAt(m, 0) {
      case None =>
      case Some(i) =>
        SliceIsSolid(m, 0, i);
        SliceIsSolid(m, i + 1, |m|);
        assert m[i + 1..|m|] == m[i + 1..];
        VisitedIsSolid(m[..i], symbols);
        VisitedIsSolid(m[i + 1..], symbols);
    }
  }

  /** Without an empty pair of parentheses, commas left out, the inference never raises. */
  lemma NoPairNoRaise(tokens: seq<Token>, symbols: Symbols)
    requires NoEmptyPair(NoCommas(tokens))
    ensures ExpressionWidth(tokens, symbols) != IndexError
  {
    FilteredIsCommaFree(tokens);
    VisitedIsSolid(tokens, symbols);
    RaisesIff(tokens, symbols);
    hide Hollow, Visited, ExpressionWidth, NoCommas, CommaFree;
    if SomeHollow(Visited(tokens, symbols)) {
      var x :| x in Visited(tokens, symbols) && Hollow(x);
      HollowHasEmptyPair(x);
    }
  }

  lemma {:induction false} FilteredIsCommaFree(tokens: seq<Token>)
    ensures CommaFree(NoCommas(tokens))
  {
    hide RoleOf;
    if tokens != [] { FilteredIsCommaFree(tokens[1..]); }
  }

  /** The operands of a list, all the way down: what its outermost parentheses
      enclose, split at an operator, and the operands of both sides. */
  function Operands(tokens: seq<Token>): set<seq<Token>>
    decreases |tokens|
  {
    var m := Strip(NoCommas(tokens), "(", ")");
    {NoCommas(tokens)} +
    if m == [] || IsReduction(m[0].value) then {}
    else
      match BinaryAt(m, 0)
      case None => {}
      case Some(i) => Operands(m[..i]) + Operands(m[i + 1..])
  }

  predicate Simple(t: Token) { !RoleOf(t.value).Query? && t.value != "{" }

  ghost predicate AllSimple(ts: seq<Token>) { forall t :: t in ts ==> Simple(t) }

  lemma {:induction false} NoQuery(ts: seq<Token>, depth: nat)
    requires AllSimple(ts)
    ensures FirstFrom(ts, depth, Query) == []
  {
    hide RoleOf;
    if ts != [] {
      assert Simple(ts[0]);
      var r := RoleOf(ts[0].value);
      NoQuery(ts[1..], if r.Open? then depth + 1 else if r.Close? && depth > 0 then depth - 1 else depth);
    }
  }

  lemma {:induction false} FilterKeepsTokens(ts: seq<Token>)
    ensures forall t :: t in NoCommas(ts) ==> t in ts
  {
    hide RoleOf;
    if ts != [] { FilterKeepsTokens(ts[1..]); }
  }

  lemma {:induction false} VisitedAreOperands(tokens: seq<Token>, symbols: Symbols)
    requires AllSimple(tokens)
    ensures Visited(tokens, symbols) == Operands(tokens)
    decreases |tokens|
  {
    FilterKeepsTokens(tokens);
    StripKeepsTokens(NoCommas(tokens), "(", ")");
    hide Simple, NoCommas, Strip, IsReduction, ExpressionWidth, FirstFrom, BinaryAt;
    var m := Strip(NoCommas(tokens), "(", ")");
    assert AllSimple(m);
    if m != [] {
      assert m[0] in m;
      SimpleIsNoBrace(m[0]);
      NoQuery(m, 0);
      NoQueryNoTernary(m);
      assert VisitedBySplits(m, symbols) == VisitedByOperator(m, symbols);
      assert Visited(tokens, symbols) == {NoCommas(tokens)} +
        if IsReduction(m[0].value) then {} else VisitedByOperator(m, symbols);
      match BinaryAt(m, 0) {
        case None =>
        case Some(i) =>
          VisitedAreOperands(m[..i], symbols);
          VisitedAreOperands(m[i + 1..], symbols);
      }
    }
  }

  lemma SimpleIsNoBrace(t: Token)
    requires Simple(t)
    ensures t.value != "{"
  {
  }

  /** Without `?` and braces the inference raises exactly when an operand is
      hollow, whatever is declared. */
  lemma SimpleRaisesIff(tokens: seq<Token>, symbols: Symbols)
    requires AllSimple(tokens)
    ensures ExpressionWidth(tokens, symbols).IndexError? <==> SomeHollow(Operands(tokens))
  {
    hide *;
    RaisesIff(tokens, symbols);
    VisitedAreOperands(tokens, symbols);
  }

  /** `()`, `(,)`, `((,))` and the like raise. */
  lemma HollowRaises(tokens: seq<Token>, symbols: Symbols)
    requires Hollow(NoCommas(tokens))
    ensures ExpressionWidth(tokens, symbols) == IndexError
  {
    hide ExpressionWidth, NoCommas, Hollow;
    RaisesIff(tokens, symbols);
    assert NoCommas(tokens) in Visited(tokens, symbols);
  }

  /** An empty pair need not be an operand: `f()` has no width, and does not raise. */
  lemma CallDoesNotRaise(f: Token, lp: Token, rp: Token, symbols: Symbols)
    requires RoleOf(f.value).Other? && lp.value == "(" && rp.value == ")"
    ensures !NoEmptyPair([f, lp, rp]) && ExpressionWidth([f, lp, rp], symbols) == NoWidth
  {
    var ts := [f, lp, rp];
    assert ts[1].value == "(" && ts[2].value == ")";
    assert CommaFree(ts);
    NothingToFilter(ts);
    assert !IsReduction(f.value) && f.value != "{";
    assert f.value != "(";
    NoQuery(ts, 0);
    hide RoleOf, FirstFrom, NoCommas, IsReduction, TernaryAt;
    NoQueryNoTernary(ts);
    NoTernaryOfParts(ts, symbols, 3);
    CallIsNotSplit(f, lp, rp, 0);
    NoBinaryOfParts(ts, symbols, 3);
    assert Strip(ts, "(", ")") == ts;
  }

  lemma {:induction false} CallIsNotSplit(f: Token, lp: Token, rp: Token, level: nat)
    requires RoleOf(f.value).Other? && lp.value == "(" && rp.value == ")" && level <= Levels
    ensures BinaryAt([f, lp, rp], level) == None
    decreases Levels - level
  {
    if level < Levels {
      var ts := [f, lp, rp];
      assert ts[..2] == [f, lp] && [f, lp][..1] == [f] && [f][..0] == [];
      assert OperatorAt([f], level, 0, 2) == OperatorAt([], level, 0, 2) == None;
      assert OperatorAt([f, lp], level, 1, 2) == OperatorAt([f], level, 0, 2);
      CallIsNotSplit(f, lp, rp, level + 1);
    }
  }
}
