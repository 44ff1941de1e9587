/** What widths come out of the inference, with the words spelled out: the rule of each
    operator, the width of each kind of operand and the precedence of operators. */
module WidthRules {
  import opened Tokens
  import opened Literals
  import opened Width
  import opened WidthTree
  import opened WidthTheorem
  import opened NumberText
  import opened WidthCommas

  // ----- operators -----

  const SHIFTS := {"<<", ">>", "<<<", ">>>"}

  const TESTS := {"||", "&&", "==", "!=", ">", "<", ">=", "<="}

  const WIDER_OF_TWO := {"+", "-", "&", "|", "^"}

  /** What an operator makes of the widths of its operands. */
  predicate Obeys(v: string, a: Outcome, b: Outcome, w: Outcome) {
    if a.Width? && b.Width? then
      && (v in SHIFTS ==> w == a)
      && (v in TESTS ==> w == Width(1))
      && (v in WIDER_OF_TWO ==> w == if a.bits < b.bits then b else a)
      && (v == "*" ==> w == Width(a.bits + b.bits))
      && (v == "/" || v == "%" ==> w == NoWidth)
      && (v in SHIFTS + TESTS + WIDER_OF_TWO + {"*", "/", "%"})
    else w == NoWidth
  }

  lemma OperatorObeys(v: string, a: nat, b: nat)
    requires RoleOf(v).Infix?
    ensures Obeys(v, Width(a), Width(b), OfOption(OperatorWidth(v, a, b)))
  {
  }

  /** An operator expression has the width its operator makes of those its operands get alone. */
  lemma OperatorRules(e: Expr, symbols: Symbols)
    requires Fits(e) && e.Binary?
    ensures Obeys(e.op.value, ExpressionWidth(Flat(e.l), symbols), ExpressionWidth(Flat(e.r), symbols),
      ExpressionWidth(Flat(e), symbols))
  {
    RootParts(e);
    var (a, b) := (TreeWidth(e.l, symbols), TreeWidth(e.r, symbols));
    if a.Width? && b.Width? { OperatorObeys(e.op.value, a.bits, b.bits); }
    assert Obeys(e.op.value, a, b, TreeWidth(e, symbols));
    hide *;
    WidthIsTreeWidth(e, symbols);
    WidthIsTreeWidth(e.l, symbols);
    WidthIsTreeWidth(e.r, symbols);
  }

  /** A ternary is as wide as the wider of its branches, whatever its condition. */
  lemma TernaryRule(e: Expr, symbols: Symbols)
    requires Fits(e) && e.Ternary?
    ensures var (a, b) := (ExpressionWidth(Flat(e.yes), symbols), ExpressionWidth(Flat(e.no), symbols));
      ExpressionWidth(Flat(e), symbols) ==
        if !a.Width? || !b.Width? then NoWidth else if a.bits < b.bits then b else a
  {
    TernaryRoles(e);
    assert Fits(e.no);
    hide Fits, Flat, ExpressionWidth, RoleOf;
    WidthIsTreeWidth(e, symbols);
    WidthIsTreeWidth(e.yes, symbols);
    WidthIsTreeWidth(e.no, symbols);
  }

  // ----- operands -----

  /** A name has the size of its declared range, one bit without a range, and no width
      if it is not declared. */
  lemma NameRule(t: Token, symbols: Symbols)
    requires PlainName(t)
    ensures ExpressionWidth([t], symbols) ==
      if t.value !in symbols then NoWidth
      else
        match symbols[t.value].bounds
        case None => Width(1)
        case Some((m, l)) => Width(if m < l then l - m + 1 else m - l + 1)
  {
    WidthIsTreeWidth(Atom(t), symbols);
    hide ExpressionWidth, RoleOf;
  }

  /** A literal with a base is as wide as the number before its quote says, and has no
      width without one. */
  lemma BasedRule(t: Token, front: string, rest: string, width: nat, symbols: Symbols)
    requires t.kind.Number? && Plain(t) && '\'' !in front && t.value == front + ("'" + rest)
    ensures Without(front, '_') == Printed(width, 10) ==> ExpressionWidth([t], symbols) == Width(width)
    ensures front == "" ==> ExpressionWidth([t], symbols) == NoWidth
  {
    WidthIsTreeWidth(Atom(t), symbols);
    BasedWidth(front, rest, width);
    hide ExpressionWidth, RoleOf, LiteralWidth, Printed, Without;
  }

  /** A plain decimal number gets the fewest bits that hold it, and at least one. */
  lemma DecimalRule(t: Token, n: nat, symbols: Symbols)
    requires t.kind.Number? && Plain(t) && Without(t.value, '_') == Printed(n, 10)
    ensures var w := ExpressionWidth([t], symbols);
      w.Width? && w.bits >= 1 && n < Pow2(w.bits) && (w.bits > 1 ==> Pow2(w.bits - 1) <= n)
  {
    hide *;
    PlainLiteral(t.value, n);
    NumberAtom(t, symbols);
    WidthIsTreeWidth(Atom(t), symbols);
    SomeWidth(LiteralWidth(t.value));
  }

  lemma NumberAtom(t: Token, symbols: Symbols)
    requires t.kind.Number? && Plain(t)
    ensures TreeWidth(Atom(t), symbols) == OfOption(LiteralWidth(t.value)) && Flat(Atom(t)) == [t] && Fits(Atom(t))
  {
    hide LiteralWidth;
  }

  lemma SomeWidth(w: Option<nat>)
    ensures w.Some? ==> OfOption(w) == Width(w.value)
  {
  }

  /** A range select has the size of its range, whatever the name and however its bounds
      are written; a bit select is one bit. */
  lemma SelectRule(e: Expr, m: int, l: int, symbols: Symbols)
    requires Fits(e)
    ensures e.BitSelect? ==> ExpressionWidth(Flat(e), symbols) == Width(1)
    ensures e.RangeSelect? && ParseInt(e.left.value) == Some(m) && ParseInt(e.right.value) == Some(l) ==>
      ExpressionWidth(Flat(e), symbols) == Width(if m < l then l - m + 1 else m - l + 1)
    ensures e.RangeSelect? && (ParseInt(e.left.value).None? || ParseInt(e.right.value).None?) ==>
      ExpressionWidth(Flat(e), symbols) == NoWidth
  {
    WidthIsTreeWidth(e, symbols);
    hide ExpressionWidth, RoleOf, ParseInt, Flat;
  }

  // ----- precedence -----

  /** The operators from the loosest to the tightest. */
  const PRECEDENCE: seq<set<string>> := [
    {"||"}, {"&&"}, {"==", "!="}, {">", "<", ">=", "<="}, {"+", "-"}, {"<<", ">>", "<<<", ">>>"}, {"&", "|", "^"},
    {"*", "/", "%"}
  ]

  lemma PrecedenceIsRole(v: string, k: nat)
    requires k < |PRECEDENCE| && v in PRECEDENCE[k]
    ensures RoleOf(v) == Infix(k)
  {
  }

  const PUNCTUATION := {"(", ")", "[", "]", "{", "}", "?", ":", ","}

  const REDUCTIONS := {"&", "|", "^", "~&", "~|", "~^", "^~"}

  /** A token stands for an operand unless it is punctuation or an operator. */
  lemma PlainSpelled(t: Token)
    ensures Plain(t) <==>
      && t.value !in PUNCTUATION && t.value !in REDUCTIONS
      && forall k :: 0 <= k < |PRECEDENCE| ==> t.value !in PRECEDENCE[k]
  {
    var v := t.value;
    if forall k :: 0 <= k < |PRECEDENCE| ==> v !in PRECEDENCE[k] {
      assert v !in PRECEDENCE[0] && v !in PRECEDENCE[1] && v !in PRECEDENCE[2] && v !in PRECEDENCE[3];
      assert v !in PRECEDENCE[4] && v !in PRECEDENCE[5] && v !in PRECEDENCE[6] && v !in PRECEDENCE[7];
    }
  }

  /** Any tokens after a leading reduction operator: one bit. */
  lemma ReductionRule(op: Token, x: seq<Token>, symbols: Symbols)
    requires op.value in REDUCTIONS
    ensures ExpressionWidth([op] + x, symbols) == Width(1)
  {
    FilterOne(op, x);
    assert IsReduction(op.value) && !RoleOf(op.value).Comma?;
    var y := [op] + NoCommas(x);
    assert y[0] == op && op.value != "(";
    hide RoleOf, NoCommas;
    assert Strip(y, "(", ")") == y;
  }

  /** `a p b q c` without parentheses: the looser operator is applied last, and of two
      of one level the one to the right. */
  lemma ThreeOperands(a: Expr, p: Token, b: Expr, q: Token, c: Expr, i: nat, j: nat, symbols: Symbols)
    requires IsOperand(a) && IsOperand(b) && IsOperand(c)
    requires i < |PRECEDENCE| && p.value in PRECEDENCE[i] && j < |PRECEDENCE| && q.value in PRECEDENCE[j]
    ensures ExpressionWidth(Flat(a) + [p] + Flat(b) + [q] + Flat(c), symbols) ==
      if j <= i then ExpressionWidth(Flat(Parenthesised(Binary(a, p, b))) + [q] + Flat(c), symbols)
      else ExpressionWidth(Flat(a) + [p] + Flat(Parenthesised(Binary(b, q, c))), symbols)
  {
    PrecedenceIsRole(p.value, i);
    PrecedenceIsRole(q.value, j);
    hide *;
    if j <= i { LeftFirst(a, p, b, q, c, i, j, symbols); } else { RightFirst(a, p, b, q, c, i, j, symbols); }
  }

  lemma LeftFirst(a: Expr, p: Token, b: Expr, q: Token, c: Expr, i: nat, j: nat, symbols: Symbols)
    requires IsOperand(a) && IsOperand(b) && IsOperand(c)
    requires RoleOf(p.value) == Infix(i) && RoleOf(q.value) == Infix(j) && j <= i
    ensures ExpressionWidth(Flat(a) + [p] + Flat(b) + [q] + Flat(c), symbols) ==
      ExpressionWidth(Flat(Parenthesised(Binary(a, p, b))) + [q] + Flat(c), symbols)
  {
    OperandFits(a);
    OperandFits(b);
    OperandFits(c);
    hide *;
    var left := Binary(a, p, b);
    BinaryFits(a, p, b, i);
    ParensFit(left);
    BinaryFits(left, q, c, j);
    BinaryFits(Parenthesised(left), q, c, j);
    FlatBinary(a, p, b);
    FlatBinary(left, q, c);
    FlatBinary(Parenthesised(left), q, c);
    SameInParens(left, symbols);
    SameOperands(left, Parenthesised(left), q, c, c, symbols);
    SameWidths(Binary(left, q, c), Binary(Parenthesised(left), q, c), symbols);
  }

  lemma RightFirst(a: Expr, p: Token, b: Expr, q: Token, c: Expr, i: nat, j: nat, symbols: Symbols)
    requires IsOperand(a) && IsOperand(b) && IsOperand(c)
    requires RoleOf(p.value) == Infix(i) && RoleOf(q.value) == Infix(j) && i < j
    ensures ExpressionWidth(Flat(a) + [p] + Flat(b) + [q] + Flat(c), symbols) ==
      ExpressionWidth(Flat(a) + [p] + Flat(Parenthesised(Binary(b, q, c))), symbols)
  {
    OperandFits(a);
    OperandFits(b);
    OperandFits(c);
    LevelIsBelow(q);
    hide *;
    var right := Binary(b, q, c);
    BinaryFits(b, q, c, j);
    ParensFit(right);
    BinaryFits(a, p, right, i);
    BinaryFits(a, p, Parenthesised(right), i);
    FlatBinary(b, q, c);
    FlatBinary(a, p, right);
    FlatBinary(a, p, Parenthesised(right));
    Regrouped(Flat(a) + [p], Flat(b), q, Flat(c));
    SameInParens(right, symbols);
    SameOperands(a, a, p, right, Parenthesised(right), symbols);
    SameWidths(Binary(a, p, right), Binary(a, p, Parenthesised(right)), symbols);
  }

  lemma Regrouped(x: seq<Token>, y: seq<Token>, t: Token, z: seq<Token>)
    ensures x + (y + [t] + z) == x + y + [t] + z
  {
  }

  lemma LevelIsBelow(t: Token)
    ensures RoleOf(t.value).Infix? ==> RoleOf(t.value).level < Levels
  {
  }

  lemma OperandFits(e: Expr)
    requires IsOperand(e)
    ensures Fits(e) && Tightness(e) == Levels
  {
  }

  lemma SameOperands(l: Expr, l': Expr, op: Token, r: Expr, r': Expr, symbols: Symbols)
    requires TreeWidth(l, symbols) == TreeWidth(l', symbols) && TreeWidth(r, symbols) == TreeWidth(r', symbols)
    ensures TreeWidth(Binary(l, op, r), symbols) == TreeWidth(Binary(l', op, r'), symbols)
  {
  }

  lemma BinaryFits(l: Expr, op: Token, r: Expr, level: nat)
    requires Fits(l) && Fits(r) && RoleOf(op.value) == Infix(level) && Tightness(l) >= level && Tightness(r) > level
    ensures Fits(Binary(l, op, r)) && Tightness(Binary(l, op, r)) == level
  {
  }

  lemma ParensFit(e: Expr)
    requires Fits(e)
    ensures Fits(Parenthesised(e)) && Tightness(Parenthesised(e)) == Levels
  {
  }

  lemma SameInParens(e: Expr, symbols: Symbols)
    ensures TreeWidth(Parenthesised(e), symbols) == TreeWidth(e, symbols)
  {
  }

  lemma FlatBinary(l: Expr, op: Token, r: Expr)
    ensures Flat(Binary(l, op, r)) == Flat(l) + [op] + Flat(r)
  {
  }

  /** An expression without an outermost operator. */
  predicate IsOperand(e: Expr) { Fits(e) && !e.Binary? && !e.Ternary? }

  lemma SameWidths(e: Expr, f: Expr, symbols: Symbols)
    requires Fits(e) && Fits(f) && TreeWidth(e, symbols) == TreeWidth(f, symbols)
    ensures ExpressionWidth(Flat(e), symbols) == ExpressionWidth(Flat(f), symbols)
  {
    hide ExpressionWidth, Flat, Fits, TreeWidth;
    WidthIsTreeWidth(e, symbols);
    WidthIsTreeWidth(f, symbols);
  }
}
