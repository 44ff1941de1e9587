/** Expression trees over tokens, their token form, and their width by
    structural recursion. */
module WidthTree {
  import opened Tokens
  import opened Brackets
  import opened Literals
  import opened Width

  datatype Expr =
    | Atom(t: Token)
    | BitSelect(name: Token, lb: Token, bit: Token, rb: Token)
    | RangeSelect(name: Token, lb: Token, left: Token, colon: Token, right: Token, rb: Token)
    | Paren(lp: Token, inner: Expr, rp: Token)
    | Binary(l: Expr, op: Token, r: Expr)
    | Ternary(cond: Expr, question: Token, yes: Expr, colon: Token, no: Expr)
    | Braces(lb: Token, row: Run, rb: Token)

  /** Expressions side by side, with nothing between them; what commas stood there are gone. */
  type Run = seq<Expr>

  function Flat(e: Expr): (ts: seq<Token>)
    ensures ts != []
  {
    match e
    case Atom(t) => [t]
    case BitSelect(name, lb, bit, rb) => [name, lb, bit, rb]
    case RangeSelect(name, lb, left, colon, right, rb) => [name, lb, left, colon, right, rb]
    case Paren(lp, inner, rp) => [lp] + Flat(inner) + [rp]
    case Binary(l, op, r) => Flat(l) + [op] + Flat(r)
    case Ternary(cond, question, yes, colon, no) => Flat(cond) + [question] + Flat(yes) + [colon] + Flat(no)
    case Braces(lb, row, rb) => [lb] + RunTokens(row) + [rb]
  }

  function RunTokens(r: Run): seq<Token> {
    if r == [] then [] else Flat(r[0]) + RunTokens(r[1..])
  }

  /** A token that the width code gives no structural meaning. */
  predicate Plain(t: Token) { RoleOf(t.value).Other? }

  predicate PlainName(t: Token) { t.kind.Identifier? && Plain(t) }

  predicate Spells(t: Token, v: string) { t.value == v }

  predicate IsPair(open: Token, o: string, close: Token, c: string) {
    !open.kind.Identifier? && Spells(open, o) && Spells(close, c) && RoleOf(open.value).Open? &&
      RoleOf(close.value).Close?
  }

  /** How tightly the outermost operator binds; a ternary binds loosest of all. */
  function Tightness(e: Expr): int {
    match e
    case Binary(_, op, _) => if RoleOf(op.value).Infix? then RoleOf(op.value).level else Levels
    case Ternary(_, _, _, _, _) => -1
    case _ => Levels
  }

  /** The tree is the one the code's precedence table assigns to its tokens:
      operands that bind too loosely are in parentheses, and a ternary stands
      bare only at the top or in the false branch of another ternary. */
  predicate Fits(e: Expr) {
    match e
    case Atom(t) => Plain(t)
    case BitSelect(name, lb, bit, rb) => PlainName(name) && IsPair(lb, "[", rb, "]") && Plain(bit)
    case RangeSelect(name, lb, left, colon, right, rb) =>
      PlainName(name) && IsPair(lb, "[", rb, "]") && Plain(left) && Plain(right) && RoleOf(colon.value).Colon?
    case Paren(lp, inner, rp) => IsPair(lp, "(", rp, ")") && Fits(inner)
    case Binary(l, op, r) =>
      RoleOf(op.value).Infix? && Fits(l) && Fits(r)
      && Tightness(l) >= RoleOf(op.value).level && Tightness(r) > RoleOf(op.value).level
    case Ternary(cond, question, yes, colon, no) =>
      RoleOf(question.value).Query? && RoleOf(colon.value).Colon? && Fits(cond) && Fits(yes) && Fits(no)
      && Tightness(cond) >= 0 && Tightness(yes) >= 0
    case Braces(lb, row, rb) => IsPair(lb, "{", rb, "}") && AllFit(row)
  }

  predicate AllFit(r: Run) {
    forall k :: 0 <= k < |r| ==> Fits(r[k])
  }

  /** The width of a ternary from the widths of its branches. */
  function Wider(a: Outcome, b: Outcome): Outcome {
    if a.Width? && b.Width? then Width(Max(a.bits, b.bits)) else NoWidth
  }

  function TreeWidth(e: Expr, symbols: Symbols): Outcome {
    match e
    case Atom(t) => TokenWidth(t, symbols)
    case BitSelect(_, _, _, _) => Width(1)
    case RangeSelect(_, _, left, _, right, _) =>
      var (a, b) := (ParseInt(left.value), ParseInt(right.value));
      if a.Some? && b.Some? then Width(Distance(a.value, b.value) + 1) else NoWidth
    case Paren(_, inner, _) => TreeWidth(inner, symbols)
    case Binary(l, op, r) =>
      var (a, b) := (TreeWidth(l, symbols), TreeWidth(r, symbols));
      if a.Width? && b.Width? then OfOption(OperatorWidth(op.value, a.bits, b.bits)) else NoWidth
    case Ternary(_, _, yes, _, no) => Wider(TreeWidth(yes, symbols), TreeWidth(no, symbols))
    case Braces(_, row, _) => RowWidth(row, symbols)
  }

  /** The width of expressions side by side, as in braces: that of a single one; none for
      several whose last is no bare ternary; and otherwise the widest of the branches read. */
  function RowWidth(r: Run, symbols: Symbols): Outcome {
    if r == [] then NoWidth
    else if |r| == 1 then TreeWidth(r[0], symbols)
    else if r[|r| - 1].Ternary? then ReadWidth(r[0], RowWidth(r[1..], symbols), symbols)
    else NoWidth
  }

  /** The width read off an expression when `after` is what is read off the rest of its row. */
  function ReadWidth(e: Expr, after: Outcome, symbols: Symbols): Outcome {
    if e.Ternary? then Wider(TreeWidth(e.yes, symbols), ReadWidth(e.no, after, symbols)) else after
  }

  predicate IsLeaf(e: Expr) { e.Atom? || e.BitSelect? || e.RangeSelect? }

  // Regrouping of concatenations.

  lemma RegroupParen(lp: Token, x: seq<Token>, rp: Token, s: seq<Token>)
    ensures ([lp] + x + [rp]) + s == [lp] + (x + ([rp] + s))
  {
  }

  lemma RegroupBinary(x: seq<Token>, t: Token, y: seq<Token>, s: seq<Token>)
    ensures (x + [t] + y) + s == x + ([t] + (y + s))
  {
  }

  lemma RegroupTernary(x: seq<Token>, t: Token, y: seq<Token>, u: Token, z: seq<Token>, s: seq<Token>)
    ensures (x + [t] + y + [u] + z) + s == x + ([t] + (y + ([u] + (z + s))))
  {
  }

  // One step of the backward scan: over a token, into a group, out of a group.

  lemma BackOver(p: seq<Token>, t: Token, level: nat, depth: nat, last: nat)
    requires var r := RoleOf(t.value); !r.Open? && !r.Close? && (depth > 0 || r != Infix(level))
    ensures OperatorAt(p + [t], level, depth, last) == OperatorAt(p, level, depth, last)
  {
    assert (p + [t])[..|p|] == p;
  }

  lemma BackIn(p: seq<Token>, t: Token, level: nat, depth: nat, last: nat)
    requires RoleOf(t.value).Close?
    ensures OperatorAt(p + [t], level, depth, last) == OperatorAt(p, level, depth + 1, last)
  {
    assert (p + [t])[..|p|] == p;
  }

  lemma BackOut(p: seq<Token>, t: Token, level: nat, depth: nat, last: nat)
    requires RoleOf(t.value).Open? && depth > 0
    ensures OperatorAt(p + [t], level, depth, last) == OperatorAt(p, level, depth - 1, last)
  {
    assert (p + [t])[..|p|] == p;
  }

  lemma LeafSkipped(p: seq<Token>, e: Expr, level: nat, depth: nat, last: nat)
    requires Fits(e) && IsLeaf(e)
    ensures OperatorAt(p + Flat(e), level, depth, last) == OperatorAt(p, level, depth, last)
  {
    hide OperatorAt, RoleOf, Spells;
    match e
    case BitSelect(name, lb, bit, rb) =>
      assert p + Flat(e) == p + [name] + [lb] + [bit] + [rb];
      BackIn(p + [name] + [lb] + [bit], rb, level, depth, last);
      BackOver(p + [name] + [lb], bit, level, depth + 1, last);
      BackOut(p + [name], lb, level, depth + 1, last);
      BackOver(p, name, level, depth, last);
    case RangeSelect(name, lb, left, colon, right, rb) =>
      assert p + Flat(e) == p + [name] + [lb] + [left] + [colon] + [right] + [rb];
      BackIn(p + [name] + [lb] + [left] + [colon] + [right], rb, level, depth, last);
      BackOver(p + [name] + [lb] + [left] + [colon], right, level, depth + 1, last);
      BackOver(p + [name] + [lb] + [left], colon, level, depth + 1, last);
      BackOver(p + [name] + [lb], left, level, depth + 1, last);
      BackOut(p + [name], lb, level, depth + 1, last);
      BackOver(p, name, level, depth, last);
    case Atom(t) =>
      BackOver(p, t, level, depth, last);
  }

  /** Scanning backwards passes over an expression that is inside brackets or
      binds tighter than the group looked for. */
  lemma {:induction false} OperatorSkips(p: seq<Token>, e: Expr, level: nat, depth: nat, last: nat)
    requires Fits(e) && (depth > 0 || Tightness(e) > level)
    ensures OperatorAt(p + Flat(e), level, depth, last) == OperatorAt(p, level, depth, last)
    decreases e
  {
    hide OperatorAt, RoleOf, Spells;
    match e
    case Paren(lp, inner, rp) =>
      assert p + Flat(e) == p + [lp] + Flat(inner) + [rp];
      BackIn(p + [lp] + Flat(inner), rp, level, depth, last);
      OperatorSkips(p + [lp], inner, level, depth + 1, last);
      BackOut(p, lp, level, depth + 1, last);
    case Binary(l, op, r) =>
      assert p + Flat(e) == p + Flat(l) + [op] + Flat(r);
      OperatorSkips(p + Flat(l) + [op], r, level, depth, last);
      BackOver(p + Flat(l), op, level, depth, last);
      OperatorSkips(p, l, level, depth, last);
    case Ternary(cond, question, yes, colon, no) =>
      assert p + Flat(e) == p + Flat(cond) + [question] + Flat(yes) + [colon] + Flat(no);
      OperatorSkips(p + Flat(cond) + [question] + Flat(yes) + [colon], no, level, depth, last);
      BackOver(p + Flat(cond) + [question] + Flat(yes), colon, level, depth, last);
      OperatorSkips(p + Flat(cond) + [question], yes, level, depth, last);
      BackOver(p + Flat(cond), question, level, depth, last);
      OperatorSkips(p, cond, level, depth, last);
    case Braces(lb, row, rb) =>
      assert p + Flat(e) == p + [lb] + RunTokens(row) + [rb];
      BackIn(p + [lb] + RunTokens(row), rb, level, depth, last);
      RowBackward(p + [lb], row, level, depth + 1, last);
      BackOut(p, lb, level, depth + 1, last);
    case _ =>
      LeafSkipped(p, e, level, depth, last);
  }

  lemma {:induction false} RowBackward(p: seq<Token>, r: Run, level: nat, depth: nat, last: nat)
    requires AllFit(r) && depth > 0
    ensures OperatorAt(p + RunTokens(r), level, depth, last) == OperatorAt(p, level, depth, last)
    decreases r
  {
    hide OperatorAt, Flat, Fits;
    if r == [] {
      assert p + RunTokens(r) == p;
    } else {
      assert p + RunTokens(r) == (p + Flat(r[0])) + RunTokens(r[1..]);
      assert Fits(r[0]);
      RowBackward(p + Flat(r[0]), r[1..], level, depth, last);
      OperatorSkips(p, r[0], level, depth, last);
    }
  }

  lemma StopHere(q: seq<Token>, op: Token, level: nat, last: nat)
    requires RoleOf(op.value) == Infix(level) && 0 < |q| < last
    ensures OperatorAt(q + [op], level, 0, last) == Some(|q|)
  {
    hide RoleOf;
  }

  lemma RootParts(e: Expr)
    requires Fits(e) && e.Binary?
    ensures RoleOf(e.op.value).Infix? && Fits(e.l) && Fits(e.r) && Tightness(e.r) > RoleOf(e.op.value).level
    ensures Flat(e) == Flat(e.l) + [e.op] + Flat(e.r)
  {
  }

  /** The scan for the outermost operator's group stops at that operator. */
  lemma OperatorFindsRoot(e: Expr)
    requires Fits(e) && e.Binary?
    ensures OperatorAt(Flat(e), RoleOf(e.op.value).level, 0, |Flat(e)| - 1) == Some(|Flat(e.l)|)
  {
    RootParts(e);
    hide RoleOf, Flat, Fits, Tightness, OperatorAt;
    var level := RoleOf(e.op.value).level;
    OperatorSkips(Flat(e.l) + [e.op], e.r, level, 0, |Flat(e)| - 1);
    StopHere(Flat(e.l), e.op, level, |Flat(e)| - 1);
  }

  /** The operator split of a token list is the root of its tree. */
  lemma {:induction false} BinaryFindsRoot(e: Expr, level: nat)
    requires Fits(e) && level <= Levels && Tightness(e) >= level
    ensures BinaryAt(Flat(e), level) == if e.Binary? then Some(|Flat(e.l)|) else None
    decreases Levels - level
  {
    hide OperatorAt, RoleOf, Spells;
    if level < Levels {
      if Tightness(e) > level {
        OperatorSkips([], e, level, 0, |Flat(e)| - 1);
        assert [] + Flat(e) == Flat(e);
        EmptyScan(level, |Flat(e)| - 1);
        BinaryFindsRoot(e, level + 1);
      } else {
        OperatorFindsRoot(e);
      }
    }
  }

  lemma EmptyScan(level: nat, last: nat)
    ensures OperatorAt([], level, 0, last) == None
  {
  }

  predicate Separator(r: Role) { r.Query? || r.Colon? }

  // One step of the forward scan: over a token, into a group, out of a group.

  lemma ForwardOver(t: Token, s: seq<Token>, depth: nat, role: Role)
    requires var r := RoleOf(t.value); !r.Open? && !r.Close? && (depth > 0 || r != role)
    ensures FirstFrom([t] + s, depth, role) == FirstFrom(s, depth, role)
  {
    assert ([t] + s)[1..] == s;
  }

  lemma ForwardIn(t: Token, s: seq<Token>, depth: nat, role: Role)
    requires RoleOf(t.value).Open?
    ensures FirstFrom([t] + s, depth, role) == FirstFrom(s, depth + 1, role)
  {
    assert ([t] + s)[1..] == s;
  }

  lemma ForwardOut(t: Token, s: seq<Token>, depth: nat, role: Role)
    requires RoleOf(t.value).Close? && depth > 0
    ensures FirstFrom([t] + s, depth, role) == FirstFrom(s, depth - 1, role)
  {
    assert ([t] + s)[1..] == s;
  }

  lemma LeafSkippedForward(e: Expr, s: seq<Token>, depth: nat, role: Role)
    requires Fits(e) && IsLeaf(e) && Separator(role)
    ensures FirstFrom(Flat(e) + s, depth, role) == FirstFrom(s, depth, role)
  {
    hide FirstFrom, RoleOf, Spells;
    match e
    case BitSelect(name, lb, bit, rb) =>
      assert Flat(e) + s == [name] + ([lb] + ([bit] + ([rb] + s)));
      ForwardOver(name, [lb] + ([bit] + ([rb] + s)), depth, role);
      ForwardIn(lb, [bit] + ([rb] + s), depth, role);
      ForwardOver(bit, [rb] + s, depth + 1, role);
      ForwardOut(rb, s, depth + 1, role);
    case RangeSelect(name, lb, left, colon, right, rb) =>
      assert Flat(e) + s == [name] + ([lb] + ([left] + ([colon] + ([right] + ([rb] + s)))));
      ForwardOver(name, [lb] + ([left] + ([colon] + ([right] + ([rb] + s)))), depth, role);
      ForwardIn(lb, [left] + ([colon] + ([right] + ([rb] + s))), depth, role);
      ForwardOver(left, [colon] + ([right] + ([rb] + s)), depth + 1, role);
      ForwardOver(colon, [right] + ([rb] + s), depth + 1, role);
      ForwardOver(right, [rb] + s, depth + 1, role);
      ForwardOut(rb, s, depth + 1, role);
    case Atom(t) =>
      ForwardOver(t, s, depth, role);
  }

  /** The forward scan passes over an expression that is inside brackets or is no ternary. */
  lemma {:induction false} SeparatorSkips(e: Expr, s: seq<Token>, depth: nat, role: Role)
    requires Fits(e) && (depth > 0 || Tightness(e) >= 0) && Separator(role)
    ensures FirstFrom(Flat(e) + s, depth, role) == FirstFrom(s, depth, role)
    decreases e
  {
    hide FirstFrom, RoleOf, Spells;
    match e
    case Paren(lp, inner, rp) =>
      RegroupParen(lp, Flat(inner), rp, s);
      ForwardIn(lp, Flat(inner) + ([rp] + s), depth, role);
      SeparatorSkips(inner, [rp] + s, depth + 1, role);
      ForwardOut(rp, s, depth + 1, role);
    case Binary(l, op, r) =>
      RegroupBinary(Flat(l), op, Flat(r), s);
      SeparatorSkips(l, [op] + (Flat(r) + s), depth, role);
      ForwardOver(op, Flat(r) + s, depth, role);
      SeparatorSkips(r, s, depth, role);
    case Ternary(cond, question, yes, colon, no) =>
      RegroupTernary(Flat(cond), question, Flat(yes), colon, Flat(no), s);
      SeparatorSkips(cond, [question] + (Flat(yes) + ([colon] + (Flat(no) + s))), depth, role);
      ForwardOver(question, Flat(yes) + ([colon] + (Flat(no) + s)), depth, role);
      SeparatorSkips(yes, [colon] + (Flat(no) + s), depth, role);
      ForwardOver(colon, Flat(no) + s, depth, role);
      SeparatorSkips(no, s, depth, role);
    case Braces(lb, row, rb) =>
      RegroupParen(lb, RunTokens(row), rb, s);
      ForwardIn(lb, RunTokens(row) + ([rb] + s), depth, role);
      RowForward(row, [rb] + s, depth + 1, role);
      ForwardOut(rb, s, depth + 1, role);
    case _ =>
      LeafSkippedForward(e, s, depth, role);
  }

  lemma {:induction false} RowForward(r: Run, s: seq<Token>, depth: nat, role: Role)
    requires AllFit(r) && depth > 0 && Separator(role)
    ensures FirstFrom(RunTokens(r) + s, depth, role) == FirstFrom(s, depth, role)
    decreases r
  {
    hide FirstFrom, Flat, Fits, Separator;
    if r == [] {
      assert RunTokens(r) + s == s;
    } else {
      assert RunTokens(r) + s == Flat(r[0]) + (RunTokens(r[1..]) + s);
      assert Fits(r[0]);
      SeparatorSkips(r[0], RunTokens(r[1..]) + s, depth, role);
      RowForward(r[1..], s, depth, role);
    }
  }

  lemma TernaryRoles(e: Expr)
    requires Fits(e) && e.Ternary?
    ensures Fits(e.cond) && Fits(e.yes) && Tightness(e.cond) >= 0 && Tightness(e.yes) >= 0
    ensures RoleOf(e.question.value).Query? && RoleOf(e.colon.value).Colon?
  {
  }

  lemma FlatTernary(e: Expr)
    requires e.Ternary?
    ensures Flat(e) == Flat(e.cond) + ([e.question] + (Flat(e.yes) + ([e.colon] + Flat(e.no))))
  {
    RegroupTernary(Flat(e.cond), e.question, Flat(e.yes), e.colon, Flat(e.no), []);
    assert Flat(e) + [] == Flat(e) && Flat(e.no) + [] == Flat(e.no);
  }

  lemma FirstIsHere(t: Token, s: seq<Token>, role: Role)
    requires Separator(role) && RoleOf(t.value) == role
    ensures FirstFrom([t] + s, 0, role) == [t] + s
  {
  }

  /** Outside a ternary it finds nothing. */
  lemma NoTernaryFound(e: Expr)
    requires Fits(e) && !e.Ternary?
    ensures TernaryAt(Flat(e)) == None
  {
    hide RoleOf, Spells;
    assert Flat(e) == Flat(e) + [];
    SeparatorSkips(e, [], 0, Query);
  }

  /** Bracket matching on a suffix: what is left from the closer on, empty when unmatched. */
  function CloserFrom(s: seq<Token>, depth: nat, open: string, close: string): (r: seq<Token>)
    requires depth > 0
    ensures |r| <= |s|
  {
    if s == [] then []
    else if s[0].value == open then CloserFrom(s[1..], depth + 1, open, close)
    else if s[0].value == close then
      if depth == 1 then s else CloserFrom(s[1..], depth - 1, open, close)
    else CloserFrom(s[1..], depth, open, close)
  }

  lemma {:induction false} MatchIsCloserFrom(ts: seq<Token>, i: nat, depth: nat, open: string, close: string)
    requires i <= |ts| && depth > 0
    ensures var rest := CloserFrom(ts[i..], depth, open, close);
      MatchFrom(ts, i, depth, open, close) == if rest == [] then None else Some(|ts| - |rest|)
    decreases |ts| - i
  {
    if i < |ts| {
      assert ts[i..][1..] == ts[i + 1..];
      var d := if ts[i].value == open then depth + 1 else if ts[i].value == close then depth - 1 else depth;
      if d > 0 {
        MatchIsCloserFrom(ts, i + 1, d, open, close);
      }
    }
  }

  predicate NoParen(t: Token) { t.value != "(" && t.value != ")" }

  lemma OtherRolesAreNoParens()
    ensures forall t: Token {:trigger RoleOf(t.value)} :: !RoleOf(t.value).Open? && !RoleOf(t.value).Close? ==>
      NoParen(t)
    ensures forall t {:trigger Spells(t, "(")} :: Spells(t, "(") ==> t.value == "("
    ensures forall t {:trigger Spells(t, ")")} :: Spells(t, ")") ==> t.value == ")"
    ensures forall t {:trigger Spells(t, "[")} :: Spells(t, "[") ==> NoParen(t)
    ensures forall t {:trigger Spells(t, "]")} :: Spells(t, "]") ==> NoParen(t)
    ensures forall t {:trigger Spells(t, "{")} :: Spells(t, "{") ==> NoParen(t)
    ensures forall t {:trigger Spells(t, "}")} :: Spells(t, "}") ==> NoParen(t)
  {
  }

  lemma MatchOver(t: Token, s: seq<Token>, depth: nat)
    requires NoParen(t) && depth > 0
    ensures CloserFrom([t] + s, depth, "(", ")") == CloserFrom(s, depth, "(", ")")
  {
    assert ([t] + s)[1..] == s;
  }

  lemma MatchIn(t: Token, s: seq<Token>, depth: nat)
    requires t.value == "(" && depth > 0
    ensures CloserFrom([t] + s, depth, "(", ")") == CloserFrom(s, depth + 1, "(", ")")
  {
    assert ([t] + s)[1..] == s;
  }

  lemma MatchOut(t: Token, s: seq<Token>, depth: nat)
    requires t.value == ")" && depth > 0
    ensures CloserFrom([t] + s, depth, "(", ")") == if depth == 1 then [t] + s else CloserFrom(s, depth - 1, "(", ")")
  {
    assert ([t] + s)[1..] == s;
  }

  lemma LeafMatched(e: Expr, s: seq<Token>, depth: nat)
    requires Fits(e) && IsLeaf(e) && depth > 0
    ensures CloserFrom(Flat(e) + s, depth, "(", ")") == CloserFrom(s, depth, "(", ")")
  {
    OtherRolesAreNoParens();
    hide CloserFrom, RoleOf, Spells, NoParen;
    match e
    case BitSelect(name, lb, bit, rb) =>
      assert Flat(e) + s == [name] + ([lb] + ([bit] + ([rb] + s)));
      MatchOver(name, [lb] + ([bit] + ([rb] + s)), depth);
      MatchOver(lb, [bit] + ([rb] + s), depth);
      MatchOver(bit, [rb] + s, depth);
      MatchOver(rb, s, depth);
    case RangeSelect(name, lb, left, colon, right, rb) =>
      assert Flat(e) + s == [name] + ([lb] + ([left] + ([colon] + ([right] + ([rb] + s)))));
      MatchOver(name, [lb] + ([left] + ([colon] + ([right] + ([rb] + s)))), depth);
      MatchOver(lb, [left] + ([colon] + ([right] + ([rb] + s))), depth);
      MatchOver(left, [colon] + ([right] + ([rb] + s)), depth);
      MatchOver(colon, [right] + ([rb] + s), depth);
      MatchOver(right, [rb] + s, depth);
      MatchOver(rb, s, depth);
    case Atom(t) =>
      MatchOver(t, s, depth);
  }

  /** The parentheses of an expression are balanced. */
  lemma {:induction false} ExprIsBalanced(e: Expr, s: seq<Token>, depth: nat)
    requires Fits(e) && depth > 0
    ensures CloserFrom(Flat(e) + s, depth, "(", ")") == CloserFrom(s, depth, "(", ")")
    decreases e
  {
    OtherRolesAreNoParens();
    hide CloserFrom, RoleOf, Spells, NoParen;
    match e
    case Paren(lp, inner, rp) =>
      RegroupParen(lp, Flat(inner), rp, s);
      MatchIn(lp, Flat(inner) + ([rp] + s), depth);
      ExprIsBalanced(inner, [rp] + s, depth + 1);
      MatchOut(rp, s, depth + 1);
    case Binary(l, op, r) =>
      RegroupBinary(Flat(l), op, Flat(r), s);
      ExprIsBalanced(l, [op] + (Flat(r) + s), depth);
      MatchOver(op, Flat(r) + s, depth);
      ExprIsBalanced(r, s, depth);
    case Ternary(cond, question, yes, colon, no) =>
      RegroupTernary(Flat(cond), question, Flat(yes), colon, Flat(no), s);
      ExprIsBalanced(cond, [question] + (Flat(yes) + ([colon] + (Flat(no) + s))), depth);
      MatchOver(question, Flat(yes) + ([colon] + (Flat(no) + s)), depth);
      ExprIsBalanced(yes, [colon] + (Flat(no) + s), depth);
      MatchOver(colon, Flat(no) + s, depth);
      ExprIsBalanced(no, s, depth);
    case Braces(lb, row, rb) =>
      RegroupParen(lb, RunTokens(row), rb, s);
      MatchOver(lb, RunTokens(row) + ([rb] + s), depth);
      RowIsBalanced(row, [rb] + s, depth);
      MatchOver(rb, s, depth);
    case _ =>
      LeafMatched(e, s, depth);
  }

  lemma {:induction false} RowIsBalanced(r: Run, s: seq<Token>, depth: nat)
    requires AllFit(r) && depth > 0
    ensures CloserFrom(RunTokens(r) + s, depth, "(", ")") == CloserFrom(s, depth, "(", ")")
    decreases r
  {
    hide CloserFrom, Flat, Fits;
    if r == [] {
      assert RunTokens(r) + s == s;
    } else {
      assert RunTokens(r) + s == Flat(r[0]) + (RunTokens(r[1..]) + s);
      assert Fits(r[0]);
      ExprIsBalanced(r[0], RunTokens(r[1..]) + s, depth);
      RowIsBalanced(r[1..], s, depth);
    }
  }

  /** A parenthesis at the very start closes at the end of a parenthesised
      expression, and before the end of any other. */
  lemma {:induction false} LeadingParenCloses(e: Expr, s: seq<Token>)
    requires Fits(e) && Flat(e)[0].value == "("
    ensures var rest := CloserFrom((Flat(e) + s)[1..], 1, "(", ")");
      if e.Paren? then rest == [e.rp] + s else |rest| > |s| + 1
  {
    OtherRolesAreNoParens();
    hide CloserFrom, Spells;
    match e
    case Paren(lp, inner, rp) =>
      RegroupParen(lp, Flat(inner), rp, s);
      AfterFirst(lp, Flat(inner) + ([rp] + s));
      ExprIsBalanced(inner, [rp] + s, 1);
      MatchOut(rp, s, 1);
    case Binary(l, op, r) =>
      RegroupBinary(Flat(l), op, Flat(r), s);
      LeadingParenCloses(l, [op] + (Flat(r) + s));
    case Ternary(cond, question, yes, colon, no) =>
      RegroupTernary(Flat(cond), question, Flat(yes), colon, Flat(no), s);
      LeadingParenCloses(cond, [question] + (Flat(yes) + ([colon] + (Flat(no) + s))));
    case _ =>
      assert false;
  }

  lemma AfterFirst(t: Token, s: seq<Token>)
    ensures ([t] + s)[1..] == s
  {
  }

  function Core(e: Expr): (c: Expr)
    ensures !c.Paren? && (c == e || c < e)
  {
    if e.Paren? then Core(e.inner) else e
  }

  lemma {:induction false} CoreFits(e: Expr)
    requires Fits(e)
    ensures Fits(Core(e))
  {
    if e.Paren? {
      CoreFits(e.inner);
    }
  }

  /** Removing outer groups from the tokens removes the outer parentheses of the tree. */
  lemma {:induction false} StripIsCore(e: Expr)
    requires Fits(e)
    ensures Strip(Flat(e), "(", ")") == Flat(Core(e))
  {
    var ts := Flat(e);
    OtherRolesAreNoParens();
    hide RoleOf, Spells, CloserFrom;
    if ts[0].value == "(" {
      LeadingParenCloses(e, []);
      assert ts + [] == ts;
      MatchIsCloserFrom(ts, 1, 1, "(", ")");
      if e.Paren? {
        assert ts[1..|ts| - 1] == Flat(e.inner);
        StripIsCore(e.inner);
      }
    }
  }

  /** An expression starts with a plain token, a parenthesis or a brace. */
  lemma {:induction false} FirstToken(e: Expr)
    requires Fits(e)
    ensures var t := Flat(e)[0]; RoleOf(t.value).Other? || Spells(t, "(") || Spells(t, "{")
  {
    hide RoleOf, Spells;
    match e
    case Binary(l, _, _) =>
      FirstToken(l);
    case Ternary(cond, _, _, _, _) =>
      FirstToken(cond);
    case _ =>
  }
}
