/** Width inference of the port checks. The code recovers the structure of an
    expression from a flat token list by splitting it again and again; here it
    is shown to agree with the width of the expression tree. */
module Width {
  import opened Tokens
  import opened Brackets
  import opened Literals

  type Symbols = map<string, Signal>

  /** A width, no width (None), or the exception raised on an empty group. */
  datatype Outcome = Width(bits: nat) | NoWidth | IndexError

  /** What a token value means to the width code. An infix operator carries its
      precedence group, numbered from the loosest; `&`, `|` and `^` are infix
      here and count as reductions only at the start of an expression. */
  datatype Role = Open | Close | Query | Colon | Comma | Infix(level: nat) | Prefix | Other

  const Levels := 8

  predicate IsCompare(v: string) { v == ">" || v == "<" || v == ">=" || v == "<=" }

  predicate IsShift(v: string) { v == "<<" || v == ">>" || v == "<<<" || v == ">>>" }

  function RoleOf(v: string): (r: Role)
    ensures r.Infix? ==> r.level < Levels
  {
    if v == "(" || v == "[" || v == "{" then Open
    else if v == ")" || v == "]" || v == "}" then Close
    else if v == "?" then Query
    else if v == ":" then Colon
    else if v == "," then Comma
    else if v == "||" then Infix(0)
    else if v == "&&" then Infix(1)
    else if v == "==" || v == "!=" then Infix(2)
    else if IsCompare(v) then Infix(3)
    else if v == "+" || v == "-" then Infix(4)
    else if IsShift(v) then Infix(5)
    else if v == "&" || v == "|" || v == "^" then Infix(6)
    else if v == "*" || v == "/" || v == "%" then Infix(7)
    else if v == "~&" || v == "~|" || v == "~^" || v == "^~" then Prefix
    else Other
  }

  predicate IsReduction(v: string) {
    RoleOf(v).Prefix? || RoleOf(v) == Infix(6)
  }

  function NoCommas(ts: seq<Token>): (r: seq<Token>)
    ensures |r| <= |ts|
  {
    if ts == [] then [] else (if RoleOf(ts[0].value).Comma? then [] else [ts[0]]) + NoCommas(ts[1..])
  }

  function Strip(ts: seq<Token>, open: string, close: string): (r: seq<Token>)
    ensures |r| <= |ts|
  {
    if |ts| >= 2 && ts[0].value == open && ts[|ts| - 1].value == close then
      var (inner, end) := Group(ts, 0, open, close);
      if end != Some(|ts| - 1) then ts else Strip(inner, open, close)
    else ts
  }

  /** The suffix that starts at the first top-level token of a role; empty when there is none. */
  function FirstFrom(s: seq<Token>, depth: nat, role: Role): (r: seq<Token>)
    ensures |r| <= |s|
  {
    if s == [] then []
    else
      var r := RoleOf(s[0].value);
      if r.Open? then FirstFrom(s[1..], depth + 1, role)
      else if r.Close? then FirstFrom(s[1..], if depth > 0 then depth - 1 else 0, role)
      else if depth == 0 && r == role then s
      else FirstFrom(s[1..], depth, role)
  }

  /** The positions of the first top-level `?` and of the first top-level `:` after it. */
  function TernaryAt(ts: seq<Token>): (r: Option<(nat, nat)>)
    ensures r.Some? ==> r.value.0 < r.value.1 < |ts|
  {
    var fromQuery := FirstFrom(ts, 0, Query);
    if fromQuery == [] then None
    else
      var fromColon := FirstFrom(fromQuery[1..], 0, Colon);
      if fromColon == [] then None else Some((|ts| - |fromQuery|, |ts| - |fromColon|))
  }

  lemma PositionsFromSuffixes(ts: seq<Token>, fromQuery: seq<Token>, fromColon: seq<Token>)
    requires FirstFrom(ts, 0, Query) == fromQuery && fromQuery != []
    requires FirstFrom(fromQuery[1..], 0, Colon) == fromColon && fromColon != []
    ensures |fromQuery| <= |ts| && |fromColon| <= |ts|
    ensures TernaryAt(ts) == Some((|ts| - |fromQuery|, |ts| - |fromColon|))
  {
    hide FirstFrom;
  }

  lemma NoQueryNoTernary(ts: seq<Token>)
    requires FirstFrom(ts, 0, Query) == []
    ensures TernaryAt(ts) == None
  {
    hide FirstFrom;
  }

  /** The rightmost top-level operator of one precedence group in a prefix,
      neither at position 0 nor at or after position `last`. */
  function OperatorAt(p: seq<Token>, level: nat, depth: nat, last: nat): (r: Option<nat>)
    ensures r.Some? ==> 0 < r.value < last && r.value < |p|
  {
    if p == [] then None
    else
      var n := |p| - 1;
      match RoleOf(p[n].value)
      case Close => OperatorAt(p[..n], level, depth + 1, last)
      case Open => OperatorAt(p[..n], level, if depth > 0 then depth - 1 else 0, last)
      case Infix(l) =>
        if depth == 0 && l == level && 0 < n < last then Some(n) else OperatorAt(p[..n], level, depth, last)
      case _ => OperatorAt(p[..n], level, depth, last)
  }

  /** The first precedence group, from `level` on, with a top-level operator. */
  function BinaryAt(ts: seq<Token>, level: nat): (r: Option<nat>)
    requires level <= Levels
    ensures r.Some? ==> 0 < r.value < |ts| - 1
    decreases Levels - level
  {
    if level == Levels || ts == [] then None
    else
      var found := OperatorAt(ts, level, 0, |ts| - 1);
      if found.Some? then found else BinaryAt(ts, level + 1)
  }

  lemma BinaryAtStep(ts: seq<Token>, level: nat)
    requires ts != [] && level < Levels
    ensures var found := OperatorAt(ts, level, 0, |ts| - 1);
      BinaryAt(ts, level) == if found.Some? then found else BinaryAt(ts, level + 1)
  {
  }

  function Max(a: nat, b: nat): nat { if a >= b then a else b }

  /** The width rule of each operator; None for the ones without a rule. */
  function OperatorWidth(op: string, left: nat, right: nat): Option<nat> {
    if op == "==" || op == "!=" || IsCompare(op) || op == "&&" || op == "||" then Some(1)
    else if IsShift(op) then Some(left)
    else if op == "*" then Some(left + right)
    else if op == "+" || op == "-" || op == "&" || op == "|" || op == "^" then Some(Max(left, right))
    else None
  }

  function OfOption(o: Option<nat>): Outcome {
    match o case None => NoWidth case Some(n) => Width(n)
  }

  function TokenWidth(t: Token, symbols: Symbols): Outcome {
    if t.kind.Identifier? then (if t.value in symbols then Width(SignalWidth(symbols[t.value])) else NoWidth)
    else if t.kind.Number? then OfOption(LiteralWidth(t.value))
    else NoWidth
  }

  function Values(ts: seq<Token>): string {
    if ts == [] then "" else ts[0].value + Values(ts[1..])
  }

  function ColonPositions(ts: seq<Token>, i: nat): (r: seq<nat>)
    requires i <= |ts|
    ensures forall p :: p in r ==> i <= p < |ts|
    decreases |ts| - i
  {
    if i == |ts| then [] else (if ts[i].value == ":" then [i] else []) + ColonPositions(ts, i + 1)
  }

  function RangeWidth(inner: seq<Token>, colon: nat): Option<nat>
    requires colon < |inner|
  {
    var left, right := ParseInt(Values(inner[..colon])), ParseInt(Values(inner[colon + 1..]));
    if left.Some? && right.Some? then Some(Distance(left.value, right.value) + 1) else None
  }

  /** The last cases: a single token, or a name with one bracket group after it. */
  function LeafWidth(m: seq<Token>, symbols: Symbols): Outcome {
    if |m| == 1 && (m[0].kind.Identifier? || m[0].kind.Number?) then TokenWidth(m[0], symbols)
    else if |m| >= 4 && m[0].kind.Identifier? && m[1].value == "[" then
      var (inner, end) := Group(m, 1, "[", "]");
      if end != Some(|m| - 1) then NoWidth
      else
        var colons := ColonPositions(inner, 0);
        var range := if |colons| == 1 then assert colons[0] in colons; RangeWidth(inner, colons[0]) else None;
        if range.Some? then Width(range.value)
        else if |inner| == 1 then Width(1)
        else NoWidth
    else NoWidth
  }

  function ExpressionWidth(tokens: seq<Token>, symbols: Symbols): Outcome
    decreases |tokens|, 1, 0
  {
    var filtered := NoCommas(tokens);
    if filtered == [] then NoWidth
    else
      var m := Strip(filtered, "(", ")");
      if m == [] then IndexError
      else if IsReduction(m[0].value) then Width(1)
      else
        var concat :=
          if m[0].value == "{" && m[|m| - 1].value == "}" then
            assert |m| >= 2;
            PartsWidth(SplitTopLevel(m[1..|m| - 1], ","), symbols, |tokens|)
          else NoWidth;
        if !concat.NoWidth? then concat
        else TernaryOrLess(m, symbols, |tokens|)
  }

  /** The sum over the parts of a concatenation, when all of them have a width. */
  function PartsWidth(parts: seq<seq<Token>>, symbols: Symbols, bound: nat): Outcome
    requires forall p :: p in parts ==> |p| < bound
    decreases bound, 0, |parts|
  {
    if parts == [] then NoWidth
    else
      var first := ExpressionWidth(parts[0], symbols);
      if |parts| == 1 then first
      else
        var rest := PartsWidth(parts[1..], symbols, bound);
        if first.IndexError? || rest.IndexError? then IndexError
        else if first.Width? && rest.Width? then Width(first.bits + rest.bits)
        else NoWidth
  }

  function TernaryOrLess(m: seq<Token>, symbols: Symbols, bound: nat): Outcome
    requires |m| <= bound
    decreases bound, 0, 1
  {
    var at := TernaryAt(m);
    if at.None? then BinaryOrLess(m, symbols, bound)
    else
      var (q, c) := at.value;
      var yes := ExpressionWidth(m[q + 1..c], symbols);
      var no := ExpressionWidth(m[c + 1..], symbols);
      if yes.IndexError? || no.IndexError? then IndexError
      else if yes.Width? && no.Width? then Width(Max(yes.bits, no.bits))
      else BinaryOrLess(m, symbols, bound)
  }

  function BinaryOrLess(m: seq<Token>, symbols: Symbols, bound: nat): Outcome
    requires |m| <= bound
    decreases bound, 0, 0
  {
    var at := BinaryAt(m, 0);
    if at.None? then LeafWidth(m, symbols)
    else
      var left := ExpressionWidth(m[..at.value], symbols);
      var right := ExpressionWidth(m[at.value + 1..], symbols);
      if left.IndexError? || right.IndexError? then IndexError
      else if left.NoWidth? || right.NoWidth? then NoWidth
      else
        var w := OperatorWidth(m[at.value].value, left.bits, right.bits);
        if w.Some? then Width(w.value) else LeafWidth(m, symbols)
  }

  lemma NoTernaryOfParts(m: seq<Token>, symbols: Symbols, bound: nat)
    requires |m| <= bound && TernaryAt(m) == None
    ensures TernaryOrLess(m, symbols, bound) == BinaryOrLess(m, symbols, bound)
  {
    hide ExpressionWidth, BinaryOrLess, TernaryAt;
  }

  lemma NoBinaryOfParts(m: seq<Token>, symbols: Symbols, bound: nat)
    requires |m| <= bound && BinaryAt(m, 0) == None
    ensures BinaryOrLess(m, symbols, bound) == LeafWidth(m, symbols)
  {
    hide ExpressionWidth, LeafWidth, BinaryAt;
  }

  lemma TernaryOfParts(m: seq<Token>, q: nat, c: nat, yes: seq<Token>, no: seq<Token>, a: nat, b: nat,
      symbols: Symbols, bound: nat)
    requires |m| <= bound && q < c < |m| && TernaryAt(m) == Some((q, c))
    requires m[q + 1..c] == yes && m[c + 1..] == no
    requires ExpressionWidth(yes, symbols) == Width(a) && ExpressionWidth(no, symbols) == Width(b)
    ensures TernaryOrLess(m, symbols, bound) == Width(Max(a, b))
  {
    hide ExpressionWidth, BinaryOrLess, TernaryAt;
  }
}
