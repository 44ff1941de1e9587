/** Where the parser's collect and skip routines stop, as functions of the token list. */
module ParserSpec {
  import opened Tokens
  import opened Brackets
  import opened Lexer

  /** One eof token, at the end. */
  ghost predicate WellFormed(ts: seq<Token>) {
    && ts != [] && ts[|ts| - 1].kind == Eof && ts[|ts| - 1].value == "<eof>"
    && forall i :: 0 <= i < |ts| - 1 ==> ts[i].kind != Eof
  }

  predicate Is(t: Token, word: string) { t.value == word }

  predicate OneOf(t: Token, words: set<string>) { t.value in words }

  /** The list ts[from..to]. */
  datatype Slice = Slice(from: nat, to: nat, tokens: seq<Token>)

  ghost predicate IsSlice(ts: seq<Token>, s: Slice, lo: nat, hi: nat) {
    lo <= s.from <= s.to <= hi < |ts| && s.tokens == ts[s.from..s.to]
  }

  /** The first position from i whose token is among the words; the last position if none is. */
  function SkipTo(ts: seq<Token>, i: nat, words: set<string>): (r: nat)
    requires i < |ts|
    ensures i <= r < |ts| && (r < |ts| - 1 ==> OneOf(ts[r], words))
    ensures forall j :: i <= j < r ==> !OneOf(ts[j], words)
    decreases |ts| - i
  {
    if i == |ts| - 1 || OneOf(ts[i], words) then i else SkipTo(ts, i + 1, words)
  }

  lemma SkipToSteps(ts: seq<Token>, i: nat, words: set<string>)
    requires i < |ts|
    ensures SkipTo(ts, i, words) == if i == |ts| - 1 || OneOf(ts[i], words) then i else SkipTo(ts, i + 1, words)
  {
  }

  lemma KeywordsDiffer(t: Token, start: string, end: string)
    requires start != end && end != "endmodule"
    ensures Is(t, end) ==> !Is(t, start) && !Is(t, "endmodule")
  {
  }

  /** How far the search for endmodule has to go from a position. */
  lemma LimitStep(ts: seq<Token>, i: nat)
    requires i < |ts|
    ensures var limit := SkipTo(ts, i, {"endmodule"});
      if i == |ts| - 1 || Is(ts[i], "endmodule") then limit == i
      else limit == SkipTo(ts, i + 1, {"endmodule"}) && limit > i
  {
  }

  /** Where a statement stops: at its top-level semicolon, or before an
      endmodule or end at top level, or at the last position. */
  function StatementStop(ts: seq<Token>, i: nat, depth: nat): (r: nat)
    requires i < |ts|
    ensures i <= r < |ts|
    decreases |ts| - i
  {
    if i == |ts| - 1 then i
    else if depth == 0 && Is(ts[i], ";") then i
    else
      var d := DepthAfter(depth, ts[i].value);
      if d == 0 && OneOf(ts[i], {"endmodule", "end"}) then i else StatementStop(ts, i + 1, d)
  }

  function StatementEnd(ts: seq<Token>, i: nat): (r: nat)
    requires i < |ts|
    ensures StatementStop(ts, i, 0) <= r < |ts|
  {
    var stop := StatementStop(ts, i, 0);
    if stop < |ts| - 1 && Is(ts[stop], ";") then stop + 1 else stop
  }

  /** A statement that does not start at a stopping keyword takes up at least one token. */
  lemma StatementMoves(ts: seq<Token>, i: nat)
    requires i + 1 < |ts| && !OneOf(ts[i], {"endmodule", "end"})
    ensures StatementEnd(ts, i) > i
  {
  }

  predicate Declares(t: Token) { OneOf(t, DIRECTIONS) || OneOf(t, DATA_TYPES) }

  predicate SetsParameter(t: Token) { OneOf(t, {"parameter", "localparam"}) }

  lemma DeclarationsDoNotStop(t: Token)
    ensures Declares(t) || SetsParameter(t) ==> !OneOf(t, {"endmodule", "end"})
  {
  }

  /** One step of matching in the part of ts before a limit. */
  lemma MatchStep(ts: seq<Token>, limit: nat, i: nat, depth: nat, open: string, close: string)
    requires i <= limit <= |ts| && depth > 0
    ensures var m := MatchFrom(ts[..limit], i, depth, open, close);
      if i == limit then m.None?
      else if Is(ts[i], open) then m == MatchFrom(ts[..limit], i + 1, depth + 1, open, close)
      else if Is(ts[i], close) then
        m == (if depth == 1 then Some(i) else MatchFrom(ts[..limit], i + 1, depth - 1, open, close))
      else m == MatchFrom(ts[..limit], i + 1, depth, open, close)
  {
  }

  /** The match in the part of ts before a limit. */
  function MatchBefore(ts: seq<Token>, limit: nat, i: nat, depth: nat, open: string, close: string): Option<nat>
    requires i <= limit <= |ts| && depth > 0
  {
    MatchFrom(ts[..limit], i, depth, open, close)
  }

  lemma MatchBeforeStep(ts: seq<Token>, limit: nat, i: nat, depth: nat, open: string, close: string)
    requires i <= limit <= |ts| && depth > 0
    ensures var m := MatchBefore(ts, limit, i, depth, open, close);
      if i == limit then m.None?
      else if Is(ts[i], open) then m == MatchBefore(ts, limit, i + 1, depth + 1, open, close)
      else if Is(ts[i], close) then
        m == (if depth == 1 then Some(i) else MatchBefore(ts, limit, i + 1, depth - 1, open, close))
      else m == MatchBefore(ts, limit, i + 1, depth, open, close)
  {
    MatchStep(ts, limit, i, depth, open, close);
    hide MatchFrom;
  }

  lemma OneMore(ts: seq<Token>, from: nat, i: nat)
    requires from <= i < |ts|
    ensures ts[from..i] + [ts[i]] == ts[from..i + 1]
  {
  }

  /** The last plain identifier of a list. */
  function LastName(ts: seq<Token>): Option<string> {
    if ts == [] then None
    else
      var t := ts[|ts| - 1];
      if t.kind == Identifier && t.value !in Keywords() then Some(t.value) else LastName(ts[..|ts| - 1])
  }

  /** The position after the end of a group whose opener is just before i; the
      last position if the group does not end. */
  function After(ts: seq<Token>, i: nat, open: string, close: string): (r: nat)
    requires i < |ts|
    ensures i <= r < |ts|
  {
    var m := MatchFrom(ts[..|ts| - 1], i, 1, open, close);
    if m.Some? then m.value + 1 else |ts| - 1
  }

  /** The end of an if or case statement: a semicolon not followed by else, or an
      end or endcase, with every begin and case closed; i is the next position. */
  function CompoundEnd(ts: seq<Token>, i: nat, begins: nat, cases: nat): (r: nat)
    requires i < |ts|
    ensures i <= r < |ts|
    decreases |ts| - i
  {
    if i == |ts| - 1 then i
    else if Is(ts[i], "begin") then CompoundEnd(ts, i + 1, begins + 1, cases)
    else if Is(ts[i], "end") then
      var b := if begins > 0 then begins - 1 else 0;
      if b == 0 && cases == 0 then i + 1 else CompoundEnd(ts, i + 1, b, cases)
    else if OneOf(ts[i], {"case", "casez", "casex"}) then CompoundEnd(ts, i + 1, begins, cases + 1)
    else if Is(ts[i], "endcase") then
      var c := if cases > 0 then cases - 1 else 0;
      if begins == 0 && c == 0 then i + 1 else CompoundEnd(ts, i + 1, begins, c)
    else if Is(ts[i], ";") && begins == 0 && cases == 0 && !Is(ts[i + 1], "else") then i + 1
    else CompoundEnd(ts, i + 1, begins, cases)
  }

  /** After skipping to a word, and past it if it is a semicolon. */
  function ResyncEnd(ts: seq<Token>, i: nat, words: set<string>): (r: nat)
    requires i < |ts|
    ensures i <= r < |ts|
  {
    var stop := SkipTo(ts, i, words);
    if Is(ts[stop], ";") && stop < |ts| - 1 then stop + 1 else stop
  }

  /** After an unsupported construct that starts with a keyword at i. */
  function UnsupportedEnd(ts: seq<Token>, i: nat, start: string): (r: nat)
    requires i + 1 < |ts|
    ensures i < r < |ts|
  {
    var end := EndKeyword(start);
    if end.None? then ResyncEnd(ts, i + 1, {";", "endmodule"}) else After(ts, i + 1, start, end.value)
  }

  const DIRECTIONS := {"input", "output", "inout"}

  const DATA_TYPES := {"wire", "reg", "logic", "bit", "byte", "shortint", "int", "longint", "integer", "time", "genvar"}

  const UNSUPPORTED := {
    "program", "class", "union", "for", "while", "repeat", "forever", "specify", "primitive", "assert", "assume",
    "cover", "property", "covergroup"
  }

  function EndKeyword(start: string): Option<string> {
    if start == "program" then Some("endprogram")
    else if start == "class" then Some("endclass")
    else if start == "specify" then Some("endspecify")
    else if start == "primitive" then Some("endprimitive")
    else if start == "property" then Some("endproperty")
    else if start == "covergroup" then Some("endgroup")
    else None
  }
}
