/** The lexer: a scan over each line that yields tokens with their columns. */
module Lexer {
  import opened Tokens

  function Keywords(): set<string> {
    {
      "always", "always_comb", "always_ff", "always_latch", "assert", "assume", "assign", "automatic",
      "begin", "bit", "byte", "case", "casex", "casez", "class", "cover", "covergroup", "default", "else",
      "end", "endcase", "endclass", "endgroup", "endmodule", "endgenerate", "endinterface", "endpackage",
      "endprogram", "endproperty", "endprimitive", "endspecify", "endtask", "endfunction", "enum", "for",
      "forever", "function", "generate", "genvar", "if", "import", "initial", "inout", "input", "inside",
      "int", "interface", "integer", "longint", "localparam", "logic", "modport", "module", "negedge", "or",
      "output", "package", "packed", "parameter", "posedge", "priority", "primitive", "program", "property",
      "real", "realtime", "reg", "repeat", "shortint", "shortreal", "signed", "specify", "string", "struct",
      "table", "task", "time", "typedef", "union", "unique", "unsigned", "void", "while", "wire"
    }
  }

  /** The operators of more than one character, in the order they are tried. */
  function Operators(): seq<string> {
    [
      "<<<", ">>>", "===", "!==", "<<", ">>", "<=", ">=", "==", "!=", "&&", "||", "+=", "-=", "*=", "/=",
      "%=", "&=", "|=", "^=", "->", "=>", "::", "++", "--"
    ]
  }

  function SingleSymbols(): string {
    "()[]{};,:.@#?+-*/%&|^~!<>='"
  }

  function OperatorSymbols(): string {
    "+-*/%&|^~!<>=?:"
  }

  /** The character classes the scan relies on. */
  datatype Classes = Classes(space: char -> bool, alpha: char -> bool, digit: char -> bool, alnum: char -> bool,
      decimal: char -> bool)

  /** Letters and digits are alphanumeric, decimal digits are digits, no alphanumeric is a
      space, and the punctuation the scan knows is neither. */
  ghost predicate ClassesOk(c: Classes) {
    && (forall x :: c.alpha(x) || c.digit(x) ==> c.alnum(x))
    && (forall x :: c.decimal(x) ==> c.digit(x))
    && (forall x :: c.alnum(x) ==> !c.space(x))
    && c.space(' ')
    && (forall x :: x in SingleSymbols() || x in "\\\"_$" ==> !c.space(x) && !c.alnum(x))
    && (forall x :: x in "sSbBoOdDhH" ==> c.alnum(x))
  }

  predicate IdentStart(c: Classes, x: char) { c.alpha(x) || x == '_' || x == '$' }

  /** What continues an identifier, an escaped identifier, a number and an
      unsized number. */
  function IdentChars(c: Classes): char -> bool { x => c.alnum(x) || x == '_' || x == '$' }

  function EscapedChars(c: Classes): char -> bool { x => !c.space(x) }

  function NumberChars(c: Classes): char -> bool { x => c.alnum(x) || x == '_' || x == '\'' || x == '?' }

  function BasedChars(c: Classes): char -> bool { x => c.alnum(x) || x == '_' || x == '?' }

  /** How many leading characters satisfy a predicate. */
  function Run(s: string, p: char -> bool): (n: nat)
    ensures n <= |s| && forall k :: 0 <= k < n ==> p(s[k])
    ensures n < |s| ==> !p(s[n])
  {
    if s == "" || !p(s[0]) then 0 else 1 + Run(s[1..], p)
  }

  /** The length of a string literal after its opening quote, with the closing
      quote if there is one. */
  function StringRun(s: string, escaped: bool): (r: (nat, bool))
    ensures r.0 <= |s| && (!r.1 ==> r.0 == |s|)
  {
    if s == "" then (0, false)
    else if s[0] == '"' && !escaped then (1, true)
    else
      var (n, closed) := StringRun(s[1..], s[0] == '\\' && !escaped);
      (n + 1, closed)
  }

  /** The position in the table of the first operator the text starts with. */
  function OperatorIndex(s: string, k: nat): (r: Option<nat>)
    requires k <= |Operators()|
    ensures r.Some? ==> k <= r.value < |Operators()| && Operators()[r.value] <= s
    ensures forall j :: k <= j < (if r.Some? then r.value else |Operators()|) ==> !(Operators()[j] <= s)
    decreases |Operators()| - k
  {
    if k == |Operators()| then None else if Operators()[k] <= s then Some(k) else OperatorIndex(s, k + 1)
  }

  predicate AllOf(s: string, p: char -> bool) {
    forall k :: 0 <= k < |s| ==> p(s[k])
  }

  /** The digits of any base, and what may stand between decimal digits. */
  function DigitChars(): char -> bool { x => x in "0123456789abcdefABCDEFxXzZ?_" }

  function GroupedChars(): char -> bool { x => x in "0123456789_" }

  /** A base letter and at least one digit. */
  predicate ValidBody(body: string) {
    |body| >= 2 && body[0] in "bBoOdDhH" && AllOf(body[1..], DigitChars())
  }

  /** Digits, a quote, an optional sign letter, a base letter and at least one digit of any base. */
  predicate ValidBased(c: Classes, v: string) {
    var n := Run(v, c.decimal);
    n < |v| && v[n] == '\'' && ValidBody(Unsigned(v[n + 1..]))
  }

  /** Without its sign letter, if it starts with one. */
  function Unsigned(rest: string): string {
    if rest != "" && rest[0] in "sS" then rest[1..] else rest
  }

  predicate ValidDecimal(c: Classes, v: string) {
    v != "" && c.decimal(v[0])
    && (|v| > 1 ==> c.decimal(v[|v| - 1]) && AllOf(v[1..|v| - 1], GroupedChars()))
  }

  predicate ValidNumber(c: Classes, v: string) {
    if '\'' in v then ValidBased(c, v) else ValidDecimal(c, v)
  }

  datatype Problem = MalformedNumber | UnsizedNumber | UnterminatedString | UnknownCharacter

  datatype Scan = Lexeme(kind: Kind, length: nat, problem: Option<Problem>) | Unknown

  predicate StartsUnsized(s: string) {
    |s| > 1 && s[0] == '\'' && s[1] in "sSbBoOdDhH"
  }

  /** A punctuation token: a table operator if there is one, else a single symbol. */
  function ScanSymbol(s: string): (r: Scan)
    requires s != ""
    ensures r.Lexeme? ==> 0 < r.length <= |s|
  {
    var op := OperatorIndex(s, 0);
    if op.Some? then
      OperatorsAreLong(op.value);
      Lexeme(Operator, |Operators()[op.value]|, None)
    else if s[0] in SingleSymbols() then Lexeme(if s[0] in OperatorSymbols() then Operator else Symbol, 1, None)
    else Unknown
  }

  lemma OperatorsAreLong(k: nat)
    requires k < |Operators()|
    ensures ' ' !in Operators()[k] && 2 <= |Operators()[k]| <= 3
    ensures k < 4 <==> |Operators()[k]| == 3
  {
  }

  /** The token at the start of a text that does not start with a space. */
  function ScanOne(c: Classes, s: string): (r: Scan)
    requires s != ""
    ensures r.Lexeme? ==> 0 < r.length <= |s|
  {
    if s[0] == '\\' then Lexeme(Identifier, 1 + Run(s[1..], EscapedChars(c)), None)
    else if IdentStart(c, s[0]) then
      var n := 1 + Run(s[1..], IdentChars(c));
      Lexeme(if s[..n] in Keywords() then Keyword else Identifier, n, None)
    else if c.digit(s[0]) then
      var n := 1 + Run(s[1..], NumberChars(c));
      Lexeme(Number, n, if ValidNumber(c, s[..n]) then None else Some(MalformedNumber))
    else if StartsUnsized(s) then Lexeme(Number, 1 + Run(s[1..], BasedChars(c)), Some(UnsizedNumber))
    else if s[0] == '"' then
      var (n, closed) := StringRun(s[1..], false);
      Lexeme(Kind.Text, 1 + n, if closed then None else Some(UnterminatedString))
    else ScanSymbol(s)
  }

  datatype SourceLine = SourceLine(text: string, file: string, line: nat)

  datatype Diagnostic = Diagnostic(problem: Problem, file: string, line: nat, column: nat)

  function Report(src: SourceLine, column: nat, problem: Option<Problem>): seq<Diagnostic> {
    if problem.None? then [] else [Diagnostic(problem.value, src.file, src.line, column)]
  }

  /** The tokens and diagnostics of the rest s of a line, which starts at a column. */
  function LexFrom(c: Classes, src: SourceLine, s: string, column: nat): (seq<Token>, seq<Diagnostic>)
    decreases |s|
  {
    if s == "" then ([], [])
    else if c.space(s[0]) then LexFrom(c, src, s[1..], column + 1)
    else
      var r := ScanOne(c, s);
      if r.Unknown? then
        var (ts, ds) := LexFrom(c, src, s[1..], column + 1);
        (ts, Report(src, column, Some(UnknownCharacter)) + ds)
      else
        var (ts, ds) := LexFrom(c, src, s[r.length..], column + r.length);
        ([Token(r.kind, s[..r.length], src.file, src.line, column)] + ts,
         Report(src, column, r.problem) + ds)
  }

  function LexLine(c: Classes, src: SourceLine): (seq<Token>, seq<Diagnostic>) {
    LexFrom(c, src, src.text, 1)
  }

  function LexLines(c: Classes, lines: seq<SourceLine>): (seq<Token>, seq<Diagnostic>) {
    if lines == [] then ([], [])
    else
      var (before, reported) := LexLines(c, lines[..|lines| - 1]);
      var (ts, ds) := LexLine(c, lines[|lines| - 1]);
      (before + ts, reported + ds)
  }

  function EofToken(lines: seq<SourceLine>): Token {
    if lines == [] then Token(Eof, "<eof>", "<empty>", 1, 1)
    else Token(Eof, "<eof>", lines[|lines| - 1].file, lines[|lines| - 1].line + 1, 1)
  }
}
