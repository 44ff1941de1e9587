/** The words and operators the parser and the width rules act on are tokens of their own
    kind to the lexer. */
module Vocabulary {
  import opened Tokens
  import opened Lexer
  import opened LexerKinds
  import ParserPrint
  import Width
  import WidthTree
  import WidthRules

  const STRUCTURE := {
    "module", "endmodule", "package", "endpackage", "interface", "endinterface", "modport", "import", "typedef",
    "generate", "endgenerate", "function", "endfunction", "task", "endtask", "assign", "initial", "always",
    "always_comb", "always_ff", "always_latch", "begin", "end", "if", "else", "case", "casez", "casex", "endcase",
    "posedge", "negedge"
  }

  lemma StructureWords(w: string)
    ensures w in STRUCTURE ==> w in Keywords()
  {
  }

  /** Every word the parser acts on is a keyword, so no identifier is taken for one. */
  lemma ActedOnAreKeywords(w: string)
    requires
      || w in STRUCTURE || w in ParserPrint.DECLARING || w in ParserPrint.PARAMETERS
      || w in ParserPrint.SKIPPED_STATEMENTS || ParserPrint.SkipEnd(w).Some?
      || exists s :: ParserPrint.SkipEnd(s) == Some(w)
    ensures w in Keywords()
  {
    StructureWords(w);
    DeclaringAreKeywords(w);
    SkippedAreKeywords(w);
  }

  lemma DeclaringAreKeywords(w: string)
    ensures w in ParserPrint.DECLARING || w in ParserPrint.PARAMETERS ==> w in Keywords()
  {
  }

  lemma SkippedAreKeywords(w: string)
    ensures w in ParserPrint.SKIPPED_STATEMENTS || ParserPrint.SkipEnd(w).Some? ==> w in Keywords()
    ensures forall s :: ParserPrint.SkipEnd(s) == Some(w) ==> w in Keywords()
  {
  }

  /** Every operator with a precedence is one operator token. */
  lemma OperatorsAreTokens(v: string, k: nat)
    requires k < |WidthRules.PRECEDENCE| && v in WidthRules.PRECEDENCE[k]
    ensures v != "" && ScanSymbol(v) == Lexeme(Operator, |v|, None)
  {
    if |v| == 1 { SingleOperator(v, k); } else { TableOperator(v, k); }
  }

  lemma SingleOperator(v: string, k: nat)
    requires k < |WidthRules.PRECEDENCE| && v in WidthRules.PRECEDENCE[k] && |v| == 1
    ensures ScanSymbol(v) == Lexeme(Operator, 1, None)
  {
    assert v[0] in OperatorSymbols() && v[0] in SingleSymbols();
    var op := OperatorIndex(v, 0);
    hide Operators, SingleSymbols, OperatorSymbols;
    if op.Some? { OperatorsAreLong(op.value); }
  }

  lemma TableOperator(v: string, k: nat)
    requires k < |WidthRules.PRECEDENCE| && v in WidthRules.PRECEDENCE[k] && |v| != 1
    ensures v != "" && ScanSymbol(v) == Lexeme(Operator, |v|, None)
  {
    var j := TablePosition(v, k);
    hide Operators, WidthRules.PRECEDENCE;
    OperatorsAreLong(j);
    assert Operators()[j] <= v;
    var op := OperatorIndex(v, 0);
    assert op.Some? && op.value <= j;
    OperatorsAreLong(op.value);
    if j < 4 { LongOnes(op.value, j); }
  }

  /** None of the longest operators starts another. */
  lemma LongOnes(i: nat, j: nat)
    requires i <= j < 4 && Operators()[i] <= Operators()[j]
    ensures i == j
  {
    assert Operators()[0] == "<<<" && Operators()[1] == ">>>" && Operators()[2] == "===" && Operators()[3] == "!==";
    assert Operators()[i][0] == Operators()[j][0];
  }

  lemma TablePosition(v: string, k: nat) returns (j: nat)
    requires k < |WidthRules.PRECEDENCE| && v in WidthRules.PRECEDENCE[k] && |v| != 1
    ensures j < |Operators()| && Operators()[j] == v
  {
    j := if v == "<<<" then 0 else if v == ">>>" then 1 else if v == "<<" then 4 else if v == ">>" then 5
      else if v == "<=" then 6 else if v == ">=" then 7 else if v == "==" then 8 else if v == "!=" then 9
      else if v == "&&" then 10 else 11;
  }

  // ----- operands -----

  /** What is no operand to the width rules starts with a punctuation character. */
  lemma SignsStart(v: string)
    requires !Width.RoleOf(v).Other?
    ensures v != "" && v[0] in SingleSymbols() && v[0] != '\''
  {
  }

  /** Every identifier and number of a line is an operand to the width rules. */
  lemma OperandsArePlain(c: Classes, src: SourceLine, t: Token)
    requires ClassesOk(c) && t in LexLine(c, src).0 && (t.kind == Identifier || t.kind == Number)
    ensures WidthTree.Plain(t)
  {
    hide *;
    OperandHead(c, src, t);
    if !WidthTree.Plain(t) {
      SignIsNotPlain(t);
      SignsStart(t.value);
    }
  }

  lemma OperandHead(c: Classes, src: SourceLine, t: Token)
    requires ClassesOk(c) && t in LexLine(c, src).0 && (t.kind == Identifier || t.kind == Number)
    ensures t.value != "" && (t.value[0] == '\'' || t.value[0] !in SingleSymbols())
  {
    hide *;
    KindsOfLine(c, src, t);
    var (i, j) := (t.column - 1, t.column - 1 + |t.value|);
    assert t.value[0] == src.text[i..j][0];
    OperandStart(c, src.text, i, j, t.kind);
  }

  lemma SignIsNotPlain(t: Token)
    ensures WidthTree.Plain(t) <==> Width.RoleOf(t.value).Other?
  {
  }

  lemma OperandStart(c: Classes, text: string, i: nat, j: nat, kind: Kind)
    requires ClassesOk(c) && i < j <= |text| && TokenAt(c, text, i, j, kind) && (kind == Identifier || kind == Number)
    ensures text[i] == '\'' || text[i] !in SingleSymbols()
  {
    if text[i] in SingleSymbols() { SymbolStartsNoWord(c, text[i]); }
    hide SingleSymbols, ClassesOk, Keywords, Operators, WordChar, NumberChar, BasedChar, Ends, Closed, WordStart, BASES,
      SINGLE_OPERATORS, SYMBOLS;
  }

  lemma SymbolStartsNoWord(c: Classes, x: char)
    requires ClassesOk(c) && x in SingleSymbols()
    ensures x != '\\' && x != '"' && !WordStart(c, x) && !c.digit(x)
  {
    MarksAreNoSymbols();
    QuotesAreNoSymbols();
    hide SingleSymbols;
    assert !c.alnum(x);
  }

  lemma MarksAreNoSymbols()
    ensures '_' !in SingleSymbols() && '$' !in SingleSymbols()
  {
  }

  lemma QuotesAreNoSymbols()
    ensures '\\' !in SingleSymbols() && '"' !in SingleSymbols()
  {
  }
}
