/** The scan loops of the lexer. */
module LexerLoop {
  import opened Tokens
  import opened Lexer

  lemma RunStep(text: string, i: nat, p: char -> bool)
    requires i < |text|
    ensures Run(text[i..], p) == if p(text[i]) then 1 + Run(text[i + 1..], p) else 0
  {
    assert text[i..][1..] == text[i + 1..];
  }

  method SkipWhile(text: string, start: nat, p: char -> bool) returns (index: nat)
    requires start <= |text|
    ensures index == start + Run(text[start..], p)
  {
    index := start;
    while index < |text| && p(text[index])
      invariant start <= index <= |text|
      invariant start + Run(text[start..], p) == index + Run(text[index..], p)
    {
      RunStep(text, index, p);
      index := index + 1;
    }
    if index < |text| { RunStep(text, index, p); }
  }

  lemma StringRunStep(text: string, i: nat, escaped: bool)
    requires i < |text|
    ensures var r := StringRun(text[i..], escaped);
            if text[i] == '"' && !escaped then r == (1, true)
            else var rest := StringRun(text[i + 1..], text[i] == '\\' && !escaped);
                 r == (1 + rest.0, rest.1)
  {
    assert text[i..][1..] == text[i + 1..];
  }

  method SkipString(text: string, start: nat) returns (index: nat, closed: bool)
    requires start <= |text|
    ensures (index - start, closed) == StringRun(text[start..], false)
  {
    index, closed := start, false;
    var escaped := false;
    while index < |text|
      invariant start <= index <= |text|
      invariant var rest := StringRun(text[index..], escaped);
                StringRun(text[start..], false) == (index - start + rest.0, rest.1)
    {
      var current := text[index];
      StringRunStep(text, index, escaped);
      if current == '"' && !escaped {
        return index + 1, true;
      }
      escaped := current == '\\' && !escaped;
      if current != '\\' {
        escaped := false;
      }
      index := index + 1;
    }
  }

  method MatchOperator(text: string, index: nat) returns (r: Option<nat>)
    requires index <= |text|
    ensures r == OperatorIndex(text[index..], 0)
  {
    hide Operators;
    var k := 0;
    while k < |Operators()|
      invariant k <= |Operators()|
      invariant OperatorIndex(text[index..], 0) == OperatorIndex(text[index..], k)
    {
      if Operators()[k] <= text[index..] {
        return Some(k);
      }
      k := k + 1;
    }
    r := None;
  }

  method ScanSymbolAt(text: string, index: nat) returns (r: Scan)
    requires index < |text|
    ensures r == ScanSymbol(text[index..])
  {
    hide Operators, SingleSymbols, OperatorSymbols, OperatorIndex;
    var matched := MatchOperator(text, index);
    if matched.Some? {
      r := Lexeme(Operator, |Operators()[matched.value]|, None);
    } else if text[index] in SingleSymbols() {
      r := Lexeme(if text[index] in OperatorSymbols() then Operator else Symbol, 1, None);
    } else {
      r := Unknown;
    }
  }

  lemma TailSlices(text: string, i: nat)
    requires i < |text|
    ensures text[i..][0] == text[i] && text[i..][1..] == text[i + 1..]
    ensures forall j :: i <= j <= |text| ==> text[i..][..j - i] == text[i..j]
    ensures forall j :: i <= j <= |text| ==> text[i..][j - i..] == text[j..]
  {
  }

  /** The branches of one scan step, in the order they are tried. */
  method ScanAt(c: Classes, text: string, start: nat) returns (r: Scan)
    requires start < |text|
    ensures r == ScanOne(c, text[start..])
  {
    hide Run, StringRun, ScanSymbol, ValidNumber, Keywords;
    TailSlices(text, start);
    var ch := text[start];
    var index := start + 1;
    if ch == '\\' {
      index := SkipWhile(text, index, EscapedChars(c));
      r := Lexeme(Identifier, index - start, None);
    } else if IdentStart(c, ch) {
      index := SkipWhile(text, index, IdentChars(c));
      r := Lexeme(if text[start..index] in Keywords() then Keyword else Identifier, index - start, None);
    } else if c.digit(ch) {
      index := SkipWhile(text, index, NumberChars(c));
      r := Lexeme(Number, index - start, if ValidNumber(c, text[start..index]) then None else Some(MalformedNumber));
    } else if ch == '\'' && index < |text| && text[index] in "sSbBoOdDhH" {
      index := SkipWhile(text, index, BasedChars(c));
      r := Lexeme(Number, index - start, Some(UnsizedNumber));
    } else if ch == '"' {
      var closed;
      index, closed := SkipString(text, index);
      r := Lexeme(Kind.Text, index - start, if closed then None else Some(UnterminatedString));
    } else {
      r := ScanSymbolAt(text, start);
    }
  }

  /** Scans all lines and ends the tokens with one eof token. */
  method Lex(c: Classes, lines: seq<SourceLine>) returns (tokens: seq<Token>, diagnostics: seq<Diagnostic>)
    ensures tokens == LexLines(c, lines).0 + [EofToken(lines)]
    ensures diagnostics == LexLines(c, lines).1
  {
    tokens, diagnostics := [], [];
    for n := 0 to |lines|
      invariant (tokens, diagnostics) == LexLines(c, lines[..n])
    {
      var more, reported := LexOne(c, lines[n]);
      assert lines[..n + 1][..n] == lines[..n];
      tokens, diagnostics := tokens + more, diagnostics + reported;
    }
    assert lines[..|lines|] == lines;
    tokens := tokens + [EofToken(lines)];
  }

  lemma LexStep(c: Classes, src: SourceLine, index: nat)
    requires index < |src.text|
    ensures var text := src.text; var out := LexFrom(c, src, text[index..], index + 1);
      if c.space(text[index]) then out == LexFrom(c, src, text[index + 1..], index + 2)
      else
        var r := ScanOne(c, text[index..]);
        if r.Unknown? then
          var tail := LexFrom(c, src, text[index + 1..], index + 2);
          out == (tail.0, Report(src, index + 1, Some(UnknownCharacter)) + tail.1)
        else
          var end := index + r.length;
          var tail := LexFrom(c, src, text[end..], end + 1);
          out == ([Token(r.kind, text[index..end], src.file, src.line, index + 1)] + tail.0,
                  Report(src, index + 1, r.problem) + tail.1)
  {
    hide ScanOne;
    TailSlices(src.text, index);
  }

  method LexOne(c: Classes, src: SourceLine) returns (tokens: seq<Token>, diagnostics: seq<Diagnostic>)
    ensures (tokens, diagnostics) == LexLine(c, src)
  {
    hide ScanOne, LexFrom;
    var text, index := src.text, 0;
    tokens, diagnostics := [], [];
    ghost var rest := LexFrom(c, src, text, 1);
    assert text[0..] == text;
    while index < |text|
      invariant index <= |text|
      invariant rest == LexFrom(c, src, text[index..], index + 1)
      invariant tokens + rest.0 == LexLine(c, src).0
      invariant diagnostics + rest.1 == LexLine(c, src).1
    {
      var column := index + 1;
      LexStep(c, src, index);
      if c.space(text[index]) {
        index := index + 1;
      } else {
        var r := ScanAt(c, text, index);
        if r.Lexeme? {
          tokens := tokens + [Token(r.kind, text[index..index + r.length], src.file, src.line, column)];
          diagnostics := diagnostics + Report(src, column, r.problem);
          index := index + r.length;
        } else {
          diagnostics := diagnostics + Report(src, column, Some(UnknownCharacter));
          index := index + 1;
        }
      }
      rest := LexFrom(c, src, text[index..], index + 1);
    }
    LexOfEnd(c, src, text[index..], index + 1);
    assert tokens + rest.0 == tokens && diagnostics + rest.1 == diagnostics;
  }

  lemma LexOfEnd(c: Classes, src: SourceLine, s: string, column: nat)
    requires s == ""
    ensures LexFrom(c, src, s, column) == ([], [])
  {
  }
}
