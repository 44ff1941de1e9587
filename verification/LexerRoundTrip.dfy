/** Lexing the token values of a line, joined by single spaces, gives the same
    tokens again. */
module LexerRoundTrip {
  import opened Tokens
  import opened Lexer

  /** What may follow a token value without becoming part of it. */
  predicate Detached(r: string) {
    r == "" || r[0] == ' '
  }

  lemma TailOfJoint(s: string, n: nat, r: string)
    requires 0 < n <= |s|
    ensures (s[..n] + r)[1..] == s[1..][..n - 1] + r && (s[..n] + r)[0] == s[0]
    ensures (s[..n] + r)[..n] == s[..n]
  {
  }

  lemma {:induction false} RunIsLocal(s: string, r: string, p: char -> bool)
    requires Detached(r) && !p(' ')
    ensures Run(s[..Run(s, p)] + r, p) == Run(s, p)
  {
    var n := Run(s, p);
    if n == 0 {
      assert s[..n] + r == r;
    } else {
      RunIsLocal(s[1..], r, p);
      TailOfJoint(s, n, r);
    }
  }

  lemma {:induction false} StringRunIsLocal(s: string, r: string, escaped: bool)
    requires StringRun(s, escaped).1
    ensures StringRun(s[..StringRun(s, escaped).0] + r, escaped) == StringRun(s, escaped)
  {
    TailOfJoint(s, StringRun(s, escaped).0, r);
    if !(s[0] == '"' && !escaped) {
      StringRunIsLocal(s[1..], r, s[0] == '\\' && !escaped);
    }
  }

  /** A table operator that starts v + r starts v already. */
  lemma PrefixStaysInside(op: string, v: string, r: string)
    requires Detached(r) && ' ' !in op
    ensures op <= v + r <==> op <= v
  {
    assert (v + r)[..|v|] == v;
    if |v| < |op| && r != "" {
      assert op[|v|] in op;
      assert (v + r)[|v|] == ' ';
    }
  }

  lemma {:induction false} OperatorIsLocal(s: string, n: nat, r: string, k: nat)
    requires n <= |s| && k <= |Operators()| && Detached(r)
    requires var op := OperatorIndex(s, k); if op.Some? then n == |Operators()[op.value]| else n == 1
    ensures OperatorIndex(s[..n] + r, k) == OperatorIndex(s, k)
    decreases |Operators()| - k
  {
    hide Operators;
    var v := s[..n];
    if k < |Operators()| {
      OperatorsAreLong(k);
      PrefixStaysInside(Operators()[k], v, r);
      assert Operators()[k] <= v ==> Operators()[k] <= s;
      if Operators()[k] <= s {
        assert Operators()[k] == v;
        assert Operators()[k] <= v + r;
      } else {
        OperatorIsLocal(s, n, r, k + 1);
      }
    }
  }

  lemma SymbolIsLocal(c: Classes, s: string, r: string)
    requires s != "" && Detached(r) && ScanSymbol(s).Lexeme?
    ensures ScanSymbol(s[..ScanSymbol(s).length] + r) == ScanSymbol(s)
  {
    hide Operators, SingleSymbols, OperatorSymbols, OperatorIndex;
    var n := ScanSymbol(s).length;
    OperatorIsLocal(s, n, r, 0);
    assert (s[..n] + r)[0] == s[0];
  }

  lemma UnsizedIsLocal(c: Classes, s: string, n: nat, r: string)
    requires ClassesOk(c) && Detached(r) && 0 < n <= |s| && s[0] == '\''
    requires StartsUnsized(s) ==> n == 1 + Run(s[1..], BasedChars(c))
    ensures StartsUnsized(s[..n] + r) <==> StartsUnsized(s)
  {
    var t := s[..n] + r;
    if StartsUnsized(s) {
      assert BasedChars(c)(s[1]);
      assert n >= 2;
      assert t[1] == s[1];
    } else if |t| > 1 {
      assert t[1] == if n == 1 then ' ' else s[1];
    }
  }

  lemma WordIsLocal(c: Classes, s: string, r: string)
    requires ClassesOk(c) && s != "" && Detached(r)
    requires s[0] == '\\' || IdentStart(c, s[0]) || c.digit(s[0])
    ensures ScanOne(c, s[..ScanOne(c, s).length] + r) == ScanOne(c, s)
  {
    hide Run, ValidNumber, Keywords;
    TailOfJoint(s, ScanOne(c, s).length, r);
    if s[0] == '\\' {
      RunIsLocal(s[1..], r, EscapedChars(c));
    } else if IdentStart(c, s[0]) {
      RunIsLocal(s[1..], r, IdentChars(c));
    } else {
      RunIsLocal(s[1..], r, NumberChars(c));
    }
  }

  lemma QuotedIsLocal(c: Classes, s: string, r: string)
    requires ClassesOk(c) && s != "" && s[0] == '"'
    requires r != "" ==> StringRun(s[1..], false).1
    ensures ScanOne(c, s[..ScanOne(c, s).length] + r) == ScanOne(c, s)
  {
    hide StringRun, Run, Keywords, ValidNumber, ScanSymbol;
    TailOfJoint(s, ScanOne(c, s).length, r);
    if StringRun(s[1..], false).1 {
      StringRunIsLocal(s[1..], r, false);
    } else {
      assert s[..|s|] + r == s;
    }
  }

  /** The token that starts s is the token that starts its own text, whatever
      detached text follows. */
  lemma ScanIsLocal(c: Classes, s: string, r: string)
    requires ClassesOk(c) && s != "" && Detached(r) && ScanOne(c, s).Lexeme?
    requires ScanOne(c, s).problem == Some(UnterminatedString) ==> r == ""
    ensures ScanOne(c, s[..ScanOne(c, s).length] + r) == ScanOne(c, s)
  {
    hide Run, StringRun, ScanSymbol, ValidNumber, Keywords, SingleSymbols;
    var n := ScanOne(c, s).length;
    if s[0] == '\\' || IdentStart(c, s[0]) || c.digit(s[0]) {
      WordIsLocal(c, s, r);
    } else if s[0] == '"' {
      QuotedIsLocal(c, s, r);
    } else {
      TailOfJoint(s, n, r);
      if s[0] == '\'' { UnsizedIsLocal(c, s, n, r); }
      if StartsUnsized(s) { RunIsLocal(s[1..], r, BasedChars(c)); } else { SymbolIsLocal(c, s, r); }
    }
  }

  lemma UnterminatedIsLast(c: Classes, s: string)
    requires s != "" && ScanOne(c, s).Lexeme?
    ensures ScanOne(c, s).problem == Some(UnterminatedString) ==> ScanOne(c, s).length == |s|
  {
    hide Run, Keywords, ValidNumber, ScanSymbol;
    assert ScanSymbol(s).Lexeme? ==> ScanSymbol(s).problem == None by { SymbolsAreFine(s); }
  }

  lemma SymbolsAreFine(s: string)
    requires s != ""
    ensures ScanSymbol(s).Lexeme? ==> ScanSymbol(s).problem == None
  {
    hide Operators, OperatorIndex;
  }

  /** The token values with one space between neighbours. */
  function Joined(ts: seq<Token>): string
    decreases |ts|, 0
  {
    if ts == [] then "" else ts[0].value + Rest(ts[1..])
  }

  function Rest(ts: seq<Token>): string
    decreases |ts|, 1
  {
    if ts == [] then "" else " " + Joined(ts)
  }

  /** Two token lists that differ at most in positions. */
  ghost predicate SameLexemes(a: seq<Token>, b: seq<Token>) {
    |a| == |b| && forall i :: 0 <= i < |a| ==> a[i].kind == b[i].kind && a[i].value == b[i].value
  }

  /** The reported problems other than unknown characters. */
  function Malformed(ds: seq<Diagnostic>): seq<Problem> {
    if ds == [] then []
    else (if ds[0].problem == UnknownCharacter then [] else [ds[0].problem]) + Malformed(ds[1..])
  }

  lemma LexFromRest(c: Classes, src: SourceLine, ts: seq<Token>, column: nat)
    requires ClassesOk(c)
    ensures LexFrom(c, src, Rest(ts), column)
         == LexFrom(c, src, Joined(ts), column + if ts == [] then 0 else 1)
  {
    hide ScanOne;
    if ts != [] {
      assert Rest(ts)[1..] == Joined(ts);
    }
  }

  lemma LexFromUnfolded(c: Classes, src: SourceLine, s: string, column: nat, r: Scan)
    requires s != "" && !c.space(s[0]) && r == ScanOne(c, s) && r.Lexeme?
    ensures var out, tail := LexFrom(c, src, s, column), LexFrom(c, src, s[r.length..], column + r.length);
            && out.0 == [Token(r.kind, s[..r.length], src.file, src.line, column)] + tail.0
            && out.1 == Report(src, column, r.problem) + tail.1
  {
    hide ScanOne;
  }

  /** One lexeme at the start of a text. */
  lemma LexFromLexeme(c: Classes, src: SourceLine, s: string, column: nat, r: Scan)
    requires s != "" && !c.space(s[0]) && r == ScanOne(c, s) && r.Lexeme?
    ensures var out, tail := LexFrom(c, src, s, column), LexFrom(c, src, s[r.length..], column + r.length);
            && out.0 == [Token(r.kind, s[..r.length], src.file, src.line, column)] + tail.0
            && Malformed(out.1) == (if r.problem.None? then [] else [r.problem.value]) + Malformed(tail.1)
  {
    NoUnknownLexeme(c, s);
    LexFromUnfolded(c, src, s, column, r);
    hide ScanOne, Malformed, LexFrom;
    var reported := LexFrom(c, src, s[r.length..], column + r.length).1;
    if r.problem.Some? {
      KeptReport(Diagnostic(r.problem.value, src.file, src.line, column), reported);
    } else {
      assert [] + reported == reported;
    }
  }

  lemma KeptReport(d: Diagnostic, ds: seq<Diagnostic>)
    ensures Malformed([d] + ds) == (if d.problem == UnknownCharacter then [] else [d.problem]) + Malformed(ds)
  {
    assert ([d] + ds)[1..] == ds;
  }

  lemma NoUnknownLexeme(c: Classes, s: string)
    requires s != ""
    ensures ScanOne(c, s).Lexeme? ==> ScanOne(c, s).problem != Some(UnknownCharacter)
  {
    hide Run, Keywords, ValidNumber, ScanSymbol, StringRun;
    SymbolsAreFine(s);
  }

  lemma LexemeReprints(c: Classes, s: string, rest: seq<Token>)
    requires ClassesOk(c) && s != "" && !c.space(s[0]) && ScanOne(c, s).Lexeme?
    requires ScanOne(c, s).length == |s| ==> rest == []
    ensures var n := ScanOne(c, s).length; var t := s[..n] + Rest(rest);
            t != "" && t[0] == s[0] && ScanOne(c, t) == ScanOne(c, s) && t[..n] == s[..n] && t[n..] == Rest(rest)
  {
    UnterminatedIsLast(c, s);
    ScanIsLocal(c, s, Rest(rest));
    hide ScanOne;
    TailOfJoint(s, ScanOne(c, s).length, Rest(rest));
  }

  /** Printing the tokens of a text with single spaces and lexing the print
      gives the same kinds and values and the same malformed-literal reports;
      spaces and unknown characters are all that is lost. */
  lemma {:induction false} RoundTrip(c: Classes, src: SourceLine, s: string, column: nat, again: SourceLine,
      newColumn: nat)
    requires ClassesOk(c)
    ensures var first := LexFrom(c, src, s, column);
            var second := LexFrom(c, again, Joined(first.0), newColumn);
            SameLexemes(first.0, second.0) && Malformed(second.1) == Malformed(first.1)
    decreases |s|, 1
  {
    hide ScanOne, SameLexemes, Malformed;
    if s == "" {
      NothingToJoin(c, again, newColumn);
    } else if c.space(s[0]) {
      RoundTrip(c, src, s[1..], column + 1, again, newColumn);
    } else if ScanOne(c, s).Unknown? {
      RoundTrip(c, src, s[1..], column + 1, again, newColumn);
      KeptReport(Diagnostic(UnknownCharacter, src.file, src.line, column), LexFrom(c, src, s[1..], column + 1).1);
    } else {
      LexemeRoundTrip(c, src, s, column, again, newColumn);
    }
  }

  lemma {:induction false} LexemeRoundTrip(c: Classes, src: SourceLine, s: string, column: nat, again: SourceLine,
      newColumn: nat)
    requires ClassesOk(c) && s != "" && !c.space(s[0]) && ScanOne(c, s).Lexeme?
    ensures var first := LexFrom(c, src, s, column);
            var second := LexFrom(c, again, Joined(first.0), newColumn);
            SameLexemes(first.0, second.0) && Malformed(second.1) == Malformed(first.1)
    decreases |s|, 0
  {
    hide ScanOne, LexFrom, Malformed, Rest;
    var r := ScanOne(c, s);
    var rest := LexFrom(c, src, s[r.length..], column + r.length).0;
    LexFromLexeme(c, src, s, column, r);
    LexOfNothing(c, src, s[r.length..], column + r.length);
    LexemeReprints(c, s, rest);
    var first := LexFrom(c, src, s, column).0;
    assert first[1..] == rest;
    var t := s[..r.length] + Rest(rest);
    assert Joined(first) == t;
    LexFromLexeme(c, again, t, newColumn, r);
    LexFromRest(c, again, rest, newColumn + r.length);
    RoundTrip(c, src, s[r.length..], column + r.length, again, newColumn + r.length + if rest == [] then 0 else 1);
  }

  lemma NothingToJoin(c: Classes, again: SourceLine, column: nat)
    ensures LexFrom(c, again, Joined([]), column) == ([], []) && SameLexemes([], [])
  {
  }

  lemma LexOfNothing(c: Classes, src: SourceLine, s: string, column: nat)
    ensures s == "" ==> LexFrom(c, src, s, column).0 == []
  {
  }
}
