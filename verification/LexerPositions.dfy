/** Where the tokens and reports of a text sit in it. */
module LexerPositions {
  import opened Tokens
  import opened Lexer

  /** A token holds the non-empty piece of s at its column, s starting at a column. */
  ghost predicate IsPiece(src: SourceLine, s: string, column: nat, t: Token) {
    && t.file == src.file && t.line == src.line
    && column <= t.column && t.column + |t.value| <= column + |s| && t.value != ""
    && s[t.column - column..t.column - column + |t.value|] == t.value
  }

  ghost predicate InOrder(ts: seq<Token>) {
    forall i, j :: 0 <= i < j < |ts| ==> ts[i].column + |ts[i].value| <= ts[j].column
  }

  predicate Covers(t: Token, at: nat) {
    t.column <= at < t.column + |t.value|
  }

  ghost predicate Covered(ts: seq<Token>, at: nat) {
    exists t :: t in ts && Covers(t, at)
  }

  function UnknownAt(src: SourceLine, at: nat): Diagnostic {
    Diagnostic(UnknownCharacter, src.file, src.line, at)
  }

  /** The character at a column is in a token, or a space, or reported as unknown. */
  ghost predicate Accounted(c: Classes, src: SourceLine, s: string, column: nat, out: (seq<Token>, seq<Diagnostic>),
      at: nat)
    requires column <= at < column + |s|
  {
    || Covered(out.0, at)
    || c.space(s[at - column])
    || UnknownAt(src, at) in out.1
  }

  /** A report is of an unknown character outside all tokens, or of the literal
      token at its column. */
  ghost predicate Grounded(src: SourceLine, s: string, column: nat, ts: seq<Token>, d: Diagnostic) {
    && d.file == src.file && d.line == src.line && column <= d.column < column + |s|
    && if d.problem == UnknownCharacter then !Covered(ts, d.column)
       else exists t :: t in ts && t.column == d.column && (t.kind == Number || t.kind == Kind.Text)
  }

  ghost predicate Tiles(c: Classes, src: SourceLine, s: string, column: nat, out: (seq<Token>, seq<Diagnostic>)) {
    && (forall t :: t in out.0 ==> IsPiece(src, s, column, t))
    && InOrder(out.0)
    && (forall at :: column <= at < column + |s| ==> Accounted(c, src, s, column, out, at))
    && (forall d :: d in out.1 ==> Grounded(src, s, column, out.0, d))
  }

  lemma PieceShifts(src: SourceLine, s: string, column: nat, n: nat, t: Token)
    requires n <= |s| && IsPiece(src, s[n..], column + n, t)
    ensures IsPiece(src, s, column, t)
  {
    var i := t.column - column;
    assert s[n..][i - n..i - n + |t.value|] == s[i..i + |t.value|];
  }

  lemma PiecesInFront(src: SourceLine, s: string, column: nat, t: Token, n: nat, ts: seq<Token>)
    requires IsPiece(src, s, column, t) && n <= |s|
    requires forall u :: u in ts ==> IsPiece(src, s[n..], column + n, u)
    ensures forall u :: u in [t] + ts ==> IsPiece(src, s, column, u)
    ensures forall u :: u in ts ==> column + n <= u.column
  {
    forall u | u in ts ensures IsPiece(src, s, column, u) && column + n <= u.column {
      PieceShifts(src, s, column, n, u);
      assert IsPiece(src, s[n..], column + n, u);
    }
  }

  lemma OrderInFront(t: Token, ts: seq<Token>)
    requires InOrder(ts) && forall u :: u in ts ==> t.column + |t.value| <= u.column
    ensures InOrder([t] + ts)
  {
    forall i, j | 0 <= i < j < |[t] + ts| ensures ([t] + ts)[i].column + |([t] + ts)[i].value| <= ([t] + ts)[j].column {
      assert ([t] + ts)[j] == ts[j - 1];
      if i > 0 { assert ([t] + ts)[i] == ts[i - 1]; }
    }
  }

  lemma CoveredGrows(ts: seq<Token>, before: seq<Token>, at: nat)
    ensures Covered(ts, at) ==> Covered(before + ts, at)
  {
    if Covered(ts, at) {
      var t :| t in ts && Covers(t, at);
      assert t in before + ts;
    }
  }

  lemma AccountedInFront(c: Classes, src: SourceLine, s: string, column: nat, t: Token, n: nat, own: seq<Diagnostic>,
      tail: (seq<Token>, seq<Diagnostic>), at: nat)
    requires t.column == column && |t.value| == n <= |s| && column <= at < column + |s|
    requires column + n <= at ==> Accounted(c, src, s[n..], column + n, tail, at)
    ensures Accounted(c, src, s, column, ([t] + tail.0, own + tail.1), at)
  {
    if at < column + n {
      assert t in [t] + tail.0 && Covers(t, at);
    } else {
      CoveredGrows(tail.0, [t], at);
    }
  }

  lemma OwnGrounded(src: SourceLine, s: string, column: nat, t: Token, ts: seq<Token>, d: Diagnostic)
    requires s != "" && t.column == column && IsOwn(src, column, t, d)
    ensures Grounded(src, s, column, [t] + ts, d)
  {
    assert t in [t] + ts;
  }

  lemma GroundedInFront(src: SourceLine, s: string, column: nat, t: Token, n: nat, ts: seq<Token>, d: Diagnostic)
    requires t.column == column && |t.value| == n <= |s| && Grounded(src, s[n..], column + n, ts, d)
    ensures Grounded(src, s, column, [t] + ts, d)
  {
    if d.problem == UnknownCharacter {
      assert !Covers(t, d.column);
    } else {
      var u :| u in ts && u.column == d.column && (u.kind == Number || u.kind == Kind.Text);
      assert u in [t] + ts;
    }
  }

  /** A report about a malformed literal token at a column. */
  ghost predicate IsOwn(src: SourceLine, column: nat, t: Token, d: Diagnostic) {
    && d.file == src.file && d.line == src.line && d.column == column && d.problem != UnknownCharacter
    && (t.kind == Number || t.kind == Kind.Text)
  }

  /** Putting one token of n characters in front. */
  lemma TokenInFront(c: Classes, src: SourceLine, s: string, column: nat, t: Token, n: nat, own: seq<Diagnostic>,
      tail: (seq<Token>, seq<Diagnostic>))
    requires IsPiece(src, s, column, t) && t.column == column && |t.value| == n <= |s| && s != ""
    requires Tiles(c, src, s[n..], column + n, tail)
    requires forall d :: d in own ==> IsOwn(src, column, t, d)
    ensures Tiles(c, src, s, column, ([t] + tail.0, own + tail.1))
  {
    hide IsPiece, InOrder, Accounted, Grounded, IsOwn;
    PiecesInFront(src, s, column, t, n, tail.0);
    OrderInFront(t, tail.0);
    forall at: nat | column <= at < column + |s|
      ensures Accounted(c, src, s, column, ([t] + tail.0, own + tail.1), at)
    {
      AccountedInFront(c, src, s, column, t, n, own, tail, at);
    }
    forall d | d in own + tail.1 ensures Grounded(src, s, column, [t] + tail.0, d) {
      if d in own {
        OwnGrounded(src, s, column, t, tail.0, d);
      } else {
        GroundedInFront(src, s, column, t, n, tail.0, d);
      }
    }
  }

  /** Passing over one character that is a space or is reported. */
  lemma CharacterInFront(c: Classes, src: SourceLine, s: string, column: nat, own: seq<Diagnostic>,
      tail: (seq<Token>, seq<Diagnostic>))
    requires s != "" && Tiles(c, src, s[1..], column + 1, tail)
    requires own == [UnknownAt(src, column)] || (own == [] && c.space(s[0]))
    ensures Tiles(c, src, s, column, (tail.0, own + tail.1))
  {
    var ds := own + tail.1;
    forall u | u in tail.0 ensures IsPiece(src, s, column, u) {
      PieceShifts(src, s, column, 1, u);
    }
    forall at: nat | column <= at < column + |s| ensures Accounted(c, src, s, column, (tail.0, ds), at) {
      if column < at {
        assert Accounted(c, src, s[1..], column + 1, tail, at);
      } else if own != [] {
        assert ds[0] == UnknownAt(src, at);
      }
    }
    forall d | d in ds ensures Grounded(src, s, column, tail.0, d) {
      if d in tail.1 {
        assert Grounded(src, s[1..], column + 1, tail.0, d);
      } else {
        assert d == own[0];
        assert forall u :: u in tail.0 ==> IsPiece(src, s[1..], column + 1, u);
      }
    }
  }

  lemma LexemeIsLiteral(c: Classes, s: string)
    requires s != "" && ScanOne(c, s).Lexeme? && ScanOne(c, s).problem.Some?
    ensures ScanOne(c, s).problem.value != UnknownCharacter
    ensures ScanOne(c, s).kind == Number || ScanOne(c, s).kind == Kind.Text
  {
    hide Run, Keywords, ValidNumber, StringRun, Operators, OperatorIndex, SingleSymbols, OperatorSymbols;
  }

  /** Every token is the text at its column, tokens come in order and do not
      overlap, and each other character is a space or is reported as unknown. */
  lemma {:induction false} Positions(c: Classes, src: SourceLine, s: string, column: nat)
    ensures Tiles(c, src, s, column, LexFrom(c, src, s, column))
    decreases |s|
  {
    hide ScanOne, Tiles;
    if s == "" {
      NothingTiles(c, src, column);
    } else if c.space(s[0]) {
      Positions(c, src, s[1..], column + 1);
      var tail := LexFrom(c, src, s[1..], column + 1);
      CharacterInFront(c, src, s, column, [], tail);
      assert [] + tail.1 == tail.1;
    } else {
      var r := ScanOne(c, s);
      if r.Unknown? {
        Positions(c, src, s[1..], column + 1);
        CharacterInFront(c, src, s, column, [UnknownAt(src, column)], LexFrom(c, src, s[1..], column + 1));
      } else {
        Positions(c, src, s[r.length..], column + r.length);
        LexemeInFront(c, src, s, column, r, Token(r.kind, s[..r.length], src.file, src.line, column),
          LexFrom(c, src, s[r.length..], column + r.length));
      }
    }
  }

  lemma LexemeInFront(c: Classes, src: SourceLine, s: string, column: nat, r: Scan, t: Token,
      tail: (seq<Token>, seq<Diagnostic>))
    requires s != "" && r == ScanOne(c, s) && r.Lexeme? && Tiles(c, src, s[r.length..], column + r.length, tail)
    requires t.kind == r.kind && t.value == s[..r.length] && t.file == src.file && t.line == src.line &&
      t.column == column
    ensures Tiles(c, src, s, column, ([t] + tail.0, Report(src, column, r.problem) + tail.1))
  {
    hide *;
    if r.problem.Some? { LexemeIsLiteral(c, s); }
    FrontPiece(src, s, column, r.length, t);
    ReportIsOwn(src, column, t, r.problem);
    TokenInFront(c, src, s, column, t, r.length, Report(src, column, r.problem), tail);
  }

  lemma FrontPiece(src: SourceLine, s: string, column: nat, n: nat, t: Token)
    requires 0 < n <= |s| && t.value == s[..n] && t.column == column && t.file == src.file && t.line == src.line
    ensures IsPiece(src, s, column, t)
  {
    var v := t.value;
    assert |v| == n && v != "";
    assert t.column - column == 0 && s[0..n] == s[..n];
  }

  lemma ReportIsOwn(src: SourceLine, column: nat, t: Token, problem: Option<Problem>)
    requires problem.Some? ==> problem.value != UnknownCharacter && (t.kind == Number || t.kind == Kind.Text)
    ensures forall d :: d in Report(src, column, problem) ==> IsOwn(src, column, t, d)
  {
  }

  lemma NothingTiles(c: Classes, src: SourceLine, column: nat)
    ensures Tiles(c, src, "", column, ([], []))
  {
  }

  /** An operator token is a longest operator of the table that starts there;
      a single symbol is taken only where no operator of the table starts. */
  lemma LongestOperator(s: string, k: nat)
    requires s != "" && ScanSymbol(s).Lexeme? && k < |Operators()| && Operators()[k] <= s
    ensures |Operators()[k]| <= ScanSymbol(s).length && ScanSymbol(s).kind == Operator
    ensures s[..ScanSymbol(s).length] in Operators()
  {
    hide Operators, SingleSymbols, OperatorSymbols;
    var r := OperatorIndex(s, 0);
    assert r.Some? && r.value <= k;
    OperatorsAreLong(k);
    OperatorsAreLong(r.value);
    assert s[..|Operators()[r.value]|] == Operators()[r.value];
  }
}
