/** Text that closes what it opens, written token by token: where the parser's
    collecting routines stop in it. */
module ParserTexts {
  import opened Tokens
  import opened Brackets
  import opened ParserSpec
  import opened ParserGrammar

  /** The tokens t stand at position i, before the last position. */
  ghost predicate Stands(ts: seq<Token>, i: nat, t: seq<Token>) {
    i + |t| < |ts| && ts[i..i + |t|] == t
  }

  lemma StandsApart(ts: seq<Token>, i: nat, a: seq<Token>, b: seq<Token>)
    requires Stands(ts, i, a + b)
    ensures Stands(ts, i, a) && Stands(ts, i + |a|, b) && i + |a| + |b| < |ts|
  {
    assert (a + b)[..|a|] == a && (a + b)[|a|..] == b;
    assert ts[i..i + |a|] == ts[i..i + |a + b|][..|a|];
    assert ts[i + |a|..i + |a| + |b|] == ts[i..i + |a + b|][|a|..];
  }

  lemma StandsOne(ts: seq<Token>, i: nat, t: Token)
    requires Stands(ts, i, [t])
    ensures i + 1 < |ts| && ts[i] == t && Next(ts, i) == i + 1
  {
    assert ts[i..i + 1][0] == t;
  }

  lemma StandsCut(ts: seq<Token>, i: nat, t: seq<Token>)
    requires Stands(ts, i, t)
    ensures i + |t| < |ts| && Cut(ts, i, i + |t|) == Slice(i, i + |t|, t)
  {
  }

  lemma StandsFirst(ts: seq<Token>, i: nat, t: seq<Token>)
    requires Stands(ts, i, t) && t != []
    ensures ts[i] == t[0] && Stands(ts, i + 1, t[1..])
  {
    assert t == [t[0]] + t[1..];
    StandsApart(ts, i, [t[0]], t[1..]);
    StandsOne(ts, i, t[0]);
  }

  /** A statement text read from bracket depth d stops nowhere and ends at depth 0. */
  predicate Runs(t: seq<Token>, d: nat) {
    if t == [] then d == 0
    else
      var d' := DepthAfter(d, t[0].value);
      !(d == 0 && Is(t[0], ";")) && !(d' == 0 && OneOf(t[0], {"endmodule", "end"})) && Runs(t[1..], d')
  }

  lemma {:induction false} StatementRuns(ts: seq<Token>, i: nat, t: seq<Token>, d: nat, semi: Token)
    requires Runs(t, d) && Stands(ts, i, t + [semi]) && Is(semi, ";")
    ensures StatementStop(ts, i, d) == i + |t|
    decreases |t|
  {
    hide OneOf, Is, DepthAfter;
    if t == [] {
      StandsOne(ts, i, semi);
    } else {
      StandsFirst(ts, i, t + [semi]);
      assert (t + [semi])[1..] == t[1..] + [semi];
      hide Stands;
      StatementRuns(ts, i + 1, t[1..], DepthAfter(d, t[0].value), semi);
    }
  }

  /** A group text read from depth d > 0 never closes it and ends at depth 1. */
  predicate Nests(t: seq<Token>, d: nat, open: string, close: string) {
    if t == [] then d == 1
    else if Is(t[0], open) then Nests(t[1..], d + 1, open, close)
    else if Is(t[0], close) then d > 1 && Nests(t[1..], d - 1, open, close)
    else Nests(t[1..], d, open, close)
  }

  lemma {:induction false} NestedIsMatched(ts: seq<Token>, limit: nat, i: nat, t: seq<Token>, d: nat, open: string,
      close: string, last: Token)
    requires d > 0 && Nests(t, d, open, close) && Stands(ts, i, t + [last]) && Is(last, close) && open != close
    requires i + |t| < limit <= |ts|
    ensures MatchFrom(ts[..limit], i, d, open, close) == Some(i + |t|)
    decreases |t|
  {
    MatchStep(ts, limit, i, d, open, close);
    if t == [] {
      StandsOne(ts, i, last);
    } else {
      StandsFirst(ts, i, t + [last]);
      assert (t + [last])[1..] == t[1..] + [last];
      hide Stands, MatchFrom;
      var d' := if Is(t[0], open) then d + 1 else if Is(t[0], close) then d - 1 else d;
      hide Is;
      NestedIsMatched(ts, limit, i + 1, t[1..], d', open, close, last);
    }
  }

  // ----- groups, statements and blocks -----

  datatype Parens = Parens(open: Token, inner: seq<Token>, close: Token)

  function ParensText(g: Parens): seq<Token> { [g.open] + (g.inner + [g.close]) }

  predicate ParensFit(g: Parens) {
    Is(g.open, "(") && Is(g.close, ")") && Nests(g.inner, 1, "(", ")")
  }

  /** A group in parentheses, if there is one, and the semicolon. */
  function ClosingText(g: Option<Parens>, semi: Token): (t: seq<Token>)
    ensures t != []
  {
    (if g.Some? then ParensText(g.value) else []) + [semi]
  }

  predicate ClosingFits(g: Option<Parens>, semi: Token) { (g.Some? ==> ParensFit(g.value)) && Is(semi, ";") }

  predicate NoneIs(t: seq<Token>, word: string) { forall k :: 0 <= k < |t| ==> !Is(t[k], word) }

  lemma ParensRead(ts: seq<Token>, i: nat, g: Parens)
    requires Stands(ts, i, ParensText(g)) && ParensFit(g)
    ensures var end := i + |ParensText(g)|; Is(ts[i], "(") && GroupPart(ts, i) == (end, Slice(i + 1, end - 1, g.inner))
  {
    hide Nests, Is, Stands, MatchFrom;
    StandsApart(ts, i, [g.open], g.inner + [g.close]);
    StandsOne(ts, i, g.open);
    ParenthesesDiffer();
    StandsApart(ts, i + 1, g.inner, [g.close]);
    StandsCut(ts, i + 1, g.inner);
    NestedIsMatched(ts, |ts| - 1, i + 1, g.inner, 1, "(", ")", g.close);
  }

  lemma ParenthesesDiffer()
    ensures "(" != ")" && "begin" != "end"
  {
  }

  lemma StatementReads(ts: seq<Token>, i: nat, t: seq<Token>, semi: Token)
    requires Runs(t, 0) && Stands(ts, i, t + [semi]) && Is(semi, ";")
    ensures StatementPart(ts, i) == (i + |t| + 1, Slice(i, i + |t|, t))
  {
    hide Runs, Stands, Is, OneOf, StatementStop;
    StandsApart(ts, i, t, [semi]);
    StandsOne(ts, i + |t|, semi);
    StandsCut(ts, i, t);
    StatementRuns(ts, i, t, 0, semi);
  }

  lemma BlockReads(ts: seq<Token>, i: nat, first: Token, body: seq<Token>, last: Token)
    requires Is(first, "begin") && Is(last, "end") && Nests(body, 1, "begin", "end")
    requires Stands(ts, i, [first] + (body + [last]))
    ensures var end := i + |body| + 2; BlockPart(ts, i) == (end, Slice(i, end, [first] + (body + [last])))
  {
    hide Nests, Stands, MatchFrom, Is, Next;
    StandsApart(ts, i, [first], body + [last]);
    StandsOne(ts, i, first);
    ParenthesesDiffer();
    StandsCut(ts, i, [first] + (body + [last]));
    NestedIsMatched(ts, |ts| - 1, i + 1, body, 1, "begin", "end", last);
  }

  lemma StandsInside(ts: seq<Token>, i: nat, t: seq<Token>)
    requires Stands(ts, i, t)
    ensures i + |t| < |ts|
  {
  }
}
