/** When the width of a concatenation is the sum of the widths of its elements, as
    its branch of the inference is written to return. */
module WidthSums {
  import opened Tokens
  import opened Width
  import opened WidthTree
  import opened WidthChains
  import opened WidthRows
  import opened WidthCommas
  import opened WidthConcat

  // ----- what a row reads -----

  /** The width read off a run when `after` is what is read off the rest of its row. */
  function ReadRow(r: Run, after: Outcome, symbols: Symbols): Outcome {
    if r == [] then after else ReadWidth(r[0], ReadRow(r[1..], after, symbols), symbols)
  }

  lemma {:induction false} RowOfTwo(r: Run, rest: Run, symbols: Symbols)
    requires EndsInTernary(rest)
    ensures RowWidth(r + rest, symbols) == ReadRow(r, RowWidth(rest, symbols), symbols)
    decreases |r|
  {
    hide TreeWidth, ReadWidth;
    if r == [] {
      assert r + rest == rest;
    } else {
      assert (r + rest)[1..] == r[1..] + rest;
      RowOfTwo(r[1..], rest, symbols);
    }
  }

  lemma {:induction false} ReadIsMax(e: Expr, n: nat, symbols: Symbols)
    requires BranchesKnown(e, symbols)
    ensures ReadWidth(e, Width(0), symbols).Width?
    ensures ReadWidth(e, Width(n), symbols) == Width(Max(ReadWidth(e, Width(0), symbols).bits, n))
  {
    hide TreeWidth;
    if e.Ternary? { ReadIsMax(e.no, n, symbols); }
  }

  lemma {:induction false} ReadInside(e: Expr, symbols: Symbols)
    requires TreeWidth(e, symbols).Width?
    ensures BranchesKnown(e, symbols) && ReadWidth(e, Width(0), symbols).Width?
    ensures ReadWidth(e, Width(0), symbols).bits <= TreeWidth(e, symbols).bits
  {
    if e.Ternary? { ReadInside(e.no, symbols); }
  }

  /** The branches read off a run with a width are no wider than it, and with what comes
      after they give the wider of the two. */
  lemma {:induction false} RowReads(r: Run, n: nat, symbols: Symbols)
    requires RowWidth(r, symbols).Width?
    ensures ReadRow(r, Width(0), symbols).Width?
    ensures ReadRow(r, Width(0), symbols).bits <= RowWidth(r, symbols).bits
    ensures ReadRow(r, Width(n), symbols) == Width(Max(ReadRow(r, Width(0), symbols).bits, n))
    decreases |r|
  {
    hide TreeWidth, BranchesKnown, ReadWidth;
    var (e, rest) := (r[0], r[1..]);
    if |r| == 1 {
      ReadInside(e, symbols);
      ReadIsMax(e, n, symbols);
      assert ReadRow(rest, Width(n), symbols) == Width(n) && ReadRow(rest, Width(0), symbols) == Width(0);
    } else {
      ReadIffKnown(e, RowWidth(rest, symbols), symbols);
      RowReads(rest, n, symbols);
      ReadIsMax(e, ReadRow(rest, Width(n), symbols).bits, symbols);
      ReadIsMax(e, ReadRow(rest, Width(0), symbols).bits, symbols);
      ReadIsMax(e, RowWidth(rest, symbols).bits, symbols);
    }
  }

  // ----- the sum -----

  /** What the branch is written to return: the sum, when every element has a width. */
  function SumWidth(es: seq<Run>, symbols: Symbols): Outcome {
    if es == [] then NoWidth
    else if |es| == 1 then RowWidth(es[0], symbols)
    else
      var (first, rest) := (RowWidth(es[0], symbols), SumWidth(es[1..], symbols));
      if first.Width? && rest.Width? then Width(first.bits + rest.bits) else NoWidth
  }

  predicate SomeUnknown(es: seq<Run>, symbols: Symbols) {
    exists k :: 0 <= k < |es| && !RowWidth(es[k], symbols).Width?
  }

  lemma SomeUnknownCons(es: seq<Run>, symbols: Symbols)
    requires es != []
    ensures SomeUnknown(es, symbols) <==> !RowWidth(es[0], symbols).Width? || SomeUnknown(es[1..], symbols)
  {
    hide RowWidth;
    assert forall k :: 0 < k < |es| ==> es[k] == es[1..][k - 1];
    assert forall k :: 0 <= k < |es| - 1 ==> es[1..][k] == es[k + 1];
  }

  lemma {:induction false} SumIffKnown(es: seq<Run>, symbols: Symbols)
    requires es != []
    ensures SumWidth(es, symbols) == NoWidth || SumWidth(es, symbols).Width?
    ensures SumWidth(es, symbols).Width? <==> !SomeUnknown(es, symbols)
    decreases |es|
  {
    hide RowWidth, SomeUnknown;
    SomeUnknownCons(es, symbols);
    if |es| == 1 {
      RowNeverRaises(es[0], symbols);
      NothingUnknown(symbols);
    } else {
      SumIffKnown(es[1..], symbols);
    }
  }

  lemma NothingUnknown(symbols: Symbols)
    ensures !SomeUnknown([], symbols)
  {
  }

  predicate AllZero(es: seq<Run>, symbols: Symbols) {
    forall k :: 0 <= k < |es| ==> RowWidth(es[k], symbols) == Width(0)
  }

  /** All elements but one are zero bits wide, and of that one the widest branch is read. */
  predicate OneCounts(es: seq<Run>, symbols: Symbols) {
    || |es| <= 1
    || (AllZero(es[1..], symbols) && ReadRow(es[0], Width(0), symbols) == RowWidth(es[0], symbols))
    || (RowWidth(es[0], symbols) == Width(0) && OneCounts(es[1..], symbols))
  }

  lemma {:induction false} ZeroSum(es: seq<Run>, symbols: Symbols)
    requires es != [] && SumWidth(es, symbols).Width?
    ensures SumWidth(es, symbols) == Width(0) <==> AllZero(es, symbols)
    decreases |es|
  {
    hide RowWidth;
    if |es| > 1 {
      ZeroSum(es[1..], symbols);
      assert forall k :: 0 < k < |es| ==> es[k] == es[1..][k - 1];
      assert forall k :: 0 <= k < |es| - 1 ==> es[1..][k] == es[k + 1];
    }
  }

  lemma JoinedEnds(es: seq<Run>, symbols: Symbols)
    requires |es| >= 2 && !SomeUnknown(es, symbols)
    ensures Joined(es) == es[0] + Joined(es[1..]) && es[0] != [] && Joined(es[1..]) != []
    ensures EndsInTernary(Joined(es)) <==> EndsInTernary(Joined(es[1..]))
  {
    assert RowWidth(es[0], symbols).Width? && RowWidth(es[1], symbols).Width?;
    assert Joined(es[1..]) == es[1] + Joined(es[2..]);
  }

  /** Elements that all have a width, the last a bare ternary: what is read is at most
      the sum, and equal to it exactly when one element counts. */
  lemma {:induction false} ReadAgainstSum(es: seq<Run>, symbols: Symbols)
    requires es != [] && !SomeUnknown(es, symbols) && EndsInTernary(Joined(es))
    ensures var (row, sum) := (RowWidth(Joined(es), symbols), SumWidth(es, symbols));
      row.Width? && sum.Width? && row.bits <= sum.bits && (row == sum <==> OneCounts(es, symbols))
    decreases |es|
  {
    hide TreeWidth, RowWidth, SomeUnknown, EndsInTernary, AllZero;
    SumIffKnown(es, symbols);
    SomeUnknownCons(es, symbols);
    if |es| == 1 {
      assert es[0] + [] == es[0];
    } else {
      var rest := es[1..];
      JoinedEnds(es, symbols);
      ReadAgainstSum(rest, symbols);
      RowOfTwo(es[0], Joined(rest), symbols);
      RowReads(es[0], RowWidth(Joined(rest), symbols).bits, symbols);
      ZeroSum(rest, symbols);
    }
  }

  /** A brace list gets the sum of its elements exactly when it has at most one; or when
      some element has no width and no other is read in its place; or when all but one
      are zero bits wide and that one is read. */
  lemma ConcatIsSumIff(lb: Token, xs: seq<seq<Token>>, es: seq<Run>, comma: Token, rb: Token, symbols: Symbols)
    requires IsBraces(lb, rb) && Texts(xs, es) && RoleOf(comma.value).Comma?
    ensures ExpressionWidth([lb] + Listed(xs, comma) + [rb], symbols) == SumWidth(es, symbols) <==>
      || |es| <= 1
      || (if SomeUnknown(es, symbols) then !RowKnown(Joined(es), symbols)
          else EndsInTernary(Joined(es)) && OneCounts(es, symbols))
  {
    hide ExpressionWidth, Listed, RoleOf, AllFit, SomeUnknown, RowKnown, TreeWidth, IsBraces, OneCounts, EndsInTernary,
      RowWidth, Joined;
    ConcatWidth(lb, xs, es, comma, rb, symbols);
    RowKnownIff(Joined(es), symbols);
    RowNeverRaises(Joined(es), symbols);
    if |es| >= 2 {
      SumIffKnown(es, symbols);
      if !SomeUnknown(es, symbols) {
        if EndsInTernary(Joined(es)) { ReadAgainstSum(es, symbols); } else { NoTernaryNoWidth(es, symbols); }
      }
    } else {
      AtMostOne(es, symbols);
    }
  }

  lemma NoTernaryNoWidth(es: seq<Run>, symbols: Symbols)
    requires |es| >= 2 && !SomeUnknown(es, symbols) && !EndsInTernary(Joined(es))
    ensures RowWidth(Joined(es), symbols) == NoWidth
  {
    JoinedEnds(es, symbols);
    hide SomeUnknown, TreeWidth, ReadWidth;
    assert |Joined(es)| >= 2;
  }

  lemma AtMostOne(es: seq<Run>, symbols: Symbols)
    requires |es| <= 1
    ensures RowWidth(Joined(es), symbols) == SumWidth(es, symbols)
  {
    if |es| == 1 { assert es[0] + [] == es[0]; }
    hide TreeWidth, ReadWidth;
  }

  /** Several elements of at least one bit are never added up: what is read is smaller. */
  lemma RowBelowSum(es: seq<Run>, symbols: Symbols)
    requires |es| >= 2 && RowWidth(Joined(es), symbols).Width? && SumWidth(es, symbols).Width?
    requires forall k :: 0 <= k < |es| ==> RowWidth(es[k], symbols) != Width(0)
    ensures RowWidth(Joined(es), symbols).bits < SumWidth(es, symbols).bits
  {
    SumIffKnown(es, symbols);
    hide RowWidth, TreeWidth, SomeUnknown;
    if !EndsInTernary(Joined(es)) { NoTernaryNoWidth(es, symbols); }
    ReadAgainstSum(es, symbols);
    assert es[1..][0] == es[1];
  }
}
