/** Bracket matching and top-level splitting on token lists. The repository
    writes the matcher three times and the splitter three times; all of them
    are held to the same two functions here. */
module Brackets {
  import opened Tokens

  /** The position where the bracket depth, `depth` before position i, first
      returns to zero on a closer. */
  function MatchFrom(tokens: seq<Token>, i: nat, depth: nat, open: string, close: string): (r: Option<nat>)
    requires i <= |tokens| && depth > 0
    ensures r.Some? ==> i <= r.value < |tokens| && tokens[r.value].value == close
    decreases |tokens| - i
  {
    if i == |tokens| then None
    else if tokens[i].value == open then MatchFrom(tokens, i + 1, depth + 1, open, close)
    else if tokens[i].value == close then
      if depth == 1 then Some(i) else MatchFrom(tokens, i + 1, depth - 1, open, close)
    else MatchFrom(tokens, i + 1, depth, open, close)
  }

  /** The tokens strictly inside the group opened at a position and the index
      of its closer; everything up to the end and no index when unmatched. */
  function Group(tokens: seq<Token>, openIndex: nat, open: string, close: string): (r: (seq<Token>, Option<nat>))
    ensures r.1.Some? ==> openIndex < r.1.value < |tokens| && r.0 == tokens[openIndex + 1..r.1.value]
  {
    if openIndex >= |tokens| || tokens[openIndex].value != open then ([], None)
    else
      var end := MatchFrom(tokens, openIndex + 1, 1, open, close);
      (if end.Some? then tokens[openIndex + 1..end.value] else tokens[openIndex + 1..], end)
  }

  /** The matcher of the lint rules and of the parser. */
  method BalancedGroup(tokens: seq<Token>, openIndex: nat, open: string, close: string)
    returns (inner: seq<Token>, closeIndex: Option<nat>)
    ensures (inner, closeIndex) == Group(tokens, openIndex, open, close)
  {
    if openIndex >= |tokens| || tokens[openIndex].value != open {
      return [], None;
    }
    var depth := 1;
    inner := [];
    var cursor := openIndex + 1;
    while cursor < |tokens|
      invariant openIndex < cursor <= |tokens| && depth > 0
      invariant inner == tokens[openIndex + 1..cursor]
      invariant MatchFrom(tokens, cursor, depth, open, close) == Group(tokens, openIndex, open, close).1
    {
      var token := tokens[cursor];
      if token.value == open {
        depth := depth + 1;
      } else if token.value == close {
        depth := depth - 1;
        if depth == 0 {
          return inner, Some(cursor);
        }
      }
      inner := inner + [token];
      cursor := cursor + 1;
    }
    assert tokens[openIndex + 1..cursor] == tokens[openIndex + 1..];
    return inner, None;
  }

  /** The matcher of the risk rules, which counts the opening bracket inside its loop. */
  method BalancedGroupCountingOpener(tokens: seq<Token>, openIndex: nat, open: string, close: string)
    returns (inner: seq<Token>, closeIndex: Option<nat>)
    ensures (inner, closeIndex) == Group(tokens, openIndex, open, close)
  {
    if openIndex >= |tokens| || tokens[openIndex].value != open {
      return [], None;
    }
    var depth := 0;
    inner := [];
    for index := openIndex to |tokens|
      invariant depth >= 0 && (depth == 0 <==> index == openIndex)
      invariant index == openIndex ==> inner == []
      invariant index > openIndex ==> inner == tokens[openIndex + 1..index]
      invariant index > openIndex ==>
        MatchFrom(tokens, index, depth, open, close) == Group(tokens, openIndex, open, close).1
    {
      var token := tokens[index];
      if token.value == open {
        depth := depth + 1;
        if depth == 1 {
          continue;
        }
      } else if token.value == close {
        depth := depth - 1;
        if depth == 0 {
          return inner, Some(index);
        }
      }
      inner := inner + [token];
    }
    assert tokens[openIndex + 1..|tokens|] == tokens[openIndex + 1..];
    return inner, None;
  }

  /** Openers minus closers. */
  function Net(tokens: seq<Token>, open: string, close: string): int {
    if tokens == [] then 0
    else
      Net(tokens[..|tokens| - 1], open, close)
      + (if tokens[|tokens| - 1].value == open then 1 else if tokens[|tokens| - 1].value == close then -1 else 0)
  }

  ghost predicate NeverBelow(tokens: seq<Token>, from: nat, to: nat, open: string, close: string)
    requires from <= to <= |tokens|
  {
    forall k :: from <= k <= to ==> Net(tokens[from..k], open, close) >= 0
  }

  lemma NetStep(tokens: seq<Token>, from: nat, i: nat, open: string, close: string)
    requires from <= i < |tokens|
    ensures Net(tokens[from..i + 1], open, close) == Net(tokens[from..i], open, close)
      + (if tokens[i].value == open then 1 else if tokens[i].value == close then -1 else 0)
  {
    assert tokens[from..i + 1][..i - from] == tokens[from..i];
    assert tokens[from..i + 1][i - from] == tokens[i];
  }

  lemma NeverBelowStep(tokens: seq<Token>, from: nat, i: nat, open: string, close: string)
    requires from <= i < |tokens| && NeverBelow(tokens, from, i, open, close)
    requires Net(tokens[from..i + 1], open, close) >= 0
    ensures NeverBelow(tokens, from, i + 1, open, close)
  {
  }

  /** The group ends at the first position where closers outnumber openers, and
      is unmatched only when there is none. */
  lemma {:induction false} MatchIsFirstExcess(tokens: seq<Token>, from: nat, i: nat, depth: nat, open: string,
      close: string)
    requires from <= i <= |tokens| && depth > 0 && open != close
    requires depth == 1 + Net(tokens[from..i], open, close)
    requires NeverBelow(tokens, from, i, open, close)
    ensures match MatchFrom(tokens, i, depth, open, close)
      case Some(end) => NeverBelow(tokens, from, end, open, close) && Net(tokens[from..end + 1], open, close) == -1
      case None => NeverBelow(tokens, from, |tokens|, open, close)
    decreases |tokens| - i
  {
    hide NeverBelow, Net;
    if i < |tokens| {
      NetStep(tokens, from, i, open, close);
      var step := if tokens[i].value == open then 1 else if tokens[i].value == close then -1 else 0;
      if depth + step > 0 {
        NeverBelowStep(tokens, from, i, open, close);
        MatchIsFirstExcess(tokens, from, i + 1, depth + step, open, close);
      }
    }
  }

  /** Matching from a deeper start ends no later: the closer of an inner group
      comes before the closer of any group around it. */
  lemma {:induction false} DeeperEndsEarlier(tokens: seq<Token>, i: nat, d: nat, e: nat, open: string, close: string)
    requires i <= |tokens| && 0 < d <= e
    ensures var inner := MatchFrom(tokens, i, d, open, close);
      var outer := MatchFrom(tokens, i, e, open, close);
      outer.Some? ==> inner.Some? && inner.value <= outer.value && (d < e ==> inner.value < outer.value)
    decreases |tokens| - i
  {
    if i < |tokens| {
      if tokens[i].value == open {
        DeeperEndsEarlier(tokens, i + 1, d + 1, e + 1, open, close);
      } else if tokens[i].value == close {
        if d > 1 {
          DeeperEndsEarlier(tokens, i + 1, d - 1, e - 1, open, close);
        }
      } else {
        DeeperEndsEarlier(tokens, i + 1, d, e, open, close);
      }
    }
  }

  /** A group opened inside another one closes inside it. */
  lemma {:induction false} InnerGroupNested(tokens: seq<Token>, i: nat, depth: nat, k: nat, open: string, close: string)
    requires i <= k < |tokens| && depth > 0
    requires tokens[k].value == open
    ensures var outer := MatchFrom(tokens, i, depth, open, close);
      var inner := MatchFrom(tokens, k + 1, 1, open, close);
      outer.Some? && k < outer.value ==> inner.Some? && inner.value < outer.value
    decreases k - i
  {
    if i == k {
      DeeperEndsEarlier(tokens, k + 1, 1, depth + 1, open, close);
    } else if tokens[i].value == open {
      InnerGroupNested(tokens, i + 1, depth + 1, k, open, close);
    } else if tokens[i].value == close {
      if depth > 1 {
        InnerGroupNested(tokens, i + 1, depth - 1, k, open, close);
      }
    } else {
      InnerGroupNested(tokens, i + 1, depth, k, open, close);
    }
  }

  predicate Opens(v: string) { v == "(" || v == "[" || v == "{" }

  predicate Closes(v: string) { v == ")" || v == "]" || v == "}" }

  /** The bracket depth after a token; a stray closer leaves it at zero. */
  function DepthAfter(depth: nat, v: string): nat {
    if Opens(v) then depth + 1 else if Closes(v) && depth > 0 then depth - 1 else depth
  }

  function SplitFrom(tokens: seq<Token>, i: nat, depth: nat, current: seq<Token>,
      separator: string): (parts: seq<seq<Token>>)
    requires i <= |tokens|
    ensures parts != []
    ensures forall p :: p in parts ==> |p| <= |current| + |tokens| - i
    decreases |tokens| - i
  {
    if i == |tokens| then [current]
    else
      var d := DepthAfter(depth, tokens[i].value);
      if d == 0 && tokens[i].value == separator then [current] + SplitFrom(tokens, i + 1, d, [], separator)
      else SplitFrom(tokens, i + 1, d, current + [tokens[i]], separator)
  }

  function SplitTopLevel(tokens: seq<Token>, separator: string): (parts: seq<seq<Token>>)
    ensures parts != []
    ensures forall p :: p in parts ==> |p| <= |tokens|
  {
    SplitFrom(tokens, 0, 0, [], separator)
  }

  lemma SplitStep(tokens: seq<Token>, i: nat, depth: nat, current: seq<Token>, separator: string)
    requires i < |tokens|
    ensures var d := DepthAfter(depth, tokens[i].value);
      SplitFrom(tokens, i, depth, current, separator) ==
        if d == 0 && tokens[i].value == separator then [current] + SplitFrom(tokens, i + 1, d, [], separator)
        else SplitFrom(tokens, i + 1, d, current + [tokens[i]], separator)
  {
  }

  lemma SplitEnd(tokens: seq<Token>, depth: nat, current: seq<Token>, separator: string)
    ensures SplitFrom(tokens, |tokens|, depth, current, separator) == [current]
  {
  }

  /** The splitter; the three copies differ only in how the test is written. */
  method SplitAtTopLevel(tokens: seq<Token>, separator: string) returns (parts: seq<seq<Token>>)
    ensures parts == SplitTopLevel(tokens, separator)
  {
    hide SplitFrom;
    parts := [];
    var current: seq<Token> := [];
    var depth := 0;
    for i := 0 to |tokens|
      invariant depth >= 0
      invariant parts + SplitFrom(tokens, i, depth, current, separator) == SplitTopLevel(tokens, separator)
    {
      SplitStep(tokens, i, depth, current, separator);
      var token := tokens[i];
      if token.value == "(" || token.value == "[" || token.value == "{" {
        depth := depth + 1;
      } else if token.value == ")" || token.value == "]" || token.value == "}" {
        depth := if depth - 1 > 0 then depth - 1 else 0;
      }
      if depth == 0 && token.value == separator {
        parts := parts + [current];
        current := [];
      } else {
        current := current + [token];
      }
    }
    SplitEnd(tokens, depth, current, separator);
    parts := parts + [current];
  }

  function ValuesOf(tokens: seq<Token>): seq<string> {
    seq(|tokens|, i requires 0 <= i < |tokens| => tokens[i].value)
  }

  /** The parts with the separator put back between them. */
  ghost function Join(parts: seq<seq<Token>>, separator: string): seq<string>
    requires parts != []
  {
    if |parts| == 1 then ValuesOf(parts[0])
    else ValuesOf(parts[0]) + [separator] + Join(parts[1..], separator)
  }

  lemma JoinCons(first: seq<Token>, rest: seq<seq<Token>>, separator: string)
    requires rest != []
    ensures Join([first] + rest, separator) == ValuesOf(first) + [separator] + Join(rest, separator)
  {
    assert ([first] + rest)[1..] == rest;
  }

  /** The values from position i on. */
  ghost function ValuesFrom(tokens: seq<Token>, i: nat): seq<string>
    requires i <= |tokens|
  {
    ValuesOf(tokens[i..])
  }

  lemma ValuesStep(tokens: seq<Token>, i: nat)
    requires i <= |tokens|
    ensures ValuesFrom(tokens, i) == if i == |tokens| then [] else [tokens[i].value] + ValuesFrom(tokens, i + 1)
  {
  }

  lemma ValuesSnoc(tokens: seq<Token>, t: Token)
    ensures ValuesOf(tokens + [t]) == ValuesOf(tokens) + [t.value]
  {
  }

  /** Splitting and joining give the tokens back. */
  lemma {:induction false} JoinOfSplit(tokens: seq<Token>, i: nat, depth: nat, current: seq<Token>, separator: string)
    requires i <= |tokens|
    ensures Join(SplitFrom(tokens, i, depth, current, separator), separator) ==
      ValuesOf(current) + ValuesFrom(tokens, i)
    decreases |tokens| - i
  {
    hide SplitFrom, Join, ValuesOf, ValuesFrom;
    ValuesStep(tokens, i);
    if i == |tokens| {
      SplitEnd(tokens, depth, current, separator);
      JoinOfOne(current, separator);
    } else {
      SplitStep(tokens, i, depth, current, separator);
      var d := DepthAfter(depth, tokens[i].value);
      if d == 0 && tokens[i].value == separator {
        JoinOfSplit(tokens, i + 1, d, [], separator);
        JoinCons(current, SplitFrom(tokens, i + 1, d, [], separator), separator);
        NoValues();
        Regroup(ValuesOf(current), separator, ValuesFrom(tokens, i + 1));
      } else {
        JoinOfSplit(tokens, i + 1, d, current + [tokens[i]], separator);
        ValuesSnoc(current, tokens[i]);
        Regroup(ValuesOf(current), tokens[i].value, ValuesFrom(tokens, i + 1));
      }
    }
  }

  lemma Regroup(x: seq<string>, t: string, y: seq<string>)
    ensures (x + [t]) + y == x + ([t] + y) && (x + [t]) + ([] + y) == x + ([t] + y)
  {
  }

  lemma JoinOfOne(part: seq<Token>, separator: string)
    ensures Join([part], separator) == ValuesOf(part) + []
  {
  }

  lemma NoValues()
    ensures ValuesOf([]) == []
  {
  }

  /** The depth at the end of a list that has no top-level separator; None when it has one. */
  ghost function Uncut(s: seq<Token>, separator: string): Option<nat> {
    if s == [] then Some(0)
    else
      var before := Uncut(s[..|s| - 1], separator);
      if before.None? then None
      else
        var d := DepthAfter(before.value, s[|s| - 1].value);
        if d == 0 && s[|s| - 1].value == separator then None else Some(d)
  }

  /** No part has a top-level separator, whether or not the brackets balance. */
  lemma {:induction false} PartsAreUncut(tokens: seq<Token>, i: nat, depth: nat, current: seq<Token>,
      separator: string, p: seq<Token>)
    requires i <= |tokens| && Uncut(current, separator) == Some(depth)
    requires p in SplitFrom(tokens, i, depth, current, separator)
    ensures Uncut(p, separator).Some?
    decreases |tokens| - i
  {
    hide SplitFrom;
    if i == |tokens| {
      SplitEnd(tokens, depth, current, separator);
    } else {
      SplitStep(tokens, i, depth, current, separator);
      UncutSnoc(current, tokens[i], separator);
      hide Uncut;
      var d := DepthAfter(depth, tokens[i].value);
      if d == 0 && tokens[i].value == separator {
        if p != current {
          NothingIsUncut(separator);
          PartsAreUncut(tokens, i + 1, d, [], separator, p);
        }
      } else {
        PartsAreUncut(tokens, i + 1, d, current + [tokens[i]], separator, p);
      }
    }
  }

  lemma NothingIsUncut(separator: string)
    ensures Uncut([], separator) == Some(0)
  {
  }

  lemma UncutSnoc(s: seq<Token>, t: Token, separator: string)
    requires Uncut(s, separator).Some?
    ensures var d := DepthAfter(Uncut(s, separator).value, t.value);
      Uncut(s + [t], separator) == if d == 0 && t.value == separator then None else Some(d)
  {
    assert (s + [t])[..|s|] == s;
  }

  /** A list without a top-level separator is its own only part. */
  lemma {:induction false} UncutIsWhole(s: seq<Token>, i: nat, separator: string)
    requires i <= |s| && Uncut(s, separator).Some?
    ensures Uncut(s[..i], separator).Some?
    ensures SplitFrom(s, i, Uncut(s[..i], separator).value, s[..i], separator) == [s]
    decreases |s| - i
  {
    if i == |s| {
      assert s[..i] == s;
    } else {
      UncutIsWhole(s, i + 1, separator);
      assert s[..i + 1][..i] == s[..i] && s[..i + 1] == s[..i] + [s[i]];
    }
  }

  /** Splitting gives back the tokens when joined, and no part can be split further. */
  lemma SplitIsExact(tokens: seq<Token>, separator: string)
    ensures Join(SplitTopLevel(tokens, separator), separator) == ValuesOf(tokens)
    ensures forall p :: p in SplitTopLevel(tokens, separator) ==> SplitTopLevel(p, separator) == [p]
  {
    JoinOfSplit(tokens, 0, 0, [], separator);
    assert tokens[0..] == tokens && ValuesOf([]) + ValuesOf(tokens) == ValuesOf(tokens);
    forall p | p in SplitTopLevel(tokens, separator)
      ensures SplitTopLevel(p, separator) == [p]
    {
      PartsAreUncut(tokens, 0, 0, [], separator, p);
      UncutIsWhole(p, 0, separator);
      assert p[..0] == [];
    }
  }

  predicate Pairs(open: string, close: string) {
    (open == "(" && close == ")") || (open == "[" && close == "]") || (open == "{" && close == "}")
  }

  /** The brackets still open after one more token; None after a closer with no
      opener or, when kinds are told apart, with an opener of another kind. */
  function OpenAfter(stack: Option<seq<string>>, v: string, kinds: bool): Option<seq<string>> {
    if stack.None? then None
    else if Opens(v) then Some(stack.value + [v])
    else if !Closes(v) then stack
    else
      var n := |stack.value|;
      if n == 0 || (kinds && !Pairs(stack.value[n - 1], v)) then None else Some(stack.value[..n - 1])
  }

  function OpenAtEnd(stack: Option<seq<string>>, s: seq<Token>, kinds: bool): Option<seq<string>>
    decreases |s|
  {
    if s == [] then stack else OpenAtEnd(OpenAfter(stack, s[0].value, kinds), s[1..], kinds)
  }

  /** No stray closer and nothing left open. */
  predicate IsBalanced(s: seq<Token>, kinds: bool) {
    OpenAtEnd(Some([]), s, kinds) == Some([])
  }

  lemma {:induction false} OpenSnoc(stack: Option<seq<string>>, s: seq<Token>, t: Token, kinds: bool)
    ensures OpenAtEnd(stack, s + [t], kinds) == OpenAfter(OpenAtEnd(stack, s, kinds), t.value, kinds)
    decreases |s|
  {
    hide OpenAfter;
    if s == [] {
      assert s + [t] == [t];
    } else {
      assert (s + [t])[1..] == s[1..] + [t];
      OpenSnoc(OpenAfter(stack, s[0].value, kinds), s[1..], t, kinds);
    }
  }

  lemma {:induction false} StrayStays(s: seq<Token>, kinds: bool)
    ensures OpenAtEnd(None, s, kinds) == None
  {
    if s != [] { StrayStays(s[1..], kinds); }
  }

  /** The clamped depth counts the open brackets as long as there is no stray closer. */
  lemma DepthCountsOpen(stack: Option<seq<string>>, depth: nat, v: string, kinds: bool)
    requires stack.Some? ==> |stack.value| == depth
    ensures var after := OpenAfter(stack, v, kinds); after.Some? ==> |after.value| == DepthAfter(depth, v)
  {
  }

  ghost predicate AllBalanced(parts: seq<seq<Token>>, kinds: bool) {
    forall p :: p in parts ==> IsBalanced(p, kinds)
  }

  lemma AllBalancedCons(first: seq<Token>, rest: seq<seq<Token>>, kinds: bool)
    ensures AllBalanced([first] + rest, kinds) <==> IsBalanced(first, kinds) && AllBalanced(rest, kinds)
  {
    hide IsBalanced;
    var parts := [first] + rest;
    assert parts[0] == first && forall k :: 0 <= k < |rest| ==> rest[k] == parts[k + 1];
  }

  lemma {:induction false} PartsBalanceIff(tokens: seq<Token>, i: nat, depth: nat, current: seq<Token>,
      separator: string, kinds: bool)
    requires i <= |tokens| && !Opens(separator) && !Closes(separator)
    requires var open := OpenAtEnd(Some([]), current, kinds); open.Some? ==> |open.value| == depth
    ensures AllBalanced(SplitFrom(tokens, i, depth, current, separator), kinds) <==>
      OpenAtEnd(OpenAtEnd(Some([]), current, kinds), tokens[i..], kinds) == Some([])
    decreases |tokens| - i
  {
    hide SplitFrom, OpenAfter, AllBalanced, DepthAfter, Opens, Closes;
    var open := OpenAtEnd(Some([]), current, kinds);
    if i == |tokens| {
      SplitEnd(tokens, depth, current, separator);
      AllBalancedCons(current, [], kinds);
      assert [current] + [] == [current];
      NoneToBalance(kinds);
    } else {
      var t := tokens[i];
      var d := DepthAfter(depth, t.value);
      SplitStep(tokens, i, depth, current, separator);
      assert tokens[i..][0] == t && tokens[i..][1..] == tokens[i + 1..];
      DepthCountsOpen(open, depth, t.value, kinds);
      if d == 0 && t.value == separator {
        SeparatorOpensNothing(open, separator, kinds);
        AllBalancedCons(current, SplitFrom(tokens, i + 1, d, [], separator), kinds);
        PartsBalanceIff(tokens, i + 1, d, [], separator, kinds);
        if open.None? { StrayStays(tokens[i + 1..], kinds); }
      } else {
        OpenSnoc(Some([]), current, t, kinds);
        PartsBalanceIff(tokens, i + 1, d, current + [t], separator, kinds);
      }
    }
  }

  lemma NoneToBalance(kinds: bool)
    ensures AllBalanced([], kinds)
  {
  }

  lemma SeparatorOpensNothing(stack: Option<seq<string>>, separator: string, kinds: bool)
    requires !Opens(separator) && !Closes(separator)
    ensures OpenAfter(stack, separator, kinds) == stack
  {
  }

  /** A list is balanced exactly when all its parts are, counting brackets only
      or telling their kinds apart. */
  lemma SplitKeepsBalance(tokens: seq<Token>, separator: string, kinds: bool)
    requires !Opens(separator) && !Closes(separator)
    ensures IsBalanced(tokens, kinds) <==> forall p :: p in SplitTopLevel(tokens, separator) ==> IsBalanced(p, kinds)
  {
    hide SplitFrom, Opens, Closes;
    PartsBalanceIff(tokens, 0, 0, [], separator, kinds);
    assert tokens[0..] == tokens;
  }
}
