/** The loops behind width inference, held to the functions the theorem is about. */
module WidthSplits {
  import opened Tokens
  import opened Brackets
  import opened Width

  method StripOuterGroup(tokens: seq<Token>, open: string, close: string) returns (result: seq<Token>)
    ensures result == Strip(tokens, open, close)
  {
    result := tokens;
    while |result| >= 2 && result[0].value == open && result[|result| - 1].value == close
      invariant Strip(result, open, close) == Strip(tokens, open, close)
      decreases |result|
    {
      var inner, closeIndex := BalancedGroup(result, 0, open, close);
      if closeIndex != Some(|result| - 1) {
        break;
      }
      result := inner;
    }
  }

  lemma RoleTests(v: string)
    ensures RoleOf(v).Open? <==> v == "(" || v == "[" || v == "{"
    ensures RoleOf(v).Close? <==> v == ")" || v == "]" || v == "}"
    ensures RoleOf(v).Query? <==> v == "?"
    ensures RoleOf(v).Colon? <==> v == ":"
  {
  }

  /** One step of the forward scan. */
  lemma FirstFromStep(ts: seq<Token>, i: nat, depth: nat, role: Role)
    requires i < |ts|
    ensures var r := RoleOf(ts[i].value);
      FirstFrom(ts[i..], depth, role) ==
        if r.Open? then FirstFrom(ts[i + 1..], depth + 1, role)
        else if r.Close? then FirstFrom(ts[i + 1..], if depth > 0 then depth - 1 else 0, role)
        else if depth == 0 && r == role then ts[i..]
        else FirstFrom(ts[i + 1..], depth, role)
  {
    assert ts[i..][1..] == ts[i + 1..];
  }

  lemma DropOne(ts: seq<Token>, q: nat)
    requires q < |ts|
    ensures ts[q..] != [] && ts[q..][1..] == ts[q + 1..]
  {
  }

  lemma TernaryAtNone(ts: seq<Token>, q: nat)
    requires q < |ts| && FirstFrom(ts, 0, Query) == ts[q..] && FirstFrom(ts[q + 1..], 0, Colon) == []
    ensures TernaryAt(ts) == None
  {
    hide FirstFrom;
    assert ts[q..][1..] == ts[q + 1..];
  }

  method SplitTernary(tokens: seq<Token>) returns (r: Option<(seq<Token>, seq<Token>, seq<Token>)>)
    ensures match TernaryAt(tokens)
      case None => r == None
      case Some((q, c)) => r == Some((tokens[..q], tokens[q + 1..c], tokens[c + 1..]))
  {
    hide FirstFrom, RoleOf, TernaryAt;
    var depth := 0;
    var question: Option<nat> := None;
    assert tokens[0..] == tokens;
    for index := 0 to |tokens|
      invariant depth >= 0
      invariant question.None? ==> FirstFrom(tokens[index..], depth, Query) == FirstFrom(tokens, 0, Query)
      invariant question.Some? ==> question.value < index && FirstFrom(tokens, 0, Query) == tokens[question.value..]
      invariant question.Some? ==>
        FirstFrom(tokens[index..], depth, Colon) == FirstFrom(tokens[question.value + 1..], 0, Colon)
    {
      var v := tokens[index].value;
      RoleTests(v);
      FirstFromStep(tokens, index, depth, Query);
      FirstFromStep(tokens, index, depth, Colon);
      if v == "(" || v == "[" || v == "{" {
        depth := depth + 1;
      } else if v == ")" || v == "]" || v == "}" {
        depth := if depth - 1 > 0 then depth - 1 else 0;
      } else if depth == 0 && v == "?" && question.None? {
        question := Some(index);
      } else if depth == 0 && v == ":" && question.Some? {
        var q := question.value;
        DropOne(tokens, q);
        PositionsFromSuffixes(tokens, tokens[q..], tokens[index..]);
        return Some((tokens[..q], tokens[q + 1..index], tokens[index + 1..]));
      }
    }
    ScanOfNothing(tokens, depth);
    if question.Some? {
      TernaryAtNone(tokens, question.value);
    } else {
      NoQueryNoTernary(tokens);
    }
    return None;
  }

  lemma ScanOfNothing(ts: seq<Token>, depth: nat)
    ensures FirstFrom(ts[|ts|..], depth, Query) == [] && FirstFrom(ts[|ts|..], depth, Colon) == []
  {
  }

  /** The table of operator groups, loosest first. */
  const PrecedenceGroups: seq<set<string>> := [
    {"||"},
    {"&&"},
    {"==", "!="},
    {">", "<", ">=", "<="},
    {"+", "-"},
    {"<<", ">>", "<<<", ">>>"},
    {"&", "|", "^"},
    {"*", "/", "%"}
  ]

  lemma GroupIsRole(v: string, level: nat)
    requires level < Levels
    ensures v in PrecedenceGroups[level] <==> RoleOf(v) == Infix(level)
  {
  }

  /** One step of the backward scan. */
  lemma OperatorAtStep(ts: seq<Token>, i: nat, level: nat, depth: nat, last: nat)
    requires i < |ts|
    ensures var r := RoleOf(ts[i].value);
      OperatorAt(ts[..i + 1], level, depth, last) ==
        if r.Close? then OperatorAt(ts[..i], level, depth + 1, last)
        else if r.Open? then OperatorAt(ts[..i], level, if depth > 0 then depth - 1 else 0, last)
        else if depth == 0 && r == Infix(level) && 0 < i < last then Some(i)
        else OperatorAt(ts[..i], level, depth, last)
  {
    assert ts[..i + 1][..i] == ts[..i] && ts[..i + 1][i] == ts[i];
  }

  /** The scan of one group over all the tokens. */
  method LastOperator(tokens: seq<Token>, level: nat) returns (r: Option<nat>)
    requires level < Levels && tokens != []
    ensures r == OperatorAt(tokens, level, 0, |tokens| - 1)
  {
    hide OperatorAt, RoleOf;
    var depth := 0;
    var index := |tokens| - 1;
    assert tokens[..|tokens|] == tokens;
    while index >= 0
      invariant -1 <= index < |tokens| && depth >= 0
      invariant OperatorAt(tokens[..index + 1], level, depth, |tokens| - 1) ==
        OperatorAt(tokens, level, 0, |tokens| - 1)
    {
      var v := tokens[index].value;
      OperatorAtStep(tokens, index, level, depth, |tokens| - 1);
      GroupIsRole(v, level);
      RoleTests(v);
      if v == ")" || v == "]" || v == "}" {
        depth := depth + 1;
      } else if v == "(" || v == "[" || v == "{" {
        depth := if depth - 1 > 0 then depth - 1 else 0;
      } else if depth == 0 && v in PrecedenceGroups[level] && 0 < index < |tokens| - 1 {
        return Some(index);
      }
      index := index - 1;
    }
    EmptyPrefix(level, depth, |tokens| - 1);
    return None;
  }

  lemma EmptyPrefix(level: nat, depth: nat, last: nat)
    ensures OperatorAt([], level, depth, last) == None
  {
  }

  method SplitBinaryExpression(tokens: seq<Token>) returns (r: Option<(seq<Token>, string, seq<Token>)>)
    ensures match BinaryAt(tokens, 0)
      case None => r == None
      case Some(i) => r == Some((tokens[..i], tokens[i].value, tokens[i + 1..]))
  {
    hide OperatorAt;
    if tokens == [] {
      return None;
    }
    for level := 0 to |PrecedenceGroups|
      invariant BinaryAt(tokens, level) == BinaryAt(tokens, 0)
    {
      BinaryAtStep(tokens, level);
      var index := LastOperator(tokens, level);
      if index.Some? {
        return Some((tokens[..index.value], tokens[index.value].value, tokens[index.value + 1..]));
      }
    }
    return None;
  }
}
