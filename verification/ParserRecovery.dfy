/** Where the parser goes on after text it cannot read to the end: missing names, missing
    semicolons, and groups and blocks that are never closed. */
module ParserRecovery {
  import opened Tokens
  import opened Brackets
  import opened Lexer
  import opened ParserSpec
  import opened ParserGrammar

  /** The first position from i with one of the words, or the last position of the list. */
  ghost predicate FirstOf(ts: seq<Token>, i: nat, words: set<string>, j: nat) {
    && i <= j < |ts| && (j == |ts| - 1 || ts[j].value in words)
    && forall k :: i <= k < j ==> ts[k].value !in words
  }

  /** Reading goes on at the first of the words, after it if it is a semicolon. */
  ghost predicate Resumes(ts: seq<Token>, i: nat, words: set<string>, r: nat) {
    exists j :: 0 <= j && FirstOf(ts, i, words, j) && r == if j < |ts| - 1 && ts[j].value == ";" then j + 1 else j
  }

  lemma ResyncSpelled(ts: seq<Token>, i: nat, words: set<string>)
    requires i < |ts|
    ensures Resumes(ts, i, words, ResyncEnd(ts, i, words))
  {
    var j := SkipTo(ts, i, words);
    assert forall k :: i <= k < j ==> !OneOf(ts[k], words);
    assert FirstOf(ts, i, words, j);
  }

  /** The semicolon that should stand at position i; without it reading resumes at the words. */
  ghost predicate Ends(ts: seq<Token>, i: nat, words: set<string>, r: nat) {
    i < |ts| && if ts[i].value == ";" && i < |ts| - 1 then r == i + 1 else Resumes(ts, i, words, r)
  }

  lemma ClosingSpelled(ts: seq<Token>, i: nat, words: set<string>)
    requires i < |ts| && ";" in words
    ensures Ends(ts, i, words, Closing(ts, i, words))
  {
    ResyncSpelled(ts, i, words);
    if ts[i].value == ";" && i == |ts| - 1 { assert FirstOf(ts, i, words, i); }
    hide Resumes, ResyncEnd;
  }

  // ----- missing names -----

  /** A module without a name is passed over up to its endmodule. */
  lemma NamelessModuleIsSkipped(ts: seq<Token>, i: nat, names: Names)
    requires i + 1 < |ts| && ts[i].value == "module" && ts[i + 1].kind != Identifier
    ensures var (section, after) := SectionAt(ts, i, names);
      && section.kind == NamelessModule && after == names
      && exists j :: 0 <= j && FirstOf(ts, i + 1, {"endmodule"}, j) &&
           section.end == if j < |ts| - 1 && ts[j].value == "endmodule" then j + 1 else j
  {
    var j := SkipTo(ts, i + 1, {"endmodule"});
    assert forall k :: i + 1 <= k < j ==> !OneOf(ts[k], {"endmodule"});
    assert FirstOf(ts, i + 1, {"endmodule"}, j);
  }

  /** An import without a package name is passed over up to its semicolon. */
  lemma NamelessImportIsSkipped(ts: seq<Token>, i: nat)
    requires i + 1 < |ts| && ts[i + 1].kind != Identifier
    ensures Resumes(ts, i + 1, {";"}, ImportEnd(ts, i))
  {
    ResyncSpelled(ts, i + 1, {";"});
    hide ResyncEnd;
  }

  lemma NamelessModportIsSkipped(ts: seq<Token>, i: nat)
    requires i + 1 < |ts| && ts[i + 1].kind != Identifier
    ensures Resumes(ts, i + 1, {";"}, ModportEnd(ts, i))
  {
    ResyncSpelled(ts, i + 1, {";"});
    hide ResyncEnd;
  }

  /** An instance without a name, its parameters read, is passed over up to its semicolon. */
  lemma NamelessInstanceIsSkipped(ts: seq<Token>, i: nat)
    requires i + 2 < |ts|
    requires var b := if ts[i + 1].value == "#" then GroupPart(ts, i + 2).0 else i + 1; ts[b].kind != Identifier
    ensures var b := if ts[i + 1].value == "#" then GroupPart(ts, i + 2).0 else i + 1;
      Resumes(ts, b, {";"}, InstanceAt(ts, i).0) && InstanceAt(ts, i).1 == []
  {
    var b := if ts[i + 1].value == "#" then GroupPart(ts, i + 2).0 else i + 1;
    ResyncSpelled(ts, b, {";"});
    NextStep(ts, i);
    NextStep(ts, i + 1);
    hide GroupPart, ResyncEnd, Resumes;
  }

  // ----- missing semicolons -----

  /** After an import: the semicolon, or where reading resumes. */
  lemma ImportEnds(ts: seq<Token>, i: nat)
    requires i + 4 < |ts| && ts[i + 1].kind == Identifier && ts[i + 2].value == "::"
    requires ts[i + 3].value == "*" || ts[i + 3].kind == Identifier
    ensures Ends(ts, i + 4, {";", "module", "endmodule"}, ImportEnd(ts, i))
  {
    ClosingSpelled(ts, i + 4, {";", "module", "endmodule"});
    NextStep(ts, i);
    NextStep(ts, i + 1);
    NextStep(ts, i + 2);
    NextStep(ts, i + 3);
    hide Closing, Ends;
  }

  /** Without the colons the name is taken as all there is, unless a star or a name follows. */
  lemma ImportWithoutColons(ts: seq<Token>, i: nat)
    requires i + 3 < |ts| && ts[i + 1].kind == Identifier && ts[i + 2].value != "::"
    ensures var at := if ts[i + 2].value == "*" || ts[i + 2].kind == Identifier then i + 3 else i + 2;
      Ends(ts, at, {";", "module", "endmodule"}, ImportEnd(ts, i))
  {
    ClosingSpelled(ts, i + 2, {";", "module", "endmodule"});
    ClosingSpelled(ts, i + 3, {";", "module", "endmodule"});
    NextStep(ts, i);
    NextStep(ts, i + 1);
    NextStep(ts, i + 2);
    hide Closing, Ends;
  }

  lemma ModportEnds(ts: seq<Token>, i: nat)
    requires i + 2 < |ts| && ts[i + 1].kind == Identifier
    ensures Ends(ts, GroupPart(ts, i + 2).0, {";", "endinterface"}, ModportEnd(ts, i))
  {
    ClosingSpelled(ts, GroupPart(ts, i + 2).0, {";", "endinterface"});
    NextStep(ts, i);
    NextStep(ts, i + 1);
    hide Closing, Ends, GroupPart;
  }

  lemma InstanceEnds(ts: seq<Token>, i: nat)
    requires i + 2 < |ts| && ts[i + 1].value != "#" && ts[i + 1].kind == Identifier
    ensures Ends(ts, GroupPart(ts, i + 2).0, {";", "endmodule"}, InstanceAt(ts, i).0)
    ensures InstanceAt(ts, i).1 == if ts[i + 2].value == "(" then [GroupPart(ts, i + 2).1] else []
  {
    ClosingSpelled(ts, GroupPart(ts, i + 2).0, {";", "endmodule"});
    NextStep(ts, i);
    NextStep(ts, i + 1);
    hide Closing, Ends, GroupPart;
  }

  lemma InterfaceUseEnds(ts: seq<Token>, i: nat)
    requires i + 2 < |ts| && ts[i + 1].value != "." && ts[i + 1].kind == Identifier
    ensures Ends(ts, GroupPart(ts, i + 2).0, {";", "endmodule"}, InterfaceUseEnd(ts, i))
  {
    ClosingSpelled(ts, GroupPart(ts, i + 2).0, {";", "endmodule"});
    NextStep(ts, i);
    NextStep(ts, i + 1);
    hide Closing, Ends, GroupPart;
  }

  lemma HeaderEnds(ts: seq<Token>, i: nat)
    requires i < |ts| && ts[i].value != "#"
    ensures Ends(ts, GroupPart(ts, i).0, {";", "endmodule"}, HeaderEnd(ts, i))
  {
    ClosingSpelled(ts, GroupPart(ts, i).0, {";", "endmodule"});
    hide Closing, Ends, GroupPart;
  }

  /** A package header, with or without a name, and then its contents. */
  lemma PackageHeaderEnds(ts: seq<Token>, i: nat, names: Names) returns (start: nat)
    requires i + 2 < |ts|
    ensures start < |ts| && Ends(ts, if ts[i + 1].kind == Identifier then i + 2 else i + 1, {";", "endpackage"}, start)
    ensures PackageAt(ts, i, names).1 == PackageBody(ts, start, names).1
  {
    var at := if ts[i + 1].kind == Identifier then i + 2 else i + 1;
    NextStep(ts, i);
    NextStep(ts, i + 1);
    ClosingSpelled(ts, at, {";", "endpackage"});
    start := Closing(ts, at, {";", "endpackage"});
    hide PackageBody, Ends, Closing;
  }

  // ----- what is never closed -----

  /** A group that is never closed takes all up to the last position. */
  lemma UnclosedGroup(ts: seq<Token>, i: nat)
    requires i + 1 < |ts| && ts[i].value == "(" && MatchFrom(ts[..|ts| - 1], i + 1, 1, "(", ")").None?
    ensures GroupPart(ts, i) == (|ts| - 1, Slice(i + 1, |ts| - 1, ts[i + 1..|ts| - 1]))
  {
    hide MatchFrom;
  }

  /** Nor does a block that is never ended. */
  lemma UnclosedBlock(ts: seq<Token>, i: nat)
    requires i + 1 < |ts| && ts[i].value == "begin" && MatchFrom(ts[..|ts| - 1], i + 1, 1, "begin", "end").None?
    ensures BlockPart(ts, i) == (|ts| - 1, Slice(i, |ts| - 1, ts[i..|ts| - 1]))
  {
    hide MatchFrom;
  }

  /** A body whose end keyword does not come before the endmodule stops at the endmodule. */
  lemma UnclosedBody(ts: seq<Token>, i: nat, start: string, end: string, limit: nat)
    requires i < |ts| && FirstOf(ts, i, {"endmodule"}, limit)
    requires MatchFrom(ts[..limit], i, 1, start, end).None?
    ensures KeywordPart(ts, i, start, end) == (limit, Slice(i, limit, ts[i..limit]))
  {
    var j := SkipTo(ts, i, {"endmodule"});
    assert forall k :: i <= k < j ==> !OneOf(ts[k], {"endmodule"});
    assert limit < |ts| - 1 ==> OneOf(ts[limit], {"endmodule"});
    assert j < |ts| - 1 ==> OneOf(ts[j], {"endmodule"});
    assert j == limit;
    hide MatchFrom;
  }

  /** How many brackets are open after the tokens i..k, closers with nothing open left out. */
  function OpenBrackets(ts: seq<Token>, i: nat, k: nat): nat
    requires i <= k <= |ts|
  {
    if k == i then 0
    else
      var d := OpenBrackets(ts, i, k - 1);
      if ts[k - 1].value in {"(", "[", "{"} then d + 1
      else if ts[k - 1].value in {")", "]", "}"} then (if d > 0 then d - 1 else 0)
      else d
  }

  /** A token that ends the statement from i on if it stands at k. */
  predicate EndsStatement(ts: seq<Token>, i: nat, k: nat)
    requires i <= k < |ts|
  {
    || (ts[k].value == ";" && OpenBrackets(ts, i, k) == 0)
    || (ts[k].value in {"end", "endmodule"} && OpenBrackets(ts, i, k + 1) == 0)
  }

  lemma DepthSpelled(d: nat, v: string)
    ensures DepthAfter(d, v) ==
      if v in {"(", "[", "{"} then d + 1
      else if v in {")", "]", "}"} then (if d > 0 then d - 1 else 0)
      else d
  {
  }

  lemma {:induction false} StopSpelled(ts: seq<Token>, i: nat, k: nat)
    requires i <= k < |ts|
    ensures var stop := StatementStop(ts, k, OpenBrackets(ts, i, k));
      && (stop == |ts| - 1 || EndsStatement(ts, i, stop))
      && forall j :: k <= j < stop ==> !EndsStatement(ts, i, j)
    decreases |ts| - k
  {
    if k < |ts| - 1 {
      var d := OpenBrackets(ts, i, k);
      DepthSpelled(d, ts[k].value);
      assert DepthAfter(d, ts[k].value) == OpenBrackets(ts, i, k + 1);
      hide DepthAfter, OpenBrackets;
      if !EndsStatement(ts, i, k) { StopSpelled(ts, i, k + 1); }
    }
  }

  /** A statement ends at the first semicolon outside brackets, or before the first end or
      endmodule outside them, or at the end of the list. */
  lemma StatementStopSpelled(ts: seq<Token>, i: nat)
    requires i < |ts|
    ensures var stop := StatementStop(ts, i, 0);
      && i <= stop < |ts| && (stop == |ts| - 1 || EndsStatement(ts, i, stop))
      && (forall j :: i <= j < stop ==> !EndsStatement(ts, i, j))
      && StatementEnd(ts, i) == if stop < |ts| - 1 && ts[stop].value == ";" then stop + 1 else stop
  {
    StopSpelled(ts, i, i);
    hide StatementStop, EndsStatement;
  }

  // ----- single tokens and names -----

  /** After an end keyword a colon is passed over, and the name after it if there is one. */
  lemma EndNameSpelled(ts: seq<Token>, i: nat)
    requires i + 1 < |ts|
    ensures LabelEnd(ts, i) ==
      if ts[i].value != ":" then i
      else if ts[i + 1].kind == Identifier && i + 1 < |ts| - 1 then i + 2
      else i + 1
  {
    NextStep(ts, i);
  }

  /** A token that starts nothing is passed over by itself. */
  lemma OneTokenItem(ts: seq<Token>, i: nat, names: Names)
    requires i + 1 < |ts| && (KindAt(ts, i, names) == Separator || KindAt(ts, i, names) == Stray)
    ensures ItemAt(ts, i, names).end == i + 1 && ItemAt(ts, i, names).parts == []
    ensures KindAt(ts, i, names) == Separator <==> ts[i].value == ";" || ts[i].value == ","
  {
    hide LooksLikeInstance, LooksLikeInterfaceUse, LooksLikeTypedDeclaration;
  }

  /** The name a typedef adds is the last plain identifier of its text. */
  lemma {:induction false} LastNameSpelled(ts: seq<Token>)
    ensures match LastName(ts)
      case None => forall k :: 0 <= k < |ts| ==> !IsPlain(ts[k])
      case Some(v) =>
        exists k :: 0 <= k < |ts| && IsPlain(ts[k]) && ts[k].value == v && forall j :: k < j < |ts| ==> !IsPlain(ts[j])
  {
    if ts != [] {
      var n := |ts| - 1;
      var front := ts[..n];
      LastNameSpelled(front);
      if LastName(front).Some? && !IsPlain(ts[n]) {
        var k :| 0 <= k < n && IsPlain(front[k]) && front[k].value == LastName(front).value &&
          forall j :: k < j < n ==> !IsPlain(front[j]);
        assert IsPlain(ts[k]) && forall j :: k < j < n ==> ts[j] == front[j];
      }
      if IsPlain(ts[n]) { assert ts[n].value == LastName(ts).value; }
    }
  }

  predicate IsPlain(t: Token) { t.kind == Identifier && t.value !in Keywords() }
}
