/** What the parser's result says about the token list. */
module ParserMeaning {
  import opened Tokens
  import opened Brackets
  import opened Lexer
  import opened ParserSpec
  import opened ParserGrammar

  /** What the lexer returns is a token list the parser accepts. */
  lemma LexedIsWellFormed(c: Classes, lines: seq<SourceLine>)
    ensures WellFormed(LexLines(c, lines).0 + [EofToken(lines)])
  {
    NoEofInLines(c, lines);
    hide LexLines;
    var ts := LexLines(c, lines).0;
    assert forall i :: 0 <= i < |ts| ==> (ts + [EofToken(lines)])[i] == ts[i];
  }

  lemma {:induction false} NoEofInLines(c: Classes, lines: seq<SourceLine>)
    ensures forall t :: t in LexLines(c, lines).0 ==> t.kind != Eof
  {
    hide LexFrom;
    if lines != [] {
      NoEofInLines(c, lines[..|lines| - 1]);
      var last := lines[|lines| - 1];
      NoEofInText(c, last, last.text, 1);
    }
  }

  lemma {:induction false} NoEofInText(c: Classes, src: SourceLine, s: string, column: nat)
    ensures forall t :: t in LexFrom(c, src, s, column).0 ==> t.kind != Eof
    decreases |s|
  {
    hide ScanOne;
    if s != "" {
      if c.space(s[0]) || ScanOne(c, s).Unknown? {
        NoEofInText(c, src, s[1..], column + 1);
      } else {
        LexemesAreNotEof(c, s);
        NoEofInText(c, src, s[ScanOne(c, s).length..], column + ScanOne(c, s).length);
      }
    }
  }

  lemma LexemesAreNotEof(c: Classes, s: string)
    requires s != "" && ScanOne(c, s).Lexeme?
    ensures ScanOne(c, s).kind != Eof
  {
    hide Run, Keywords, ValidNumber, StringRun, Operators, OperatorIndex, SingleSymbols, OperatorSymbols;
  }

  /** A statement that stops at its semicolon or at eof is the first part of what
      splitting the rest of the tokens at top-level semicolons gives. */
  lemma {:induction false} StatementIsFirstPart(ts: seq<Token>, i: nat, depth: nat, current: seq<Token>)
    requires i < |ts|
    requires var stop := StatementStop(ts, i, depth); stop == |ts| - 1 || Is(ts[stop], ";")
    ensures SplitFrom(ts[..|ts| - 1], i, depth, current, ";")[0] == current + ts[i..StatementStop(ts, i, depth)]
    decreases |ts| - i
  {
    var plain := ts[..|ts| - 1];
    if i == |ts| - 1 {
      assert i == |plain|;
      SplitEnd(plain, depth, current, ";");
    } else {
      SplitStep(plain, i, depth, current, ";");
      hide SplitFrom;
      SemicolonKeepsDepth(depth);
      assert plain[i] == ts[i];
      var d := DepthAfter(depth, ts[i].value);
      if !(d == 0 && Is(ts[i], ";")) {
        StatementIsFirstPart(ts, i + 1, d, current + [ts[i]]);
        TakeOne(ts, i, StatementStop(ts, i, depth), current);
      }
    }
  }

  lemma TakeOne(ts: seq<Token>, i: nat, stop: nat, current: seq<Token>)
    requires i < stop <= |ts|
    ensures (current + [ts[i]]) + ts[i + 1..stop] == current + ts[i..stop]
  {
    assert ts[i..stop] == [ts[i]] + ts[i + 1..stop];
  }

  lemma SemicolonKeepsDepth(depth: nat)
    ensures DepthAfter(depth, ";") == depth
  {
  }

  /** A group read with the cursor has the inner tokens that the matchers on lists give. */
  lemma GroupIsGroup(ts: seq<Token>, i: nat, open: string, close: string)
    requires WellFormed(ts) && i < |ts| && open != "<eof>"
    ensures GroupOf(ts, i, open, close).1.tokens == Group(ts[..|ts| - 1], i, open, close).0
  {
    hide MatchFrom;
    var plain := ts[..|ts| - 1];
    if i < |plain| && Is(ts[i], open) {
      var m := MatchFrom(plain, i + 1, 1, open, close);
      assert plain[i] == ts[i];
      if m.Some? {
        assert plain[i + 1..m.value] == ts[i + 1..m.value];
      } else {
        assert plain[i + 1..] == ts[i + 1..|ts| - 1];
      }
    }
  }

  // ----- items -----

  /** An item takes up at least its first token, and what it keeps lies inside it. */
  ghost predicate ItemOk(ts: seq<Token>, item: Item) {
    item.start < item.end < |ts| && forall p :: p in item.parts ==> IsSlice(ts, p, item.start, item.end)
  }

  lemma ItemIsOk(ts: seq<Token>, i: nat, names: Names)
    requires i + 1 < |ts|
    ensures ItemOk(ts, ItemAt(ts, i, names)) && ItemAt(ts, i, names).start == i
  {
    hide PartsAt, KindAt, IsSlice;
  }

  /** Items one after another, from lo to hi, with nothing between them, none
      of them at an endmodule. */
  ghost predicate Tiled(ts: seq<Token>, items: seq<Item>, lo: nat, hi: nat) {
    if items == [] then lo == hi
    else
      && ItemOk(ts, items[0]) && items[0].start == lo && !Is(ts[lo], "endmodule")
      && Tiled(ts, items[1..], items[0].end, hi)
  }

  /** The items of a body tile it. */
  lemma {:induction false} BodyIsTiled(ts: seq<Token>, i: nat, names: Names)
    requires i < |ts|
    ensures var (items, end, _) := BodyFrom(ts, i, names); Tiled(ts, items, i, end)
    decreases |ts| - i
  {
    hide Is, ItemAt, ItemOk, NamesAfter;
    if !(i == |ts| - 1 || Is(ts[i], "endmodule")) {
      var item := ItemAt(ts, i, names);
      ItemIsOk(ts, i, names);
      BodyIsTiled(ts, item.end, NamesAfter(item, names));
      var (rest, end, after) := BodyFrom(ts, item.end, NamesAfter(item, names));
      assert ([item] + rest)[1..] == rest;
    }
  }

  ghost predicate Holds(item: Item, at: nat) { item.start <= at < item.end }

  lemma {:induction false} ItemsBetween(ts: seq<Token>, items: seq<Item>, lo: nat, hi: nat)
    requires Tiled(ts, items, lo, hi)
    ensures lo <= hi
    ensures forall k :: 0 <= k < |items| ==>
      lo <= items[k].start < items[k].end <= hi && items[k].end < |ts| && !Is(ts[items[k].start], "endmodule")
  {
    hide Is;
    if items != [] {
      ItemsBetween(ts, items[1..], items[0].end, hi);
      forall k | 0 < k < |items|
        ensures lo <= items[k].start < items[k].end <= hi && items[k].end < |ts| && !Is(ts[items[k].start], "endmodule")
      {
        assert items[k] == items[1..][k - 1];
      }
    }
  }

  /** Every position of a tiled range lies in exactly one item. */
  lemma {:induction false} ExactlyOneItem(ts: seq<Token>, items: seq<Item>, lo: nat, hi: nat, at: nat)
    requires Tiled(ts, items, lo, hi) && lo <= at < hi
    ensures exists k :: 0 <= k < |items| && Holds(items[k], at)
    ensures forall j, k :: 0 <= j < k < |items| ==> !(Holds(items[j], at) && Holds(items[k], at))
  {
    hide Is, ItemOk;
    ItemsBetween(ts, items, lo, hi);
    var rest, next := items[1..], items[0].end;
    ItemsBetween(ts, rest, next, hi);
    assert forall k :: 0 < k < |items| ==> items[k] == rest[k - 1];
    if at < next {
      assert Holds(items[0], at);
    } else {
      ExactlyOneItem(ts, rest, next, hi, at);
      var k :| 0 <= k < |rest| && Holds(rest[k], at);
      assert Holds(items[k + 1], at);
      forall i, j | 0 <= i < j < |items| ensures !(Holds(items[i], at) && Holds(items[j], at)) {
        if i > 0 { assert items[i] == rest[i - 1] && items[j] == rest[j - 1]; }
      }
    }
  }

  // ----- modules -----

  /** The body runs from the header to the item boundary where it stops. */
  ghost predicate ModuleOk(ts: seq<Token>, m: Module, start: nat, end: nat) {
    && start < m.bodyStart <= m.bodyEnd < |ts| && m.body == ts[m.bodyStart..m.bodyEnd]
    && m.name == ts[start + 1].value && ts[start + 1].kind == Identifier
    && (m.closed <==> Is(ts[m.bodyEnd], "endmodule"))
    && (m.closed || m.bodyEnd == |ts| - 1)
    && m.bodyEnd <= end
    && Tiled(ts, m.items, m.bodyStart, m.bodyEnd)
  }

  lemma ModuleIsOk(ts: seq<Token>, i: nat, names: Names)
    requires i + 1 < |ts|
    ensures var (m, end, _) := ModuleAt(ts, i, names); m.Some? ==> ModuleOk(ts, m.value, i, end)
  {
    hide Is, HeaderEnd, BodyFrom;
    if Named(ts, i + 1) {
      BodyIsTiled(ts, HeaderEnd(ts, Next(ts, i + 1)), names);
    }
  }

  /** An item has run over an endmodule. */
  ghost predicate Overruns(ts: seq<Token>, item: Item) {
    item.end <= |ts| && exists at :: item.start < at < item.end && Is(ts[at], "endmodule")
  }

  lemma OneWord(ts: seq<Token>, word: string)
    ensures forall j :: 0 <= j < |ts| ==> (OneOf(ts[j], {word}) <==> Is(ts[j], word))
  {
  }

  /** A module ends at the first endmodule after its header, unless one of its
      items has run over that endmodule, and only then. */
  lemma ModuleEndsAtFirstEndmodule(ts: seq<Token>, m: Module, start: nat, end: nat)
    requires ModuleOk(ts, m, start, end)
    ensures m.bodyEnd == SkipTo(ts, m.bodyStart, {"endmodule"}) <==>
      forall item :: item in m.items ==> !Overruns(ts, item)
  {
    hide SkipTo, Tiled, Is, OneOf, IsSlice;
    var first := SkipTo(ts, m.bodyStart, {"endmodule"});
    OneWord(ts, "endmodule");
    ItemsBetween(ts, m.items, m.bodyStart, m.bodyEnd);
    if first < m.bodyEnd {
      ExactlyOneItem(ts, m.items, m.bodyStart, m.bodyEnd, first);
      var k :| 0 <= k < |m.items| && Holds(m.items[k], first);
      assert Overruns(ts, m.items[k]);
    } else {
      assert first == m.bodyEnd;
      forall item | item in m.items ensures !Overruns(ts, item) {
        var k :| 0 <= k < |m.items| && m.items[k] == item;
        assert m.bodyStart <= m.items[k].start && m.items[k].end <= m.bodyEnd;
      }
    }
  }

  // ----- the whole list -----

  ghost predicate SectionOk(ts: seq<Token>, s: Section) {
    && s.start < s.end < |ts|
    && (s.kind.ModuleText? ==> ModuleOk(ts, s.kind.m, s.start, s.end))
    && (Is(ts[s.start], "module") <==> s.kind.ModuleText? || s.kind.NamelessModule?)
  }

  lemma SectionIsOk(ts: seq<Token>, i: nat, names: Names)
    requires i + 1 < |ts|
    ensures SectionOk(ts, SectionAt(ts, i, names).0)
  {
    hide Is, ModuleOk, ModuleAt, PackageAt, InterfaceAt, ImportEnd, UnsupportedEnd, OneOf;
    ModuleIsOk(ts, i, names);
  }

  ghost predicate SectionsTiled(ts: seq<Token>, sections: seq<Section>, lo: nat) {
    if sections == [] then lo == |ts| - 1
    else SectionOk(ts, sections[0]) && sections[0].start == lo && SectionsTiled(ts, sections[1..], sections[0].end)
  }

  /** The top-level constructs follow one another from the start to eof with
      nothing between them; those at a module keyword are the modules, and their
      bodies are tiled by their items. */
  lemma {:induction false} ParseTiles(ts: seq<Token>, i: nat, names: Names)
    requires i < |ts|
    ensures SectionsTiled(ts, ParseFrom(ts, i, names), i)
    decreases |ts| - i
  {
    hide SectionAt, SectionOk;
    if i < |ts| - 1 {
      SectionIsOk(ts, i, names);
      var (section, after) := SectionAt(ts, i, names);
      ParseTiles(ts, section.end, after);
      assert ([section] + ParseFrom(ts, section.end, after))[1..] == ParseFrom(ts, section.end, after);
    }
  }
}
