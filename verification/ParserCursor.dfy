/** The parser: methods that move one cursor over a token list ending in eof,
    held to the functions of the position. Every method keeps the cursor at or before
    the eof token; the loops end because each of their steps moves it forward. */
module ParserCursor {
  import opened Tokens
  import opened Brackets
  import opened ParserSpec
  import opened ParserGrammar

  class Parser {
    const tokens: seq<Token>
    var index: nat
    var names: Names

    ghost predicate Valid()
      reads this
    {
      WellFormed(tokens) && index < |tokens|
    }

    constructor (ts: seq<Token>)
      requires WellFormed(ts)
      ensures Valid() && tokens == ts && index == 0 && names == Names({}, {})
    {
      tokens, index, names := ts, 0, Names({}, {});
    }

    function Peek(): Token
      reads this
      requires Valid()
    {
      tokens[index]
    }

    predicate AtEof()
      reads this
      requires Valid()
      ensures AtEof() <==> index == |tokens| - 1
    {
      Peek().kind == Eof
    }

    method Advance() returns (token: Token)
      requires Valid()
      modifies this`index
      ensures Valid() && token == tokens[old(index)] && index == Next(tokens, old(index))
    {
      token := Peek();
      if index < |tokens| - 1 {
        index := index + 1;
      }
    }

    method MatchValue(value: string) returns (matched: bool)
      requires Valid()
      modifies this`index
      ensures Valid() && matched == Is(tokens[old(index)], value) && index == Past(tokens, old(index), value)
    {
      matched := Is(Peek(), value);
      if matched {
        var _ := Advance();
      }
    }

    method SkipUntil(words: set<string>)
      requires Valid()
      modifies this`index
      ensures Valid() && index == SkipTo(tokens, old(index), words)
    {
      while !AtEof() && !OneOf(Peek(), words)
        invariant Valid() && old(index) <= index
        invariant SkipTo(tokens, old(index), words) == SkipTo(tokens, index, words)
        decreases |tokens| - index
      {
        SkipToSteps(tokens, index, words);
        var _ := Advance();
      }
      SkipToSteps(tokens, index, words);
    }

    /** Skips to a word and past it if it is the semicolon. */
    method Resync(words: set<string>)
      requires Valid()
      modifies this`index
      ensures Valid() && index == ResyncEnd(tokens, old(index), words)
    {
      SkipUntil(words);
      var _ := MatchValue(";");
    }

    /** The semicolon that ends a construct, or a new start without it. */
    method Close(words: set<string>)
      requires Valid()
      modifies this`index
      ensures Valid() && index == Closing(tokens, old(index), words)
    {
      var ended := MatchValue(";");
      if !ended {
        Resync(words);
      }
    }

    method CollectUntilSemicolon() returns (r: Slice)
      requires Valid()
      modifies this`index
      ensures Valid() && (index, r) == StatementPart(tokens, old(index))
    {
      var collected, start := [], index;
      var depth := 0;
      while !AtEof()
        invariant Valid() && old(index) <= index
        invariant collected == tokens[old(index)..index]
        invariant StatementStop(tokens, old(index), 0) == StatementStop(tokens, index, depth)
        decreases |tokens| - index
      {
        var token := Peek();
        if depth == 0 && Is(token, ";") {
          var _ := Advance();
          return Slice(start, index - 1, collected);
        }
        depth := DepthAfter(depth, token.value);
        if depth == 0 && OneOf(token, {"endmodule", "end"}) {
          return Slice(start, index, collected);
        }
        var next := Advance();
        collected := collected + [next];
      }
      r := Slice(start, index, collected);
    }

    method CollectBeginEnd() returns (r: Slice)
      requires Valid() && Is(tokens[index], "begin")
      modifies this`index
      ensures Valid() && index == After(tokens, old(index) + 1, "begin", "end")
      ensures r == Cut(tokens, old(index), index)
    {
      ghost var plain := tokens[..|tokens| - 1];
      var collected, start := [], index;
      var depth := 0;
      while !AtEof()
        invariant Valid() && old(index) <= index
        invariant collected == tokens[old(index)..index]
        invariant index == old(index) ==> depth == 0
        invariant index > old(index) ==>
          && depth > 0
          && MatchFrom(plain, old(index) + 1, 1, "begin", "end") == MatchFrom(plain, index, depth, "begin", "end")
        decreases |tokens| - index
      {
        var token := Advance();
        collected := collected + [token];
        if Is(token, "begin") {
          depth := depth + 1;
        } else if Is(token, "end") {
          depth := depth - 1;
          if depth == 0 {
            return Slice(start, index, collected);
          }
        }
      }
      r := Slice(start, index, collected);
    }

    method CollectCompound() returns (r: Slice)
      requires Valid()
      modifies this`index
      ensures Valid() && index == CompoundEnd(tokens, old(index), 0, 0)
      ensures r == Cut(tokens, old(index), index)
    {
      var collected, start := [], index;
      var begins: nat, cases: nat := 0, 0;
      while !AtEof()
        invariant Valid() && old(index) <= index
        invariant collected == tokens[old(index)..index]
        invariant CompoundEnd(tokens, old(index), 0, 0) == CompoundEnd(tokens, index, begins, cases)
        decreases |tokens| - index
      {
        var token := Advance();
        collected := collected + [token];
        if Is(token, "begin") {
          begins := begins + 1;
        } else if Is(token, "end") {
          begins := if begins > 0 then begins - 1 else 0;
          if begins == 0 && cases == 0 {
            return Slice(start, index, collected);
          }
        } else if OneOf(token, {"case", "casez", "casex"}) {
          cases := cases + 1;
        } else if Is(token, "endcase") {
          cases := if cases > 0 then cases - 1 else 0;
          if begins == 0 && cases == 0 {
            return Slice(start, index, collected);
          }
        } else if Is(token, ";") && begins == 0 && cases == 0 {
          if !Is(Peek(), "else") {
            return Slice(start, index, collected);
          }
        }
      }
      r := Slice(start, index, collected);
    }

    method CollectStatement() returns (r: Slice)
      requires Valid()
      modifies this`index
      ensures Valid() && (index, r) == BlockPart(tokens, old(index))
    {
      if Is(Peek(), "begin") {
        r := CollectBeginEnd();
      } else if OneOf(Peek(), {"if", "case", "casez", "casex"}) {
        r := CollectCompound();
      } else {
        r := CollectUntilSemicolon();
      }
    }

    method CollectBalanced(open: string, close: string) returns (r: Slice)
      requires Valid() && open != "<eof>"
      modifies this`index
      ensures Valid() && (index, r) == GroupOf(tokens, old(index), open, close)
    {
      ghost var plain := tokens[..|tokens| - 1];
      var found := MatchValue(open);
      if !found {
        return Slice(index, index, []);
      }
      var collected := [];
      var depth := 1;
      var start := index;
      while !AtEof()
        invariant Valid() && start <= index && depth > 0
        invariant collected == tokens[start..index]
        invariant MatchFrom(plain, start, 1, open, close) == MatchFrom(plain, index, depth, open, close)
        decreases |tokens| - index
      {
        var token := Advance();
        if Is(token, open) {
          depth := depth + 1;
        } else if Is(token, close) {
          depth := depth - 1;
          if depth == 0 {
            return Slice(start, index - 1, collected);
          }
        }
        collected := collected + [token];
      }
      r := Slice(start, index, collected);
    }

    /** The tokens up to the end keyword that closes the construct, or up to the
        first endmodule, or up to eof, whichever comes first. */
    method CollectUntilEndKeyword(startKeyword: string, endKeyword: string) returns (r: Slice)
      requires Valid() && startKeyword != endKeyword && endKeyword != "endmodule"
      modifies this`index
      ensures Valid() && (index, r) == KeywordPart(tokens, old(index), startKeyword, endKeyword)
    {
      hide WellFormed, Is, OnTheWay, IsKeywordPart, Next;
      var collected, start := [], index;
      var depth := 1;
      StartsOnTheWay(tokens, start, startKeyword, endKeyword);
      while !AtEof()
        invariant Valid() && start <= index && OnTheWay(tokens, start, index, depth, startKeyword, endKeyword)
        invariant collected == tokens[start..index]
        decreases |tokens| - index
      {
        OneTokenOn(tokens, start, index, depth, startKeyword, endKeyword);
        NextStep(tokens, index);
        OneMore(tokens, start, index);
        var token := Peek();
        if Is(token, endKeyword) {
          var _ := Advance();
          depth := depth - 1;
          if depth == 0 {
            KeywordPartMeans(tokens, start, startKeyword, endKeyword, (index, Slice(start, index - 1, collected)));
            return Slice(start, index - 1, collected);
          }
          collected := collected + [token];
        } else {
          if Is(token, startKeyword) {
            depth := depth + 1;
          }
          if Is(token, "endmodule") {
            KeywordPartMeans(tokens, start, startKeyword, endKeyword, (index, Slice(start, index, collected)));
            return Slice(start, index, collected);
          }
          var next := Advance();
          collected := collected + [next];
        }
      }
      NoTokenLeft(tokens, start, index, depth, startKeyword, endKeyword);
      KeywordPartMeans(tokens, start, startKeyword, endKeyword, (index, Slice(start, index, collected)));
      r := Slice(start, index, collected);
    }

    method SkipUnsupported(startKeyword: string)
      requires Valid() && index < |tokens| - 1
      modifies this`index
      ensures Valid() && index == UnsupportedEnd(tokens, old(index), startKeyword)
    {
      ghost var plain := tokens[..|tokens| - 1];
      var endKeyword := EndKeyword(startKeyword);
      var _ := Advance();
      if endKeyword.None? {
        Resync({";", "endmodule"});
        return;
      }
      var depth := 1;
      ghost var start := index;
      while !AtEof()
        invariant Valid() && start <= index && depth > 0
        invariant MatchFrom(plain, start, 1, startKeyword, endKeyword.value) ==
          MatchFrom(plain, index, depth, startKeyword, endKeyword.value)
        decreases |tokens| - index
      {
        var token := Advance();
        if Is(token, startKeyword) {
          depth := depth + 1;
        } else if Is(token, endKeyword.value) {
          depth := depth - 1;
          if depth == 0 {
            return;
          }
        }
      }
    }

    // ----- constructs that are read over -----

    method ParseImport()
      requires Valid()
      modifies this`index
      ensures Valid() && index == ImportEnd(tokens, old(index))
    {
      hide SkipTo, Is, OneOf, WellFormed, Next, Past, Closing, ResyncEnd;
      var _ := Advance();
      if Peek().kind != Identifier {
        Resync({";"});
        return;
      }
      var _ := Advance();
      var _ := MatchValue("::");
      if Is(Peek(), "*") {
        var _ := Advance();
      } else if Peek().kind == Identifier {
        var _ := Advance();
      }
      Close({";", "module", "endmodule"});
    }

    method ParseTypedef() returns (r: Slice)
      requires Valid()
      modifies this`index, this`names
      ensures Valid() && (index, r) == StatementPart(tokens, Next(tokens, old(index)))
      ensures names == WithTypedef(old(names), r)
    {
      hide StatementPart, LastName, Next, WellFormed;
      var _ := Advance();
      r := CollectUntilSemicolon();
      names := WithTypedef(names, r);
    }

    method ParseModport()
      requires Valid()
      modifies this`index
      ensures Valid() && index == ModportEnd(tokens, old(index))
    {
      hide SkipTo, Is, OneOf, WellFormed, Next, Past, Closing, ResyncEnd, GroupOf;
      var _ := Advance();
      if Peek().kind != Identifier {
        Resync({";"});
        return;
      }
      var _ := Advance();
      var _ := CollectParentheses();
      Close({";", "endinterface"});
    }

    /** A parenthesised group if one opens here. */
    method CollectParentheses() returns (r: Slice)
      requires Valid()
      modifies this`index
      ensures Valid() && (index, r) == GroupPart(tokens, old(index))
    {
      if Is(Peek(), "(") {
        r := CollectBalanced("(", ")");
      } else {
        r := Slice(index, index, []);
      }
    }

    /** An optional colon and name after an end keyword. */
    method SkipEndLabel()
      requires Valid()
      modifies this`index
      ensures Valid() && index == LabelEnd(tokens, old(index))
    {
      hide Is, WellFormed, Next;
      if Is(Peek(), ":") {
        var _ := Advance();
        if Peek().kind == Identifier {
          var _ := Advance();
        }
      }
    }

    method ReadPackageBody()
      requires Valid()
      modifies this`index, this`names
      ensures Valid() && (index, names) == PackageBody(tokens, old(index), old(names))
    {
      hide SkipTo, Is, OneOf, WellFormed, StatementEnd, UnsupportedEnd, Declares, SetsParameter, WithTypedef, ImportEnd;
      while !AtEof() && !Is(Peek(), "endpackage")
        invariant Valid() && old(index) <= index
        invariant PackageBody(tokens, old(index), old(names)) == PackageBody(tokens, index, names)
        decreases |tokens| - index
      {
        var token := Peek();
        if Is(token, "typedef") {
          var _ := ParseTypedef();
        } else if Is(token, "import") {
          ParseImport();
        } else if SetsParameter(token) || Declares(token) {
          var _ := CollectOwnStatement();
        } else if OneOf(token, UNSUPPORTED) {
          SkipUnsupported(token.value);
        } else {
          var _ := Advance();
        }
      }
    }

    method CollectOwnStatement() returns (r: Slice)
      requires Valid() && !AtEof() && (Declares(tokens[index]) || SetsParameter(tokens[index]))
      modifies this`index
      ensures Valid() && index == OwnStatementEnd(tokens, old(index)) && r == StatementPart(tokens, old(index)).1
    {
      hide Declares, SetsParameter;
      r := CollectUntilSemicolon();
    }

    method ParsePackage()
      requires Valid()
      modifies this`index, this`names
      ensures Valid() && (index, names) == PackageAt(tokens, old(index), old(names))
    {
      hide SkipTo, Is, OneOf, WellFormed, Next, Past, Closing, PackageBody, LabelEnd;
      var _ := Advance();
      if Peek().kind == Identifier {
        var _ := Advance();
      }
      Close({";", "endpackage"});
      ReadPackageBody();
      if Is(Peek(), "endpackage") {
        var _ := Advance();
        SkipEndLabel();
      }
    }

    method ReadInterfaceBody()
      requires Valid()
      modifies this`index, this`names
      ensures Valid() && (index, names) == InterfaceBody(tokens, old(index), old(names))
    {
      hide SkipTo, Is, OneOf, WellFormed, StatementEnd, UnsupportedEnd, Declares, SetsParameter, WithTypedef,
        ModportEnd;
      while !AtEof() && !Is(Peek(), "endinterface")
        invariant Valid() && old(index) <= index
        invariant InterfaceBody(tokens, old(index), old(names)) == InterfaceBody(tokens, index, names)
        decreases |tokens| - index
      {
        var token := Peek();
        if Is(token, "modport") {
          ParseModport();
        } else if Is(token, "typedef") {
          var _ := ParseTypedef();
        } else if Declares(token) {
          var _ := CollectOwnStatement();
        } else if OneOf(token, UNSUPPORTED) {
          SkipUnsupported(token.value);
        } else {
          var _ := Advance();
        }
      }
    }

    method ParseInterface()
      requires Valid()
      modifies this`index, this`names
      ensures Valid() && (index, names) == InterfaceAt(tokens, old(index), old(names))
    {
      hide SkipTo, Is, OneOf, WellFormed, Next, Past, Closing, InterfaceBody, LabelEnd, GroupOf;
      var _ := Advance();
      if Peek().kind == Identifier {
        names := names.(interfaces := names.interfaces + {Peek().value});
        var _ := Advance();
      }
      var _ := CollectParentheses();
      Close({";", "endinterface"});
      ReadInterfaceBody();
      if Is(Peek(), "endinterface") {
        var _ := Advance();
        SkipEndLabel();
      }
    }

    // ----- module items -----

    method ParseTypedDeclaration() returns (parts: seq<Slice>)
      requires Valid()
      modifies this`index
      ensures Valid() && (index, parts) == TypedDeclarationAt(tokens, old(index))
    {
      hide SkipTo, Is, OneOf, WellFormed, Next, ResyncEnd, StatementPart;
      var _ := Advance();
      if Peek().kind != Identifier {
        Resync({";"});
        return [];
      }
      var _ := Advance();
      var rest := CollectUntilSemicolon();
      parts := [rest];
    }

    method ParseInterfaceUse()
      requires Valid()
      modifies this`index
      ensures Valid() && index == InterfaceUseEnd(tokens, old(index))
    {
      hide SkipTo, Is, OneOf, WellFormed, Next, Closing, ResyncEnd, GroupOf;
      var _ := Advance();
      if Is(Peek(), ".") {
        var _ := Advance();
        if Peek().kind == Identifier {
          var _ := Advance();
        }
      }
      if Peek().kind != Identifier {
        Resync({";"});
        return;
      }
      var _ := Advance();
      var _ := CollectParentheses();
      Close({";", "endmodule"});
    }

    method ParseSubroutine(startKeyword: string, endKeyword: string) returns (parts: seq<Slice>)
      requires Valid() && startKeyword != endKeyword && endKeyword != "endmodule"
      modifies this`index
      ensures Valid() && (index, parts) == SubroutineAt(tokens, old(index), startKeyword, endKeyword)
    {
      hide WellFormed, Next, StatementPart, KeywordPart;
      var _ := Advance();
      var header := CollectUntilSemicolon();
      var body := CollectUntilEndKeyword(startKeyword, endKeyword);
      parts := [header, body];
    }

    method ParseGenerate() returns (parts: seq<Slice>)
      requires Valid()
      modifies this`index
      ensures Valid() && (index, parts) == GenerateAt(tokens, old(index))
    {
      hide WellFormed, Next, KeywordPart;
      var _ := Advance();
      var body := CollectUntilEndKeyword("generate", "endgenerate");
      parts := [body];
    }

    method CollectEvent() returns (event: Slice)
      requires Valid()
      modifies this`index
      ensures Valid() && (index, event) == EventPart(tokens, old(index))
    {
      hide WellFormed, GroupOf, Is;
      var marked := MatchValue("@");
      event := Slice(index, index, []);
      if marked {
        if Is(Peek(), "(") {
          event := CollectParentheses();
        } else if !AtEof() {
          var token := Advance();
          assert [token] == tokens[index - 1..index];
          event := Slice(index - 1, index, [token]);
        }
      }
    }

    method ParseAlways() returns (parts: seq<Slice>)
      requires Valid()
      modifies this`index
      ensures Valid() && (index, parts) == AlwaysAt(tokens, old(index))
    {
      hide WellFormed, Next, EventPart, BlockPart;
      var _ := Advance();
      var event := CollectEvent();
      var body := CollectStatement();
      parts := [event, body];
    }

    method ParseInstance() returns (parts: seq<Slice>)
      requires Valid()
      modifies this`index
      ensures Valid() && (index, parts) == InstanceAt(tokens, old(index))
    {
      hide SkipTo, Is, OneOf, WellFormed, Next, Closing, ResyncEnd, GroupOf;
      var _ := Advance();
      if Is(Peek(), "#") {
        var _ := Advance();
        var _ := CollectParentheses();
      }
      if Peek().kind != Identifier {
        Resync({";"});
        return [];
      }
      var _ := Advance();
      parts := [];
      if Is(Peek(), "(") {
        var ports := CollectParentheses();
        parts := [ports];
      } else {
        var _ := CollectParentheses();
      }
      Close({";", "endmodule"});
    }

    method ParseAssign() returns (parts: seq<Slice>)
      requires Valid()
      modifies this`index
      ensures Valid() && (index, parts) == StatementAfter(tokens, old(index))
    {
      hide WellFormed, Next, StatementPart;
      var _ := Advance();
      var statement := CollectUntilSemicolon();
      parts := [statement];
    }

    method ParseInitial() returns (parts: seq<Slice>)
      requires Valid()
      modifies this`index
      ensures Valid() && (index, parts) == InitialAt(tokens, old(index))
    {
      hide WellFormed, Next, BlockPart;
      var _ := Advance();
      var statement := CollectStatement();
      parts := [statement];
    }

    /** One item: whatever it is, the cursor moves forward. */
    method ParseItem() returns (item: Item)
      requires Valid() && !AtEof()
      modifies this`index, this`names
      ensures Valid() && index == item.end
      ensures item == ItemAt(tokens, old(index), old(names)) && names == NamesAfter(item, old(names))
    {
      hide Is, OneOf, WellFormed, Declares, SetsParameter, WithTypedef, StatementPart, ImportEnd, SubroutineAt,
        GenerateAt, AlwaysAt, InitialAt, UnsupportedEnd, InterfaceUseEnd, TypedDeclarationAt, InstanceAt,
        LooksLikeInterfaceUse, LooksLikeTypedDeclaration, LooksLikeInstance, Next;
      var token, start := Peek(), index;
      var kind, parts := Stray, [];
      if Declares(token) {
        var r := CollectOwnStatement();
        kind, parts := Declaration, [r];
      } else if Is(token, "typedef") {
        var r := ParseTypedef();
        kind, parts := Typedef, [r];
      } else if Is(token, "import") {
        ParseImport();
        kind := Import;
      } else if SetsParameter(token) {
        var r := CollectOwnStatement();
        kind, parts := Parameters, [r];
      } else if Is(token, "generate") {
        parts := ParseGenerate();
        kind := Generate;
      } else if Is(token, "function") {
        parts := ParseSubroutine("function", "endfunction");
        kind := Function;
      } else if Is(token, "task") {
        parts := ParseSubroutine("task", "endtask");
        kind := Task;
      } else if Is(token, "assign") {
        parts := ParseAssign();
        kind := Assign;
      } else if OneOf(token, {"always", "always_comb", "always_ff", "always_latch"}) {
        parts := ParseAlways();
        kind := Always;
      } else if Is(token, "initial") {
        parts := ParseInitial();
        kind := Initial;
      } else if OneOf(token, UNSUPPORTED) {
        SkipUnsupported(token.value);
        kind := Unsupported;
      } else if LooksLikeInterfaceUse(tokens, index, names) {
        ParseInterfaceUse();
        kind := InterfaceUse;
      } else if LooksLikeTypedDeclaration(tokens, index, names) {
        parts := ParseTypedDeclaration();
        kind := TypedDeclaration;
      } else if LooksLikeInstance(tokens, index) {
        parts := ParseInstance();
        kind := InstanceUse;
      } else {
        kind := if OneOf(token, {";", ","}) then Separator else Stray;
        var _ := Advance();
      }
      item := Item(kind, start, index, parts);
    }

    /** The items up to an endmodule or eof. */
    method ParseBody() returns (items: seq<Item>)
      requires Valid()
      modifies this`index, this`names
      ensures Valid() && (items, index, names) == BodyFrom(tokens, old(index), old(names))
    {
      hide Is, WellFormed, ItemAt, NamesAfter;
      items := [];
      ghost var whole := BodyFrom(tokens, index, names);
      ghost var rest := whole;
      while !AtEof() && !Is(Peek(), "endmodule")
        invariant Valid() && old(index) <= index && rest == BodyFrom(tokens, index, names)
        invariant whole.0 == items + rest.0 && whole.1 == rest.1 && whole.2 == rest.2
        decreases |tokens| - index
      {
        var item := ParseItem();
        ghost var tail := BodyFrom(tokens, index, names);
        assert rest == ([item] + tail.0, tail.1, tail.2);
        assert items + ([item] + tail.0) == (items + [item]) + tail.0;
        items, rest := items + [item], tail;
      }
      assert rest == ([], index, names) && items + [] == items;
    }

    /** Parameters and ports, up to the semicolon. */
    method ParseModuleHeader()
      requires Valid()
      modifies this`index
      ensures Valid() && index == HeaderEnd(tokens, old(index))
    {
      hide SkipTo, Is, OneOf, WellFormed, Next, Closing, GroupOf;
      if Is(Peek(), "#") {
        var _ := Advance();
        var _ := CollectParentheses();
      }
      var _ := CollectParentheses();
      Close({";", "endmodule"});
    }

    method ParseModule() returns (m: Option<Module>)
      requires Valid() && Is(tokens[index], "module")
      modifies this`index, this`names
      ensures Valid() && (m, index, names) == ModuleAt(tokens, old(index), old(names))
    {
      hide SkipTo, OneOf, WellFormed, BodyFrom, HeaderEnd, Is, Next;
      var _ := Advance();
      var name := Peek();
      if name.kind != Identifier {
        SkipUntil({"endmodule"});
        var _ := MatchValue("endmodule");
        return None;
      }
      var _ := Advance();
      ParseModuleHeader();
      var bodyStart := index;
      var items := ParseBody();
      var bodyEnd := index;
      var closed := MatchValue("endmodule");
      m := Some(Module(name.value, bodyStart, bodyEnd, tokens[bodyStart..bodyEnd], closed, items));
    }

    method ParseSection() returns (section: Section)
      requires Valid() && !AtEof()
      modifies this`index, this`names
      ensures Valid() && (section, names) == SectionAt(tokens, old(index), old(names)) && index == section.end
    {
      hide WellFormed, UnsupportedEnd, OneOf, Is, ModuleAt, PackageAt, InterfaceAt, ImportEnd;
      var token, start := Peek(), index;
      var kind := StrayText;
      if Is(token, "module") {
        var m := ParseModule();
        kind := if m.Some? then ModuleText(m.value) else NamelessModule;
      } else if Is(token, "package") {
        ParsePackage();
        kind := Package;
      } else if Is(token, "interface") {
        ParseInterface();
        kind := Interface;
      } else if Is(token, "import") {
        ParseImport();
        kind := ImportText;
      } else if OneOf(token, UNSUPPORTED) {
        SkipUnsupported(token.value);
        kind := UnsupportedText;
      } else {
        var _ := Advance();
      }
      section := Section(kind, start, index);
    }

    /** The whole token list. */
    method Parse() returns (sections: seq<Section>)
      requires Valid()
      modifies this`index, this`names
      ensures Valid() && AtEof() && sections == ParseFrom(tokens, old(index), old(names))
    {
      hide WellFormed, SectionAt;
      sections := [];
      ghost var rest := ParseFrom(tokens, index, names);
      assert [] + rest == rest;
      while !AtEof()
        invariant Valid() && rest == ParseFrom(tokens, index, names)
        invariant ParseFrom(tokens, old(index), old(names)) == sections + rest
        decreases |tokens| - index
      {
        var section := ParseSection();
        ghost var tail := ParseFrom(tokens, index, names);
        assert rest == [section] + tail && (sections + [section]) + tail == sections + ([section] + tail);
        sections, rest := sections + [section], tail;
      }
      assert sections + [] == sections;
    }
  }
}
