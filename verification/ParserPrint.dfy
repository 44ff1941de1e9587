/** Modules written out token by token and read back: on text that closes what
    it opens the recovering parser finds exactly the modules and items written. */
module ParserPrint {
  import opened Tokens
  import opened Brackets
  import opened Lexer
  import opened ParserSpec
  import opened ParserGrammar
  import opened ParserTexts
  import opened ParserStatements

  // ----- what is written -----

  /** An event control after an always keyword: a group, a single token, or none. */
  datatype Event = NoEvent | On(at: Token, group: Parens) | OnOne(at: Token, signal: Token)

  function EventText(e: Event): seq<Token> {
    match e
    case NoEvent => []
    case On(at, group) => [at] + ParensText(group)
    case OnOne(at, signal) => [at] + [signal]
  }

  /** A declaration, parameter or assignment; a block with any balanced text; an always or
      initial block with a statement; an instance, without and with parameters; a typedef;
      an import; a function or task; a declaration whose type is a name; an interface used
      as a type, without and with a modport; a modport; a generate block; and a construct
      outside the subset, up to its end keyword or its semicolon. */
  datatype Piece =
    | Simple(keyword: Token, body: seq<Token>, semi: Token)
    | Block(keyword: Token, at: Token, event: Parens, first: Token, body: seq<Token>, last: Token)
    | Use(moduleType: Token, name: Token, ports: Parens, semi: Token)
    | TypeDef(keyword: Token, body: seq<Token>, semi: Token)
    | FromPackage(keyword: Token, package: Token, colons: Token, what: Token, semi: Token)
    | Routine(keyword: Token, header: seq<Token>, semi: Token, body: seq<Token>, last: Token)
    | Typed(typeName: Token, name: Token, body: seq<Token>, semi: Token)
    | Connect(interfaceType: Token, name: Token, group: Option<Parens>, semi: Token)
    | Modport(keyword: Token, name: Token, group: Option<Parens>, semi: Token)
    | Process(keyword: Token, control: Event, stmt: Stmt)
    | ParamUse(moduleType: Token, hash: Token, params: Parens, name: Token, ports: Parens, semi: Token)
    | ModportUse(interfaceType: Token, dot: Token, modport: Token, name: Token, group: Option<Parens>, semi: Token)
    | Generated(keyword: Token, body: seq<Token>, last: Token)
    | Skipped(keyword: Token, body: seq<Token>, last: Token)
    | SkippedTo(keyword: Token, body: seq<Token>, semi: Token)

  function PieceText(p: Piece): (t: seq<Token>)
    ensures t != []
  {
    match p
    case Simple(keyword, body, semi) => [keyword] + (body + [semi])
    case Block(keyword, at, event, first, body, last) =>
      [keyword] + ([at] + (ParensText(event) + ([first] + (body + [last]))))
    case Use(moduleType, name, ports, semi) => [moduleType] + ([name] + (ParensText(ports) + [semi]))
    case TypeDef(keyword, body, semi) => [keyword] + (body + [semi])
    case FromPackage(keyword, package, colons, what, semi) => [keyword] + ([package] + ([colons] + ([what] + [semi])))
    case Routine(keyword, header, semi, body, last) => [keyword] + ((header + [semi]) + (body + [last]))
    case Typed(typeName, name, body, semi) => [typeName] + ([name] + (body + [semi]))
    case Connect(interfaceType, name, group, semi) => [interfaceType] + ([name] + ClosingText(group, semi))
    case Modport(keyword, name, group, semi) => [keyword] + ([name] + ClosingText(group, semi))
    case Process(keyword, event, stmt) => [keyword] + (EventText(event) + StmtText(stmt))
    case ParamUse(moduleType, hash, params, name, ports, semi) =>
      [moduleType] + ([hash] + (ParensText(params) + ([name] + (ParensText(ports) + [semi]))))
    case ModportUse(interfaceType, dot, modport, name, group, semi) =>
      [interfaceType] + ([dot] + ([modport] + ([name] + ClosingText(group, semi))))
    case Generated(keyword, body, last) => [keyword] + (body + [last])
    case Skipped(keyword, body, last) => [keyword] + (body + [last])
    case SkippedTo(keyword, body, semi) => [keyword] + (body + [semi])
  }

  /** The words that start a declaration, and those that set a parameter. */
  const DECLARING := {
    "input", "output", "inout", "wire", "reg", "logic", "bit", "byte", "shortint", "int", "longint", "integer", "time",
    "genvar"
  }

  const PARAMETERS := {"parameter", "localparam"}

  /** The end keyword of a construct that is skipped to one. */
  function SkipEnd(word: string): Option<string> {
    if word == "program" then Some("endprogram")
    else if word == "class" then Some("endclass")
    else if word == "specify" then Some("endspecify")
    else if word == "primitive" then Some("endprimitive")
    else if word == "property" then Some("endproperty")
    else if word == "covergroup" then Some("endgroup")
    else None
  }

  /** Constructs that are skipped to a semicolon. */
  const SKIPPED_STATEMENTS := {"union", "for", "while", "repeat", "forever", "assert", "assume", "cover"}

  lemma DeclaringWords(t: Token)
    ensures Declares(t) <==> t.value in DECLARING
    ensures SetsParameter(t) <==> t.value in PARAMETERS
    ensures t.value in DECLARING ==> t.value !in PARAMETERS && t.value != "assign"
    ensures t.value in PARAMETERS ==> t.value != "assign"
  {
  }

  lemma SkippedWords(t: Token)
    ensures OneOf(t, UNSUPPORTED) <==> SkipEnd(t.value).Some? || t.value in SKIPPED_STATEMENTS
    ensures EndKeyword(t.value) == SkipEnd(t.value)
    ensures SkipEnd(t.value).Some? ==> SkipEnd(t.value).value != t.value
    ensures t.value in SKIPPED_STATEMENTS ==> SkipEnd(t.value) == None
  {
  }

  predicate StartsAlways(t: Token) { OneOf(t, {"always", "always_comb", "always_ff", "always_latch"}) }

  predicate PlainName(t: Token) { t.kind == Identifier && t.value !in Keywords() }

  function EndOf(keyword: Token): string {
    if Is(keyword, "function") then "endfunction" else "endtask"
  }

  predicate PieceFits(p: Piece) {
    match p
    case Simple(keyword, body, semi) =>
      && (keyword.value in DECLARING || keyword.value in PARAMETERS || keyword.value == "assign")
      && Runs(body, 0) && Is(semi, ";")
    case Block(keyword, at, event, first, body, last) =>
      && StartsAlways(keyword) && Is(at, "@") && ParensFit(event)
      && Is(first, "begin") && Is(last, "end") && Nests(body, 1, "begin", "end")
    case Use(moduleType, name, ports, semi) =>
      PlainName(moduleType) && name.kind == Identifier && !Is(name, "#") && ParensFit(ports) && Is(semi, ";")
    case TypeDef(keyword, body, semi) => Is(keyword, "typedef") && Runs(body, 0) && Is(semi, ";")
    case FromPackage(keyword, package, colons, what, semi) =>
      && Is(keyword, "import") && package.kind == Identifier && Is(colons, "::")
      && (Is(what, "*") || what.kind == Identifier) && Is(semi, ";")
    case Routine(keyword, header, semi, body, last) =>
      && (Is(keyword, "function") || Is(keyword, "task")) && Runs(header, 0) && Is(semi, ";")
      && Nests(body, 1, keyword.value, EndOf(keyword)) && NoneIs(body, "endmodule") && Is(last, EndOf(keyword))
    case Typed(typeName, name, body, semi) =>
      PlainName(typeName) && name.kind == Identifier && Runs(body, 0) && Is(semi, ";")
    case Connect(interfaceType, name, group, semi) =>
      PlainName(interfaceType) && name.kind == Identifier && !Is(name, ".") && ClosingFits(group, semi)
    case Modport(keyword, name, group, semi) =>
      Is(keyword, "modport") && name.kind == Identifier && ClosingFits(group, semi)
    case Process(keyword, event, stmt) =>
      && (if Is(keyword, "initial") then event.NoEvent? else StartsAlways(keyword))
      && EventFits(event) && BodyFits(stmt) && (event.NoEvent? ==> !Is(StmtText(stmt)[0], "@"))
    case ParamUse(moduleType, hash, params, name, ports, semi) =>
      && PlainName(moduleType) && Is(hash, "#") && ParensFit(params) && ParamsSeen(params)
      && name.kind == Identifier && ParensFit(ports) && Is(semi, ";")
    case ModportUse(interfaceType, dot, modport, name, group, semi) =>
      && PlainName(interfaceType) && Is(dot, ".") && modport.kind == Identifier && name.kind == Identifier
      && ClosingFits(group, semi)
    case Generated(keyword, body, last) =>
      && Is(keyword, "generate") && Nests(body, 1, "generate", "endgenerate") && NoneIs(body, "endmodule")
      && Is(last, "endgenerate")
    case Skipped(keyword, body, last) =>
      && SkipEnd(keyword.value) == Some(last.value) && Nests(body, 1, keyword.value, last.value)
    case SkippedTo(keyword, body, semi) =>
      keyword.value in SKIPPED_STATEMENTS && NoneIs(body, ";") && NoneIs(body, "endmodule") && Is(semi, ";")
  }

  predicate EventFits(e: Event) {
    match e
    case NoEvent => true
    case On(at, group) => Is(at, "@") && ParensFit(group)
    case OnOne(at, signal) => Is(at, "@") && !Is(signal, "(")
  }

  /** The parser takes parameters for those of an instance only if they start with an identifier. */
  predicate ParamsSeen(g: Parens) {
    (g.inner + [g.close])[0].kind == Identifier
  }

  function BlockText(p: Piece): seq<Token>
    requires p.Block?
  {
    [p.first] + (p.body + [p.last])
  }

  /** The item a piece written at position i must be read as. */
  function ItemOf(i: nat, p: Piece): (item: Item)
    requires !p.Modport?
    ensures item.start == i && item.end == i + |PieceText(p)|
  {
    var end := i + |PieceText(p)|;
    match p
    case Simple(keyword, body, _) =>
      if keyword.value in DECLARING then Item(Declaration, i, end, [Slice(i, end - 1, [keyword] + body)])
      else if keyword.value in PARAMETERS then Item(Parameters, i, end, [Slice(i, end - 1, [keyword] + body)])
      else Item(Assign, i, end, [Slice(i + 1, end - 1, body)])
    case Block(_, _, event, _, _, _) =>
      var from := i + 2 + |ParensText(event)|;
      Item(Always, i, end, [Slice(i + 3, from - 1, event.inner), Slice(from, end, BlockText(p))])
    case Use(_, _, ports, _) => Item(InstanceUse, i, end, [Slice(i + 3, end - 2, ports.inner)])
    case TypeDef(_, body, _) => Item(Typedef, i, end, [Slice(i + 1, end - 1, body)])
    case FromPackage(_, _, _, _, _) => Item(Import, i, end, [])
    case Routine(keyword, header, _, body, _) =>
      var from := i + 2 + |header|;
      Item(if Is(keyword, "function") then Function else Task, i, end,
        [Slice(i + 1, from - 1, header), Slice(from, end - 1, body)])
    case Typed(_, _, body, _) => Item(TypedDeclaration, i, end, [Slice(i + 2, end - 1, body)])
    case Connect(_, _, _, _) => Item(InterfaceUse, i, end, [])
    case Process(keyword, event, stmt) =>
      var from := i + 1 + |EventText(event)|;
      if Is(keyword, "initial") then Item(Initial, i, end, [BodySlice(from, stmt)])
      else Item(Always, i, end, [EventSlice(i + 1, event), BodySlice(from, stmt)])
    case ParamUse(_, _, _, _, ports, _) =>
      Item(InstanceUse, i, end, [Slice(end - 2 - |ports.inner|, end - 2, ports.inner)])
    case ModportUse(_, _, _, _, _, _) => Item(InterfaceUse, i, end, [])
    case Generated(_, body, _) => Item(Generate, i, end, [Slice(i + 1, end - 1, body)])
    case Skipped(_, _, _) => Item(Unsupported, i, end, [])
    case SkippedTo(_, _, _) => Item(Unsupported, i, end, [])
  }

  function EventSlice(i: nat, e: Event): Slice {
    match e
    case NoEvent => Slice(i, i, [])
    case On(_, group) => Slice(i + 2, i + 2 + |group.inner|, group.inner)
    case OnOne(_, signal) => Slice(i + 1, i + 2, [signal])
  }

  // ----- reading a piece -----

  lemma DeclarationRuns(t: Token, body: seq<Token>)
    requires (Declares(t) || SetsParameter(t)) && Runs(body, 0)
    ensures Runs([t] + body, 0)
  {
    DeclarationsDoNotStop(t);
    assert DepthAfter(0, t.value) == 0 && !Is(t, ";");
    hide Is, OneOf, Declares, SetsParameter;
    assert ([t] + body)[1..] == body;
  }

  lemma SimpleKind(ts: seq<Token>, i: nat, names: Names)
    requires i < |ts|
    ensures Declares(ts[i]) ==> KindAt(ts, i, names) == Declaration
    ensures !Declares(ts[i]) && SetsParameter(ts[i]) ==> KindAt(ts, i, names) == Parameters
    ensures Is(ts[i], "assign") ==> KindAt(ts, i, names) == Assign && !Declares(ts[i]) && !SetsParameter(ts[i])
    ensures StartsAlways(ts[i]) ==> KindAt(ts, i, names) == Always
    ensures Is(ts[i], "typedef") ==> KindAt(ts, i, names) == Typedef
    ensures Is(ts[i], "import") ==> KindAt(ts, i, names) == Import
    ensures Is(ts[i], "function") ==> KindAt(ts, i, names) == Function
    ensures Is(ts[i], "task") ==> KindAt(ts, i, names) == Task
    ensures Is(ts[i], "generate") ==> KindAt(ts, i, names) == Generate
    ensures Is(ts[i], "initial") ==> KindAt(ts, i, names) == Initial
    ensures OneOf(ts[i], UNSUPPORTED) ==> KindAt(ts, i, names) == Unsupported
  {
    hide LooksLikeInterfaceUse, LooksLikeTypedDeclaration, LooksLikeInstance;
  }

  lemma ItemByParts(ts: seq<Token>, i: nat, names: Names, kind: ItemKind, r: (nat, seq<Slice>))
    requires i + 1 < |ts| && KindAt(ts, i, names) == kind && PartsAt(ts, i, kind) == r
    ensures ItemAt(ts, i, names) == Item(kind, i, r.0, r.1)
  {
    hide KindAt, PartsAt;
  }

  lemma AssignParts(ts: seq<Token>, i: nat, r: (nat, Slice))
    requires i + 1 < |ts| && StatementPart(ts, i + 1) == r
    ensures PartsAt(ts, i, Assign) == (r.0, [r.1])
  {
    hide StatementPart;
  }

  lemma AssignStands(ts: seq<Token>, i: nat, p: Piece)
    requires p.Simple? && Stands(ts, i, PieceText(p))
    ensures i + 1 < |ts| && ts[i] == p.keyword && Stands(ts, i + 1, p.body + [p.semi]) && |PieceText(p)| == |p.body| + 2
  {
    StandsApart(ts, i, [p.keyword], p.body + [p.semi]);
    StandsOne(ts, i, p.keyword);
  }

  lemma SimpleItem(i: nat, p: Piece)
    requires p.Simple? && PieceFits(p)
    ensures Runs(p.body, 0) && Is(p.semi, ";")
    ensures var end := i + |PieceText(p)|; var whole := Slice(i, end - 1, [p.keyword] + p.body);
      ItemOf(i, p) ==
        if Declares(p.keyword) then Item(Declaration, i, end, [whole])
        else if SetsParameter(p.keyword) then Item(Parameters, i, end, [whole])
        else Item(Assign, i, end, [Slice(i + 1, end - 1, p.body)])
    ensures Declares(p.keyword) || SetsParameter(p.keyword) || Is(p.keyword, "assign")
  {
    DeclaringWords(p.keyword);
    hide Runs, OneOf, PieceText, Declares, SetsParameter;
  }

  lemma AssignReads(ts: seq<Token>, i: nat, p: Piece, names: Names)
    requires p.Simple? && PieceFits(p) && Is(p.keyword, "assign") && Stands(ts, i, PieceText(p))
    ensures ItemAt(ts, i, names) == ItemOf(i, p)
  {
    hide *;
    AssignStands(ts, i, p);
    SimpleItem(i, p);
    SimpleKind(ts, i, names);
    StatementReads(ts, i + 1, p.body, p.semi);
    var end := i + |p.body| + 2;
    AssignParts(ts, i, (end, Slice(i + 1, end - 1, p.body)));
    ItemByParts(ts, i, names, Assign, (end, [Slice(i + 1, end - 1, p.body)]));
  }

  lemma DeclarationStands(ts: seq<Token>, i: nat, p: Piece)
    requires p.Simple? && Stands(ts, i, PieceText(p))
    ensures i + 1 < |ts| && ts[i] == p.keyword && |PieceText(p)| == |p.body| + 2
    ensures Stands(ts, i, ([p.keyword] + p.body) + [p.semi])
  {
    StandsFirst(ts, i, PieceText(p));
    assert PieceText(p) == ([p.keyword] + p.body) + [p.semi];
  }

  lemma DeclarationReads(ts: seq<Token>, i: nat, p: Piece, names: Names)
    requires p.Simple? && PieceFits(p) && (Declares(p.keyword) || SetsParameter(p.keyword)) &&
      Stands(ts, i, PieceText(p))
    ensures ItemAt(ts, i, names) == ItemOf(i, p)
  {
    hide *;
    DeclarationStands(ts, i, p);
    SimpleItem(i, p);
    SimpleKind(ts, i, names);
    DeclarationRuns(p.keyword, p.body);
    var t := [p.keyword] + p.body;
    StatementReads(ts, i, t, p.semi);
    OwnStatementReads(ts, i, t, p.semi);
    var r := (i + |t| + 1, [Slice(i, i + |t|, t)]);
    DeclarationParts(ts, i, r);
    ItemByParts(ts, i, names, if Declares(p.keyword) then Declaration else Parameters, r);
  }

  lemma DeclarationParts(ts: seq<Token>, i: nat, r: (nat, seq<Slice>))
    requires i + 1 < |ts| && (Declares(ts[i]) || SetsParameter(ts[i])) && OwnStatementAt(ts, i) == r
    ensures Declares(ts[i]) ==> PartsAt(ts, i, Declaration) == r
    ensures SetsParameter(ts[i]) ==> PartsAt(ts, i, Parameters) == r
  {
    hide Declares, SetsParameter, OwnStatementAt;
  }

  lemma OwnStatementReads(ts: seq<Token>, i: nat, t: seq<Token>, semi: Token)
    requires i + 1 < |ts| && (Declares(ts[i]) || SetsParameter(ts[i]))
    requires i + |t| < |ts| && StatementPart(ts, i) == (i + |t| + 1, Slice(i, i + |t|, t))
    ensures OwnStatementAt(ts, i) == (i + |t| + 1, [Slice(i, i + |t|, t)])
  {
    hide Declares, SetsParameter, StatementStop;
  }

  // ----- blocks and instances -----

  lemma EventReads(ts: seq<Token>, i: nat, at: Token, g: Parens)
    requires Is(at, "@") && ParensFit(g) && Stands(ts, i, [at] + ParensText(g))
    ensures var end := i + 1 + |ParensText(g)|; EventPart(ts, i) == (end, Slice(i + 2, end - 1, g.inner))
  {
    hide ParensFit, ParensText, Stands, GroupPart, Is, Next;
    StandsApart(ts, i, [at], ParensText(g));
    StandsOne(ts, i, at);
    ParensRead(ts, i + 1, g);
  }

  lemma AlwaysParts(ts: seq<Token>, i: nat, event: (nat, Slice), block: (nat, Slice))
    requires i + 1 < |ts| && EventPart(ts, i + 1) == event && event.0 < |ts| && BlockPart(ts, event.0) == block
    ensures PartsAt(ts, i, Always) == (block.0, [event.1, block.1])
  {
    hide EventPart, BlockPart;
  }

  lemma BlockLayout(keyword: Token, at: Token, g: seq<Token>, block: seq<Token>)
    ensures [keyword] + ([at] + (g + block)) == [keyword] + (([at] + g) + block)
    ensures |[keyword] + ([at] + (g + block))| == 2 + |g| + |block|
  {
    assert [at] + (g + block) == ([at] + g) + block;
  }

  lemma AlwaysText(p: Piece)
    requires p.Block?
    ensures PieceText(p) == [p.keyword] + ([p.at] + (ParensText(p.event) + BlockText(p))) &&
      |BlockText(p)| == |p.body| + 2
  {
    hide ParensText;
  }

  lemma AlwaysStands(ts: seq<Token>, i: nat, p: Piece)
    requires p.Block? && Stands(ts, i, PieceText(p))
    ensures i + 1 < |ts| && ts[i] == p.keyword && Stands(ts, i + 1, [p.at] + ParensText(p.event))
    ensures i + 2 + |ParensText(p.event)| < |ts| && Stands(ts, i + 2 + |ParensText(p.event)|, BlockText(p))
    ensures |PieceText(p)| == 2 + |ParensText(p.event)| + |p.body| + 2
  {
    hide *;
    var block, g := BlockText(p), ParensText(p.event);
    AlwaysText(p);
    BlockLayout(p.keyword, p.at, g, block);
    StandsApart(ts, i, [p.keyword], ([p.at] + g) + block);
    StandsOne(ts, i, p.keyword);
    StandsApart(ts, i + 1, [p.at] + g, block);
  }

  lemma AlwaysItem(i: nat, p: Piece)
    requires p.Block? && PieceFits(p)
    ensures var from := i + 2 + |ParensText(p.event)|; var end := i + |PieceText(p)|;
      ItemOf(i, p) == Item(Always, i, end, [Slice(i + 3, from - 1, p.event.inner), Slice(from, end, BlockText(p))])
    ensures StartsAlways(p.keyword) && Is(p.at, "@") && ParensFit(p.event)
    ensures Is(p.first, "begin") && Is(p.last, "end") && Nests(p.body, 1, "begin", "end")
    ensures BlockText(p) == [p.first] + (p.body + [p.last])
  {
    hide Nests, ParensFit, Is, OneOf, PieceText, ParensText;
  }

  lemma AlwaysReads(ts: seq<Token>, i: nat, p: Piece, names: Names)
    requires p.Block? && PieceFits(p) && Stands(ts, i, PieceText(p))
    ensures ItemAt(ts, i, names) == ItemOf(i, p)
  {
    hide *;
    AlwaysStands(ts, i, p);
    AlwaysItem(i, p);
    SimpleKind(ts, i, names);
    EventReads(ts, i + 1, p.at, p.event);
    var from := i + 2 + |ParensText(p.event)|;
    BlockReads(ts, from, p.first, p.body, p.last);
    var end := from + |p.body| + 2;
    var event := Slice(i + 3, from - 1, p.event.inner);
    AlwaysParts(ts, i, (from, event), (end, Slice(from, end, BlockText(p))));
    ItemByParts(ts, i, names, Always, (end, [event, Slice(from, end, BlockText(p))]));
  }

  /** A plain identifier starts no item kind with a keyword of its own. */
  lemma IdentifierIsNoKeyword(t: Token)
    requires t.value !in Keywords()
    ensures !Declares(t) && !SetsParameter(t) && !OneOf(t, UNSUPPORTED)
    ensures !Is(t, "typedef") && !Is(t, "import") && !Is(t, "generate") && !Is(t, "function") && !Is(t, "task")
    ensures !Is(t, "assign") && !Is(t, "initial") && !StartsAlways(t) && !Is(t, "endmodule")
  {
  }

  lemma InstanceKind(ts: seq<Token>, i: nat, names: Names)
    requires i + 2 < |ts| && ts[i].kind == Identifier && ts[i + 1].kind == Identifier && Is(ts[i + 2], "(")
    requires ts[i].value !in Keywords() && ts[i].value !in names.interfaces && ts[i].value !in names.typedefs
    requires !Is(ts[i + 1], "#")
    ensures KindAt(ts, i, names) == InstanceUse
  {
    IdentifierIsNoKeyword(ts[i]);
    assert !OneOf(ts[i + 2], {";", "[", "="});
    hide Is, OneOf, Declares, SetsParameter;
  }

  lemma NameThenClosing(ts: seq<Token>, i: nat, first: Token, name: Token, closing: seq<Token>)
    requires Stands(ts, i, [first] + ([name] + closing))
    ensures i + 2 < |ts| && ts[i] == first && ts[i + 1] == name && Stands(ts, i + 2, closing)
    ensures Next(ts, i) == i + 1 && Next(ts, i + 1) == i + 2
  {
    StandsApart(ts, i, [first], [name] + closing);
    StandsOne(ts, i, first);
    StandsApart(ts, i + 1, [name], closing);
    StandsOne(ts, i + 1, name);
  }

  lemma UseFits(i: nat, p: Piece)
    requires p.Use? && PieceFits(p)
    ensures PlainName(p.moduleType) && p.name.kind == Identifier && !Is(p.name, "#") && ParensFit(p.ports) &&
      Is(p.semi, ";")
    ensures var g := ParensText(p.ports);
      && PieceText(p) == [p.moduleType] + ([p.name] + (g + [p.semi])) && |PieceText(p)| == |g| + 3
      && ItemOf(i, p) == Item(InstanceUse, i, i + |g| + 3, [Slice(i + 3, i + |g| + 1, p.ports.inner)])
  {
    hide ParensFit, ParensText, PlainName, Is;
  }

  lemma InstanceParts(ts: seq<Token>, i: nat, ports: (nat, Slice))
    requires i + 2 < |ts| && !Is(ts[i + 1], "#") && Named(ts, i + 1) && Is(ts[i + 2], "(")
    requires GroupPart(ts, i + 2) == ports && ports.0 < |ts| - 1 && Is(ts[ports.0], ";")
    ensures PartsAt(ts, i, InstanceUse) == (ports.0 + 1, [ports.1])
  {
    hide GroupPart, Is, ResyncEnd;
    NextStep(ts, i);
    NextStep(ts, i + 1);
    NextStep(ts, ports.0);
  }

  lemma PlainIsName(ts: seq<Token>, i: nat)
    requires i < |ts|
    ensures PlainName(ts[i]) ==> Named(ts, i) && ts[i].value !in Keywords() && ts[i].kind == Identifier
    ensures ts[i].kind == Identifier ==> Named(ts, i)
  {
  }

  lemma InstanceReads(ts: seq<Token>, i: nat, p: Piece, names: Names)
    requires p.Use? && PieceFits(p) && Stands(ts, i, PieceText(p))
    requires p.moduleType.value !in names.interfaces && p.moduleType.value !in names.typedefs
    ensures ItemAt(ts, i, names) == ItemOf(i, p)
  {
    hide *;
    var g := ParensText(p.ports);
    UseFits(i, p);
    NameThenClosing(ts, i, p.moduleType, p.name, g + [p.semi]);
    StandsApart(ts, i + 2, g, [p.semi]);
    StandsOne(ts, i + 2 + |g|, p.semi);
    ParensRead(ts, i + 2, p.ports);
    PlainIsName(ts, i);
    PlainIsName(ts, i + 1);
    InstanceKind(ts, i, names);
    var ports := (i + 2 + |g|, Slice(i + 3, i + 1 + |g|, p.ports.inner));
    InstanceParts(ts, i, ports);
    ItemByParts(ts, i, names, InstanceUse, (ports.0 + 1, [ports.1]));
  }

  // ----- typedefs, typed declarations, imports, routines and interfaces -----

  lemma TypeDefFits(p: Piece)
    requires p.TypeDef? && PieceFits(p)
    ensures Is(p.keyword, "typedef") && Runs(p.body, 0) && Is(p.semi, ";") &&
      PieceText(p) == [p.keyword] + (p.body + [p.semi])
  {
    hide Runs, Is;
  }

  lemma TypeDefItem(i: nat, p: Piece)
    requires p.TypeDef?
    ensures var end := i + |p.body| + 2;
      ItemOf(i, p) == Item(Typedef, i, end, [Slice(i + 1, end - 1, p.body)]) && i + |PieceText(p)| == end
  {
  }

  lemma StatementAfterParts(ts: seq<Token>, i: nat, r: (nat, Slice))
    requires i + 1 < |ts| && StatementPart(ts, i + 1) == r
    ensures PartsAt(ts, i, Typedef) == (r.0, [r.1])
  {
    hide StatementPart;
  }

  lemma TypeDefReads(ts: seq<Token>, i: nat, p: Piece, names: Names)
    requires p.TypeDef? && PieceFits(p) && Stands(ts, i, PieceText(p))
    ensures ItemAt(ts, i, names) == ItemOf(i, p)
    ensures i + 1 < |ts| && StatementPart(ts, i + 1) == (ItemOf(i, p).end, ItemOf(i, p).parts[0])
  {
    hide *;
    TypeDefFits(p);
    TypeDefItem(i, p);
    StandsApart(ts, i, [p.keyword], p.body + [p.semi]);
    StandsOne(ts, i, p.keyword);
    StatementReads(ts, i + 1, p.body, p.semi);
    SimpleKind(ts, i, names);
    var end := i + |p.body| + 2;
    StatementAfterParts(ts, i, (end, Slice(i + 1, end - 1, p.body)));
    ItemByParts(ts, i, names, Typedef, (end, [Slice(i + 1, end - 1, p.body)]));
  }

  lemma ImportReads(ts: seq<Token>, i: nat, p: Piece)
    requires p.FromPackage? && PieceFits(p) && Stands(ts, i, PieceText(p))
    ensures i + 1 < |ts| && ts[i] == p.keyword && ImportEnd(ts, i) == i + |PieceText(p)|
  {
    hide Stands, ResyncEnd, Next, Is;
    ImportStands(ts, i, p);
  }

  lemma ImportStands(ts: seq<Token>, i: nat, p: Piece)
    requires p.FromPackage? && Stands(ts, i, PieceText(p))
    ensures i + 5 < |ts| && |PieceText(p)| == 5
    ensures ts[i] == p.keyword && ts[i + 1] == p.package && ts[i + 2] == p.colons && ts[i + 3] == p.what &&
      ts[i + 4] == p.semi
    ensures forall k :: i <= k < i + 5 ==> Next(ts, k) == k + 1
  {
    var t := PieceText(p);
    assert |t| == 5 && t[1] == p.package && t[2] == p.colons && t[3] == p.what && t[4] == p.semi;
    assert forall k {:trigger t[k]} :: 0 <= k < 5 ==> ts[i + k] == ts[i..i + 5][k];
  }

  lemma ImportItem(ts: seq<Token>, i: nat, p: Piece, names: Names)
    requires p.FromPackage? && PieceFits(p) && Stands(ts, i, PieceText(p))
    ensures ItemAt(ts, i, names) == ItemOf(i, p)
  {
    hide Stands, ImportEnd, KindAt, PieceText;
    ImportReads(ts, i, p);
    SimpleKind(ts, i, names);
  }

  /** The tokens stand before the limit set by the next endmodule. */
  lemma LimitIsBehind(ts: seq<Token>, i: nat, t: seq<Token>)
    requires Stands(ts, i, t) && NoneIs(t, "endmodule")
    ensures SkipTo(ts, i, {"endmodule"}) >= i + |t|
  {
    assert forall j {:trigger ts[j]} :: i <= j < i + |t| ==> ts[j] == ts[i..i + |t|][j - i];
    assert forall j :: i <= j < i + |t| ==> !OneOf(ts[j], {"endmodule"});
  }

  lemma KeywordPartReads(ts: seq<Token>, i: nat, body: seq<Token>, start: string, last: Token)
    requires Nests(body, 1, start, last.value) && start != last.value && !Is(last, "endmodule") &&
      NoneIs(body, "endmodule")
    requires Stands(ts, i, body + [last])
    ensures KeywordPart(ts, i, start, last.value) == (i + |body| + 1, Slice(i, i + |body|, body))
  {
    hide Nests, Stands, MatchFrom, SkipTo;
    assert NoneIs(body + [last], "endmodule");
    LimitIsBehind(ts, i, body + [last]);
    NestedIsMatched(ts, SkipTo(ts, i, {"endmodule"}), i, body, 1, start, last.value, last);
    StandsApart(ts, i, body, [last]);
    StandsCut(ts, i, body);
  }

  lemma RoutineStands(ts: seq<Token>, i: nat, p: Piece)
    requires p.Routine? && Stands(ts, i, PieceText(p))
    ensures i + 1 < |ts| && ts[i] == p.keyword && Next(ts, i) == i + 1 && Stands(ts, i + 1, p.header + [p.semi])
    ensures Stands(ts, i + 2 + |p.header|, p.body + [p.last]) && |PieceText(p)| == |p.header| + |p.body| + 3
  {
    hide Stands;
    StandsApart(ts, i, [p.keyword], (p.header + [p.semi]) + (p.body + [p.last]));
    StandsOne(ts, i, p.keyword);
    StandsApart(ts, i + 1, p.header + [p.semi], p.body + [p.last]);
  }

  lemma RoutineEnds(p: Piece)
    requires p.Routine? && PieceFits(p)
    ensures p.keyword.value != p.last.value && !Is(p.last, "endmodule") && Is(p.last, EndOf(p.keyword))
    ensures Is(p.keyword, "function") || Is(p.keyword, "task")
    ensures Is(p.keyword, "function") ==> EndOf(p.keyword) == "endfunction" && !Is(p.keyword, "task")
    ensures Is(p.keyword, "task") ==> EndOf(p.keyword) == "endtask"
    ensures Runs(p.header, 0) && Is(p.semi, ";") && Nests(p.body, 1, p.keyword.value, p.last.value) &&
      NoneIs(p.body, "endmodule")
  {
    hide Runs, Nests, NoneIs;
  }

  lemma SubroutineReads(ts: seq<Token>, i: nat, p: Piece)
    requires p.Routine? && PieceFits(p) && Stands(ts, i, PieceText(p))
    ensures SubroutineAt(ts, i, p.keyword.value, EndOf(p.keyword)) == (ItemOf(i, p).end, ItemOf(i, p).parts)
  {
    hide Runs, Nests, Stands, NoneIs, StatementPart, KeywordPart, PieceFits, Next, EndOf;
    RoutineEnds(p);
    RoutineStands(ts, i, p);
    StatementReads(ts, i + 1, p.header, p.semi);
    KeywordPartReads(ts, i + 2 + |p.header|, p.body, p.keyword.value, p.last);
  }

  lemma RoutineReads(ts: seq<Token>, i: nat, p: Piece, names: Names)
    requires p.Routine? && PieceFits(p) && Stands(ts, i, PieceText(p))
    ensures ItemAt(ts, i, names) == ItemOf(i, p)
  {
    hide Stands, PieceFits, PieceText, SubroutineAt, KindAt;
    RoutineEnds(p);
    RoutineStands(ts, i, p);
    SubroutineReads(ts, i, p);
    SimpleKind(ts, i, names);
  }

  lemma NameKind(ts: seq<Token>, i: nat, names: Names)
    requires i + 2 < |ts| && PlainName(ts[i]) && ts[i + 1].kind == Identifier
    requires ts[i].value !in names.interfaces ==> ts[i].value in names.typedefs || ts[i + 2].value in {";", "[", "="}
    ensures ts[i].value !in names.interfaces ==> KindAt(ts, i, names) == TypedDeclaration
    ensures ts[i].value in names.interfaces && !Is(ts[i + 1], ".") ==> KindAt(ts, i, names) == InterfaceUse
  {
    IdentifierIsNoKeyword(ts[i]);
    assert OneOf(ts[i + 2], {";", "[", "="}) <==> ts[i + 2].value in {";", "[", "="};
    hide Is, OneOf, Declares, SetsParameter;
  }

  lemma TypedFits(i: nat, p: Piece)
    requires p.Typed? && PieceFits(p)
    ensures PlainName(p.typeName) && p.name.kind == Identifier && Runs(p.body, 0) && Is(p.semi, ";")
    ensures var n := |p.body|;
      && PieceText(p) == [p.typeName] + ([p.name] + (p.body + [p.semi])) && |PieceText(p)| == n + 3
      && ItemOf(i, p) == Item(TypedDeclaration, i, i + n + 3, [Slice(i + 2, i + n + 2, p.body)])
  {
    hide Runs, PlainName, Is;
  }

  lemma TypedParts(ts: seq<Token>, i: nat, r: (nat, Slice))
    requires i + 2 < |ts| && Named(ts, i + 1) && StatementPart(ts, i + 2) == r
    ensures PartsAt(ts, i, TypedDeclaration) == (r.0, [r.1])
  {
    hide StatementPart;
    NextStep(ts, i);
    NextStep(ts, i + 1);
  }

  lemma TypedReads(ts: seq<Token>, i: nat, p: Piece, names: Names)
    requires p.Typed? && PieceFits(p) && Stands(ts, i, PieceText(p))
    requires p.typeName.value !in names.interfaces
    requires p.typeName.value in names.typedefs || (p.body + [p.semi])[0].value in {";", "[", "="}
    ensures ItemAt(ts, i, names) == ItemOf(i, p)
  {
    hide *;
    TypedFits(i, p);
    NameThenClosing(ts, i, p.typeName, p.name, p.body + [p.semi]);
    StatementReads(ts, i + 2, p.body, p.semi);
    PlainIsName(ts, i + 1);
    StandsFirst(ts, i + 2, p.body + [p.semi]);
    NameKind(ts, i, names);
    var r := (i + |p.body| + 3, Slice(i + 2, i + |p.body| + 2, p.body));
    TypedParts(ts, i, r);
    ItemByParts(ts, i, names, TypedDeclaration, (r.0, [r.1]));
  }

  /** An optional group and a semicolon are read to the end, whatever words a
      missing semicolon would make reading stop at. */
  lemma ClosingReads(ts: seq<Token>, i: nat, g: Option<Parens>, semi: Token, words: set<string>)
    requires ClosingFits(g, semi) && Stands(ts, i, ClosingText(g, semi))
    ensures i < |ts| && Closing(ts, GroupPart(ts, i).0, words) == i + |ClosingText(g, semi)|
    ensures g.None? ==> GroupPart(ts, i).0 == i && Is(ts[i], ";")
    ensures g.Some? ==> Is(ts[i], "(")
  {
    hide Stands, ParensFit, ParensText, Next, ResyncEnd;
    if g.Some? {
      StandsApart(ts, i, ParensText(g.value), [semi]);
      StandsOne(ts, i + |ParensText(g.value)|, semi);
      hide GroupOf;
      ParensRead(ts, i, g.value);
    } else {
      assert ClosingText(g, semi) == [semi];
      StandsOne(ts, i, semi);
    }
  }

  lemma ConnectFits(i: nat, p: Piece)
    requires p.Connect? && PieceFits(p)
    ensures PlainName(p.interfaceType) && p.name.kind == Identifier && !Is(p.name, ".") && ClosingFits(p.group, p.semi)
    ensures var t := ClosingText(p.group, p.semi);
      && PieceText(p) == [p.interfaceType] + ([p.name] + t) && |PieceText(p)| == |t| + 2
      && ItemOf(i, p) == Item(InterfaceUse, i, i + |t| + 2, [])
  {
    hide ClosingFits, ClosingText, PlainName, Is;
  }

  lemma ConnectParts(ts: seq<Token>, i: nat, end: nat)
    requires i + 2 < |ts| && !Is(ts[i + 1], ".") && Named(ts, i + 1)
    requires Closing(ts, GroupPart(ts, i + 2).0, {";", "endmodule"}) == end
    ensures PartsAt(ts, i, InterfaceUse) == (end, [])
  {
    hide Closing, GroupPart, Is;
    NextStep(ts, i);
    NextStep(ts, i + 1);
  }

  lemma ConnectReads(ts: seq<Token>, i: nat, p: Piece, names: Names)
    requires p.Connect? && PieceFits(p) && Stands(ts, i, PieceText(p)) && p.interfaceType.value in names.interfaces
    ensures ItemAt(ts, i, names) == ItemOf(i, p)
  {
    hide *;
    ConnectFits(i, p);
    var t := ClosingText(p.group, p.semi);
    NameThenClosing(ts, i, p.interfaceType, p.name, t);
    ClosingReads(ts, i + 2, p.group, p.semi, {";", "endmodule"});
    PlainIsName(ts, i + 1);
    NameKind(ts, i, names);
    ConnectParts(ts, i, i + |t| + 2);
    ItemByParts(ts, i, names, InterfaceUse, (i + |t| + 2, []));
  }

  lemma ModportFits(p: Piece)
    requires p.Modport? && PieceFits(p)
    ensures p.name.kind == Identifier && ClosingFits(p.group, p.semi)
    ensures var t := ClosingText(p.group, p.semi);
      PieceText(p) == [p.keyword] + ([p.name] + t) && |PieceText(p)| == |t| + 2
  {
    hide ClosingFits, ClosingText, Is;
  }

  lemma ModportParts(ts: seq<Token>, i: nat, end: nat)
    requires i + 2 < |ts| && Named(ts, i + 1) && Closing(ts, GroupPart(ts, i + 2).0, {";", "endinterface"}) == end
    ensures ModportEnd(ts, i) == end
  {
    hide Closing, GroupPart;
    NextStep(ts, i);
    NextStep(ts, i + 1);
  }

  lemma ModportReads(ts: seq<Token>, i: nat, p: Piece)
    requires p.Modport? && PieceFits(p) && Stands(ts, i, PieceText(p))
    ensures i + 1 < |ts| && ts[i] == p.keyword && ModportEnd(ts, i) == i + |PieceText(p)|
  {
    hide *;
    ModportFits(p);
    var t := ClosingText(p.group, p.semi);
    NameThenClosing(ts, i, p.keyword, p.name, t);
    ClosingReads(ts, i + 2, p.group, p.semi, {";", "endinterface"});
    PlainIsName(ts, i + 1);
    ModportParts(ts, i, i + |t| + 2);
  }

  // ----- always and initial blocks with statements -----

  lemma ControlReads(ts: seq<Token>, i: nat, e: Event)
    requires EventFits(e) && Stands(ts, i, EventText(e)) && (e.NoEvent? ==> !Is(ts[i], "@"))
    ensures i < |ts| && EventPart(ts, i) == (i + |EventText(e)|, EventSlice(i, e))
  {
    match e
    case NoEvent => NoControl(ts, i);
    case On(at, group) => GroupControl(ts, i, e);
    case OnOne(at, signal) => TokenControl(ts, i, e);
  }

  lemma NoControl(ts: seq<Token>, i: nat)
    requires i < |ts| && !Is(ts[i], "@")
    ensures EventPart(ts, i) == (i, Slice(i, i, []))
  {
    hide GroupPart;
  }

  lemma GroupEvent(i: nat, e: Event)
    requires e.On? && EventFits(e)
    ensures Is(e.at, "@") && ParensFit(e.group) && EventText(e) == [e.at] + ParensText(e.group)
    ensures EventSlice(i, e) == Slice(i + 2, i + |EventText(e)| - 1, e.group.inner)
  {
    hide ParensFit;
  }

  lemma GroupControl(ts: seq<Token>, i: nat, e: Event)
    requires e.On? && EventFits(e) && Stands(ts, i, EventText(e))
    ensures i < |ts| && EventPart(ts, i) == (i + |EventText(e)|, EventSlice(i, e))
  {
    GroupEvent(i, e);
    hide *;
    StandsInside(ts, i, EventText(e));
    EventReads(ts, i, e.at, e.group);
  }

  lemma TokenControl(ts: seq<Token>, i: nat, e: Event)
    requires e.OnOne? && EventFits(e) && Stands(ts, i, EventText(e))
    ensures i < |ts| && EventPart(ts, i) == (i + |EventText(e)|, EventSlice(i, e))
  {
    StandsApart(ts, i, [e.at], [e.signal]);
    StandsOne(ts, i, e.at);
    StandsOne(ts, i + 1, e.signal);
    StandsCut(ts, i + 1, [e.signal]);
    hide Stands, GroupPart, Is;
  }

  lemma ProcessStands(ts: seq<Token>, i: nat, p: Piece)
    requires p.Process? && Stands(ts, i, PieceText(p))
    ensures i + 1 < |ts| && ts[i] == p.keyword && Next(ts, i) == i + 1 && Stands(ts, i + 1, EventText(p.control))
    ensures var from := i + 1 + |EventText(p.control)|;
      from < |ts| && Stands(ts, from, StmtText(p.stmt)) && from + |StmtText(p.stmt)| == i + |PieceText(p)|
    ensures p.control.NoEvent? ==> ts[i + 1] == StmtText(p.stmt)[0]
  {
    hide Stands, EventText, StmtText;
    StandsApart(ts, i, [p.keyword], EventText(p.control) + StmtText(p.stmt));
    StandsOne(ts, i, p.keyword);
    StandsApart(ts, i + 1, EventText(p.control), StmtText(p.stmt));
    StandsFirst(ts, i + 1 + |EventText(p.control)|, StmtText(p.stmt));
    if p.control.NoEvent? { assert EventText(p.control) == [] by { NoEventNoText(); } }
  }

  lemma NoEventNoText()
    ensures EventText(NoEvent) == []
  {
  }

  lemma ProcessFits(i: nat, p: Piece)
    requires p.Process? && PieceFits(p)
    ensures EventFits(p.control) && BodyFits(p.stmt)
    ensures p.control.NoEvent? ==> !Is(StmtText(p.stmt)[0], "@")
    ensures Is(p.keyword, "initial") || StartsAlways(p.keyword)
    ensures Is(p.keyword, "initial") ==> p.control.NoEvent? && EventText(p.control) == [] && !StartsAlways(p.keyword)
    ensures var (from, end) := (i + 1 + |EventText(p.control)|, i + |PieceText(p)|);
      ItemOf(i, p) ==
        if Is(p.keyword, "initial") then Item(Initial, i, end, [BodySlice(from, p.stmt)])
        else Item(Always, i, end, [EventSlice(i + 1, p.control), BodySlice(from, p.stmt)])
  {
    hide BodyFits, EventFits, EventSlice, BodySlice, PieceText, StmtText;
  }

  lemma InitialParts(ts: seq<Token>, i: nat, body: (nat, Slice))
    requires i + 1 < |ts| && BlockPart(ts, i + 1) == body
    ensures PartsAt(ts, i, Initial) == (body.0, [body.1])
  {
    hide BlockPart;
  }

  /** An always or initial block is read whole when its statement is. */
  lemma ProcessReads(ts: seq<Token>, i: nat, p: Piece, names: Names)
    requires p.Process? && PieceFits(p) && Stands(ts, i, PieceText(p))
    requires i + |PieceText(p)| < |ts| && ts[i + |PieceText(p)|].value != "else"
    ensures ItemAt(ts, i, names) == ItemOf(i, p)
  {
    hide *;
    ProcessStands(ts, i, p);
    ProcessFits(i, p);
    var from := i + 1 + |EventText(p.control)|;
    BodyRead(ts, from, p.stmt);
    SimpleKind(ts, i, names);
    var (end, body) := (i + |PieceText(p)|, BodySlice(from, p.stmt));
    if Is(p.keyword, "initial") {
      InitialParts(ts, i, (end, body));
      ItemByParts(ts, i, names, Initial, (end, [body]));
    } else {
      ControlReads(ts, i + 1, p.control);
      AlwaysParts(ts, i, (from, EventSlice(i + 1, p.control)), (end, body));
      ItemByParts(ts, i, names, Always, (end, [EventSlice(i + 1, p.control), body]));
    }
  }

  // ----- instances with parameters -----

  lemma ParamUseText(p: Piece)
    requires p.ParamUse?
    ensures var (g, h) := (ParensText(p.params), ParensText(p.ports));
      && PieceText(p) == [p.moduleType] + ([p.hash] + (g + ([p.name] + (h + [p.semi]))))
      && |g| >= 2 && g[1..] == p.params.inner + [p.params.close] && |PieceText(p)| == 4 + |g| + |h|
  {
    var g := ParensText(p.params);
    assert g[1..] == p.params.inner + [p.params.close];
  }

  lemma GroupStarts(ts: seq<Token>, i: nat, g: Parens)
    requires Stands(ts, i, ParensText(g))
    ensures i + 2 < |ts| && ts[i + 1] == (g.inner + [g.close])[0]
  {
    var rest := g.inner + [g.close];
    StandsApart(ts, i, [g.open], rest);
    StandsFirst(ts, i + 1, rest);
  }

  /** A name, a group and a semicolon, one after another. */
  lemma NameGroupSemi(ts: seq<Token>, i: nat, name: Token, h: seq<Token>, semi: Token)
    requires Stands(ts, i, [name] + (h + [semi]))
    ensures i + 2 + |h| < |ts| && ts[i] == name && Stands(ts, i + 1, h) && ts[i + 1 + |h|] == semi
  {
    hide Stands;
    StandsApart(ts, i, [name], h + [semi]);
    StandsOne(ts, i, name);
    StandsApart(ts, i + 1, h, [semi]);
    StandsOne(ts, i + 1 + |h|, semi);
  }

  lemma ParamUseStands(ts: seq<Token>, i: nat, p: Piece)
    requires p.ParamUse? && Stands(ts, i, PieceText(p))
    ensures var (m, n) := (|ParensText(p.params)|, |ParensText(p.ports)|);
      && i + 4 + m + n < |ts| && |PieceText(p)| == 4 + m + n && 2 <= m
      && ts[i] == p.moduleType && ts[i + 1] == p.hash && Stands(ts, i + 2, ParensText(p.params))
      && ts[i + 3] == (p.params.inner + [p.params.close])[0]
      && ts[i + 2 + m] == p.name && Stands(ts, i + 3 + m, ParensText(p.ports)) && ts[i + 3 + m + n] == p.semi
  {
    hide *;
    var (g, h) := (ParensText(p.params), ParensText(p.ports));
    var rest := [p.name] + (h + [p.semi]);
    ParamUseText(p);
    NameThenClosing(ts, i, p.moduleType, p.hash, g + rest);
    StandsApart(ts, i + 2, g, rest);
    GroupStarts(ts, i + 2, p.params);
    NameGroupSemi(ts, i + 2 + |g|, p.name, h, p.semi);
  }

  /** A name followed by `#` is taken for an instance exactly when the second token after
      the `#` is an identifier; otherwise the name alone is passed over. */
  lemma ParamsDecide(ts: seq<Token>, i: nat, names: Names)
    requires i + 3 < |ts| && PlainName(ts[i]) && Is(ts[i + 1], "#") && Is(ts[i + 2], "(")
    requires ts[i].value !in names.interfaces && ts[i].value !in names.typedefs
    ensures KindAt(ts, i, names) == InstanceUse <==> ts[i + 3].kind == Identifier
    ensures ts[i + 3].kind != Identifier ==> ItemAt(ts, i, names).end == i + 1 && ItemAt(ts, i, names).parts == []
  {
    IdentifierIsNoKeyword(ts[i]);
    assert !OneOf(ts[i + 2], {";", "[", "="});
    hide Is, Declares, SetsParameter;
  }

  lemma ParamUseFits(i: nat, p: Piece)
    requires p.ParamUse? && PieceFits(p)
    ensures PlainName(p.moduleType) && Is(p.hash, "#") && ParensFit(p.params) && ParamsSeen(p.params)
    ensures p.name.kind == Identifier && ParensFit(p.ports) && Is(p.semi, ";")
    ensures var (m, n) := (|ParensText(p.params)|, |ParensText(p.ports)|);
      && |PieceText(p)| == 4 + m + n
      && ItemOf(i, p) ==
           Item(InstanceUse, i, i + 4 + m + n, [Slice(i + 4 + m, i + 2 + m + n, p.ports.inner)])
  {
    hide ParensFit, Is, PlainName, ParamsSeen;
  }

  lemma FirstParamIsName(g: Parens)
    requires ParamsSeen(g)
    ensures (g.inner + [g.close])[0].kind == Identifier
  {
  }

  lemma ParamUseParts(ts: seq<Token>, i: nat, params: nat, ports: (nat, Slice))
    requires i + 2 < |ts| && Is(ts[i + 1], "#") && GroupPart(ts, i + 2).0 == params && params + 1 < |ts|
    requires Named(ts, params) && Is(ts[params + 1], "(") && GroupPart(ts, params + 1) == ports
    requires ports.0 + 1 < |ts| && Is(ts[ports.0], ";")
    ensures PartsAt(ts, i, InstanceUse) == (ports.0 + 1, [ports.1])
  {
    hide GroupPart, Is, ResyncEnd;
    NextStep(ts, i);
    NextStep(ts, i + 1);
    NextStep(ts, params);
    NextStep(ts, ports.0);
  }

  /** An instance with parameters that start with an identifier is read whole. */
  lemma ParamInstanceReads(ts: seq<Token>, i: nat, p: Piece, names: Names)
    requires p.ParamUse? && PieceFits(p) && Stands(ts, i, PieceText(p))
    requires p.moduleType.value !in names.interfaces && p.moduleType.value !in names.typedefs
    ensures ItemAt(ts, i, names) == ItemOf(i, p)
  {
    hide *;
    ParamUseStands(ts, i, p);
    ParamUseFits(i, p);
    var (m, n) := (|ParensText(p.params)|, |ParensText(p.ports)|);
    ParensRead(ts, i + 2, p.params);
    ParensRead(ts, i + 3 + m, p.ports);
    PlainIsName(ts, i + 2 + m);
    FirstParamIsName(p.params);
    ParamsDecide(ts, i, names);
    ParamUseParts(ts, i, i + 2 + m, (i + 3 + m + n, Slice(i + 4 + m, i + 2 + m + n, p.ports.inner)));
    ItemByParts(ts, i, names, InstanceUse, (i + 4 + m + n, [Slice(i + 4 + m, i + 2 + m + n, p.ports.inner)]));
  }

  // ----- interfaces with a modport, generate blocks and skipped constructs -----

  lemma ModportUseStands(ts: seq<Token>, i: nat, p: Piece)
    requires p.ModportUse? && Stands(ts, i, PieceText(p))
    ensures var t := ClosingText(p.group, p.semi);
      && i + 4 + |t| < |ts| && |PieceText(p)| == 4 + |t| && Stands(ts, i + 4, t)
      && ts[i] == p.interfaceType && ts[i + 1] == p.dot && ts[i + 2] == p.modport && ts[i + 3] == p.name
  {
    hide Stands;
    var t := ClosingText(p.group, p.semi);
    StandsApart(ts, i, [p.interfaceType], [p.dot] + ([p.modport] + ([p.name] + t)));
    StandsOne(ts, i, p.interfaceType);
    StandsApart(ts, i + 1, [p.dot], [p.modport] + ([p.name] + t));
    StandsOne(ts, i + 1, p.dot);
    StandsApart(ts, i + 2, [p.modport], [p.name] + t);
    StandsOne(ts, i + 2, p.modport);
    StandsApart(ts, i + 3, [p.name], t);
    StandsOne(ts, i + 3, p.name);
  }

  lemma ModportUseKind(ts: seq<Token>, i: nat, names: Names)
    requires i + 3 < |ts| && PlainName(ts[i]) && ts[i].value in names.interfaces && Is(ts[i + 1], ".")
    requires ts[i + 2].kind == Identifier && ts[i + 3].kind == Identifier
    ensures KindAt(ts, i, names) == InterfaceUse
  {
    IdentifierIsNoKeyword(ts[i]);
    hide Is, OneOf, Declares, SetsParameter;
  }

  lemma ModportUseFits(i: nat, p: Piece)
    requires p.ModportUse? && PieceFits(p)
    ensures PlainName(p.interfaceType) && Is(p.dot, ".") && p.modport.kind == Identifier && p.name.kind == Identifier
    ensures ClosingFits(p.group, p.semi)
    ensures ItemOf(i, p) == Item(InterfaceUse, i, i + |PieceText(p)|, [])
  {
    hide ClosingFits, PieceText, PlainName, Is;
  }

  lemma ModportUseParts(ts: seq<Token>, i: nat, end: nat)
    requires i + 4 < |ts| && Is(ts[i + 1], ".") && Named(ts, i + 2) && Named(ts, i + 3)
    requires Closing(ts, GroupPart(ts, i + 4).0, {";", "endmodule"}) == end
    ensures PartsAt(ts, i, InterfaceUse) == (end, [])
  {
    hide Closing, GroupPart, Is;
    NextStep(ts, i);
    NextStep(ts, i + 1);
    NextStep(ts, i + 2);
    NextStep(ts, i + 3);
  }

  /** The use of an interface through a modport is read whole. */
  lemma ModportUseReads(ts: seq<Token>, i: nat, p: Piece, names: Names)
    requires p.ModportUse? && PieceFits(p) && Stands(ts, i, PieceText(p)) && p.interfaceType.value in names.interfaces
    ensures ItemAt(ts, i, names) == ItemOf(i, p)
  {
    hide *;
    ModportUseStands(ts, i, p);
    ModportUseFits(i, p);
    var t := ClosingText(p.group, p.semi);
    ClosingReads(ts, i + 4, p.group, p.semi, {";", "endmodule"});
    PlainIsName(ts, i + 2);
    PlainIsName(ts, i + 3);
    ModportUseKind(ts, i, names);
    ModportUseParts(ts, i, i + 4 + |t|);
    ItemByParts(ts, i, names, InterfaceUse, (i + 4 + |t|, []));
  }

  lemma KeywordStands(ts: seq<Token>, i: nat, keyword: Token, body: seq<Token>, last: Token)
    requires Stands(ts, i, [keyword] + (body + [last]))
    ensures i + 2 + |body| < |ts| && ts[i] == keyword && Next(ts, i) == i + 1 && Stands(ts, i + 1, body + [last])
    ensures ts[i + 1 + |body|] == last
    ensures forall k :: 0 <= k < |body| ==> ts[i + 1 + k] == body[k]
  {
    StandsApart(ts, i, [keyword], body + [last]);
    StandsOne(ts, i, keyword);
    StandsApart(ts, i + 1, body, [last]);
    StandsOne(ts, i + 1 + |body|, last);
    forall k | 0 <= k < |body| ensures ts[i + 1 + k] == body[k] {
      assert ts[i + 1..i + 1 + |body|][k] == body[k];
    }
  }

  lemma GeneratedFits(i: nat, p: Piece)
    requires p.Generated? && PieceFits(p)
    ensures Is(p.keyword, "generate") && Nests(p.body, 1, "generate", "endgenerate") && NoneIs(p.body, "endmodule")
    ensures p.last.value == "endgenerate" && PieceText(p) == [p.keyword] + (p.body + [p.last])
    ensures var end := i + |p.body| + 2; ItemOf(i, p) == Item(Generate, i, end, [Slice(i + 1, end - 1, p.body)])
  {
    hide Nests, NoneIs;
  }

  /** A generate block is read up to the endgenerate that closes it. */
  lemma GenerateReads(ts: seq<Token>, i: nat, p: Piece, names: Names)
    requires p.Generated? && PieceFits(p) && Stands(ts, i, PieceText(p))
    ensures ItemAt(ts, i, names) == ItemOf(i, p)
  {
    hide *;
    GeneratedFits(i, p);
    KeywordStands(ts, i, p.keyword, p.body, p.last);
    SimpleKind(ts, i, names);
    LastIsNoEndmodule(p.last);
    KeywordPartReads(ts, i + 1, p.body, "generate", p.last);
    var r := (i + 2 + |p.body|, Slice(i + 1, i + 1 + |p.body|, p.body));
    GenerateParts(ts, i, r);
    ItemByParts(ts, i, names, Generate, (r.0, [r.1]));
  }

  lemma LastIsNoEndmodule(t: Token)
    requires t.value == "endgenerate"
    ensures !Is(t, "endmodule") && t.value != "generate"
  {
  }

  lemma GenerateParts(ts: seq<Token>, i: nat, r: (nat, Slice))
    requires i + 1 < |ts| && KeywordPart(ts, i + 1, "generate", "endgenerate") == r
    ensures PartsAt(ts, i, Generate) == (r.0, [r.1])
  {
    hide KeywordPart;
  }

  lemma SkippedFits(i: nat, p: Piece)
    requires p.Skipped? && PieceFits(p)
    ensures SkipEnd(p.keyword.value) == Some(p.last.value) && Nests(p.body, 1, p.keyword.value, p.last.value)
    ensures PieceText(p) == [p.keyword] + (p.body + [p.last])
    ensures ItemOf(i, p) == Item(Unsupported, i, i + |p.body| + 2, [])
  {
    hide Nests;
  }

  lemma UnsupportedParts(ts: seq<Token>, i: nat)
    requires i + 1 < |ts|
    ensures PartsAt(ts, i, Unsupported) == (UnsupportedEnd(ts, i, ts[i].value), [])
  {
    hide UnsupportedEnd;
  }

  lemma MatchedEnd(ts: seq<Token>, i: nat, start: string, end: string, r: nat)
    requires i + 1 < |ts| && EndKeyword(start) == Some(end)
    requires MatchFrom(ts[..|ts| - 1], i + 1, 1, start, end) == Some(r)
    ensures UnsupportedEnd(ts, i, start) == r + 1
  {
    hide MatchFrom, EndKeyword;
  }

  /** A construct outside the subset is passed over up to its own end keyword. */
  lemma SkippedReads(ts: seq<Token>, i: nat, p: Piece, names: Names)
    requires p.Skipped? && PieceFits(p) && Stands(ts, i, PieceText(p))
    ensures i + 1 < |ts| && UnsupportedEnd(ts, i, p.keyword.value) == i + |PieceText(p)|
    ensures OneOf(ts[i], UNSUPPORTED) && ts[i] == p.keyword && ItemAt(ts, i, names) == ItemOf(i, p)
  {
    hide *;
    SkippedFits(i, p);
    SkippedWords(p.keyword);
    KeywordStands(ts, i, p.keyword, p.body, p.last);
    SimpleKind(ts, i, names);
    var end := p.last.value;
    WordIs(p.last, end);
    NestedIsMatched(ts, |ts| - 1, i + 1, p.body, 1, p.keyword.value, end, p.last);
    MatchedEnd(ts, i, p.keyword.value, end, i + 1 + |p.body|);
    UnsupportedParts(ts, i);
    ItemByParts(ts, i, names, Unsupported, (i + 2 + |p.body|, []));
  }

  lemma WordIs(t: Token, word: string)
    requires t.value == word
    ensures Is(t, word)
  {
  }

  lemma FirstSemicolonStops(ts: seq<Token>, i: nat, body: seq<Token>)
    requires i + |body| + 1 < |ts| && ts[i + |body|].value == ";"
    requires (forall k :: 0 <= k < |body| ==> ts[i + k] == body[k]) && NoneIs(body, ";") && NoneIs(body, "endmodule")
    ensures SkipTo(ts, i, {";", "endmodule"}) == i + |body|
  {
    var stop := SkipTo(ts, i, {";", "endmodule"});
    assert OneOf(ts[i + |body|], {";", "endmodule"});
    forall j | i <= j < i + |body| ensures !OneOf(ts[j], {";", "endmodule"}) {
      assert ts[i + (j - i)] == body[j - i] && !Is(body[j - i], ";") && !Is(body[j - i], "endmodule");
    }
  }

  lemma SkippedToFits(i: nat, p: Piece)
    requires p.SkippedTo? && PieceFits(p)
    ensures p.keyword.value in SKIPPED_STATEMENTS && NoneIs(p.body, ";") && NoneIs(p.body, "endmodule")
    ensures p.semi.value == ";" && PieceText(p) == [p.keyword] + (p.body + [p.semi])
    ensures ItemOf(i, p) == Item(Unsupported, i, i + |p.body| + 2, [])
  {
    hide NoneIs;
  }

  lemma SemicolonEnd(ts: seq<Token>, i: nat, start: string, r: nat)
    requires i + 1 < |ts| && EndKeyword(start) == None
    requires SkipTo(ts, i + 1, {";", "endmodule"}) == r && r < |ts| - 1 && ts[r].value == ";"
    ensures UnsupportedEnd(ts, i, start) == r + 1
  {
    hide EndKeyword, SkipTo;
  }

  /** Or up to its semicolon. */
  lemma SkippedToReads(ts: seq<Token>, i: nat, p: Piece, names: Names)
    requires p.SkippedTo? && PieceFits(p) && Stands(ts, i, PieceText(p))
    ensures i + 1 < |ts| && UnsupportedEnd(ts, i, p.keyword.value) == i + |PieceText(p)|
    ensures OneOf(ts[i], UNSUPPORTED) && ts[i] == p.keyword && ItemAt(ts, i, names) == ItemOf(i, p)
  {
    hide *;
    SkippedToFits(i, p);
    SkippedWords(p.keyword);
    KeywordStands(ts, i, p.keyword, p.body, p.semi);
    SimpleKind(ts, i, names);
    FirstSemicolonStops(ts, i + 1, p.body);
    SemicolonEnd(ts, i, p.keyword.value, i + 1 + |p.body|);
    UnsupportedParts(ts, i);
    ItemByParts(ts, i, names, Unsupported, (i + 2 + |p.body|, []));
  }
}
