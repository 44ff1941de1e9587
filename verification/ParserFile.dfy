/** Modules, packages and interfaces written out and read back. What a text is
    read as depends on the type and interface names met before it, so the names
    are passed on from piece to piece and from unit to unit. */
module ParserFile {
  import opened Tokens
  import opened ParserSpec
  import opened ParserGrammar
  import opened ParserTexts
  import opened ParserStatements
  import opened ParserPrint

  /** The names known after a piece: a typedef adds its last name. */
  function NamesOf(p: Piece, names: Names): Names {
    if p.TypeDef? then WithTypedef(names, Slice(0, 0, p.body)) else names
  }

  function NamesOfAll(ps: seq<Piece>, names: Names): Names {
    if ps == [] then names else NamesOfAll(ps[1..], NamesOf(ps[0], names))
  }

  /** A type written by name is one that was defined before; the type of an
      instance is neither an interface nor a typedef. */
  predicate Known(p: Piece, names: Names) {
    match p
    case Use(moduleType, _, _, _) => moduleType.value !in names.interfaces && moduleType.value !in names.typedefs
    case Typed(typeName, _, body, semi) =>
      && typeName.value !in names.interfaces
      && (typeName.value in names.typedefs || (body + [semi])[0].value in {";", "[", "="})
    case Connect(interfaceType, _, _, _) => interfaceType.value in names.interfaces
    case ParamUse(moduleType, _, _, _, _, _) =>
      moduleType.value !in names.interfaces && moduleType.value !in names.typedefs
    case ModportUse(interfaceType, _, _, _, _, _) => interfaceType.value in names.interfaces
    case _ => true
  }

  predicate ModuleItem(p: Piece, names: Names) {
    !p.Modport? && PieceFits(p) && Known(p, names)
  }

  predicate AllModuleItems(ps: seq<Piece>, names: Names) {
    ps != [] ==> ModuleItem(ps[0], names) && AllModuleItems(ps[1..], NamesOf(ps[0], names))
  }

  lemma PieceStart(p: Piece)
    requires PieceFits(p) && !p.Modport?
    ensures !Is(PieceText(p)[0], "endmodule") && PieceText(p)[0].value != "else"
  {
    hide ParensFit, Runs, Nests, NoneIs, ClosingFits, BodyFits, EventFits, ParamsSeen;
    if p.Use? || p.ParamUse? { IdentifierIsNoKeyword(p.moduleType); }
    if p.Typed? { IdentifierIsNoKeyword(p.typeName); }
    if p.Connect? || p.ModportUse? { IdentifierIsNoKeyword(p.interfaceType); }
  }

  lemma SimpleReads(ts: seq<Token>, i: nat, p: Piece, names: Names)
    requires p.Simple? && PieceFits(p) && Stands(ts, i, PieceText(p))
    ensures i + 1 < |ts| && ItemAt(ts, i, names) == ItemOf(i, p)
  {
    StandsFirst(ts, i, PieceText(p));
    hide Stands, ItemAt, ItemOf, PieceText, Is, Runs, Declares, SetsParameter;
    if Is(p.keyword, "assign") { AssignReads(ts, i, p, names); } else { DeclarationReads(ts, i, p, names); }
  }

  lemma PieceReads(ts: seq<Token>, i: nat, p: Piece, names: Names)
    requires ModuleItem(p, names) && Stands(ts, i, PieceText(p))
    requires i + |PieceText(p)| < |ts| && ts[i + |PieceText(p)|].value != "else"
    ensures i + 1 < |ts| && !Is(ts[i], "endmodule") && ItemAt(ts, i, names) == ItemOf(i, p)
  {
    hide Stands, ItemAt, ItemOf, PieceText, PieceFits, Is;
    StandsFirst(ts, i, PieceText(p));
    PieceStart(p);
    if p.Simple? {
      SimpleReads(ts, i, p, names);
    } else if p.Block? {
      AlwaysReads(ts, i, p, names);
    } else if p.TypeDef? {
      TypeDefReads(ts, i, p, names);
    } else if p.FromPackage? {
      ImportItem(ts, i, p, names);
    } else if p.Routine? {
      RoutineReads(ts, i, p, names);
    } else if p.Process? {
      ProcessReads(ts, i, p, names);
    } else if p.Generated? {
      GenerateReads(ts, i, p, names);
    } else if p.Skipped? {
      SkippedReads(ts, i, p, names);
    } else if p.SkippedTo? {
      SkippedToReads(ts, i, p, names);
    } else {
      NamedPieceReads(ts, i, p, names);
    }
  }

  lemma NamedPieceReads(ts: seq<Token>, i: nat, p: Piece, names: Names)
    requires ModuleItem(p, names) && Stands(ts, i, PieceText(p))
    requires p.Use? || p.Typed? || p.Connect? || p.ParamUse? || p.ModportUse?
    ensures i + 1 < |ts| && ItemAt(ts, i, names) == ItemOf(i, p)
  {
    hide Stands, ItemAt, ItemOf, PieceText, PieceFits, Is;
    StandsFirst(ts, i, PieceText(p));
    if p.Use? {
      InstanceReads(ts, i, p, names);
    } else if p.Typed? {
      TypedReads(ts, i, p, names);
    } else if p.Connect? {
      ConnectReads(ts, i, p, names);
    } else if p.ParamUse? {
      ParamInstanceReads(ts, i, p, names);
    } else {
      ModportUseReads(ts, i, p, names);
    }
  }

  lemma NamesAreCarried(i: nat, p: Piece, names: Names)
    requires !p.Modport?
    ensures NamesAfter(ItemOf(i, p), names) == NamesOf(p, names)
  {
    hide PieceText, LastName;
  }

  function PiecesText(ps: seq<Piece>): seq<Token> {
    if ps == [] then [] else PieceText(ps[0]) + PiecesText(ps[1..])
  }

  predicate NoModports(ps: seq<Piece>) { forall k :: 0 <= k < |ps| ==> !ps[k].Modport? }

  function ItemsOf(i: nat, ps: seq<Piece>): seq<Item>
    requires NoModports(ps)
    decreases |ps|
  {
    if ps == [] then [] else [ItemOf(i, ps[0])] + ItemsOf(i + |PieceText(ps[0])|, ps[1..])
  }

  lemma {:induction false} ItemsHaveNoModports(ps: seq<Piece>, names: Names)
    requires AllModuleItems(ps, names)
    ensures NoModports(ps)
    decreases |ps|
  {
    hide PieceFits, NamesOf;
    if ps != [] {
      ItemsHaveNoModports(ps[1..], NamesOf(ps[0], names));
      assert forall k :: 0 < k < |ps| ==> ps[k] == ps[1..][k - 1];
    }
  }

  /** What follows a piece continues no statement. */
  lemma NextStarts(ts: seq<Token>, i: nat, ps: seq<Piece>, names: Names, end: Token)
    requires AllModuleItems(ps, names) && Is(end, "endmodule") && Stands(ts, i, PiecesText(ps) + [end])
    ensures i < |ts| && ts[i].value != "else"
  {
    StandsFirst(ts, i, PiecesText(ps) + [end]);
    hide Stands, PieceFits, Known, NamesOf, PieceText;
    if ps != [] { PieceStart(ps[0]); }
  }

  lemma {:induction false} BodyReads(ts: seq<Token>, i: nat, ps: seq<Piece>, names: Names, end: Token)
    requires AllModuleItems(ps, names) && Is(end, "endmodule") && Stands(ts, i, PiecesText(ps) + [end])
    ensures NoModports(ps)
    ensures i < |ts| && BodyFrom(ts, i, names) == (ItemsOf(i, ps), i + |PiecesText(ps)|, NamesOfAll(ps, names))
    decreases |ps|
  {
    hide Stands, ItemAt, ItemOf, PieceText, Is, PieceFits, NamesOf, Known;
    ItemsHaveNoModports(ps, names);
    if ps == [] {
      assert PiecesText(ps) + [end] == [end];
      StandsOne(ts, i, end);
    } else {
      var p, rest := ps[0], ps[1..];
      assert PiecesText(ps) + [end] == PieceText(p) + (PiecesText(rest) + [end]);
      StandsApart(ts, i, PieceText(p), PiecesText(rest) + [end]);
      NextStarts(ts, i + |PieceText(p)|, rest, NamesOf(p, names), end);
      PieceReads(ts, i, p, names);
      NamesAreCarried(i, p, names);
      BodyReads(ts, i + |PieceText(p)|, rest, NamesOf(p, names), end);
    }
  }

  // ----- packages and interfaces -----

  predicate PackageItem(p: Piece) {
    && PieceFits(p)
    && (p.TypeDef? || p.FromPackage? || p.Skipped? || p.SkippedTo? || (p.Simple? && p.keyword.value != "assign"))
  }

  predicate InterfaceItem(p: Piece) {
    && PieceFits(p)
    && (p.TypeDef? || p.Modport? || p.Skipped? || p.SkippedTo? || (p.Simple? && p.keyword.value in DECLARING))
  }

  ghost predicate AllPackageItems(ps: seq<Piece>) { forall k :: 0 <= k < |ps| ==> PackageItem(ps[k]) }

  ghost predicate AllInterfaceItems(ps: seq<Piece>) { forall k :: 0 <= k < |ps| ==> InterfaceItem(ps[k]) }

  /** The first words of what a package or interface holds are told apart. */
  lemma FirstWords(t: Token)
    ensures Is(t, "typedef") ==> !Is(t, "endpackage") && !Is(t, "endinterface") && !Is(t, "modport")
    ensures Is(t, "import") ==> !Is(t, "endpackage") && !Is(t, "typedef")
    ensures Is(t, "modport") ==> !Is(t, "endinterface")
    ensures Declares(t) || SetsParameter(t) ==>
      !Is(t, "endpackage") && !Is(t, "endinterface") && !Is(t, "typedef") && !Is(t, "import") && !Is(t, "modport")
    ensures OneOf(t, UNSUPPORTED) ==>
      && !Is(t, "endpackage") && !Is(t, "endinterface") && !Is(t, "typedef") && !Is(t, "import") && !Is(t, "modport")
      && !Declares(t) && !SetsParameter(t)
  {
  }

  lemma DeclaredIsNotAssigned(t: Token)
    requires Declares(t)
    ensures !Is(t, "assign")
  {
  }

  lemma TypedefNames(p: Piece, names: Names, i: nat)
    requires p.TypeDef?
    ensures WithTypedef(names, ItemOf(i, p).parts[0]) == NamesOf(p, names)
  {
    hide LastName, PieceText;
  }

  lemma ImportKeyword(p: Piece)
    requires p.FromPackage? && PieceFits(p)
    ensures Is(p.keyword, "import")
  {
    hide Is;
  }

  lemma ModportKeyword(p: Piece)
    requires p.Modport? && PieceFits(p)
    ensures Is(p.keyword, "modport")
  {
    hide Is, ClosingFits;
  }

  lemma OwnStatementStands(ts: seq<Token>, i: nat, p: Piece)
    requires p.Simple? && PieceFits(p) && !Is(p.keyword, "assign") && Stands(ts, i, PieceText(p))
    ensures i + 1 < |ts| && ts[i] == p.keyword && (Declares(p.keyword) || SetsParameter(p.keyword))
    ensures OwnStatementEnd(ts, i) == i + |PieceText(p)|
  {
    hide Stands, Runs, Declares, SetsParameter, Is, StatementEnd, PieceText, StatementStop;
    DeclarationStands(ts, i, p);
    SimpleItem(i, p);
    DeclarationRuns(p.keyword, p.body);
    StatementReads(ts, i, [p.keyword] + p.body, p.semi);
  }

  lemma PackageBodyStep(ts: seq<Token>, i: nat, names: Names)
    requires i + 1 < |ts|
    ensures Is(ts[i], "typedef") ==>
      var part := StatementPart(ts, i + 1);
      PackageBody(ts, i, names) == PackageBody(ts, part.0, WithTypedef(names, part.1))
    ensures Is(ts[i], "import") ==> PackageBody(ts, i, names) == PackageBody(ts, ImportEnd(ts, i), names)
    ensures SetsParameter(ts[i]) || Declares(ts[i]) ==>
      PackageBody(ts, i, names) == PackageBody(ts, OwnStatementEnd(ts, i), names)
    ensures OneOf(ts[i], UNSUPPORTED) ==>
      PackageBody(ts, i, names) == PackageBody(ts, UnsupportedEnd(ts, i, ts[i].value), names)
  {
    FirstWords(ts[i]);
    hide StatementPart, ImportEnd, OwnStatementEnd, Declares, SetsParameter, Is, OneOf, WithTypedef;
  }

  lemma PackageTypedef(ts: seq<Token>, i: nat, p: Piece, names: Names)
    requires p.TypeDef? && PieceFits(p) && Stands(ts, i, PieceText(p))
    ensures i + |PieceText(p)| < |ts|
    ensures PackageBody(ts, i, names) == PackageBody(ts, i + |PieceText(p)|, NamesOf(p, names))
  {
    hide *;
    TypeDefFits(p);
    TypeDefItem(i, p);
    StandsFirst(ts, i, PieceText(p));
    StandsInside(ts, i, PieceText(p));
    TypeDefReads(ts, i, p, names);
    TypedefNames(p, names, i);
    PackageBodyStep(ts, i, names);
  }

  lemma PackageImport(ts: seq<Token>, i: nat, p: Piece, names: Names)
    requires p.FromPackage? && PieceFits(p) && Stands(ts, i, PieceText(p))
    ensures i + |PieceText(p)| < |ts|
    ensures PackageBody(ts, i, names) == PackageBody(ts, i + |PieceText(p)|, names)
  {
    hide *;
    StandsInside(ts, i, PieceText(p));
    ImportReads(ts, i, p);
    ImportKeyword(p);
    PackageBodyStep(ts, i, names);
  }

  lemma PackageOwn(ts: seq<Token>, i: nat, p: Piece, names: Names)
    requires p.Simple? && PieceFits(p) && !Is(p.keyword, "assign") && Stands(ts, i, PieceText(p))
    ensures i + |PieceText(p)| < |ts|
    ensures PackageBody(ts, i, names) == PackageBody(ts, i + |PieceText(p)|, names)
  {
    hide *;
    StandsInside(ts, i, PieceText(p));
    OwnStatementStands(ts, i, p);
    PackageBodyStep(ts, i, names);
  }

  lemma SkippedAddsNoNames(p: Piece, names: Names)
    requires p.Skipped? || p.SkippedTo?
    ensures NamesOf(p, names) == names
  {
  }

  lemma SkippedEnds(ts: seq<Token>, i: nat, p: Piece, names: Names)
    requires (p.Skipped? || p.SkippedTo?) && PieceFits(p) && Stands(ts, i, PieceText(p))
    ensures i + |PieceText(p)| < |ts| && i + 1 < |ts| && OneOf(ts[i], UNSUPPORTED)
    ensures UnsupportedEnd(ts, i, ts[i].value) == i + |PieceText(p)|
  {
    hide *;
    StandsInside(ts, i, PieceText(p));
    if p.Skipped? { SkippedReads(ts, i, p, names); } else { SkippedToReads(ts, i, p, names); }
  }

  /** A construct outside the subset is passed over in a package or interface. */
  lemma SkippedInside(ts: seq<Token>, i: nat, p: Piece, names: Names)
    requires (p.Skipped? || p.SkippedTo?) && PieceFits(p) && Stands(ts, i, PieceText(p))
    ensures i + |PieceText(p)| < |ts| && NamesOf(p, names) == names
    ensures PackageBody(ts, i, names) == PackageBody(ts, i + |PieceText(p)|, names)
    ensures InterfaceBody(ts, i, names) == InterfaceBody(ts, i + |PieceText(p)|, names)
  {
    hide *;
    SkippedAddsNoNames(p, names);
    SkippedEnds(ts, i, p, names);
    PackageBodyStep(ts, i, names);
    InterfaceBodyStep(ts, i, names);
  }

  lemma PackageStep(ts: seq<Token>, i: nat, p: Piece, names: Names)
    requires PackageItem(p) && Stands(ts, i, PieceText(p))
    ensures i + |PieceText(p)| < |ts|
    ensures PackageBody(ts, i, names) == PackageBody(ts, i + |PieceText(p)|, NamesOf(p, names))
  {
    hide Stands, Declares, PackageBody, PieceFits, PieceText;
    if p.TypeDef? {
      PackageTypedef(ts, i, p, names);
    } else if p.FromPackage? {
      PackageImport(ts, i, p, names);
    } else if p.Simple? {
      PackageOwn(ts, i, p, names);
    } else {
      SkippedInside(ts, i, p, names);
    }
  }

  lemma PackageEnds(ts: seq<Token>, i: nat, names: Names)
    requires i < |ts| && Is(ts[i], "endpackage")
    ensures PackageBody(ts, i, names) == (i, names)
  {
  }

  lemma {:induction false} PackageBodyReads(ts: seq<Token>, i: nat, ps: seq<Piece>, names: Names, end: Token)
    requires AllPackageItems(ps) && Is(end, "endpackage") && Stands(ts, i, PiecesText(ps) + [end])
    ensures i < |ts| && PackageBody(ts, i, names) == (i + |PiecesText(ps)|, NamesOfAll(ps, names))
    decreases |ps|
  {
    hide Stands, PackageItem, PieceText, NamesOf, Is, PackageBody;
    if ps == [] {
      assert PiecesText(ps) + [end] == [end];
      StandsOne(ts, i, end);
      PackageEnds(ts, i, names);
    } else {
      var p, rest := ps[0], ps[1..];
      assert PiecesText(ps) + [end] == PieceText(p) + (PiecesText(rest) + [end]);
      StandsApart(ts, i, PieceText(p), PiecesText(rest) + [end]);
      PackageStep(ts, i, p, names);
      PackageBodyReads(ts, i + |PieceText(p)|, rest, NamesOf(p, names), end);
    }
  }

  lemma InterfaceBodyStep(ts: seq<Token>, i: nat, names: Names)
    requires i + 1 < |ts|
    ensures Is(ts[i], "typedef") ==>
      var part := StatementPart(ts, i + 1);
      InterfaceBody(ts, i, names) == InterfaceBody(ts, part.0, WithTypedef(names, part.1))
    ensures Is(ts[i], "modport") ==> InterfaceBody(ts, i, names) == InterfaceBody(ts, ModportEnd(ts, i), names)
    ensures Declares(ts[i]) ==> InterfaceBody(ts, i, names) == InterfaceBody(ts, OwnStatementEnd(ts, i), names)
    ensures OneOf(ts[i], UNSUPPORTED) ==>
      InterfaceBody(ts, i, names) == InterfaceBody(ts, UnsupportedEnd(ts, i, ts[i].value), names)
  {
    FirstWords(ts[i]);
    hide StatementPart, ModportEnd, OwnStatementEnd, Declares, SetsParameter, Is, OneOf, WithTypedef;
  }

  lemma InterfaceTypedef(ts: seq<Token>, i: nat, p: Piece, names: Names)
    requires p.TypeDef? && PieceFits(p) && Stands(ts, i, PieceText(p))
    ensures i + |PieceText(p)| < |ts|
    ensures InterfaceBody(ts, i, names) == InterfaceBody(ts, i + |PieceText(p)|, NamesOf(p, names))
  {
    hide *;
    TypeDefFits(p);
    TypeDefItem(i, p);
    StandsFirst(ts, i, PieceText(p));
    StandsInside(ts, i, PieceText(p));
    TypeDefReads(ts, i, p, names);
    TypedefNames(p, names, i);
    InterfaceBodyStep(ts, i, names);
  }

  lemma InterfaceModport(ts: seq<Token>, i: nat, p: Piece, names: Names)
    requires p.Modport? && PieceFits(p) && Stands(ts, i, PieceText(p))
    ensures i + |PieceText(p)| < |ts|
    ensures InterfaceBody(ts, i, names) == InterfaceBody(ts, i + |PieceText(p)|, names)
  {
    hide *;
    StandsInside(ts, i, PieceText(p));
    ModportReads(ts, i, p);
    ModportKeyword(p);
    InterfaceBodyStep(ts, i, names);
  }

  lemma InterfaceOwn(ts: seq<Token>, i: nat, p: Piece, names: Names)
    requires p.Simple? && PieceFits(p) && Declares(p.keyword) && Stands(ts, i, PieceText(p))
    ensures i + |PieceText(p)| < |ts|
    ensures InterfaceBody(ts, i, names) == InterfaceBody(ts, i + |PieceText(p)|, names)
  {
    hide *;
    StandsInside(ts, i, PieceText(p));
    DeclaredIsNotAssigned(p.keyword);
    OwnStatementStands(ts, i, p);
    InterfaceBodyStep(ts, i, names);
  }

  lemma InterfaceStep(ts: seq<Token>, i: nat, p: Piece, names: Names)
    requires InterfaceItem(p) && Stands(ts, i, PieceText(p))
    ensures i + |PieceText(p)| < |ts|
    ensures InterfaceBody(ts, i, names) == InterfaceBody(ts, i + |PieceText(p)|, NamesOf(p, names))
  {
    hide Stands, Is, Declares, InterfaceBody, PieceFits, PieceText;
    if p.TypeDef? {
      InterfaceTypedef(ts, i, p, names);
    } else if p.Modport? {
      InterfaceModport(ts, i, p, names);
    } else if p.Simple? {
      DeclaringWords(p.keyword);
      InterfaceOwn(ts, i, p, names);
    } else {
      SkippedInside(ts, i, p, names);
    }
  }

  lemma InterfaceEnds(ts: seq<Token>, i: nat, names: Names)
    requires i < |ts| && Is(ts[i], "endinterface")
    ensures InterfaceBody(ts, i, names) == (i, names)
  {
  }

  lemma {:induction false} InterfaceBodyReads(ts: seq<Token>, i: nat, ps: seq<Piece>, names: Names, end: Token)
    requires AllInterfaceItems(ps) && Is(end, "endinterface") && Stands(ts, i, PiecesText(ps) + [end])
    ensures i < |ts| && InterfaceBody(ts, i, names) == (i + |PiecesText(ps)|, NamesOfAll(ps, names))
    decreases |ps|
  {
    hide Stands, InterfaceItem, PieceText, NamesOf, Is, InterfaceBody;
    if ps == [] {
      assert PiecesText(ps) + [end] == [end];
      StandsOne(ts, i, end);
      InterfaceEnds(ts, i, names);
    } else {
      var p, rest := ps[0], ps[1..];
      assert PiecesText(ps) + [end] == PieceText(p) + (PiecesText(rest) + [end]);
      StandsApart(ts, i, PieceText(p), PiecesText(rest) + [end]);
      InterfaceStep(ts, i, p, names);
      InterfaceBodyReads(ts, i + |PieceText(p)|, rest, NamesOf(p, names), end);
    }
  }

  // ----- units and files -----

  /** The parameters of a module header. */
  datatype Params = NoParams | Params(hash: Token, group: Parens)

  /** The name after the end keyword of a package or interface. */
  datatype EndName = Unnamed | Named(colon: Token, name: Token)

  /** A module, package or interface. */
  datatype Unit = Unit(keyword: Token, name: Token, params: Params, ports: Option<Parens>, semi: Token,
    pieces: seq<Piece>, end: Token, endName: EndName)

  function ParamsText(p: Params): seq<Token> {
    match p case NoParams => [] case Params(hash, group) => [hash] + ParensText(group)
  }

  function EndNameText(e: EndName): seq<Token> {
    match e case Unnamed => [] case Named(colon, name) => [colon] + [name]
  }

  function HeaderText(u: Unit): (t: seq<Token>)
    ensures t != []
  {
    ParamsText(u.params) + ClosingText(u.ports, u.semi)
  }

  function UnitText(u: Unit): (t: seq<Token>)
    ensures t != [] && t[0] == u.keyword
  {
    [u.keyword] + ([u.name] + (HeaderText(u) + (PiecesText(u.pieces) + ([u.end] + EndNameText(u.endName)))))
  }

  /** The names known after a unit. Those of a module's typedefs stay known after it. */
  function NamesOfUnit(u: Unit, names: Names): Names {
    NamesOfAll(u.pieces,
      if Is(u.keyword, "interface") then names.(interfaces := names.interfaces + {u.name.value}) else names)
  }

  predicate ParamsFit(p: Params) { p.Params? ==> Is(p.hash, "#") && ParensFit(p.group) }

  predicate EndNameFits(e: EndName) { e.Named? ==> Is(e.colon, ":") && e.name.kind == Identifier }

  ghost predicate UnitFits(u: Unit, names: Names) {
    && u.name.kind == Identifier && ClosingFits(u.ports, u.semi) && EndNameFits(u.endName)
    && if Is(u.keyword, "module") then
         && Is(u.end, "endmodule") && ParamsFit(u.params) && u.endName.Unnamed? && AllModuleItems(u.pieces, names)
       else if Is(u.keyword, "package") then
         && u.params.NoParams? && u.ports.None? && Is(u.end, "endpackage") && AllPackageItems(u.pieces)
       else
         && Is(u.keyword, "interface") && u.params.NoParams? && Is(u.end, "endinterface")
         && AllInterfaceItems(u.pieces)
  }

  /** The section a unit written at position i must be read as. */
  ghost function SectionOf(i: nat, u: Unit): (s: Section)
    requires Is(u.keyword, "module") ==> NoModports(u.pieces)
    ensures s.start == i
  {
    var start := i + 2 + |HeaderText(u)|;
    var end := start + |PiecesText(u.pieces)|;
    if Is(u.keyword, "module") then
      Section(ModuleText(Module(u.name.value, start, end, PiecesText(u.pieces), true, ItemsOf(start, u.pieces))), i,
        i + |UnitText(u)|)
    else Section(if Is(u.keyword, "package") then Package else Interface, i, i + |UnitText(u)|)
  }

  lemma UnitStands(ts: seq<Token>, i: nat, u: Unit)
    requires Stands(ts, i, UnitText(u))
    ensures i + 2 < |ts| && ts[i] == u.keyword && ts[i + 1] == u.name && Next(ts, i) == i + 1 &&
      Next(ts, i + 1) == i + 2
    ensures Stands(ts, i + 2, HeaderText(u))
    ensures var start := i + 2 + |HeaderText(u)|; var end := start + |PiecesText(u.pieces)|;
      && Stands(ts, start, PiecesText(u.pieces) + [u.end]) && end + 1 < |ts|
      && end + 1 + |EndNameText(u.endName)| == i + |UnitText(u)|
      && ts[start..end] == PiecesText(u.pieces) && ts[end] == u.end && Next(ts, end) == end + 1
      && Stands(ts, end + 1, EndNameText(u.endName))
  {
    hide Next, HeaderText, PiecesText, EndNameText, Stands;
    var header, body, last := HeaderText(u), PiecesText(u.pieces), [u.end] + EndNameText(u.endName);
    NameThenClosing(ts, i, u.keyword, u.name, header + (body + last));
    StandsApart(ts, i + 2, header, body + last);
    var start := i + 2 + |header|;
    assert body + last == (body + [u.end]) + EndNameText(u.endName);
    StandsApart(ts, start, body + [u.end], EndNameText(u.endName));
    StandsApart(ts, start, body, [u.end]);
    StandsOne(ts, start + |body|, u.end);
    StandsCut(ts, start, body);
  }

  lemma HeaderReads(ts: seq<Token>, i: nat, u: Unit)
    requires ClosingFits(u.ports, u.semi) && ParamsFit(u.params) && Stands(ts, i, HeaderText(u))
    ensures i < |ts| && HeaderEnd(ts, i) == i + |HeaderText(u)|
  {
    hide Stands, ClosingText, ClosingFits, GroupPart, Closing, ParensText, ParensFit, Is;
    var closing := ClosingText(u.ports, u.semi);
    StandsApart(ts, i, ParamsText(u.params), closing);
    var at := i + |ParamsText(u.params)|;
    ClosingReads(ts, at, u.ports, u.semi, {";", "endmodule"});
    if u.params.Params? {
      StandsApart(ts, i, [u.params.hash], ParensText(u.params.group));
      StandsOne(ts, i, u.params.hash);
      ParensRead(ts, i + 1, u.params.group);
    } else {
      ClosingStarts(ts, i, u.ports, u.semi);
    }
  }

  lemma ClosingStarts(ts: seq<Token>, i: nat, g: Option<Parens>, semi: Token)
    requires ClosingFits(g, semi) && Stands(ts, i, ClosingText(g, semi))
    ensures i < |ts| && !Is(ts[i], "#")
  {
    StandsFirst(ts, i, ClosingText(g, semi));
    hide Stands, Nests;
  }

  lemma ModuleByParts(ts: seq<Token>, i: nat, names: Names, start: nat, items: seq<Item>, end: nat, after: Names)
    requires i + 2 < |ts| && Is(ts[i], "module") && ts[i + 1].kind == Identifier
    requires HeaderEnd(ts, i + 2) == start && start <= end && end + 1 < |ts|
    requires BodyFrom(ts, start, names) == (items, end, after) && Is(ts[end], "endmodule")
    ensures SectionAt(ts, i, names)
         == (Section(ModuleText(Module(ts[i + 1].value, start, end, ts[start..end], true, items)), i, end + 1), after)
  {
    hide HeaderEnd, BodyFrom, Is;
  }

  lemma ModuleUnit(i: nat, u: Unit, names: Names)
    requires Is(u.keyword, "module") && UnitFits(u, names) && NoModports(u.pieces)
    ensures u.name.kind == Identifier && ClosingFits(u.ports, u.semi) && ParamsFit(u.params)
    ensures Is(u.end, "endmodule") && AllModuleItems(u.pieces, names) && EndNameText(u.endName) == []
    ensures NamesOfUnit(u, names) == NamesOfAll(u.pieces, names)
    ensures var start := i + 2 + |HeaderText(u)|; var end := start + |PiecesText(u.pieces)|;
      SectionOf(i, u) == Section(ModuleText(
        Module(u.name.value, start, end, PiecesText(u.pieces), true, ItemsOf(start, u.pieces))), i, i + |UnitText(u)|)
  {
    hide Is, ClosingFits, ParamsFit, HeaderText, UnitText, AllModuleItems, PiecesText, NamesOfAll, ItemsOf, NoModports;
    KeywordsApart(u.keyword);
  }

  lemma ModuleItems(u: Unit, names: Names)
    requires Is(u.keyword, "module") && UnitFits(u, names)
    ensures NoModports(u.pieces)
  {
    ItemsHaveNoModports(u.pieces, names);
    hide Is, ClosingFits, AllModuleItems;
  }

  lemma ModuleReads(ts: seq<Token>, i: nat, u: Unit, names: Names)
    requires Is(u.keyword, "module") && UnitFits(u, names) && Stands(ts, i, UnitText(u))
    ensures NoModports(u.pieces) && i + 1 < |ts|
    ensures SectionAt(ts, i, names) == (SectionOf(i, u), NamesOfUnit(u, names))
  {
    hide *;
    ModuleItems(u, names);
    ModuleUnit(i, u, names);
    UnitStands(ts, i, u);
    HeaderReads(ts, i + 2, u);
    var start := i + 2 + |HeaderText(u)|;
    BodyReads(ts, start, u.pieces, names, u.end);
    var end := start + |PiecesText(u.pieces)|;
    ModuleByParts(ts, i, names, start, ItemsOf(start, u.pieces), end, NamesOfAll(u.pieces, names));
  }

  lemma KeywordsApart(t: Token)
    ensures Is(t, "module") ==> !Is(t, "package") && !Is(t, "interface")
    ensures Is(t, "package") ==> !Is(t, "interface")
  {
  }

  /** The end name is read if there is one; without one no colon follows. */
  lemma EndNameReads(ts: seq<Token>, i: nat, e: EndName)
    requires EndNameFits(e) && Stands(ts, i, EndNameText(e))
    requires i + |EndNameText(e)| < |ts| && (e.Unnamed? ==> !Is(ts[i + |EndNameText(e)|], ":"))
    ensures i < |ts| && LabelEnd(ts, i) == i + |EndNameText(e)|
  {
    if e.Named? {
      StandsApart(ts, i, [e.colon], [e.name]);
      StandsOne(ts, i, e.colon);
      StandsOne(ts, i + 1, e.name);
    }
    hide Stands;
  }

  lemma PackageByParts(ts: seq<Token>, i: nat, names: Names, end: nat, after: Names, last: nat)
    requires i + 2 < |ts| && Is(ts[i], "package") && ts[i + 1].kind == Identifier && Is(ts[i + 2], ";") &&
      i + 3 <= end &&
      end + 1 < |ts|
    requires PackageBody(ts, i + 3, names) == (end, after) && Is(ts[end], "endpackage") && LabelEnd(ts, end + 1) == last
    ensures SectionAt(ts, i, names) == (Section(Package, i, last), after)
  {
    KeywordsApart(ts[i]);
    hide PackageBody, Is, ResyncEnd, ModuleAt, InterfaceAt, ImportEnd, UnsupportedEnd, LabelEnd;
    NextStep(ts, i);
    NextStep(ts, i + 1);
    NextStep(ts, i + 2);
    NextStep(ts, end);
  }

  lemma PackageUnit(i: nat, u: Unit, names: Names)
    requires Is(u.keyword, "package") && UnitFits(u, names)
    ensures !Is(u.keyword, "module") && u.name.kind == Identifier && Is(u.end, "endpackage") &&
      AllPackageItems(u.pieces) && EndNameFits(u.endName)
    ensures HeaderText(u) == [u.semi] && Is(u.semi, ";")
    ensures NamesOfUnit(u, names) == NamesOfAll(u.pieces, names)
    ensures SectionOf(i, u).start == i && SectionOf(i, u) == Section(Package, i, i + |UnitText(u)|)
  {
    hide Is, AllPackageItems, PiecesText, NamesOfAll, UnitText, EndNameFits;
    KeywordsApart(u.keyword);
  }

  lemma PackageReads(ts: seq<Token>, i: nat, u: Unit, names: Names)
    requires Is(u.keyword, "package") && UnitFits(u, names) && Stands(ts, i, UnitText(u))
    requires i + |UnitText(u)| < |ts| && !Is(ts[i + |UnitText(u)|], ":")
    ensures i + 1 < |ts| && !Is(u.keyword, "module")
    ensures SectionAt(ts, i, names) == (SectionOf(i, u), NamesOfUnit(u, names))
  {
    hide *;
    PackageUnit(i, u, names);
    UnitStands(ts, i, u);
    StandsOne(ts, i + 2, u.semi);
    PackageBodyReads(ts, i + 3, u.pieces, names, u.end);
    var end := i + 3 + |PiecesText(u.pieces)|;
    EndNameReads(ts, end + 1, u.endName);
    PackageByParts(ts, i, names, end, NamesOfAll(u.pieces, names), i + |UnitText(u)|);
  }

  lemma InterfaceByParts(ts: seq<Token>, i: nat, names: Names, start: nat, end: nat, after: Names, last: nat)
    requires i + 2 < |ts| && Is(ts[i], "interface") && ts[i + 1].kind == Identifier && i + 2 < start <= end &&
      end + 1 < |ts|
    requires Closing(ts, GroupPart(ts, i + 2).0, {";", "endinterface"}) == start
    requires InterfaceBody(ts, start, names.(interfaces := names.interfaces + {ts[i + 1].value})) == (end, after)
    requires Is(ts[end], "endinterface") && LabelEnd(ts, end + 1) == last
    ensures SectionAt(ts, i, names) == (Section(Interface, i, last), after)
  {
    KeywordsApart(ts[i]);
    hide InterfaceBody, Is, Closing, GroupPart, ModuleAt, PackageAt, ImportEnd, UnsupportedEnd, LabelEnd;
    NextStep(ts, i);
    NextStep(ts, i + 1);
    NextStep(ts, end);
  }

  lemma InterfaceUnit(i: nat, u: Unit, names: Names)
    requires Is(u.keyword, "interface") && UnitFits(u, names)
    ensures !Is(u.keyword, "module") && u.name.kind == Identifier && ClosingFits(u.ports, u.semi)
    ensures Is(u.end, "endinterface") && AllInterfaceItems(u.pieces) && EndNameFits(u.endName)
    ensures HeaderText(u) == ClosingText(u.ports, u.semi)
    ensures NamesOfUnit(u, names) == NamesOfAll(u.pieces, names.(interfaces := names.interfaces + {u.name.value}))
    ensures SectionOf(i, u).start == i && SectionOf(i, u) == Section(Interface, i, i + |UnitText(u)|)
  {
    hide Is, ClosingFits, ClosingText, AllInterfaceItems, PiecesText, NamesOfAll, UnitText, EndNameFits;
    KeywordsApart(u.keyword);
  }

  lemma InterfaceReads(ts: seq<Token>, i: nat, u: Unit, names: Names)
    requires Is(u.keyword, "interface") && UnitFits(u, names) && Stands(ts, i, UnitText(u))
    requires i + |UnitText(u)| < |ts| && !Is(ts[i + |UnitText(u)|], ":")
    ensures i + 1 < |ts| && !Is(u.keyword, "module")
    ensures SectionAt(ts, i, names) == (SectionOf(i, u), NamesOfUnit(u, names))
  {
    hide *;
    InterfaceUnit(i, u, names);
    UnitStands(ts, i, u);
    ClosingReads(ts, i + 2, u.ports, u.semi, {";", "endinterface"});
    var start := i + 2 + |HeaderText(u)|;
    var known := names.(interfaces := names.interfaces + {u.name.value});
    InterfaceBodyReads(ts, start, u.pieces, known, u.end);
    var end := start + |PiecesText(u.pieces)|;
    EndNameReads(ts, end + 1, u.endName);
    InterfaceByParts(ts, i, names, start, end, NamesOfAll(u.pieces, known), i + |UnitText(u)|);
  }

  /** A written unit is read back as what it is, with the names it adds. */
  lemma UnitReads(ts: seq<Token>, i: nat, u: Unit, names: Names)
    requires UnitFits(u, names) && Stands(ts, i, UnitText(u))
    requires i + |UnitText(u)| < |ts| && !Is(ts[i + |UnitText(u)|], ":")
    ensures Is(u.keyword, "module") ==> NoModports(u.pieces)
    ensures i + 1 < |ts| && SectionAt(ts, i, names) == (SectionOf(i, u), NamesOfUnit(u, names))
  {
    UnitKeyword(u, names);
    hide UnitFits, Is;
    if Is(u.keyword, "module") {
      ModuleReads(ts, i, u, names);
    } else if Is(u.keyword, "package") {
      PackageReads(ts, i, u, names);
    } else {
      InterfaceReads(ts, i, u, names);
    }
    hide SectionAt, Stands, NamesOfUnit;
  }

  lemma UnitKeyword(u: Unit, names: Names)
    requires UnitFits(u, names)
    ensures Is(u.keyword, "module") || Is(u.keyword, "package") || Is(u.keyword, "interface")
  {
  }

  /** What a file holds: units, imports and constructs outside the subset. */
  datatype Part = Whole(u: Unit) | Loose(p: Piece)

  function PartText(x: Part): (t: seq<Token>)
    ensures t != []
  {
    match x case Whole(u) => UnitText(u) case Loose(p) => PieceText(p)
  }

  ghost predicate PartFits(x: Part, names: Names) {
    match x
    case Whole(u) => UnitFits(u, names)
    case Loose(p) => PieceFits(p) && (p.FromPackage? || p.Skipped? || p.SkippedTo?)
  }

  function NamesOfPart(x: Part, names: Names): Names {
    match x case Whole(u) => NamesOfUnit(u, names) case Loose(p) => names
  }

  ghost predicate NoModportsIn(x: Part) { x.Whole? && Is(x.u.keyword, "module") ==> NoModports(x.u.pieces) }

  ghost function SectionOfPart(i: nat, x: Part): (s: Section)
    requires NoModportsIn(x)
    ensures s.start == i
  {
    match x
    case Whole(u) => SectionOf(i, u)
    case Loose(p) => Section(if p.FromPackage? then ImportText else UnsupportedText, i, i + |PieceText(p)|)
  }

  lemma LooseByParts(ts: seq<Token>, i: nat, names: Names)
    requires i + 1 < |ts|
    ensures Is(ts[i], "import") ==> SectionAt(ts, i, names) == (Section(ImportText, i, ImportEnd(ts, i)), names)
    ensures OneOf(ts[i], UNSUPPORTED) ==>
      SectionAt(ts, i, names) == (Section(UnsupportedText, i, UnsupportedEnd(ts, i, ts[i].value)), names)
  {
    LooseWords(ts[i]);
    hide ModuleAt, PackageAt, InterfaceAt, ImportEnd, UnsupportedEnd, Is, OneOf;
  }

  lemma LooseWords(t: Token)
    ensures Is(t, "import") || OneOf(t, UNSUPPORTED) ==> !Is(t, "module") && !Is(t, "package") && !Is(t, "interface")
    ensures OneOf(t, UNSUPPORTED) ==> !Is(t, "import")
  {
  }

  lemma PartReads(ts: seq<Token>, i: nat, x: Part, names: Names)
    requires PartFits(x, names) && Stands(ts, i, PartText(x))
    requires i + |PartText(x)| < |ts| && !Is(ts[i + |PartText(x)|], ":")
    ensures NoModportsIn(x)
    ensures i + 1 < |ts| && SectionAt(ts, i, names) == (SectionOfPart(i, x), NamesOfPart(x, names))
    ensures SectionOfPart(i, x).end == i + |PartText(x)|
  {
    hide SectionAt, Stands, UnitFits, Is, UnitText, PieceText, PieceFits, NamesOfUnit, NoModports;
    match x
    case Whole(u) =>
      UnitReads(ts, i, u, names);
    case Loose(p) =>
      if p.FromPackage? {
        ImportReads(ts, i, p);
        ImportKeyword(p);
      } else if p.Skipped? {
        SkippedReads(ts, i, p, names);
      } else {
        SkippedToReads(ts, i, p, names);
      }
      LooseByParts(ts, i, names);
  }

  function FileText(xs: seq<Part>): seq<Token> {
    if xs == [] then [] else PartText(xs[0]) + FileText(xs[1..])
  }

  /** Every part fits the names known after the parts before it. */
  ghost predicate FileFits(xs: seq<Part>, names: Names) {
    xs != [] ==> PartFits(xs[0], names) && FileFits(xs[1..], NamesOfPart(xs[0], names))
  }

  ghost predicate ModulesHaveNoModports(xs: seq<Part>) {
    forall k :: 0 <= k < |xs| ==> NoModportsIn(xs[k])
  }

  ghost function SectionsOf(i: nat, xs: seq<Part>): seq<Section>
    requires ModulesHaveNoModports(xs)
    decreases |xs|
  {
    if xs == [] then [] else [SectionOfPart(i, xs[0])] + SectionsOf(i + |PartText(xs[0])|, xs[1..])
  }

  lemma PartStarts(x: Part, names: Names)
    requires PartFits(x, names)
    ensures !Is(PartText(x)[0], ":")
  {
    hide Runs, Nests, NoneIs, ClosingFits, AllModuleItems, AllPackageItems, AllInterfaceItems, EndNameFits, ParamsFit,
      HeaderText;
  }

  lemma NoColonNext(ts: seq<Token>, i: nat, xs: seq<Part>, names: Names)
    requires FileFits(xs, names) && i + |FileText(xs)| == |ts| - 1 && Stands(ts, i, FileText(xs)) &&
      !Is(ts[|ts| - 1], ":")
    ensures i < |ts| && !Is(ts[i], ":")
  {
    hide Stands, PartFits, PartText, Is;
    if xs != [] {
      PartStarts(xs[0], names);
      StandsFirst(ts, i, FileText(xs));
    }
  }

  lemma {:induction false} FileReads(ts: seq<Token>, i: nat, xs: seq<Part>, names: Names)
    requires FileFits(xs, names) && i + |FileText(xs)| == |ts| - 1 && Stands(ts, i, FileText(xs)) &&
      !Is(ts[|ts| - 1], ":")
    ensures ModulesHaveNoModports(xs) && ParseFrom(ts, i, names) == SectionsOf(i, xs)
    decreases |xs|
  {
    hide Stands, PartFits, PartText, SectionAt, SectionOfPart, NamesOfPart, Is, NoModportsIn;
    if xs != [] {
      var rest := xs[1..];
      StandsApart(ts, i, PartText(xs[0]), FileText(rest));
      var next := i + |PartText(xs[0])|;
      NoColonNext(ts, next, rest, NamesOfPart(xs[0], names));
      PartReads(ts, i, xs[0], names);
      FileReads(ts, next, rest, NamesOfPart(xs[0], names));
      assert forall k :: 0 < k < |xs| ==> xs[k] == rest[k - 1];
    }
  }

  /** Modules, packages, interfaces, imports and constructs outside the subset, written one
      after another and ended with an eof token, are read back as those: each at the
      position where it was written, the modules with their names, bodies and items. */
  lemma ParsePrinted(xs: seq<Part>, eof: Token)
    requires FileFits(xs, Names({}, {})) && !Is(eof, ":")
    ensures ModulesHaveNoModports(xs)
    ensures ParseFrom(FileText(xs) + [eof], 0, Names({}, {})) == SectionsOf(0, xs)
  {
    var ts := FileText(xs) + [eof];
    assert ts[0..|FileText(xs)|] == FileText(xs);
    FileReads(ts, 0, xs, Names({}, {}));
  }
}
