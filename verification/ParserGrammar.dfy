/** What the parser makes of a token list, construct by construct, as functions
    of the position where the construct starts. */
module ParserGrammar {
  import opened Tokens
  import opened Brackets
  import opened ParserSpec

  /** The interface and type names met so far. */
  datatype Names = Names(interfaces: set<string>, typedefs: set<string>)

  datatype ItemKind =
    | Declaration | Parameters | Typedef | Import | Generate | Function | Task | Assign | Always | Initial
    | Unsupported | InterfaceUse | TypedDeclaration | InstanceUse | Separator | Stray

  /** A module item: the positions it takes up and the lists it keeps. */
  datatype Item = Item(kind: ItemKind, start: nat, end: nat, parts: seq<Slice>)

  datatype Module = Module(name: string, bodyStart: nat, bodyEnd: nat, body: seq<Token>, closed: bool, items: seq<Item>)

  datatype SectionKind =
    | ModuleText(m: Module) | NamelessModule | Package | Interface | ImportText | UnsupportedText | StrayText

  /** A top-level construct and the positions it takes up. */
  datatype Section = Section(kind: SectionKind, start: nat, end: nat)

  function Next(ts: seq<Token>, i: nat): (r: nat)
    requires i < |ts|
    ensures i <= r < |ts| && (i < |ts| - 1 ==> r == i + 1)
  {
    if i < |ts| - 1 then i + 1 else i
  }

  lemma NextStep(ts: seq<Token>, i: nat)
    requires i < |ts| - 1
    ensures Next(ts, i) == i + 1
  {
  }

  function Past(ts: seq<Token>, i: nat, word: string): (r: nat)
    requires i < |ts|
    ensures i <= r < |ts|
  {
    if Is(ts[i], word) then Next(ts, i) else i
  }

  predicate Named(ts: seq<Token>, i: nat)
    requires i < |ts|
  {
    ts[i].kind == Identifier
  }

  function Ahead(ts: seq<Token>, i: nat, offset: nat): Token
    requires i < |ts|
  {
    if i + offset <= |ts| - 1 then ts[i + offset] else ts[|ts| - 1]
  }

  function Cut(ts: seq<Token>, from: nat, to: nat): Slice
    requires from <= to < |ts|
  {
    Slice(from, to, ts[from..to])
  }

  /** A group, if one opens here: the position after it and what is inside. */
  function GroupOf(ts: seq<Token>, i: nat, open: string, close: string): (r: (nat, Slice))
    requires i < |ts|
    ensures i <= r.0 && IsSlice(ts, r.1, i, r.0)
  {
    if !Is(ts[i], open) || i == |ts| - 1 then (i, Cut(ts, i, i))
    else
      var m := MatchFrom(ts[..|ts| - 1], i + 1, 1, open, close);
      if m.Some? then (m.value + 1, Cut(ts, i + 1, m.value)) else (|ts| - 1, Cut(ts, i + 1, |ts| - 1))
  }

  function GroupPart(ts: seq<Token>, i: nat): (r: (nat, Slice))
    requires i < |ts|
    ensures i <= r.0 && IsSlice(ts, r.1, i, r.0)
  {
    GroupOf(ts, i, "(", ")")
  }

  function StatementPart(ts: seq<Token>, i: nat): (r: (nat, Slice))
    requires i < |ts|
    ensures i <= r.0 && IsSlice(ts, r.1, i, r.0)
  {
    (StatementEnd(ts, i), Cut(ts, i, StatementStop(ts, i, 0)))
  }

  /** A begin-end block, an if or case statement, or a simple statement. */
  function BlockPart(ts: seq<Token>, i: nat): (r: (nat, Slice))
    requires i < |ts|
    ensures i <= r.0 && IsSlice(ts, r.1, i, r.0)
  {
    if Is(ts[i], "begin") then
      var end := After(ts, Next(ts, i), "begin", "end");
      (end, Cut(ts, i, end))
    else if OneOf(ts[i], {"if", "case", "casez", "casex"}) then
      var end := CompoundEnd(ts, i, 0, 0);
      (end, Cut(ts, i, end))
    else StatementPart(ts, i)
  }

  /** Up to the matching end keyword, but never past the first endmodule. */
  function KeywordPart(ts: seq<Token>, i: nat, start: string, end: string): (r: (nat, Slice))
    requires i < |ts|
    ensures i <= r.0 && IsSlice(ts, r.1, i, r.0)
  {
    var limit := SkipTo(ts, i, {"endmodule"});
    var close := MatchFrom(ts[..limit], i, 1, start, end);
    if close.Some? then (close.value + 1, Cut(ts, i, close.value)) else (limit, Cut(ts, i, limit))
  }

  lemma KeywordPartIs(ts: seq<Token>, i: nat, start: string, end: string)
    requires i < |ts|
    ensures var limit := SkipTo(ts, i, {"endmodule"}); var close := MatchBefore(ts, limit, i, 1, start, end);
      && (close.Some? ==> i <= close.value < limit)
      && KeywordPart(ts, i, start, end) ==
           if close.Some? then (close.value + 1, Slice(i, close.value, ts[i..close.value]))
           else (limit, Slice(i, limit, ts[i..limit]))
  {
    hide SkipTo, MatchFrom;
  }

  /** Collecting up to an end keyword has come from one position to another, at a depth. */
  ghost predicate OnTheWay(ts: seq<Token>, from: nat, i: nat, depth: nat, start: string, end: string) {
    && from <= i < |ts| && depth > 0
    && var limit := SkipTo(ts, from, {"endmodule"});
       && i <= limit == SkipTo(ts, i, {"endmodule"})
       && MatchBefore(ts, limit, from, 1, start, end) == MatchBefore(ts, limit, i, depth, start, end)
  }

  ghost predicate IsKeywordPart(ts: seq<Token>, from: nat, start: string, end: string, r: (nat, Slice)) {
    from < |ts| && KeywordPart(ts, from, start, end) == r
  }

  lemma KeywordPartMeans(ts: seq<Token>, from: nat, start: string, end: string, r: (nat, Slice))
    requires IsKeywordPart(ts, from, start, end, r)
    ensures from < |ts| && KeywordPart(ts, from, start, end) == r
  {
  }

  lemma StartsOnTheWay(ts: seq<Token>, from: nat, start: string, end: string)
    requires from < |ts|
    ensures OnTheWay(ts, from, from, 1, start, end)
  {
    hide SkipTo, MatchBefore;
  }

  /** One more token, which ends the search, closes or opens a level, or is passed over. */
  lemma OneTokenOn(ts: seq<Token>, from: nat, i: nat, depth: nat, start: string, end: string)
    requires start != end && end != "endmodule" && OnTheWay(ts, from, i, depth, start, end) && i < |ts| - 1
    ensures Is(ts[i], end) ==>
      if depth == 1 then IsKeywordPart(ts, from, start, end, (i + 1, Slice(from, i, ts[from..i])))
      else OnTheWay(ts, from, i + 1, depth - 1, start, end)
    ensures !Is(ts[i], end) ==>
      if Is(ts[i], "endmodule") then IsKeywordPart(ts, from, start, end, (i, Slice(from, i, ts[from..i])))
      else OnTheWay(ts, from, i + 1, if Is(ts[i], start) then depth + 1 else depth, start, end)
  {
    hide SkipTo, MatchBefore, Is, KeywordPart, MatchFrom;
    KeywordPartIs(ts, from, start, end);
    var limit := SkipTo(ts, from, {"endmodule"});
    LimitStep(ts, i);
    MatchBeforeStep(ts, limit, i, depth, start, end);
    KeywordsDiffer(ts[i], start, end);
  }

  lemma NoTokenLeft(ts: seq<Token>, from: nat, i: nat, depth: nat, start: string, end: string)
    requires OnTheWay(ts, from, i, depth, start, end) && i == |ts| - 1
    ensures IsKeywordPart(ts, from, start, end, (i, Slice(from, i, ts[from..i])))
  {
    hide SkipTo, MatchBefore, Is, KeywordPart, MatchFrom;
    KeywordPartIs(ts, from, start, end);
    LimitStep(ts, i);
    MatchBeforeStep(ts, i, i, depth, start, end);
  }

  /** The semicolon that ends a construct, or where reading goes on without it. */
  function Closing(ts: seq<Token>, i: nat, words: set<string>): (r: nat)
    requires i < |ts|
    ensures i <= r < |ts|
  {
    if Is(ts[i], ";") then Next(ts, i) else ResyncEnd(ts, i, words)
  }

  function ImportEnd(ts: seq<Token>, i: nat): (r: nat)
    requires i < |ts|
    ensures Next(ts, i) <= r < |ts|
  {
    var a := Next(ts, i);
    if !Named(ts, a) then ResyncEnd(ts, a, {";"})
    else
      var b := Past(ts, Next(ts, a), "::");
      var c := if Is(ts[b], "*") || Named(ts, b) then Next(ts, b) else b;
      Closing(ts, c, {";", "module", "endmodule"})
  }

  function WithTypedef(names: Names, s: Slice): Names {
    var name := LastName(s.tokens);
    if name.Some? then names.(typedefs := names.typedefs + {name.value}) else names
  }

  function ModportEnd(ts: seq<Token>, i: nat): (r: nat)
    requires i < |ts|
    ensures Next(ts, i) <= r < |ts|
  {
    var a := Next(ts, i);
    if !Named(ts, a) then ResyncEnd(ts, a, {";"})
    else Closing(ts, GroupPart(ts, Next(ts, a)).0, {";", "endinterface"})
  }

  function LabelEnd(ts: seq<Token>, i: nat): (r: nat)
    requires i < |ts|
    ensures i <= r < |ts|
  {
    if !Is(ts[i], ":") then i else if Named(ts, Next(ts, i)) then Next(ts, Next(ts, i)) else Next(ts, i)
  }

  function OwnStatementEnd(ts: seq<Token>, i: nat): (r: nat)
    requires i + 1 < |ts| && (Declares(ts[i]) || SetsParameter(ts[i]))
    ensures i < r < |ts|
  {
    DeclarationsDoNotStop(ts[i]);
    StatementMoves(ts, i);
    StatementEnd(ts, i)
  }

  /** The contents of a package, up to endpackage or eof. */
  function PackageBody(ts: seq<Token>, i: nat, names: Names): (r: (nat, Names))
    requires i < |ts|
    ensures i <= r.0 < |ts|
    decreases |ts| - i
  {
    if i == |ts| - 1 || Is(ts[i], "endpackage") then (i, names)
    else if Is(ts[i], "typedef") then
      var part := StatementPart(ts, i + 1);
      PackageBody(ts, part.0, WithTypedef(names, part.1))
    else if Is(ts[i], "import") then PackageBody(ts, ImportEnd(ts, i), names)
    else if SetsParameter(ts[i]) || Declares(ts[i]) then PackageBody(ts, OwnStatementEnd(ts, i), names)
    else if OneOf(ts[i], UNSUPPORTED) then PackageBody(ts, UnsupportedEnd(ts, i, ts[i].value), names)
    else PackageBody(ts, i + 1, names)
  }

  function PackageAt(ts: seq<Token>, i: nat, names: Names): (r: (nat, Names))
    requires i < |ts|
    ensures Next(ts, i) <= r.0 < |ts|
  {
    var a := Next(ts, i);
    var b := Closing(ts, if Named(ts, a) then Next(ts, a) else a, {";", "endpackage"});
    var (c, names') := PackageBody(ts, b, names);
    (if Is(ts[c], "endpackage") then LabelEnd(ts, Next(ts, c)) else c, names')
  }

  /** The contents of an interface, up to endinterface or eof. */
  function InterfaceBody(ts: seq<Token>, i: nat, names: Names): (r: (nat, Names))
    requires i < |ts|
    ensures i <= r.0 < |ts|
    decreases |ts| - i
  {
    if i == |ts| - 1 || Is(ts[i], "endinterface") then (i, names)
    else if Is(ts[i], "modport") then InterfaceBody(ts, ModportEnd(ts, i), names)
    else if Is(ts[i], "typedef") then
      var part := StatementPart(ts, i + 1);
      InterfaceBody(ts, part.0, WithTypedef(names, part.1))
    else if Declares(ts[i]) then InterfaceBody(ts, OwnStatementEnd(ts, i), names)
    else if OneOf(ts[i], UNSUPPORTED) then InterfaceBody(ts, UnsupportedEnd(ts, i, ts[i].value), names)
    else InterfaceBody(ts, i + 1, names)
  }

  function InterfaceAt(ts: seq<Token>, i: nat, names: Names): (r: (nat, Names))
    requires i < |ts|
    ensures Next(ts, i) <= r.0 < |ts|
  {
    var a := Next(ts, i);
    var named := if Named(ts, a) then names.(interfaces := names.interfaces + {ts[a].value}) else names;
    var b := GroupPart(ts, if Named(ts, a) then Next(ts, a) else a).0;
    var (c, names') := InterfaceBody(ts, Closing(ts, b, {";", "endinterface"}), named);
    (if Is(ts[c], "endinterface") then LabelEnd(ts, Next(ts, c)) else c, names')
  }

  predicate LooksLikeInstance(ts: seq<Token>, i: nat)
    requires i < |ts|
  {
    && Named(ts, i)
    && if Is(Ahead(ts, i, 1), "#") then Ahead(ts, i, 3).kind == Identifier
       else Ahead(ts, i, 1).kind == Identifier && Is(Ahead(ts, i, 2), "(")
  }

  predicate LooksLikeInterfaceUse(ts: seq<Token>, i: nat, names: Names)
    requires i < |ts|
  {
    && Named(ts, i) && ts[i].value in names.interfaces
    && if Is(Ahead(ts, i, 1), ".") then Ahead(ts, i, 2).kind == Identifier && Ahead(ts, i, 3).kind == Identifier
       else Ahead(ts, i, 1).kind == Identifier
  }

  predicate LooksLikeTypedDeclaration(ts: seq<Token>, i: nat, names: Names)
    requires i < |ts|
  {
    && Named(ts, i) && Ahead(ts, i, 1).kind == Identifier && ts[i].value !in names.interfaces
    && (ts[i].value in names.typedefs || OneOf(Ahead(ts, i, 2), {";", "[", "="}))
  }

  /** Parts of an item that starts at i: where it ends and what it keeps. */
  ghost predicate PartsOk(ts: seq<Token>, i: nat, r: (nat, seq<Slice>))
    requires i < |ts|
  {
    Next(ts, i) <= r.0 < |ts| && forall p :: p in r.1 ==> IsSlice(ts, p, i, r.0)
  }

  function TypedDeclarationAt(ts: seq<Token>, i: nat): (r: (nat, seq<Slice>))
    requires i < |ts|
    ensures PartsOk(ts, i, r)
  {
    var a := Next(ts, i);
    if !Named(ts, a) then (ResyncEnd(ts, a, {";"}), [])
    else
      var part := StatementPart(ts, Next(ts, a));
      (part.0, [part.1])
  }

  function InterfaceUseEnd(ts: seq<Token>, i: nat): (r: nat)
    requires i < |ts|
    ensures Next(ts, i) <= r < |ts|
  {
    var a := Next(ts, i);
    var b :=
      if !Is(ts[a], ".") then a
      else if Named(ts, Next(ts, a)) then Next(ts, Next(ts, a))
      else Next(ts, a);
    if !Named(ts, b) then ResyncEnd(ts, b, {";"})
    else Closing(ts, GroupPart(ts, Next(ts, b)).0, {";", "endmodule"})
  }

  /** The header up to its semicolon and the body up to the end keyword. */
  function SubroutineAt(ts: seq<Token>, i: nat, start: string, end: string): (r: (nat, seq<Slice>))
    requires i < |ts|
    ensures PartsOk(ts, i, r)
  {
    var header := StatementPart(ts, Next(ts, i));
    var body := KeywordPart(ts, header.0, start, end);
    (body.0, [header.1, body.1])
  }

  function GenerateAt(ts: seq<Token>, i: nat): (r: (nat, seq<Slice>))
    requires i < |ts|
    ensures PartsOk(ts, i, r)
  {
    var body := KeywordPart(ts, Next(ts, i), "generate", "endgenerate");
    (body.0, [body.1])
  }

  /** An event control, if there is one: a group or a single token after @. */
  function EventPart(ts: seq<Token>, a: nat): (r: (nat, Slice))
    requires a < |ts|
    ensures a <= r.0 && IsSlice(ts, r.1, a, r.0)
  {
    var b := Next(ts, a);
    if !Is(ts[a], "@") then (a, Cut(ts, a, a))
    else if Is(ts[b], "(") || b == |ts| - 1 then GroupPart(ts, b)
    else (b + 1, Cut(ts, b, b + 1))
  }

  function AlwaysAt(ts: seq<Token>, i: nat): (r: (nat, seq<Slice>))
    requires i < |ts|
    ensures PartsOk(ts, i, r)
  {
    var event := EventPart(ts, Next(ts, i));
    var body := BlockPart(ts, event.0);
    (body.0, [event.1, body.1])
  }

  function InstanceAt(ts: seq<Token>, i: nat): (r: (nat, seq<Slice>))
    requires i < |ts|
    ensures PartsOk(ts, i, r)
  {
    var a := Next(ts, i);
    var b := if Is(ts[a], "#") then GroupPart(ts, Next(ts, a)).0 else a;
    if !Named(ts, b) then (ResyncEnd(ts, b, {";"}), [])
    else
      var c := Next(ts, b);
      var ports := GroupPart(ts, c);
      (Closing(ts, ports.0, {";", "endmodule"}), if Is(ts[c], "(") then [ports.1] else [])
  }

  function StatementAfter(ts: seq<Token>, i: nat): (r: (nat, seq<Slice>))
    requires i < |ts|
    ensures PartsOk(ts, i, r)
  {
    var part := StatementPart(ts, Next(ts, i));
    (part.0, [part.1])
  }

  function InitialAt(ts: seq<Token>, i: nat): (r: (nat, seq<Slice>))
    requires i < |ts|
    ensures PartsOk(ts, i, r)
  {
    var part := BlockPart(ts, Next(ts, i));
    (part.0, [part.1])
  }

  function OwnStatementAt(ts: seq<Token>, i: nat): (r: (nat, seq<Slice>))
    requires i + 1 < |ts| && (Declares(ts[i]) || SetsParameter(ts[i]))
    ensures PartsOk(ts, i, r)
  {
    (OwnStatementEnd(ts, i), [StatementPart(ts, i).1])
  }

  /** The kind of the item that starts at i, in the order the kinds are tried. */
  function KindAt(ts: seq<Token>, i: nat, names: Names): (kind: ItemKind)
    requires i < |ts|
    ensures kind == Declaration ==> Declares(ts[i])
    ensures kind == Parameters ==> SetsParameter(ts[i])
  {
    var t := ts[i];
    if Declares(t) then Declaration
    else if Is(t, "typedef") then Typedef
    else if Is(t, "import") then Import
    else if SetsParameter(t) then Parameters
    else if Is(t, "generate") then Generate
    else if Is(t, "function") then Function
    else if Is(t, "task") then Task
    else if Is(t, "assign") then Assign
    else if OneOf(t, {"always", "always_comb", "always_ff", "always_latch"}) then Always
    else if Is(t, "initial") then Initial
    else if OneOf(t, UNSUPPORTED) then Unsupported
    else if LooksLikeInterfaceUse(ts, i, names) then InterfaceUse
    else if LooksLikeTypedDeclaration(ts, i, names) then TypedDeclaration
    else if LooksLikeInstance(ts, i) then InstanceUse
    else if OneOf(t, {";", ","}) then Separator
    else Stray
  }

  function PartsAt(ts: seq<Token>, i: nat, kind: ItemKind): (r: (nat, seq<Slice>))
    requires i + 1 < |ts|
    requires (kind == Declaration ==> Declares(ts[i])) && (kind == Parameters ==> SetsParameter(ts[i]))
    ensures PartsOk(ts, i, r)
  {
    match kind
    case Declaration => OwnStatementAt(ts, i)
    case Parameters => OwnStatementAt(ts, i)
    case Typedef => StatementAfter(ts, i)
    case Import => (ImportEnd(ts, i), [])
    case Generate => GenerateAt(ts, i)
    case Function => SubroutineAt(ts, i, "function", "endfunction")
    case Task => SubroutineAt(ts, i, "task", "endtask")
    case Assign => StatementAfter(ts, i)
    case Always => AlwaysAt(ts, i)
    case Initial => InitialAt(ts, i)
    case Unsupported => (UnsupportedEnd(ts, i, ts[i].value), [])
    case InterfaceUse => (InterfaceUseEnd(ts, i), [])
    case TypedDeclaration => TypedDeclarationAt(ts, i)
    case InstanceUse => InstanceAt(ts, i)
    case Separator => (i + 1, [])
    case Stray => (i + 1, [])
  }

  function ItemAt(ts: seq<Token>, i: nat, names: Names): (item: Item)
    requires i + 1 < |ts|
    ensures item.start == i < item.end < |ts|
  {
    var kind := KindAt(ts, i, names);
    var (end, parts) := PartsAt(ts, i, kind);
    Item(kind, i, end, parts)
  }

  function NamesAfter(item: Item, names: Names): Names {
    if item.kind == Typedef && |item.parts| == 1 then WithTypedef(names, item.parts[0]) else names
  }

  /** The items up to an endmodule or eof. */
  function BodyFrom(ts: seq<Token>, i: nat, names: Names): (r: (seq<Item>, nat, Names))
    requires i < |ts|
    ensures i <= r.1 < |ts| && (r.1 == |ts| - 1 || Is(ts[r.1], "endmodule"))
    decreases |ts| - i
  {
    if i == |ts| - 1 || Is(ts[i], "endmodule") then ([], i, names)
    else
      var item := ItemAt(ts, i, names);
      var (items, end, after) := BodyFrom(ts, item.end, NamesAfter(item, names));
      ([item] + items, end, after)
  }

  /** Parameters and ports, up to the semicolon. */
  function HeaderEnd(ts: seq<Token>, i: nat): (r: nat)
    requires i < |ts|
    ensures i <= r < |ts|
  {
    var a := if Is(ts[i], "#") then GroupPart(ts, Next(ts, i)).0 else i;
    Closing(ts, GroupPart(ts, a).0, {";", "endmodule"})
  }

  function ModuleAt(ts: seq<Token>, i: nat, names: Names): (r: (Option<Module>, nat, Names))
    requires i < |ts|
    ensures Next(ts, i) <= r.1 < |ts|
  {
    var a := Next(ts, i);
    if !Named(ts, a) then (None, Past(ts, SkipTo(ts, a, {"endmodule"}), "endmodule"), names)
    else
      var start := HeaderEnd(ts, Next(ts, a));
      var (items, end, after) := BodyFrom(ts, start, names);
      (Some(Module(ts[a].value, start, end, ts[start..end], Is(ts[end], "endmodule"), items)),
       Past(ts, end, "endmodule"), after)
  }

  function SectionAt(ts: seq<Token>, i: nat, names: Names): (r: (Section, Names))
    requires i + 1 < |ts|
    ensures r.0.start == i < r.0.end < |ts|
  {
    var t := ts[i];
    if Is(t, "module") then
      var (m, end, after) := ModuleAt(ts, i, names);
      (Section(if m.Some? then ModuleText(m.value) else NamelessModule, i, end), after)
    else if Is(t, "package") then
      var (end, after) := PackageAt(ts, i, names);
      (Section(Package, i, end), after)
    else if Is(t, "interface") then
      var (end, after) := InterfaceAt(ts, i, names);
      (Section(Interface, i, end), after)
    else if Is(t, "import") then (Section(ImportText, i, ImportEnd(ts, i)), names)
    else if OneOf(t, UNSUPPORTED) then (Section(UnsupportedText, i, UnsupportedEnd(ts, i, t.value)), names)
    else (Section(StrayText, i, i + 1), names)
  }

  /** The whole token list. */
  function ParseFrom(ts: seq<Token>, i: nat, names: Names): seq<Section>
    requires i < |ts|
    decreases |ts| - i
  {
    if i == |ts| - 1 then []
    else
      var (section, after) := SectionAt(ts, i, names);
      [section] + ParseFrom(ts, section.end, after)
  }
}
