/** The signal dependency graph of a module: its construction from continuous
    assignments and combinational blocks, and what its edges mean. */
module DependencyGraph {
  import opened Tokens
  import opened Brackets
  import opened Graphs

  datatype Assignment = Assignment(target: Name, exprTokens: seq<Token>, span: Token, context: string)

  datatype AlwaysBlock = AlwaysBlock(
    kind: string, sensitivityTokens: seq<Token>, bodyTokens: seq<Token>, assignments: seq<Assignment>) {

    predicate IsSequential() {
      kind == "always_ff" || exists t :: t in sensitivityTokens && (t.value == "posedge" || t.value == "negedge")
    }

    predicate IsCombinational() {
      if kind == "always_comb" || kind == "always_latch" then true
      else if kind != "always" then false
      else !IsSequential()
    }
  }

  /** A parsed module; of its symbol tables only the names matter here. */
  datatype Module = Module(
    name: string, span: Token, ports: set<Name>, declarations: set<Name>, parameters: set<Name>,
    continuousAssigns: seq<Assignment>, alwaysBlocks: seq<AlwaysBlock>) {

    function Symbols(): set<Name> {
      ports + declarations + parameters
    }

    function SignalNames(): set<Name> {
      (ports + declarations) - parameters
    }
  }

  function Identifiers(tokens: seq<Token>): set<Name> {
    set t | t in tokens && t.kind.Identifier? :: Name(t.value)
  }

  predicate IsControl(t: Token) {
    t.value == "if" || t.value == "case" || t.value == "casez" || t.value == "casex"
  }

  /** A control keyword at position i with an opening parenthesis after it. */
  predicate ControlAt(tokens: seq<Token>, i: nat) {
    i + 1 < |tokens| && IsControl(tokens[i]) && tokens[i + 1].value == "("
  }

  /** The identifiers of the condition opened after position i. */
  ghost function Condition(tokens: seq<Token>, i: nat): set<Name> {
    Identifiers(Group(tokens, i + 1, "(", ")").0)
  }

  /** The identifiers in the condition of some control keyword at or after a position. */
  ghost function ConditionNames(tokens: seq<Token>, from: nat): set<Name> {
    set i, x | from <= i < |tokens| && ControlAt(tokens, i) && x in Condition(tokens, i) :: x
  }

  /** The condition opened inside another condition adds no identifiers. */
  lemma NestedConditionAddsNothing(tokens: seq<Token>, i: nat, k: nat)
    requires ControlAt(tokens, i) && i < k && ControlAt(tokens, k)
    requires var end := Group(tokens, i + 1, "(", ")").1; end.Some? ==> k < end.value
    ensures Condition(tokens, k) <= Condition(tokens, i)
  {
    var outer, inner := Group(tokens, i + 1, "(", ")"), Group(tokens, k + 1, "(", ")");
    assert outer.1.Some? ==> tokens[outer.1.value].value == ")";
    assert k != i + 1;
    InnerGroupNested(tokens, i + 2, 1, k + 1, "(", ")");
    forall t | t in inner.0
      ensures t in outer.0
    {
      var j :| 0 <= j < |inner.0| && inner.0[j] == t;
      assert outer.0[k + 2 + j - (i + 2)] == tokens[k + 2 + j] == t;
    }
  }

  /** Skipping from a keyword past its matched condition. */
  lemma SkipMatched(tokens: seq<Token>, i: nat, end: nat)
    requires ControlAt(tokens, i) && Group(tokens, i + 1, "(", ")").1 == Some(end)
    ensures ConditionNames(tokens, i) == Condition(tokens, i) + ConditionNames(tokens, end + 1)
  {
    forall k, x | i <= k <= end && ControlAt(tokens, k) && x in Condition(tokens, k)
      ensures x in Condition(tokens, i)
    {
      assert tokens[end].value == ")";
      if k > i {
        NestedConditionAddsNothing(tokens, i, k);
      }
    }
  }

  /** After an unmatched condition everything to the end has been taken. */
  lemma SkipUnmatched(tokens: seq<Token>, i: nat)
    requires ControlAt(tokens, i) && Group(tokens, i + 1, "(", ")").1 == None
    ensures ConditionNames(tokens, i) == Condition(tokens, i) + ConditionNames(tokens, i + 2)
  {
    assert !ControlAt(tokens, i + 1);
    forall k, x | i <= k < |tokens| && ControlAt(tokens, k) && x in Condition(tokens, k)
      ensures x in Condition(tokens, i)
    {
      if k > i {
        NestedConditionAddsNothing(tokens, i, k);
      }
    }
  }

  lemma NoControlHere(tokens: seq<Token>, i: nat)
    requires i < |tokens| && !ControlAt(tokens, i)
    ensures ConditionNames(tokens, i) == ConditionNames(tokens, i + 1)
  {
    hide Condition;
  }

  /** One step of the scan past a control keyword. */
  lemma ControlStep(tokens: seq<Token>, i: nat)
    requires ControlAt(tokens, i)
    ensures var (group, end) := Group(tokens, i + 1, "(", ")");
      && (end.Some? ==> i < end.value < |tokens|)
      && ConditionNames(tokens, i) ==
           Identifiers(group) + ConditionNames(tokens, if end.Some? then end.value + 1 else i + 2)
  {
    var end := Group(tokens, i + 1, "(", ")").1;
    if end.Some? { SkipMatched(tokens, i, end.value); } else { SkipUnmatched(tokens, i); }
    hide ConditionNames, Identifiers;
  }

  lemma NothingAfterEnd(tokens: seq<Token>, i: nat)
    requires i >= |tokens|
    ensures ConditionNames(tokens, i) == {}
  {
  }

  method ControlConditionIdentifiers(tokens: seq<Token>) returns (result: set<Name>)
    ensures result == ConditionNames(tokens, 0)
  {
    hide ConditionNames, Group, Identifiers;
    result := {};
    var index := 0;
    while index < |tokens|
      invariant 0 <= index <= |tokens|
      invariant ConditionNames(tokens, 0) == result + ConditionNames(tokens, index)
    {
      if !IsControl(tokens[index]) {
        NoControlHere(tokens, index);
        index := index + 1;
        continue;
      }
      var openIndex := index + 1;
      if openIndex < |tokens| && tokens[openIndex].value == "(" {
        ControlStep(tokens, index);
        var group, closeIndex := BalancedGroupCountingOpener(tokens, openIndex, "(", ")");
        result := result + Identifiers(group);
        if closeIndex.Some? {
          index := closeIndex.value + 1;
        } else {
          index := openIndex + 1;
        }
        continue;
      }
      NoControlHere(tokens, index);
      index := index + 1;
    }
    NothingAfterEnd(tokens, index);
  }

  /** One assignment together with the names it depends on. */
  datatype Driver = Driver(assignment: Assignment, sources: set<Name>, kind: string)

  datatype EdgeRecord = EdgeRecord(kind: string, assignment: Assignment)

  ghost function ContinuousDrivers(s: seq<Assignment>): seq<Driver> {
    seq(|s|, i requires 0 <= i < |s| => Driver(s[i], Identifiers(s[i].exprTokens), "continuous_assign"))
  }

  ghost function BlockDrivers(b: AlwaysBlock): seq<Driver> {
    if b.IsCombinational() then
      seq(|b.assignments|, i requires 0 <= i < |b.assignments| =>
        Driver(b.assignments[i], Identifiers(b.assignments[i].exprTokens) + ConditionNames(b.bodyTokens, 0), b.kind))
    else []
  }

  ghost function BlocksDrivers(bs: seq<AlwaysBlock>): seq<Driver> {
    if bs == [] then [] else BlocksDrivers(bs[..|bs| - 1]) + BlockDrivers(bs[|bs| - 1])
  }

  /** The assignments that contribute edges, in source order. */
  ghost function Drivers(m: Module): seq<Driver> {
    ContinuousDrivers(m.continuousAssigns) + BlocksDrivers(m.alwaysBlocks)
  }

  lemma BlocksDriversStep(bs: seq<AlwaysBlock>, i: nat, ds: seq<Driver>)
    requires i < |bs|
    ensures ds + BlocksDrivers(bs[..i + 1]) == ds + BlocksDrivers(bs[..i]) + BlockDrivers(bs[i])
    ensures !bs[i].IsCombinational() ==> ds + BlocksDrivers(bs[..i + 1]) == ds + BlocksDrivers(bs[..i])
  {
    assert bs[..i + 1][..i] == bs[..i];
  }

  predicate Contributes(signals: set<Name>, d: Driver, t: Name, s: Name) {
    d.assignment.target == t && s in d.sources && t in signals && s in signals
  }

  /** The records of an edge: one for each contributing assignment, in order. */
  ghost function RecordsOf(signals: set<Name>, ds: seq<Driver>, t: Name, s: Name): seq<EdgeRecord> {
    if ds == [] then []
    else
      var d := ds[|ds| - 1];
      RecordsOf(signals, ds[..|ds| - 1], t, s) +
        if Contributes(signals, d, t, s) then [EdgeRecord(d.kind, d.assignment)] else []
  }

  function RecordAt(records: map<(Name, Name), seq<EdgeRecord>>, t: Name, s: Name): seq<EdgeRecord> {
    if (t, s) in records then records[(t, s)] else []
  }

  /** The graph and the record table hold exactly the edges of a driver list. */
  ghost predicate GraphOfDrivers(
    signals: set<Name>, graph: Graph, records: map<(Name, Name), seq<EdgeRecord>>, ds: seq<Driver>)
  {
    && (forall t, s :: RecordAt(records, t, s) == RecordsOf(signals, ds, t, s))
    && (forall e :: e in records ==> records[e] != [])
    && (forall t, s :: s in Succ(graph, t) <==> RecordAt(records, t, s) != [])
    && (forall t :: t in graph ==> graph[t] != {})
  }

  function WithEdge(graph: Graph, t: Name, s: Name): Graph {
    graph[t := Succ(graph, t) + {s}]
  }

  function WithRecord(records: map<(Name, Name), seq<EdgeRecord>>, t: Name, s: Name, r: EdgeRecord):
      map<(Name, Name), seq<EdgeRecord>>
  {
    records[(t, s) := RecordAt(records, t, s) + [r]]
  }

  lemma NoDriverNoRecords(signals: set<Name>, graph: Graph, records: map<(Name, Name), seq<EdgeRecord>>,
      ds: seq<Driver>, a: Assignment, kind: string)
    requires GraphOfDrivers(signals, graph, records, ds)
    ensures GraphOfDrivers(signals, graph, records, ds + [Driver(a, {}, kind)])
  {
    assert (ds + [Driver(a, {}, kind)])[..|ds|] == ds;
    assert forall t, s :: RecordsOf(signals, ds + [Driver(a, {}, kind)], t, s) == RecordsOf(signals, ds, t, s);
  }

  /** What one more source adds to the records of a pair. */
  lemma RecordsOfOneMore(signals: set<Name>, ds: seq<Driver>, a: Assignment, done: set<Name>, source: Name,
      kind: string, t: Name, s: Name)
    requires source !in done
    ensures RecordsOf(signals, ds + [Driver(a, done + {source}, kind)], t, s) ==
            RecordsOf(signals, ds + [Driver(a, done, kind)], t, s)
            + (if t == a.target && s == source && t in signals && s in signals then [EdgeRecord(kind, a)] else [])
  {
    assert (ds + [Driver(a, done, kind)])[..|ds|] == ds;
    assert (ds + [Driver(a, done + {source}, kind)])[..|ds|] == ds;
  }

  lemma SameRecords(signals: set<Name>, graph: Graph, records: map<(Name, Name), seq<EdgeRecord>>, ds: seq<Driver>,
      more: seq<Driver>)
    requires GraphOfDrivers(signals, graph, records, ds)
    requires forall t, s :: RecordsOf(signals, more, t, s) == RecordsOf(signals, ds, t, s) + []
    ensures GraphOfDrivers(signals, graph, records, more)
  {
    hide RecordsOf;
  }

  lemma OneMoreRecord(signals: set<Name>, graph: Graph, records: map<(Name, Name), seq<EdgeRecord>>, ds: seq<Driver>,
      more: seq<Driver>, target: Name, source: Name, r: EdgeRecord)
    requires GraphOfDrivers(signals, graph, records, ds)
    requires forall t, s ::
      RecordsOf(signals, more, t, s) == RecordsOf(signals, ds, t, s) + if t == target && s == source then [r] else []
    ensures GraphOfDrivers(signals, WithEdge(graph, target, source), WithRecord(records, target, source, r), more)
  {
    hide RecordsOf;
    var (graph', records') := (WithEdge(graph, target, source), WithRecord(records, target, source, r));
    forall t, s
      ensures RecordAt(records', t, s) == RecordsOf(signals, more, t, s)
      ensures s in Succ(graph', t) <==> RecordAt(records', t, s) != []
    {
      assert RecordAt(records, t, s) == RecordsOf(signals, ds, t, s);
      assert s in Succ(graph, t) <==> RecordAt(records, t, s) != [];
    }
  }

  lemma OneMoreSource(signals: set<Name>, graph: Graph, records: map<(Name, Name), seq<EdgeRecord>>, ds: seq<Driver>,
      a: Assignment, done: set<Name>, source: Name, kind: string)
    requires source !in done
    requires GraphOfDrivers(signals, graph, records, ds + [Driver(a, done, kind)])
    ensures var ds' := ds + [Driver(a, done + {source}, kind)];
      if a.target in signals && source in signals
      then GraphOfDrivers(signals, WithEdge(graph, a.target, source),
        WithRecord(records, a.target, source, EdgeRecord(kind, a)), ds')
      else GraphOfDrivers(signals, graph, records, ds')
  {
    hide RecordsOf, GraphOfDrivers, WithEdge, WithRecord;
    forall t, s {
      RecordsOfOneMore(signals, ds, a, done, source, kind, t, s);
    }
    var (before, after) := (ds + [Driver(a, done, kind)], ds + [Driver(a, done + {source}, kind)]);
    if a.target in signals && source in signals {
      OneMoreRecord(signals, graph, records, before, after, a.target, source, EdgeRecord(kind, a));
    } else {
      SameRecords(signals, graph, records, before, after);
    }
  }

  lemma EmptyGraphOfDrivers(signals: set<Name>)
    ensures GraphOfDrivers(signals, map[], map[], [])
  {
  }

  /** The second guard of AddEdge never rejects what the first lets through. */
  lemma SymbolsHoldSignals(m: Module)
    ensures m.SignalNames() <= m.Symbols()
  {
  }

  class Builder {
    const signals: set<Name>
    const symbols: set<Name>
    var graph: Graph
    var records: map<(Name, Name), seq<EdgeRecord>>

    constructor (m: Module)
      ensures signals == m.SignalNames() && symbols == m.Symbols() && graph == map[] && records == map[]
    {
      signals, symbols, graph, records := m.SignalNames(), m.Symbols(), map[], map[];
    }

    ghost predicate Represents(ds: seq<Driver>)
      reads this
    {
      GraphOfDrivers(signals, graph, records, ds)
    }

    method AddEdge(target: Name, source: Name, assignment: Assignment, kind: string)
      requires signals <= symbols
      modifies this
      ensures if target in signals && source in signals
        then graph == WithEdge(old(graph), target, source)
          && records == WithRecord(old(records), target, source, EdgeRecord(kind, assignment))
        else graph == old(graph) && records == old(records)
    {
      if target !in signals || source !in signals {
        return;
      }
      if target !in symbols || source !in symbols {
        return;
      }
      graph := graph[target := Succ(graph, target) + {source}];
      var earlier := if (target, source) in records then records[(target, source)] else [];
      records := records[(target, source) := earlier + [EdgeRecord(kind, assignment)]];
    }

    /** One assignment, its sources taken in any order. */
    method AddSources(assignment: Assignment, sources: set<Name>, kind: string, ghost ds: seq<Driver>)
      requires signals <= symbols && Represents(ds)
      modifies this
      ensures Represents(ds + [Driver(assignment, sources, kind)])
    {
      hide GraphOfDrivers;
      var todo := sources;
      NoDriverNoRecords(signals, graph, records, ds, assignment, kind);
      assert sources - todo == {};
      while todo != {}
        invariant todo <= sources && Represents(ds + [Driver(assignment, sources - todo, kind)])
        decreases todo
      {
        var source :| source in todo;
        OneMoreSource(signals, graph, records, ds, assignment, sources - todo, source, kind);
        assert sources - (todo - {source}) == (sources - todo) + {source};
        todo := todo - {source};
        AddEdge(assignment.target, source, assignment, kind);
      }
      assert sources - todo == sources;
    }

    method Build(m: Module)
      requires graph == map[] && records == map[] && signals == m.SignalNames() && symbols == m.Symbols()
      modifies this
      ensures Represents(Drivers(m))
    {
      SymbolsHoldSignals(m);
      EmptyGraphOfDrivers(signals);
      hide GraphOfDrivers;
      AddContinuous(m.continuousAssigns);
      AddBlocks(m.alwaysBlocks, ContinuousDrivers(m.continuousAssigns));
    }

    method AddBlocks(blocks: seq<AlwaysBlock>, ghost ds: seq<Driver>)
      requires signals <= symbols && Represents(ds)
      modifies this
      ensures Represents(ds + BlocksDrivers(blocks))
    {
      hide GraphOfDrivers;
      assert ds + BlocksDrivers(blocks[..0]) == ds;
      for i := 0 to |blocks|
        invariant Represents(ds + BlocksDrivers(blocks[..i]))
      {
        BlocksDriversStep(blocks, i, ds);
        if !blocks[i].IsCombinational() {
          continue;
        }
        AddBlock(blocks[i], ds + BlocksDrivers(blocks[..i]));
      }
      assert blocks[..|blocks|] == blocks;
    }

    method AddContinuous(assigns: seq<Assignment>)
      requires signals <= symbols && Represents([])
      modifies this
      ensures Represents(ContinuousDrivers(assigns))
    {
      hide GraphOfDrivers;
      assert ContinuousDrivers(assigns[..0]) == [];
      for i := 0 to |assigns|
        invariant Represents(ContinuousDrivers(assigns[..i]))
      {
        var sources := Identifiers(assigns[i].exprTokens);
        AddSources(assigns[i], sources, "continuous_assign", ContinuousDrivers(assigns[..i]));
        assert ContinuousDrivers(assigns[..i + 1]) ==
          ContinuousDrivers(assigns[..i]) + [Driver(assigns[i], sources, "continuous_assign")];
      }
      assert assigns[..|assigns|] == assigns;
    }

    method AddBlock(block: AlwaysBlock, ghost ds: seq<Driver>)
      requires signals <= symbols && block.IsCombinational() && Represents(ds)
      modifies this
      ensures Represents(ds + BlockDrivers(block))
    {
      hide GraphOfDrivers;
      var controlIds := ControlConditionIdentifiers(block.bodyTokens);
      ghost var added := BlockDrivers(block);
      assert ds + added[..0] == ds;
      for i := 0 to |block.assignments|
        invariant Represents(ds + added[..i])
      {
        var assignment := block.assignments[i];
        var sources := Identifiers(assignment.exprTokens) + controlIds;
        AddSources(assignment, sources, block.kind, ds + added[..i]);
        assert ds + added[..i + 1] == ds + added[..i] + [Driver(assignment, sources, block.kind)];
      }
      assert ds + added[..|added|] == ds + added;
    }
  }

  lemma {:induction false} RecordsOfNonempty(signals: set<Name>, ds: seq<Driver>, t: Name, s: Name)
    ensures RecordsOf(signals, ds, t, s) != [] <==> exists d :: d in ds && Contributes(signals, d, t, s)
  {
    if ds != [] {
      RecordsOfNonempty(signals, ds[..|ds| - 1], t, s);
      assert ds == ds[..|ds| - 1] + [ds[|ds| - 1]];
    }
  }

  lemma {:induction false} InBlocksDrivers(bs: seq<AlwaysBlock>, d: Driver)
    ensures d in BlocksDrivers(bs) <==> exists b :: b in bs && d in BlockDrivers(b)
  {
    hide BlockDrivers;
    if bs != [] {
      var front, last := bs[..|bs| - 1], bs[|bs| - 1];
      InBlocksDrivers(front, d);
      assert forall b :: b in bs <==> b in front || b == last;
      assert d in BlocksDrivers(bs) <==> d in BlocksDrivers(front) || d in BlockDrivers(last);
    }
  }

  /** Some continuous assignment to t reads s. */
  ghost predicate ReadContinuously(m: Module, t: Name, s: Name) {
    exists a :: a in m.continuousAssigns && a.target == t && s in Identifiers(a.exprTokens)
  }

  /** Some assignment to t in a combinational block reads s, or s occurs in a
      control condition of that block. */
  ghost predicate ReadInBlock(m: Module, t: Name, s: Name) {
    exists b, a :: b in m.alwaysBlocks && b.IsCombinational() && a in b.assignments && a.target == t
      && s in Identifiers(a.exprTokens) + ConditionNames(b.bodyTokens, 0)
  }

  ghost predicate DependsOn(m: Module, t: Name, s: Name) {
    t in m.SignalNames() && s in m.SignalNames() && (ReadContinuously(m, t, s) || ReadInBlock(m, t, s))
  }

  lemma DriverOfDependence(m: Module, t: Name, s: Name)
    requires DependsOn(m, t, s)
    ensures exists d :: d in Drivers(m) && Contributes(m.SignalNames(), d, t, s)
  {
    if ReadContinuously(m, t, s) {
      var a :| a in m.continuousAssigns && a.target == t && s in Identifiers(a.exprTokens);
      var i :| 0 <= i < |m.continuousAssigns| && m.continuousAssigns[i] == a;
      assert ContinuousDrivers(m.continuousAssigns)[i] in Drivers(m);
    } else {
      var b, a :| b in m.alwaysBlocks && b.IsCombinational() && a in b.assignments && a.target == t
        && s in Identifiers(a.exprTokens) + ConditionNames(b.bodyTokens, 0);
      var i :| 0 <= i < |b.assignments| && b.assignments[i] == a;
      var d := BlockDrivers(b)[i];
      InBlocksDrivers(m.alwaysBlocks, d);
      assert d in Drivers(m);
    }
  }

  lemma DependenceOfDriver(m: Module, d: Driver, t: Name, s: Name)
    requires d in Drivers(m) && Contributes(m.SignalNames(), d, t, s)
    ensures DependsOn(m, t, s)
  {
    if d in ContinuousDrivers(m.continuousAssigns) {
      assert d.assignment in m.continuousAssigns;
    } else {
      InBlocksDrivers(m.alwaysBlocks, d);
      var b :| b in m.alwaysBlocks && d in BlockDrivers(b);
      assert d.assignment in b.assignments;
    }
  }

  /** The meaning of an edge in terms of the module, and every edge has a record. */
  lemma EdgeIffDependsOn(m: Module, graph: Graph, records: map<(Name, Name), seq<EdgeRecord>>, t: Name, s: Name)
    requires GraphOfDrivers(m.SignalNames(), graph, records, Drivers(m))
    ensures s in Succ(graph, t) <==> DependsOn(m, t, s)
    ensures s in Succ(graph, t) <==> (t, s) in records && records[(t, s)] != []
  {
    assert RecordAt(records, t, s) == RecordsOf(m.SignalNames(), Drivers(m), t, s);
    RecordsOfNonempty(m.SignalNames(), Drivers(m), t, s);
    if DependsOn(m, t, s) {
      DriverOfDependence(m, t, s);
    }
    if s in Succ(graph, t) {
      var d :| d in Drivers(m) && Contributes(m.SignalNames(), d, t, s);
      DependenceOfDriver(m, d, t, s);
    }
  }

  /** No assignment outside the sequential blocks targets t. */
  ghost predicate AssignedOnlySequentially(m: Module, t: Name) {
    && (forall a :: a in m.continuousAssigns ==> a.target != t)
    && (forall b, a :: b in m.alwaysBlocks && b.IsCombinational() && a in b.assignments ==> a.target != t)
  }

  /** The dependency graph, read off the module. */
  ghost function GraphOf(m: Module): Graph {
    map t | t in m.SignalNames() && (exists s :: DependsOn(m, t, s)) ::
      (set s | s in m.SignalNames() && DependsOn(m, t, s))
  }

  /** The record table, read off the module. */
  ghost function RecordsOfModule(m: Module): map<(Name, Name), seq<EdgeRecord>> {
    map t, s | t in m.SignalNames() && s in m.SignalNames() && DependsOn(m, t, s) ::
      (t, s) := RecordsOf(m.SignalNames(), Drivers(m), t, s)
  }

  lemma BuiltGraphIsGraphOf(m: Module, graph: Graph, records: map<(Name, Name), seq<EdgeRecord>>)
    requires GraphOfDrivers(m.SignalNames(), graph, records, Drivers(m))
    ensures graph == GraphOf(m)
  {
    hide DependsOn, RecordsOf;
    forall t, s
      ensures s in Succ(graph, t) <==> DependsOn(m, t, s)
      ensures DependsOn(m, t, s) ==> t in m.SignalNames() && s in m.SignalNames()
    {
      EdgeIffDependsOn(m, graph, records, t, s);
      DependenceIsDeclared(m, t, s);
    }
    hide GraphOfDrivers;
    forall t
      ensures t in graph <==> t in GraphOf(m)
      ensures t in graph ==> graph[t] == GraphOf(m)[t]
    {
      NoEmptyRow(m.SignalNames(), graph, records, Drivers(m), t);
      forall s
        ensures s in Succ(graph, t) <==> s in m.SignalNames() && DependsOn(m, t, s)
      {
      }
    }
  }

  lemma NoEmptyRow(signals: set<Name>, graph: Graph, records: map<(Name, Name), seq<EdgeRecord>>, ds: seq<Driver>,
      t: Name)
    requires GraphOfDrivers(signals, graph, records, ds)
    ensures t in graph <==> exists s :: s in Succ(graph, t)
  {
    if t in graph {
      var s :| s in graph[t];
      assert s in Succ(graph, t);
    }
  }

  lemma BuiltRecordsAreRecordsOfModule(m: Module, graph: Graph, records: map<(Name, Name), seq<EdgeRecord>>)
    requires GraphOfDrivers(m.SignalNames(), graph, records, Drivers(m))
    ensures records == RecordsOfModule(m)
  {
    hide DependsOn, RecordsOf;
    forall t, s
      ensures (t, s) in records <==> t in m.SignalNames() && s in m.SignalNames() && DependsOn(m, t, s)
      ensures RecordAt(records, t, s) == RecordsOf(m.SignalNames(), Drivers(m), t, s)
    {
      EdgeIffDependsOn(m, graph, records, t, s);
      DependenceIsDeclared(m, t, s);
    }
    hide GraphOfDrivers;
    forall e
      ensures e in records <==> e in RecordsOfModule(m)
      ensures e in records ==> records[e] == RecordsOfModule(m)[e]
    {
      assert e == (e.0, e.1);
      assert RecordAt(records, e.0, e.1) == RecordsOf(m.SignalNames(), Drivers(m), e.0, e.1);
    }
  }

  lemma DependenceIsDeclared(m: Module, t: Name, s: Name)
    ensures DependsOn(m, t, s) ==> t in m.SignalNames() && s in m.SignalNames()
  {
  }

  method CombinationalDependencyGraph(m: Module) returns (graph: Graph, records: map<(Name, Name), seq<EdgeRecord>>)
    ensures graph == GraphOf(m) && records == RecordsOfModule(m)
  {
    var builder := new Builder(m);
    builder.Build(m);
    graph, records := builder.graph, builder.records;
    BuiltGraphIsGraphOf(m, graph, records);
    BuiltRecordsAreRecordsOfModule(m, graph, records);
  }

  /** What an edge means in terms of the module. */
  lemma EdgeMeaning(m: Module, t: Name, s: Name)
    ensures s in Succ(GraphOf(m), t) <==> DependsOn(m, t, s)
  {
    hide ReadContinuously, ReadInBlock;
  }

  /** A signal assigned only in sequential blocks depends on nothing, so it is on no cycle. */
  lemma RegistersBreakCycles(m: Module, t: Name)
    requires AssignedOnlySequentially(m, t)
    ensures Succ(GraphOf(m), t) == {} && !OnCycle(GraphOf(m), t)
  {
    forall s
      ensures s !in Succ(GraphOf(m), t)
    {
      EdgeMeaning(m, t, s);
    }
  }
}
