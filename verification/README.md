# A verified model of the sta_lite analyses

sta_lite checks Verilog sources: a preprocessor and a lexer turn files into
tokens, a recovering parser cuts the tokens into modules and items, and rules
over the result look for width mismatches, combinational loops and other risks.
A graphical front end runs the external tools in background jobs that can be
stopped. This project models the parts of that system whose correctness is not
visible from any single function, and proves what they are for.

| files | what they model |
|---|---|
| `Graphs`, `Ordering`, `Tarjan`, `CyclePath`, `DependencyGraph`, `LoopRule`, `LoopReports`, `Registers` | the combinational-loop rule: signal dependency graph, strongly connected components, printed cycle, reports |
| `Brackets` | bracket matching and top-level splitting, written several times in the repository |
| `Literals`, `NumberText`, `Width`, `WidthTree`, `WidthChains`, `WidthCommas`, `WidthRaises`, `WidthDangling`, `WidthRows`, `WidthBraces`, `WidthTheorem`, `WidthSplits`, `WidthConcat`, `WidthSums`, `WidthRules` | expression widths inferred from flat token lists |
| `Parameters`, `ParameterPasses`, `ParameterOrder`, `ParameterArithmetic` | the evaluation of module parameters by repeated passes over value texts |
| `Tokens`, `Lexer`, `LexerLoop`, `LexerPositions`, `LexerRoundTrip`, `LexerKinds`, `Vocabulary` | the lexer |
| `Comments`, `Conditionals`, `ConditionalGroups`, `Preprocess`, `PreprocessMeaning`, `PreprocessTrace`, `PreprocessBranches` | comment removal, conditional compilation (section 19.4 of IEEE 1364-2005) and recursive include |
| `ParserSpec`, `ParserGrammar`, `ParserCursor`, `ParserMeaning`, `ParserRecovery`, `ParserTexts`, `ParserStatements`, `ParserPrint`, `ParserFile` | the parser: how its methods move one cursor, with error recovery |
| `Cancellation`, `CancellationRuns`, `CancellationOutcomes` | the process controller and the two-command analysis that a stop request interrupts |
| `Jobs`, `JobReaders`, `JobStops` | background jobs: status, snapshots, event queue, stop requests |
| `Correlation` | grouping of review findings |

Code that works by changing state is modelled by methods and classes with the
same fields and loops, each held to a specification function; the properties are
lemmas about those functions. Concurrent code is modelled as a state machine
whose steps are the single reads and writes of each thread, and the properties
hold of every run. Iteration over a Python set is a choice of any order.

Where the code and what it is meant for part ways, the code is kept and the
difference is proved:

- the cycle printed with a loop report repeats its last node when the walk runs
  into an inner node, so its last arrow is an edge only if that node has an edge to
  itself (`CyclePath.ArrowsAreEdges`, `CyclePath.PrintedPathNeedNotBeAWalk`);
- the widths of a concatenation are never added up, because commas are removed
  before the split at commas and the elements are read as one row. One element gets
  its width; several get none, unless the last is a bare ternary: then they get the
  widest of the branches read, which is less than their sum unless only one element
  has any bits (`WidthConcat.ConcatWidth`, `WidthRows.RowHasWidthIff`,
  `WidthSums.ConcatIsSumIff`, `WidthConcat.TernaryHidesElement`).
  A replication `{n{...}}` has no width (`WidthConcat.ReplicationHasNoWidth`);
- an `if` whose first branch is a begin-end block ends with that block: its `else` is
  not part of the always block and is lost as stray items. The exact condition for a
  body to be read whole is `ParserStatements.CompoundReadWholeIff`
  (`ParserStatements.ElseAfterBlockIsLost`, `ParserStatements.StatementStops`);
- an instance with parameters is recognised only if they start with an identifier, so
  `m #(.W(8)) u (...)` and `m #(8) u (...)` are not (`ParserPrint.ParamsDecide`);
- an operand that is nothing but empty parentheses makes the inference fail, and
  nothing else does (`WidthRaises.RaisesIff`, `WidthRaises.NoPairNoRaise`,
  `WidthRaises.SimpleRaisesIff`);
- known parameter names are replaced as words of the value text, and the quote of a
  sized literal ends a word. So a parameter `hFF` takes the value of `8'hFF` away once
  it is known, and the order of the declarations can decide which values are found
  (`ParameterOrder.LiteralWordClash`, `Parameters.ValueKeptIff`). A clash never gives
  a wrong value (`ParameterOrder.ValuesAreSound`), and order does not matter exactly
  when every clash is between a parameter and one it is computed from
  (`ParameterOrder.OrderIsFreeIff`). A parameter named `True` or `False` is read as
  the truth value until it is known, so there the order can change a value
  (`ParameterOrder.TruthClash`);
- the block-comment state is shared between an including and an included file
  (`PreprocessMeaning.OpenCommentHidesFile`), so what is read of a file after an
  include line on which a comment opens depends on whether a file was entered there
  (`PreprocessMeaning.SeenIsStripped`, `PreprocessMeaning.SeenDiffersIff`,
  `PreprocessMeaning.OpenCommentAtIncludeBreaksReading`);
- a job whose failed run leaves an unreadable summary file ends without a
  terminal event (`Jobs.JobCanEndSilently`, `Jobs.OneTerminalEvent`), and of several
  event readers of one job all but one wait for ever
  (`JobReaders.AtMostOneReaderLeaves`);
- the second guard of the edge builder is redundant
  (`DependencyGraph.SymbolsHoldSignals`).

## Model

| member | source | states |
|---|---|---|
| `Tarjan.TarjanScc` | sta_lite/risk/builtin_rules.py:1241-1279 | for every finite graph and every order of visiting neighbours the returned lists partition the nodes, two nodes share a list exactly when each reaches the other, and a list is emitted only after everything it reaches |
| `Tarjan.SccSearch.StrongConnect` | sta_lite/risk/builtin_rules.py:1252-1274 | what one recursive call keeps and leaves behind: older stack nodes reach newer ones, emitted lists are closed components, and the lowlink bounds every edge from what the call left on the stack |
| `Tarjan.SccSearch.Open` | sta_lite/risk/builtin_rules.py:1254-1258 | numbering and pushing a node keeps the search invariant |
| `Tarjan.SccSearch.EmitComponent` | sta_lite/risk/builtin_rules.py:1265-1274 | when lowlink and index agree, what lies above the node is popped and emitted as one component, and the invariant holds of the rest |
| `Tarjan.SccSearch.PopDownTo` | sta_lite/risk/builtin_rules.py:1267-1273 | the pop loop removes exactly the part of the stack from the node up, newest first |
| `Tarjan.SccSearch.Run` | sta_lite/risk/builtin_rules.py:1276-1279 | the outer loop visits every node and leaves the stack empty |
| `Tarjan.PushKeepsShape` | sta_lite/risk/builtin_rules.py:1254-1258 | the stack invariant survives opening a call |
| `Tarjan.ReturnKeepsShape` | sta_lite/risk/builtin_rules.py:1265-1266 | a call that returns with a smaller lowlink leaves its node above an open node it reaches |
| `Tarjan.TopIsClosed` | sta_lite/risk/builtin_rules.py:1265-1274 | at a root, the part of the stack from the root up together with the emitted nodes has no edge leaving it |
| `Tarjan.TopIsScc` | sta_lite/risk/builtin_rules.py:1265-1274 | at a root, the part of the stack from the root up is exactly one strongly connected component |
| `Tarjan.PopKeepsShape` | sta_lite/risk/builtin_rules.py:1267-1273 | popping that component keeps the stack invariant |
| `Tarjan.EmitKeepsEmitted` | sta_lite/risk/builtin_rules.py:1274 | appending the component keeps the emitted lists disjoint, whole and in reverse topological order |
| `Tarjan.ReachesNoLater` | sta_lite/risk/builtin_rules.py:1252-1279 | whatever an emitted component reaches was emitted with it or before it |
| `CyclePath.CyclePath` | sta_lite/risk/builtin_rules.py:1282-1303 | the loop computes the greedy walk from the least member, for any member list and graph |
| `CyclePath.CyclePathShape` | sta_lite/risk/builtin_rules.py:1290-1303 | on a component of two or more nodes the walk ends, never takes the fallback, and is either a closed walk with distinct inner nodes or an edge walk into one of its own inner nodes with that node printed twice |
| `CyclePath.ArrowsAreEdges` | sta_lite/risk/builtin_rules.py:1282-1303 | every printed arrow is an edge exactly when the greedy walk comes back to the least member, or the node at which it first meets itself has an edge to itself |
| `CyclePath.ClosedWalkIff` | sta_lite/risk/builtin_rules.py:1290-1303 | the first return (line 1297) is taken exactly when the greedy walk from the least member comes back to it |
| `CyclePath.OrbitStaysInLasso` | sta_lite/risk/builtin_rules.py:1290-1302 | once the greedy walk has run into an inner node it stays among the inner nodes of that loop |
| `CyclePath.PrintedPathNeedNotBeAWalk` | sta_lite/risk/builtin_rules.py:1298-1300 | a component on which the second return prints an arrow that is no edge |
| `DependencyGraph.ControlConditionIdentifiers` | sta_lite/risk/builtin_rules.py:1223-1238 | the scan that skips from condition to condition collects the identifiers of every control condition, nested ones included |
| `DependencyGraph.NestedConditionAddsNothing` | sta_lite/risk/builtin_rules.py:1230-1236 | a condition inside another one adds no identifier, so skipping it loses nothing |
| `DependencyGraph.CombinationalDependencyGraph` | sta_lite/risk/builtin_rules.py:1182-1220 | the dict of sets and the record table built edge by edge, with sources taken in any order, are the ones read off the module |
| `DependencyGraph.Builder.AddEdge` | sta_lite/risk/builtin_rules.py:1188-1205 | an edge between two signals is added together with its record; any other call changes nothing |
| `DependencyGraph.Builder.Build` | sta_lite/risk/builtin_rules.py:1207-1218 | continuous assignments, then combinational blocks, contribute their edges in source order |
| `DependencyGraph.EdgeIffDependsOn` | sta_lite/risk/builtin_rules.py:1182-1220 | edge (t, s) exists exactly when both are declared non-parameter signals and some continuous or combinational assignment to t reads s or has s in a control condition of its block; every edge has a record |
| `DependencyGraph.SymbolsHoldSignals` | sta_lite/risk/builtin_rules.py:1189-1192 | the second guard of the edge builder never rejects what the first lets through |
| `DependencyGraph.RegistersBreakCycles` | sta_lite/risk/builtin_rules.py:1211-1213 | a signal assigned only in sequential blocks has no outgoing edge and lies on no cycle |
| `Registers.EdgeSpelled` | sta_lite/risk/builtin_rules.py:1182-1238 | word by word: an edge leads from t to s exactly when both are ports or declarations and no parameters, and t is assigned from s continuously, or in a block without a clock edge that reads s or has it in the parentheses after an if or a case keyword |
| `Registers.BlockKinds` | sta_lite/lint/ast_nodes.py:37-50 | always_comb and always_latch blocks, and always blocks with neither posedge nor negedge in their event control, are combinational; always_ff blocks and always blocks with either word are not |
| `Registers.LevelGivesEdge` | sta_lite/risk/builtin_rules.py:1211-1218 | an assignment in such a combinational block gives an edge to every signal it reads and every signal its block tests |
| `Registers.RecordsSpelled` | sta_lite/risk/builtin_rules.py:1194-1218 | the records of an edge are those of the continuous assignments and then those of the combinational blocks, in source order and with their kinds |
| `LoopRule.ModuleLoops` | sta_lite/risk/builtin_rules.py:404-443 | the reports of a module are its cycles: one whole component each, every node of it on a cycle, and every node on any cycle in exactly one report |
| `LoopRule.ReportComponent` | sta_lite/risk/builtin_rules.py:407-441 | members in order, the path, at most three records of each inner edge in pair order, and the location of the first |
| `LoopRule.CyclicIffOnCycle` | sta_lite/risk/builtin_rules.py:408-411 | the size-or-self-loop test picks exactly the components that lie on a cycle |
| `LoopRule.ReportsIffCyclic` | sta_lite/risk/builtin_rules.py:401-443 | something is reported exactly when the dependency graph has a cycle, and the no-edge fallback with "medium" confidence is never taken |
| `LoopRule.RegistersAreNotReported` | sta_lite/risk/builtin_rules.py:1211-1213 | a signal assigned only in sequential blocks is in no report |
| `Registers.ClockedIsNotReported` | sta_lite/risk/builtin_rules.py:1211-1213 | a signal whose every assignment stands in an always_ff block, or in an always block with posedge or negedge in its event control, is in no report |
| `Registers.SelfAssignmentIsReported` | sta_lite/risk/builtin_rules.py:401-443 | a signal assigned from itself in a combinational block is in a report |
| `LoopReports.ReportPrints` | sta_lite/risk/builtin_rules.py:412-425 | a report prints the first three records, or all if there are fewer, of every edge inside its component, edge by edge in the order of names |
| `LoopReports.ReportPoints` | sta_lite/risk/builtin_rules.py:426-441 | it points at the first record printed; a file, line or column missing there is taken from the module, and a line or column missing there too is 1 |
| `LoopReports.OneNodePath` | sta_lite/risk/builtin_rules.py:1282-1289 | the path of a component of one node is that node twice |
| `LoopRule.CombinationalLoops` | sta_lite/risk/builtin_rules.py:401-443 | the reports of a design are those of its modules one after another |
| `LoopRule.DesignReportsIffLoop` | sta_lite/risk/builtin_rules.py:401-443 | a design has a report exactly when some module has a cycle |
| `Brackets.BalancedGroup` | sta_lite/lint/builtin_rules.py:1147-1168 | the matcher of the lint rules, which stands again in sta_lite/lint/parser.py lines 1088 to 1110, returns the group the matching function gives, matched or not |
| `Brackets.BalancedGroupCountingOpener` | sta_lite/risk/builtin_rules.py:1684-1700 | the differently written matcher of the risk rules returns the same inner tokens and index on every input |
| `Brackets.MatchIsFirstExcess` | sta_lite/lint/builtin_rules.py:1157-1168 | the index is the first position where closers outnumber openers, and there is none exactly when there is no such position |
| `Brackets.InnerGroupNested` | sta_lite/lint/builtin_rules.py:1157-1168 | a group opened inside another closes inside it |
| `Brackets.SplitAtTopLevel` | sta_lite/lint/builtin_rules.py:1108-1123 | the split loop, which stands again in the parser and the risk rules, computes the split function |
| `Brackets.SplitIsExact` | sta_lite/lint/builtin_rules.py:1108-1123 | joining the parts gives the tokens back, and no part has a separator left at top level |
| `Brackets.SplitKeepsBalance` | sta_lite/lint/builtin_rules.py:1108-1123 | a list is balanced exactly when every part is, for every separator that is no bracket, whether brackets are only counted or their kinds told apart |
| `WidthTheorem.WidthIsTreeWidth` | sta_lite/lint/builtin_rules.py:1288-1339 | the token-level inference returns the width of the expression tree, concatenations and replications anywhere in it, for every tree the table assigns to its tokens, and none when the tree has none; it ends because each split is shorter |
| `WidthTheorem.WidthOfChain` | sta_lite/lint/builtin_rules.py:1288-1339 | the same for every list that is operands with ?, : or nothing between them, such as the pieces the splits leave of a ternary: it has the width of the branches that the ternary split finds, else none |
| `WidthTheorem.WidthOfRow` | sta_lite/lint/builtin_rules.py:1288-1339 | the same for expressions side by side: the width of the row they form, such as none for ~b and for several elements whose last is no bare ternary |
| `WidthTheorem.PrintedWidth` | sta_lite/lint/builtin_rules.py:1288-1388 | any tree, printed with the parentheses the precedence table makes necessary and no others, gets the width of the tree, and gets one exactly when its operands are known |
| `WidthTheorem.MinimalFits` | sta_lite/lint/builtin_rules.py:1368-1377 | the minimal print is one the table parses back to the same tree |
| `WidthTheorem.WidthIffKnown` | sta_lite/lint/builtin_rules.py:1302-1326 | a tree has a width exactly when the names and literals looked at have one, every operator has a width rule, and every concatenation has one element or ends in a bare ternary that is read |
| `WidthRules.OperatorRules` | sta_lite/lint/builtin_rules.py:1309-1321 | from the widths its operands get alone, whatever they are: a shift has that of its left operand, a comparison or logical operator one bit, * the sum, and + - & | ^ the larger; / and % give none, nor does an operand without a width |
| `WidthRules.TernaryRule` | sta_lite/lint/builtin_rules.py:1300-1306 | a ternary is as wide as the wider of its branches, and has no width if one of them has none |
| `WidthRules.NameRule` | sta_lite/lint/builtin_rules.py:1270-1285 | a name declared [m:l] has the size of that range, in either direction, a name declared without a range one bit, an undeclared name no width |
| `WidthRules.BasedRule` | sta_lite/lint/builtin_rules.py:1431-1439 | a literal with a quote is as wide as the decimal number before the quote says, whatever stands after it, and has no width without one |
| `WidthRules.DecimalRule` | sta_lite/lint/builtin_rules.py:1440-1443 | a plain decimal number gets the fewest bits that hold it, and at least one |
| `WidthRules.SelectRule` | sta_lite/lint/builtin_rules.py:1328-1338 | a range select has the size of its range, in either direction, and none if a bound is no constant; a bit select is one bit |
| `WidthRules.ReductionRule` | sta_lite/lint/builtin_rules.py:1293-1294 | whatever follows one of the seven reduction operators at the start, the width is one bit |
| `WidthRules.PlainSpelled` | sta_lite/lint/builtin_rules.py:1287-1388 | a token stands for an operand unless it is one of the brackets, ? : and comma, a reduction operator or an operator with a precedence |
| `WidthRules.ThreeOperands` | sta_lite/lint/builtin_rules.py:1367-1388 | a p b q c gets the width of (a p b) q c if q binds as loosely as p or looser, else that of a p (b q c), for the eight levels spelled out |
| `WidthChains.TernaryOfChain` | sta_lite/lint/builtin_rules.py:1352-1364 | the forward scan finds the outermost branches of a chain of ? and :, or nothing when one of them dangles |
| `WidthChains.BinaryOfChain` | sta_lite/lint/builtin_rules.py:1367-1388 | the repeated rightmost scans find the rightmost of the loosest operand roots of a chain |
| `WidthChains.CutWidth` | sta_lite/lint/builtin_rules.py:1300-1322 | when a ternary has a branch of no width, no cut of it at an operator leaves two parts that both have one, unless the operator has no width rule |
| `WidthTree.BinaryFindsRoot` | sta_lite/lint/builtin_rules.py:1367-1388 | the repeated rightmost scans find the root operator of the tree |
| `WidthTree.StripIsCore` | sta_lite/lint/builtin_rules.py:1342-1349 | removing outer groups from the tokens removes exactly the outer parentheses of the tree |
| `WidthSplits.StripOuterGroup` | sta_lite/lint/builtin_rules.py:1342-1349 | the loop computes the stripping function |
| `WidthSplits.SplitTernary` | sta_lite/lint/builtin_rules.py:1352-1364 | the loop with its depth counter finds the first top-level ? and the first top-level : after it |
| `WidthSplits.SplitBinaryExpression` | sta_lite/lint/builtin_rules.py:1367-1388 | the nested loops find the rightmost operator of the first group that has one, never at an end of the list |
| `WidthSplits.GroupIsRole` | sta_lite/lint/builtin_rules.py:1368-1377 | the eight operator groups in their order, each operator in one |
| `WidthConcat.ConcatWidth` | sta_lite/lint/builtin_rules.py:1289-1299 | the width of a brace list with its commas, for every list whose elements are expressions, or several operands side by side as in ~b, with brace lists and replications nested at will: of one expression its width; of several none unless the last is a bare ternary; then the widest of the branches read |
| `WidthConcat.GroupWidth` | sta_lite/lint/builtin_rules.py:1289-1299 | the same for any tokens between braces that are such a row once commas are left out |
| `WidthConcat.WrittenWidth` | sta_lite/lint/builtin_rules.py:1288-1339 | an expression with its commas written out gets the width of its tree |
| `WidthConcat.ReplicationHasNoWidth` | sta_lite/lint/builtin_rules.py:1289-1299 | {n{...}} has no width, whatever is repeated |
| `WidthDangling.DanglingNoWidth` | sta_lite/lint/builtin_rules.py:1294-1299 | a list that leaves a bracket open has no width, so what stands between the first and the last brace of {a} + {b}, read before the operator is looked at, never decides |
| `WidthBraces.InnerDangles` | sta_lite/lint/builtin_rules.py:1294-1299 | whenever an expression or a chain starts with one brace group and ends with another, what stands between those two braces is such a list |
| `WidthRows.RowHasWidthIff` | sta_lite/lint/builtin_rules.py:1289-1299 | two or more elements get a width exactly when the last is a bare ternary that has one and every true branch of the bare ternaries before it has one |
| `WidthSums.ConcatIsSumIff` | sta_lite/lint/builtin_rules.py:1294-1299 | the result is the sum the branch is written to return exactly when there is at most one element; or some element has no width and no other is read in its place; or all elements but one are zero bits wide and of that one the widest branch is read |
| `WidthSums.ReadAgainstSum` | sta_lite/lint/builtin_rules.py:1294-1308 | when all elements have a width and the last is a bare ternary, what is read is at most the sum, and equal to it exactly when only one element counts |
| `WidthSums.RowBelowSum` | sta_lite/lint/builtin_rules.py:1294-1299 | several elements of at least one bit never get their sum: what is read is smaller |
| `WidthConcat.TernaryHidesElement` | sta_lite/lint/builtin_rules.py:1289-1308 | {d, c ? x : y} gets the wider of x and y, whatever d is |
| `WidthConcat.SignIsMinus` | sta_lite/lint/builtin_rules.py:1289-1324 | {a, -b} gets the width of the difference |
| `WidthConcat.ReductionTakesAll` | sta_lite/lint/builtin_rules.py:1289-1299 | a brace list that starts with a reduction operator is one bit wide, whatever follows |
| `WidthCommas.BraceGroup` | sta_lite/lint/builtin_rules.py:1289-1300 | for any tokens: what stands between braces is read as one expression, and only when that has no width is the group looked at as a whole |
| `WidthCommas.CommasNeverMatter` | sta_lite/lint/builtin_rules.py:1289 | two lists that differ in commas only have the same width |
| `WidthCommas.OnePartOnly` | sta_lite/lint/builtin_rules.py:1295-1299 | after the filter the split never gives more than one part, so widths are never added |
| `WidthRaises.RaisesIff` | sta_lite/lint/builtin_rules.py:1288-1339 | on every token list, the inference indexes an empty list exactly when one of the lists it is applied to on the way is k opening parentheses followed by k closing ones, commas left out |
| `WidthRaises.NoPairNoRaise` | sta_lite/lint/builtin_rules.py:1292-1293 | it never does when, commas left out, no opening parenthesis stands directly before a closing one |
| `WidthRaises.SimpleRaisesIff` | sta_lite/lint/builtin_rules.py:1288-1324 | without ? and braces it does exactly when an operand, found by stripping parentheses and splitting at operators, is of that form, whatever is declared |
| `WidthRaises.StripsToNothing` | sta_lite/lint/builtin_rules.py:1342-1349 | stripping leaves nothing exactly of the empty list and of lists of that form |
| `WidthRaises.HollowRaises` | sta_lite/lint/builtin_rules.py:1292-1293 | (), (,) and ((,)) are of that form |
| `WidthRaises.CallDoesNotRaise` | sta_lite/lint/builtin_rules.py:1292-1293 | an empty pair alone is not enough: f() has no width |
| `Literals.BitLengthIsLeast` | sta_lite/lint/builtin_rules.py:1440-1443 | an unsized literal gets the fewest bits that hold its value |
| `NumberText.BasedValue` | sta_lite/lint/builtin_rules.py:1446-1476 | any number written in base 2, 8, 10 or 16, with or without a sign letter, in letters of either case and with underscores anywhere, has that value |
| `NumberText.PlainLiteral` | sta_lite/lint/builtin_rules.py:1446-1452 | a plain decimal number with underscores has its value |
| `NumberText.NoValue` | sta_lite/lint/builtin_rules.py:1463-1476 | a literal with an x, z or ? among its digits, or with another base letter, has no value |
| `NumberText.NumberIffDigits` | sta_lite/lint/builtin_rules.py:1446-1476 | text is a number in a base exactly when all its characters are digits of the base |
| `ParameterPasses.ParameterValues` | sta_lite/lint/builtin_rules.py:1562-1578 | the loop over a snapshot of the pending parameters, with its removals and its early end, computes the pass function within n + 1 passes |
| `ParameterOrder.OrderIsFreeIff` | sta_lite/lint/builtin_rules.py:1562-1600 | every order of the declarations gives the least solution exactly when each parameter that has a value, and is named like the word after the quote of a literal in another such parameter, is itself computed from that other one |
| `ParameterOrder.ValuesAreSound` | sta_lite/lint/builtin_rules.py:1562-1578 | in any order, every value found is that of the least solution: a clash of names loses values but never changes one |
| `ParameterOrder.ValuesAreLeast` | sta_lite/lint/builtin_rules.py:1562-1578 | under that condition the passes end with the whole least solution, and no parameter left pending has a meaning over it |
| `ParameterOrder.TrapSprings` | sta_lite/lint/builtin_rules.py:1590-1600 | for every clash that breaks the condition, an order of the declarations in which the value is lost |
| `ParameterOrder.LeastSolutionExists` | sta_lite/lint/builtin_rules.py:1562-1578 | every set of declarations has a least solution |
| `ParameterOrder.LeastSolutionIsUnique` | sta_lite/lint/builtin_rules.py:1562-1578 | it depends on the set of declarations only |
| `ParameterOrder.AddKeepsProgress` | sta_lite/lint/builtin_rules.py:1567-1575 | adding one evaluated parameter keeps the values supported and below every closed map |
| `ParameterOrder.LiteralWordClash` | sta_lite/lint/builtin_rules.py:1590-1600 | A = 8'hFF and hFF = 1: declared in this order both get a value, in the other only hFF does |
| `ParameterOrder.TruthClash` | sta_lite/lint/builtin_rules.py:1592-1593 | P = True and True = n: in this order P is 1, in the other n |
| `Parameters.ValueKeptIff` | sta_lite/lint/builtin_rules.py:1590-1600 | a value is kept over every larger map on given names exactly when none of them is the word after the quote of a literal in its text |
| `Parameters.TextKeptIff` | sta_lite/lint/builtin_rules.py:1592-1593 | the replaced text of a parameter that has a value is the same over every such map exactly when no new name is such a word or a truth value read in it |
| `Parameters.EvalIsMeaning` | sta_lite/lint/builtin_rules.py:1590-1628 | the evaluation gives the meaning of the expression unless a word of a literal in it is a known name; then it gives nothing |
| `Parameters.MeaningIsMonotone` | sta_lite/lint/builtin_rules.py:1607-1628 | the meaning of an expression is never changed or lost by knowing more |
| `Parameters.InTurnIsEval` | sta_lite/lint/builtin_rules.py:1592-1593 | replacing one name after another, longer ones first, is replacing all at once |
| `Parameters.ShortestFirstLoses` | sta_lite/lint/builtin_rules.py:1592 | in the opposite order a name with a dollar sign would lose its value to the name before the sign |
| `Parameters.FloorQuotientRoundsDown` | sta_lite/lint/builtin_rules.py:1618-1619 | division and remainder round towards minus infinity, for either sign of the divisor |
| `ParameterArithmetic.EvalOfOperator` | sta_lite/lint/builtin_rules.py:1611-1624 | a value text with an operator outermost has a value exactly when both operands have one and the operator is defined on them: sum, difference, product, quotient and remainder rounded down, bits moved by a shift, and or, and, exclusive or on each bit |
| `ParameterArithmetic.EvalOfSign` | sta_lite/lint/builtin_rules.py:1608-1610 | signs and the inverse, which flips every bit |
| `ParameterArithmetic.BitwiseIsOnBits` | sta_lite/lint/builtin_rules.py:1622-1624 | the bitwise operators work on each bit of two integers of either sign by itself |
| `LexerLoop.Lex` | sta_lite/lint/lexer.py:169-310 | the nested index loops give the tokens and reports of the scan function, line by line, and one eof token |
| `LexerLoop.LexOne` | sta_lite/lint/lexer.py:173-307 | the loop over one line |
| `LexerLoop.ScanAt` | sta_lite/lint/lexer.py:180-289 | one step of the scan: the branches in their order with their inner loops |
| `LexerPositions.Positions` | sta_lite/lint/lexer.py:175-307 | every token is the text at its column, tokens come in order without overlap, every other character is a space or reported as unknown, and every report stands at an uncovered character or at its literal token |
| `LexerPositions.LongestOperator` | sta_lite/lint/lexer.py:279-294 | an operator token is a longest table operator that starts there; a single symbol is taken only where none does |
| `LexerKinds.KindsOfLine` | sta_lite/lint/lexer.py:180-299 | what each token is and how far it goes: a keyword starts like an identifier and is one of the keyword words, an identifier starts so and is none, or starts with a backslash; a number starts with a digit or with a quote and a base letter; text starts with a double quote and ends at the first one not escaped; all else is an operator or symbol. A report stands at a token exactly when its text calls for one |
| `LexerKinds.BasedSpelled` | sta_lite/lint/lexer.py:334-337 | a literal with a quote is well formed exactly when it is digits, the quote, perhaps a sign letter, a base letter and at least one digit |
| `LexerKinds.PlainSpelled` | sta_lite/lint/lexer.py:334-337 | a literal without one is well formed exactly when it starts and ends with a digit and holds digits and underscores |
| `LexerKinds.OtherReports` | sta_lite/lint/lexer.py:291-307 | any other report is of a character that starts no token |
| `Vocabulary.ActedOnAreKeywords` | sta_lite/lint/lexer.py:9-89 | every word the parser acts on is a keyword, so no identifier is taken for one |
| `Vocabulary.OperandsArePlain` | sta_lite/lint/lexer.py:180-299 | every identifier and number of a line stands for an operand in the width rules, so the rules for names and literals apply to it |
| `Vocabulary.OperatorsAreTokens` | sta_lite/lint/lexer.py:91-121 | every operator with a precedence is one operator token |
| `LexerRoundTrip.RoundTrip` | sta_lite/lint/lexer.py:175-307 | lexing the token values joined by single spaces gives the same kinds and values and the same malformed-literal reports |
| `LexerRoundTrip.ScanIsLocal` | sta_lite/lint/lexer.py:180-299 | a token value followed by a space, or by nothing, is scanned as the same token |
| `LexerRoundTrip.OperatorIsLocal` | sta_lite/lint/lexer.py:279-287 | no operator of the table is completed by a following space |
| `Comments.StripIsAutomaton` | sta_lite/lint/preprocessor.py:332-363 | which characters are blanked: a character becomes a space exactly when an automaton that moves one character at a time is in a comment there, and the line ends in an open comment exactly when the automaton does |
| `Comments.FileIsAutomaton` | sta_lite/lint/preprocessor.py:332-363 | the same of every character of a file, with the automaton carried from line to line and only an open block comment surviving a line end |
| `Comments.FileEndsInBlock` | sta_lite/lint/preprocessor.py:332-363 | a file ends inside a block comment exactly when the automaton does |
| `PreprocessMeaning.StrippedIsClassified` | sta_lite/lint/preprocessor.py:79-82 | the lines the preprocessor classifies are those of the file with its comments removed |
| `Comments.KeptOrBlank` | sta_lite/lint/preprocessor.py:332-363 | comment removal keeps the length, and each character or a space in its place |
| `Comments.StripIsIdempotent` | sta_lite/lint/preprocessor.py:332-363 | removing comments from a stripped line changes nothing and leaves no comment open |
| `Preprocess.Preprocessor.RemoveComments` | sta_lite/lint/preprocessor.py:332-363 | the scan loop with the block-comment field computes the stripping function |
| `Conditionals.ActiveInRun` | sta_lite/lint/preprocessor.py:96-114 | at every point of every run a line is carried out exactly when all groups around it are active |
| `Conditionals.RunKeepsFramesOk` | sta_lite/lint/preprocessor.py:96-196 | in every run each frame knows whether what is around it is active, and is active only if that is and a branch of its own was taken |
| `PreprocessMeaning.ReadKeepsFramesOk` | sta_lite/lint/preprocessor.py:79-114 | the same of the frames after any number of lines of a file, whatever it includes |
| `PreprocessTrace.ProcessIsReplay` | sta_lite/lint/preprocessor.py:53-301 | macro table, output, reports, file list, timescales and nettype after a file are what the events of the reading add up to one after another, however deep the includes |
| `PreprocessTrace.AllIsReplay` | sta_lite/lint/preprocessor.py:38-48 | the same of several files |
| `PreprocessTrace.TableIsLast` | sta_lite/lint/preprocessor.py:272-276 | of the lines carried out that define or undefine a name the last one decides: the name is known with the body it defines, or not known |
| `PreprocessTrace.TableUnset` | sta_lite/lint/preprocessor.py:272-276 | a name no such line sets is known as at the start |
| `PreprocessTrace.OutputIsTexts` | sta_lite/lint/preprocessor.py:110-114 | the output is the text lines carried out, in order, each expanded with the macros known where it stands |
| `PreprocessBranches.CarriedIffChosen` | sta_lite/lint/preprocessor.py:96-114 | a line of a file is carried out exactly when it is no conditional directive and every group around it is in its first branch whose condition holds |
| `PreprocessBranches.ConditionKnown` | sta_lite/lint/preprocessor.py:162-179 | the condition of an ifdef, ifndef or elsif line is whether its macro is known by the events before that line |
| `Conditionals.StepKeepsFramesOk` | sta_lite/lint/preprocessor.py:161-194 | every directive keeps the frame invariant, though a branch is marked taken even under an inactive parent |
| `Conditionals.AtMostOneBranch` | sta_lite/lint/preprocessor.py:171-188 | over a whole run: once a branch of a group was active and another directive of the group has ended it, no line is carried out until the group is closed |
| `Conditionals.RunIsEval` | sta_lite/lint/preprocessor.py:96-114 | on every nest of groups the flat frame stack does what reading the first true branch, else the else branch, does, with the same final state |
| `Conditionals.BalancedRunIsEval` | sta_lite/lint/preprocessor.py:96-114 | every balanced list of lines has such a recursive reading |
| `Conditionals.FaultlessIffBalanced` | sta_lite/lint/preprocessor.py:116-132 | the run meets no stray directive and leaves no group open exactly on balanced lines |
| `ConditionalGroups.ActiveIffChosen` | sta_lite/lint/preprocessor.py:161-194 | at every point of every run a line is carried out exactly when, in every group around it, the last directive before it is the first of the group whose condition holds where it stands |
| `Preprocess.Preprocessor.HandleDirective` | sta_lite/lint/preprocessor.py:151-301 | the directive branches: frames, macro table, include and diagnostics as in the specification functions |
| `Preprocess.Preprocessor.ProcessFile` | sta_lite/lint/preprocessor.py:53-149 | the recursive file processing ends on every include graph, cyclic ones too, gives the include stack back, and computes the specification function |
| `Preprocess.Preprocessor.PreprocessAll` | sta_lite/lint/preprocessor.py:38-48 | the source files one after another |
| `PreprocessMeaning.FileMeaning` | sta_lite/lint/preprocessor.py:53-149 | a file whose directives, as read, balance is read group by group, whatever it includes and whether or not a comment is open where it starts |
| `PreprocessMeaning.ErrorsIffUnbalanced` | sta_lite/lint/preprocessor.py:116-132 | a conditional error is reported against a file exactly when the directives read of it do not balance |
| `PreprocessMeaning.SeenIsStripped` | sta_lite/lint/preprocessor.py:332-363 | without a comment open at an include line, what is read of a file is what comment removal leaves of its own text |
| `PreprocessMeaning.SeenDiffersIff` | sta_lite/lint/preprocessor.py:133-148 | the converse: from a line that enters a file inside a comment, with none after it, what is read differs from the file's own text exactly when the next line reads differently inside the comment |
| `PreprocessMeaning.ProcessKeepsErrors` | sta_lite/lint/preprocessor.py:216-234 | including other files, directly or through cycles, adds no conditional error against a file on the stack |
| `PreprocessMeaning.OpenCommentAtIncludeBreaksReading` | sta_lite/lint/preprocessor.py:133-148 | a file whose own directives balance, with a comment open at its include line, against which an error is reported |
| `PreprocessMeaning.OpenCommentHidesFile` | sta_lite/lint/preprocessor.py:53-149 | a file entered with an open block comment that it never closes contributes blank lines only, is reported once for the comment and hands it back closed; macros, groups and includes in it have no effect |
| `ParserMeaning.ParseTiles` | sta_lite/lint/parser.py:81-106 | the parse ends on every token list with one eof token; its top-level constructs follow one another from the start to eof with nothing between them, those at a module keyword are the modules, and items tile the module bodies |
| `ParserMeaning.BodyIsTiled` | sta_lite/lint/parser.py:139-141 | the items of a body follow one another with nothing between them, each at least one token long and none at an endmodule, and every list an item keeps is a slice of it |
| `ParserMeaning.ItemIsOk` | sta_lite/lint/parser.py:147-216 | an item of any kind takes up at least its first token, and what it keeps lies inside it |
| `ParserMeaning.ModuleIsOk` | sta_lite/lint/parser.py:108-145 | a module body is the slice between header and stop, and stops at an endmodule or at eof |
| `ParserMeaning.ExactlyOneItem` | sta_lite/lint/parser.py:139-142 | every position of a module body lies in exactly one item |
| `ParserMeaning.ModuleEndsAtFirstEndmodule` | sta_lite/lint/parser.py:139-145 | a module ends at the first endmodule after its header exactly when no item has run over one |
| `ParserFile.ParsePrinted` | sta_lite/lint/parser.py:81-216 | modules, packages, interfaces, imports and skipped constructs written one after another are read back as those at the positions where they were written, modules with their names, bodies and items; typed declarations, interface uses and instances are told apart by the type and interface names written before them |
| `ParserFile.UnitReads` | sta_lite/lint/parser.py:81-145 | the same for one unit anywhere in a token list, with the names it adds |
| `ParserFile.PackageReads` | sta_lite/lint/parser.py:224-259 | a written package is read up to its end keyword, and its typedefs are known after it |
| `ParserFile.InterfaceReads` | sta_lite/lint/parser.py:261-296 | a written interface is read up to its end keyword; its name and its typedefs are known after it |
| `ParserFile.BodyReads` | sta_lite/lint/parser.py:139-141 | the items of a body are read as written |
| `ParserPrint.AlwaysReads` | sta_lite/lint/parser.py:646-655 | an always block with event control and begin-end body is read whole |
| `ParserPrint.ProcessReads` | sta_lite/lint/parser.py:187-196 | an always or initial block whose body is a statement of the grammar that is read whole keeps exactly that statement, else branches included |
| `ParserStatements.CompoundReadWholeIff` | sta_lite/lint/parser.py:1046-1069 | an if or case statement as a body is read to its end, and nothing else with it, exactly when no begin-end block, no case statement and no inner semicolon stands before one of its elses |
| `ParserStatements.StatementStops` | sta_lite/lint/parser.py:1046-1069 | where the reading of any nest of if, else, case, begin-end and simple statements stops |
| `ParserStatements.ElseAfterBlockIsLost` | sta_lite/lint/parser.py:1055-1058 | for every if with a begin-end block and an else: the statement ends with the block and the else is left out |
| `ParserStatements.BodyRead` | sta_lite/lint/parser.py:1024-1069 | a body is read whole: a simple statement to its semicolon, a block to its end, an if or case statement under the condition above |
| `ParserPrint.InstanceReads` | sta_lite/lint/parser.py:669-688 | an instance of a type that is no keyword, interface or typedef is read whole |
| `ParserPrint.ParamInstanceReads` | sta_lite/lint/parser.py:669-688 | an instance with parameters that start with an identifier is read whole |
| `ParserPrint.ParamsDecide` | sta_lite/lint/parser.py:958-966 | a name followed by # is taken for an instance exactly when the second token after the # is an identifier; otherwise only the name is passed over |
| `ParserPrint.TypeDefReads` | sta_lite/lint/parser.py:335-345 | a typedef is read up to its semicolon and keeps the text its name is taken from |
| `ParserPrint.ImportReads` | sta_lite/lint/parser.py:315-333 | an import of one name or of all is read whole |
| `ParserPrint.RoutineReads` | sta_lite/lint/parser.py:418-422 | a function or task is read up to the end keyword that closes it, with header and body kept apart |
| `ParserPrint.TypedReads` | sta_lite/lint/parser.py:347-356 | a declaration whose type is a known typedef is read up to its semicolon |
| `ParserPrint.ConnectReads` | sta_lite/lint/parser.py:364-382 | a use of a known interface, with or without a port group, is read whole |
| `ParserPrint.ModportUseReads` | sta_lite/lint/parser.py:364-382 | the use of an interface through a modport is read whole |
| `ParserPrint.GenerateReads` | sta_lite/lint/parser.py:384-386 | a generate block is read up to the endgenerate that closes it |
| `ParserPrint.SkippedReads` | sta_lite/lint/parser.py:1171-1186 | a construct outside the subset is passed over up to its own end keyword |
| `ParserPrint.SkippedToReads` | sta_lite/lint/parser.py:1171-1177 | or, without one, up to its semicolon |
| `ParserPrint.ModportReads` | sta_lite/lint/parser.py:298-313 | a modport, with or without its group, is read whole |
| `ParserPrint.DeclarationReads` | sta_lite/lint/parser.py:149-152 | a declaration or parameter is read up to its semicolon |
| `ParserPrint.StatementRuns` | sta_lite/lint/parser.py:1005-1022 | a statement text that closes its brackets and holds no stop at top level runs to its semicolon |
| `ParserPrint.NestedIsMatched` | sta_lite/lint/parser.py:1071-1086 | a text that closes what it opens is matched by the closer after it |
| `ParserMeaning.StatementIsFirstPart` | sta_lite/lint/parser.py:1005-1022 | a statement that ends at its semicolon or at eof is the first part of splitting the rest at top-level semicolons |
| `ParserRecovery.StatementStopSpelled` | sta_lite/lint/parser.py:1005-1022 | a statement ends at the first semicolon outside brackets, before the first end or endmodule outside them, or at eof |
| `ParserRecovery.NamelessModuleIsSkipped` | sta_lite/lint/parser.py:111-116 | a module without a name is passed over up to the first endmodule, and adds no names |
| `ParserRecovery.NamelessInstanceIsSkipped` | sta_lite/lint/parser.py:669-680 | an instance without a name is passed over up to its semicolon |
| `ParserRecovery.InstanceEnds` | sta_lite/lint/parser.py:681-688 | where reading resumes after an instance without its semicolon, and that its port list is kept when there is one |
| `ParserRecovery.ImportEnds` | sta_lite/lint/parser.py:322-333 | where reading resumes after an import without its semicolon |
| `ParserRecovery.UnclosedBody` | sta_lite/lint/parser.py:471-490 | a function, task or generate body whose end keyword does not come before the endmodule stops at the endmodule |
| `ParserRecovery.UnclosedGroup` | sta_lite/lint/parser.py:1071-1086 | a group that is never closed takes all up to eof |
| `ParserRecovery.LastNameSpelled` | sta_lite/lint/parser.py:343-345 | the name a typedef adds is the last plain identifier of its text |
| `ParserMeaning.GroupIsGroup` | sta_lite/lint/parser.py:1071-1086 | a group read with the cursor has the inner tokens that the matchers on lists give |
| `ParserMeaning.LexedIsWellFormed` | sta_lite/lint/lexer.py:308-310 | what the lexer returns is a token list the parser accepts: one eof token, at the end |
| `ParserCursor.Parser.Parse` | sta_lite/lint/parser.py:81-106 | the loop over top-level constructs computes the parse function and leaves the cursor at eof |
| `ParserCursor.Parser.ParseSection` | sta_lite/lint/parser.py:83-105 | one top-level step, by its keyword |
| `ParserCursor.Parser.ParseModule` | sta_lite/lint/parser.py:108-145 | module name, header, body and end keyword, with the recovery when the name is missing |
| `ParserCursor.Parser.ParseModuleHeader` | sta_lite/lint/parser.py:120-137 | parameters and ports as groups, then the semicolon or a new start |
| `ParserCursor.Parser.ParseBody` | sta_lite/lint/parser.py:139-141 | the loop over items computes the body function |
| `ParserCursor.Parser.ParseItem` | sta_lite/lint/parser.py:147-216 | the item kinds in the order they are tried, with the names met so far |
| `ParserCursor.Parser.CollectUntilSemicolon` | sta_lite/lint/parser.py:1005-1022 | the slice up to the statement stop, and the cursor after it |
| `ParserCursor.Parser.CollectBeginEnd` | sta_lite/lint/parser.py:1031-1044 | the slice from begin to the end that closes it, or to eof |
| `ParserCursor.Parser.CollectCompound` | sta_lite/lint/parser.py:1046-1069 | the slice of an if or case statement |
| `ParserCursor.Parser.CollectStatement` | sta_lite/lint/parser.py:1024-1029 | a block, a compound statement or a simple statement |
| `ParserCursor.Parser.CollectBalanced` | sta_lite/lint/parser.py:1071-1086 | the slice inside a group, matched or not |
| `ParserCursor.Parser.CollectUntilEndKeyword` | sta_lite/lint/parser.py:471-490 | the slice up to the matching end keyword, but never past the first endmodule |
| `ParserCursor.Parser.SkipUntil` | sta_lite/lint/parser.py:1167-1169 | the cursor stops at the first of the words, or at eof |
| `ParserCursor.Parser.SkipUnsupported` | sta_lite/lint/parser.py:1171-1186 | the cursor stops after the construct, or at eof |
| `ParserCursor.Parser.ParsePackage` | sta_lite/lint/parser.py:224-259 | package contents are read over; typedef names are kept |
| `ParserCursor.Parser.ParseInterface` | sta_lite/lint/parser.py:261-296 | interface contents are read over; interface and typedef names are kept |
| `ParserCursor.Parser.ParseImport` | sta_lite/lint/parser.py:315-333 | an import and its recoveries |
| `ParserCursor.Parser.ParseTypedef` | sta_lite/lint/parser.py:335-345 | the statement after typedef; its last plain identifier becomes a type name |
| `ParserCursor.Parser.ParseModport` | sta_lite/lint/parser.py:298-313 | a modport and its recoveries |
| `ParserCursor.Parser.ParseTypedDeclaration` | sta_lite/lint/parser.py:347-356 | a declaration with a user type |
| `ParserCursor.Parser.ParseInterfaceUse` | sta_lite/lint/parser.py:364-382 | an interface instance |
| `ParserCursor.Parser.ParseSubroutine` | sta_lite/lint/parser.py:418-422 | header and body of a function or task |
| `ParserCursor.Parser.ParseAlways` | sta_lite/lint/parser.py:646-655 | event control and body of an always block |
| `ParserCursor.Parser.ParseInstance` | sta_lite/lint/parser.py:669-688 | a module instance with its parameter and port groups |
| `Cancellation.ProcessController.Attach` | sta_lite/core/runner.py:49-53 | attaching after a stop signals the running process; on fields and processes together it is the attach step of the state machine |
| `Cancellation.ProcessController.Detach` | sta_lite/core/runner.py:55-58 | only the attached process is detached; it is the detach step of the state machine |
| `Cancellation.ProcessController.RequestStop` | sta_lite/core/runner.py:60-64 | the flag is set and a running attached process is signalled; it is the stop step of the state machine |
| `CancellationRuns.StopReachesProcess` | sta_lite/core/runner.py:49-64 | in every interleaving, whenever the lock is free and a stop was requested the attached process has ended or was signalled; what is attached is the process of the running command |
| `CancellationRuns.EarlyStopNeverSucceeds` | sta_lite/core/runner.py:352-409 | a stop that lands before the check after command k is seen by it in every interleaving, so the run never ends in success |
| `CancellationRuns.EarlyStopSkipsSecond` | sta_lite/core/runner.py:352-356 | a stop that lands before the first check keeps the second command from starting |
| `CancellationRuns.PassedUnstopped` | sta_lite/core/runner.py:352-409 | conversely, a run that has passed the check after command k, so in particular one that ended in success, read the flag there while it was unset: a stop that lands later changes nothing |
| `CancellationOutcomes.FailureHasCause` | sta_lite/core/runner.py:204-409 | a run that ends in failure has a step with which a command went wrong by itself: it could not be started, reading its output raised, or its results could not be used; a stop is never counted as a failure |
| `CancellationOutcomes.StopHasCause` | sta_lite/core/runner.py:352-395 | a run that ends as stopped has a check behind a command that read the flag while it was set |
| `CancellationOutcomes.UnhinderedSucceeds` | sta_lite/core/runner.py:352-409 | a finished run in which no command went wrong and no check found the flag set has succeeded |
| `CancellationOutcomes.ProcessesHaveEnded` | sta_lite/core/runner.py:49-64 | the process of every command the worker has got behind has ended, both of them after a success; a process carries the signal only if a stop was requested |
| `CancellationRuns.MethodsAreAtomic` | sta_lite/core/runner.py:49-69 | while steps of all threads interleave, each locked method leaves the controller as if it had run alone, up to processes starting or ending meanwhile |
| `CancellationRuns.RunsEnd` | sta_lite/core/runner.py:204-240 | every interleaving ends within a bound known at its start |
| `CancellationRuns.StuckIsDone` | sta_lite/core/runner.py:43-69 | no deadlock: where no step is possible the worker has finished and every stop request was answered |
| `Cancellation.WorkerKeepsServedOk` | sta_lite/core/runner.py:49-58 | the worker keeps: an attached running process not yet signalled after a stop is about to be, by whoever holds the lock |
| `Cancellation.StopKeepsServedOk` | sta_lite/core/runner.py:60-64 | a stop request keeps the same |
| `Jobs.StatusOnlyAdvances` | sta_lite/gui/server.py:78-126 | in every interleaving the status moves from queued over running to one terminal value and stays |
| `Jobs.SnapshotsAgree` | sta_lite/gui/server.py:78-86 | a snapshot read field by field that shows success has the summary and no error, one that shows failure has the error, and both show final values |
| `Jobs.OneTerminalEvent` | sta_lite/gui/server.py:88-126 | the worker puts one terminal event, its last, with the final fields, exactly when it ends regularly; the other end is a failed run whose summary file cannot be read |
| `Jobs.JobCanEndSilently` | sta_lite/gui/server.py:101-126 | a run in which a failed job ends, marked finished, without any terminal event |
| `Jobs.WorkerLeadsOn` | sta_lite/gui/server.py:88-126 | every step of the worker leads on, except that it may log any number of lines, and it has a step until it ends |
| `Jobs.EventsInOrder` | sta_lite/gui/server.py:88-126 | in every interleaving the worker puts that the job runs, then log lines, then the event that ends the job |
| `Jobs.SnapshotLeadsOn` | sta_lite/gui/server.py:78-86 | a snapshot reads one field after another until it has all |
| `Jobs.ReaderLeadsOn` | sta_lite/gui/server.py:732-743 | a reader takes the oldest event and writes it, or reports the status when there is none, until it leaves or loses its connection |
| `JobStops.StoppedJobFails` | sta_lite/gui/server.py:88-126 | with job and analysis interleaved: a job whose stop lands before the second check never shows success; ended regularly, it has status failure, an error, and one terminal event, the last, that carries it |
| `JobStops.NoStepIsLost` | sta_lite/gui/server.py:88-126 | job and analysis each have the steps they have alone; the job leaves the analysis with a summary exactly when that succeeded |
| `JobReaders.SoleReaderGetsAll` | sta_lite/gui/server.py:732-743 | a sole reader gets the worker's events in order, has them all when it leaves, and finds the terminal event waiting as long as it has not left a finished job |
| `JobReaders.SoleReaderLeaves` | sta_lite/gui/server.py:732-743 | in every interleaving a sole reader of a job that ended regularly leaves with the take that brings it the terminal event, no sooner and no later, and until then there is something to take |
| `JobReaders.NobodyLeavesDeadJob` | sta_lite/gui/server.py:732-743 | no reader ever leaves a job that ended without a terminal event |
| `JobReaders.AtMostOneReaderLeaves` | sta_lite/gui/server.py:732-743 | readers share one queue: at most one of them ever leaves |
| `JobReaders.RunDelivers` | sta_lite/gui/server.py:78-126 | every event of the worker was taken by exactly one reader or is still queued |
| `Correlation.Correlate` | sta_lite/review/workflow.py:315-328 | every item is marked with the number of its key in order of first occurrence, the size of its group and the sorted sources of the group; the items themselves stay as they are |
| `Correlation.Groups` | sta_lite/review/workflow.py:316-320 | the groups hold the items of each key in order |
| `Correlation.SameIdIffSameKey` | sta_lite/review/workflow.py:318-327 | two items carry the same id exactly when case-or-rule, file and line agree |
| `Correlation.NewKeyGetsNextId` | sta_lite/review/workflow.py:321-325 | ids are dense and in order of first occurrence |
| `Correlation.GroupsAddUp` | sta_lite/review/workflow.py:316-327 | the group sizes add up to the number of items |
| `Correlation.LabelsDiffer` | sta_lite/review/workflow.py:322-323 | zero-padded labels of different numbers differ |
| `Correlation.LabelSpelled` | sta_lite/review/workflow.py:322-323 | the label is CORR-, zeros up to four digits, and the number |
| `Correlation.SameIdIffSamePlace` | sta_lite/review/workflow.py:318-327 | two items carry the same id exactly when they name the same case, or without one the same rule, at the same file and line |
| `Correlation.SourcesSpelled` | sta_lite/review/workflow.py:321-326 | the sources written into an item are those of the items at its place, each once and in order; None stands for a missing one |
| `Correlation.OverlapIsCount` | sta_lite/review/workflow.py:327 | the overlap count is the number of items at the place |

## Left out

- WidthTheorem.WidthIsTreeWidth: reduction operators, an expression that starts with a sign, selects with more than one token on a side of the colon or as an index, and a bare ternary in the true branch of another are outside the tree class; an operator without a rule, such as ~, is an operand of its own in a row (WidthTheorem.WidthOfRow). The precedence table and width rules are the code's own, not those of IEEE 1364-2005.
- WidthConcat.ConcatWidth: lists whose comma-free tokens are no row of such expressions, such as one that starts with a sign; WidthCommas.BraceGroup and WidthConcat.ReductionTakesAll hold of any tokens between the braces.
- WidthRaises.RaisesIff: the lists looked at depend on which branches have a width where ? or braces occur; without them WidthRaises.SimpleRaisesIff needs no declarations.
- Width.ExpressionWidth: written as functions, as in the source; the loops it calls are methods.
- Preprocess.Preprocessor.HandleDirective: the regular expressions that recognise a directive and cut up its argument, macro text expansion and include path search are parameters of the model; the frames of a file are a sequence of values, replaced rather than updated through shared objects.
- PreprocessTrace.OutputIsTexts: what macro expansion makes of a line is a parameter; which macros it is given is what is proved.
- ParameterPasses.ParameterValues: a value text is an expression tree in which names are replaced; parsing the result as a Python expression is not modelled, nor are names that start or end with a dollar sign, operands side by side that a negative value turns into a subtraction, and Python's limit on the digits of a number.
- ParameterOrder.OrderIsFreeIff: for parameters not named True or False; what such a name does is ParameterOrder.TruthClash and Parameters.TextKeptIff.
- Literals.BitLengthIsLeast: digits are the ASCII ones, so digits of other scripts that Python accepts are not modelled.
- LexerLoop.Lex: the character classes of Python's string methods are abstract predicates with the inclusions the scan relies on; excerpts and texts of diagnostics are left out.
- ParserCursor.Parser.Parse: diagnostics, the checks made on collected lists and the extraction of signals, assignments and generate contents from them are left out; they do not move the cursor. The parser is a recovering subset, and no claim is made that it accepts a given language.
- ParserFile.ParsePrinted: loops as statements of a block, text in a package or interface that is neither declared, imported nor skipped, and a name after endmodule are not among the written pieces.
- LoopRule.ReportComponent: message, suggestion, the cap of twenty on the printed edges and the removal of duplicate diagnostics after the rule are left out.
- DependencyGraph.Builder.AddEdge: an edge record keeps its kind and its assignment; the fields copied from the assignment are not repeated.
- Registers.LevelGivesEdge: the assignments of a block are given; how they are found among its tokens is not modelled.
- CyclePath.CyclePath: names are ordered by code points, as Python orders strings.
- CancellationRuns.EarlyStopNeverSucceeds: a process is not started, running or ended; exit codes, log lines, reports and files decide between success and failure by free choice. The command-line use without a controller is left out.
- Jobs.StatusOnlyAdvances: elapsed times are left out. The job and its manager are a state machine, not a class, because their methods run concurrently; the three sibling managers have the same worker without the stop request.
- JobReaders.SoleReaderGetsAll: for a reader whose connection holds; a connection that breaks while an event is written loses that event.
- Correlation.Correlate: key entries are compared as values of one type; Python's equality across types is not modelled.
- File reading, JSON, HTML, HTTP, command-line arguments, script text for the external tools and report parsing are left out.
- Rules that count tokens or match names (fan-out, memories, resets, state machines, latches) are left out: they would only add easy members.
- The recursion limit of Python is not modelled.
