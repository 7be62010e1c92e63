# Jello shader-graph compiler front end, in Dafny

Jello is a node-based material editor. A material is a graph of compiler
nodes (constants, arithmetic, if-else, a preview output). Each node has typed
input and output ports, and edges run from an output port to an input port.
Before SPIR-V is emitted, the compiler front end prepares the graph in five
steps:

1. It labels every node with the branches it feeds, walking upstream from
   the output node (`labelBranches`).
2. It prunes the nodes that feed nothing (`pruneGraph`).
3. It orders the remaining nodes so that producers come first
   (`topologicallyOrderGraph`).
4. It concretises every port's wildcard type with a finite-domain
   constraint solver (`concretiseTypesInGraph`).
5. It moves the nodes of each if-else branch into that node's sub-node
   lists (`decomposeGraph`).

This project models that front end:

- the port type lattice and its domains;
- the three port constraints;
- the graph passes and the backtracking solver;
- the per-node port metadata;
- the math-expression lexer and Pratt parser;
- the SPIR-V word encoder;
- the frame-data and vertex layout that the default vertex shader declares;
- the small editor helpers:
  - port type compatibility;
  - the canvas transform;
  - HSB to RGB conversion;
  - spline tangents.

The files, all under `jello/`, are:

- `graph_types.dfy`: concrete and graph data types, `allCases`, `getDomain`, composite size and dimensionality.
- `constraints.dfy`: `SameTypesConstraint`, `SameCompositeSizeConstraint` and `SameDimensionalityConstraint`.
- `graph.dfy`:
  - the graph as maps keyed by node and port ids;
  - Swift's `filter`;
  - port id reservation and edge creation.
- `labels.dfy`, `ordering.dfy`, `decompose.dfy` and `prepare.dfy`: the graph passes and `prepareInput`.
- `solver.dfy` and `concretise.dfy`: propagation, the backtracking search and `concretiseTypesInGraph`.
- `nodetypes.dfy`: constructors, constraints, operation choice and the arithmetic `write` fold.
- `lexer.dfy` and `parser.dfy`: the math-expression lexer and parser.
- `spirv.dfy`: the SPIR-V header, instructions, operands and Literal String packing.
- `framelayout.dfy` and `varyings.dfy`: the vertex shader's data layout and the stage interface.
- `typingutils.dfy`, `canvas.dfy`, `color.dfy` and `splines.dfy`: the editor helpers.
- `results.dfy` and `sequences.dfy`: `Option`/`Result` and generic sequence facts.

Some choices about how the source is modelled:

- **Swift `Set` iteration order.** A constraint's ports are a `Set<UUID>`, whose iteration order Swift leaves unspecified. The model takes a sequence, so iteration order is the caller's.
- **Ranks.** Every concrete type has rank 1, so the source's sort by rank leaves the common domain in intersection order. The model lists it in the first port's domain order.
- **Force-unwraps.** Unwraps of back-references (`node!`, `newBranchId!`) become well-linkedness preconditions. The unwrap `assignments[currentPort]!` in propagation is modelled as a trap outcome instead. The model proves that the trap cannot happen when every constraint is a same-type constraint, which holds for every node type.
- **Unbounded loops.** `labelBranches` loops forever on a cycle and re-visits nodes on diamond paths, and `topologicallyOrderGraph` keeps appending. Both are bounded by a `fuel` argument, and running out of fuel is an explicit outcome.
- **Matrix layout.** `JelloCompilerStatic/FrameData.swift:15-34` declares the matrix members as simd matrices. The vertex shader decorates every matrix member `RowMajor` (`JelloCompilerStatic/DefaultVertexShader.swift:64-70`). The model follows the shader's decorations.
- **Operators of the expression parser.** The parser builds its trees from `MathExpressionInfixBinaryOperator` and `MathExpressionPrefixUnaryOperator` (`Jello/Domain/ExpressionParser/MathExpressionParser.swift:57`, `:85-112`), which include `pow` and `unaryPlus`. The enums declared in `JelloCompilerStatic/JelloMathExpressionTypes.swift:11-31` have neither. `Parser.InfixOp` and `Parser.PrefixOp` follow the parser's usage.

## Model

| member | source | states |
|---|---|---|
| GraphTypes.CaseIndex | JelloCompilerStatic/JelloCompilerTypes.swift:224-262 | each concrete type's position in `allCases` is below 31, textures sit at 6..17 and procedural fields at 18..29 |
| GraphTypes.AllConcreteComplete | JelloCompilerStatic/JelloCompilerTypes.swift:224-262 | `allCases` holds every concrete type, at its case index |
| GraphTypes.AllConcreteNoDuplicates | JelloCompilerStatic/JelloCompilerTypes.swift:224-262 | `allCases` lists every concrete type once |
| GraphTypes.GetDomain | JelloCompilerStatic/JelloCompilerTypes.swift:763-963 | every domain is non-empty, and a concrete-named graph type has the singleton domain of that concrete type |
| GraphTypes.DomainMeansAdmits | JelloCompilerStatic/JelloCompilerTypes.swift:763-963 | a concrete type is in a graph type's domain iff the graph type admits it: `any` admits all, each family and filter admits exactly its members |
| GraphTypes.DomainHasNoDuplicates | JelloCompilerStatic/JelloCompilerTypes.swift:773-963 | no domain lists a concrete type twice |
| GraphTypes.DomainAgreesWithClassification | JelloCompilerStatic/JelloCompilerTypes.swift:489-734 | a graph type with a known composite size or dimensionality admits only concrete types of that size or dimensionality |
| GraphTypes.FieldDomainSplits | JelloCompilerStatic/JelloCompilerTypes.swift:773-963 | `anyField` (with any channel or dimension filter) is exactly the union of the texture and procedural-field domains |
| Constraints.CommonDomain | JelloCompilerStatic/JelloCompilerTypes.swift:81-82 | the common domain holds exactly the values every port's domain lists (nothing for no ports), without duplicates when the first port's domain has none |
| Constraints.SameTypesClash | JelloCompilerStatic/JelloCompilerTypes.swift:57-61 | two ports already assigned different types make the same-type constraint a contradiction |
| Constraints.ApplySameTypes | JelloCompilerStatic/JelloCompilerTypes.swift:57-101 | `SameTypesConstraint.apply`; its meaning is given by `SameTypesClash`, `SameTypesPins`, `SameTypesIntersects`, `SameTypesFrame` and `SameTypesReportsChanges` |
| Constraints.SameTypesPins | JelloCompilerStatic/JelloCompilerTypes.swift:63-78 | with assignments agreeing on t: contradiction iff some domain lacks t; otherwise every port ends assigned t, and each port not already assigned t gets domain [t] |
| Constraints.SameTypesIntersects | JelloCompilerStatic/JelloCompilerTypes.swift:80-99 | with no assignment: contradiction iff the intersection is empty; otherwise every domain becomes the intersection and a singleton intersection is assigned |
| Constraints.SameTypesFrame | JelloCompilerStatic/JelloCompilerTypes.swift:57-101 | a same-type constraint only narrows domains, touches only its ports and pins what it assigns |
| Constraints.SameTypesReportsChanges | JelloCompilerStatic/JelloCompilerTypes.swift:63-99 | the dirty list names exactly the ports whose assignment or domain changed |
| Constraints.KeepKeysIdempotent | JelloCompilerStatic/JelloCompilerTypes.swift:115-138 | filtering a domain twice by the same feature set changes nothing more |
| Constraints.SameFeatureContradiction | JelloCompilerStatic/JelloCompilerTypes.swift:110-211 | a composite-size or dimensionality constraint is a contradiction iff some port's domain has no value of an allowed feature (the first assigned port's feature, else the features every domain offers) |
| Constraints.ApplySameFeature | JelloCompilerStatic/JelloCompilerTypes.swift:110-211 | `SameCompositeSizeConstraint.apply` and `SameDimensionalityConstraint.apply`; their meaning is given by `SameFeatureContradiction`, `SameFeatureFilters`, `FilterAllAssigns` and `SameFeatureReportsChanges` |
| Constraints.SameFeatureFilters | JelloCompilerStatic/JelloCompilerTypes.swift:110-211 | on success each port's domain is exactly its old domain filtered to the allowed features, so no value is ever added |
| Constraints.FilterAllAssigns | JelloCompilerStatic/JelloCompilerTypes.swift:113-126 | on success a port is newly assigned exactly when its filtered domain shrank to one value, and keeps its assignment otherwise |
| Constraints.SameFeatureReportsChanges | JelloCompilerStatic/JelloCompilerTypes.swift:110-211 | the dirty list names exactly the ports whose assignment or domain changed |
| Constraints.ApplyFrame | JelloCompilerStatic/JelloCompilerTypes.swift:45-48 | every constraint narrows domains only, leaves other ports alone, never withdraws an assignment, keeps domains duplicate-free and reports exactly its changes |
| Constraints.EmptySameTypesContradicts | JelloCompilerStatic/JelloCompilerTypes.swift:81-85 | a same-type constraint over no ports is a contradiction, because the intersection of no domains starts from the empty set |
| Constraints.ApplyKeepsSolutions | JelloCompilerStatic/JelloCompilerTypes.swift:51-211 | applying a constraint never rules out a choice of types that satisfies it and is still possible, so it does not then report a contradiction |
| Graph.KeepSubsequence | JelloCompilerStatic/JelloCompilerFunctions.swift:33 | Swift's `filter` keeps exactly the passing elements, in their order |
| Graph.KeepIdempotent | JelloCompilerStatic/JelloCompilerFunctions.swift:33 | filtering twice with the same test is filtering once |
| Graph.KeepPartition | JelloCompilerStatic/JelloCompilerFunctions.swift:208 | a test and its complement split a sequence into two parts that together hold every element as often as before |
| Graph.ReserveFresh | JelloCompilerStatic/JelloCompilerTypes.swift:1200-1206 | an unreserved port gets a fresh id, which stays reserved; nothing else changes |
| Graph.GetOrReserveId | JelloCompilerStatic/JelloCompilerTypes.swift:1200-1206 | `getOrReserveId`: the port ends reserving the returned id and no other port changes; `ReserveFresh` and `ReserveStable` say when the id is fresh |
| Graph.ReserveStable | JelloCompilerStatic/JelloCompilerTypes.swift:1200-1206 | asking again returns the same id and changes nothing |
| Graph.ClearGivesFresh | JelloCompilerStatic/JelloCompilerTypes.swift:1208-1210 | after `clearReservation` the port gets a fresh id again |
| Graph.ClearReservation | JelloCompilerStatic/JelloCompilerTypes.swift:1208-1210 | `clearReservation`: the port ends without a reservation; `ClearGivesFresh` gives the next id |
| Graph.SetOverrides | JelloCompilerStatic/JelloCompilerTypes.swift:1212-1214 | `setReservedId` overrides any reservation without using a fresh id |
| Graph.SetReservedId | JelloCompilerStatic/JelloCompilerTypes.swift:1212-1214 | `setReservedId`: the port ends reserving the given id; `SetOverrides` states that no id is drawn |
| Graph.ConnectSetsBothEnds | JelloCompilerStatic/JelloCompilerTypes.swift:1230-1235 | creating an edge sets the input's incoming edge and appends to the output's outgoing edges, touching nothing else |
| Graph.Connect | JelloCompilerStatic/JelloCompilerTypes.swift:1230-1235 | `CompilerEdge.init`; its meaning is given by `ConnectSetsBothEnds`, `ConnectKeepsLinks` and `ConnectKeepsEdges` |
| Graph.ConnectKeepsLinks | JelloCompilerStatic/JelloCompilerTypes.swift:1230-1235 | connecting existing ports keeps every reference of the graph resolving |
| Graph.ConnectKeepsEdges | JelloCompilerStatic/JelloCompilerTypes.swift:1230-1235 | every edge stays listed at both its ports after a connection |
| Labels.LabelBranches | JelloCompilerStatic/JelloCompilerFunctions.swift:15-29 | the walk traps iff a connected input of the output node has no branch id; a labelled result changes nothing but node tags |
| Labels.LoopAddsTrace | JelloCompilerStatic/JelloCompilerFunctions.swift:18-28 | the final tags are the initial tags plus the (node, branch) pairs the queue pops |
| Labels.PushedQueued | JelloCompilerStatic/JelloCompilerFunctions.swift:22-26 | popping an entry queues one entry per connected input of the tagged node, with that port's new branch id or else the inherited one |
| Labels.ReachedClosed | JelloCompilerStatic/JelloCompilerFunctions.swift:17-28 | the reached pairs hold the output node's inputs and are closed under the step to feeding nodes |
| Labels.ReachedLeast | JelloCompilerStatic/JelloCompilerFunctions.swift:17-28 | the reached pairs lie in every such closed set |
| Labels.LabelBranchesTags | JelloCompilerStatic/JelloCompilerFunctions.swift:15-29 | after labelling, a node carries branch b iff it did before or b reaches it upstream from the output, via the least closed set of pairs |
| Ordering.Prune | JelloCompilerStatic/JelloCompilerFunctions.swift:31-34 | pruning keeps exactly the nodes with non-empty tags and changes nothing else |
| Ordering.PruneOrderAndIdempotence | JelloCompilerStatic/JelloCompilerFunctions.swift:31-34 | the kept nodes stay in their original order, and pruning twice changes nothing |
| Ordering.PruneKeepsLinks | JelloCompilerStatic/JelloCompilerFunctions.swift:31-34 | pruning keeps the graph well linked |
| Ordering.TopologicallyOrder | JelloCompilerStatic/JelloCompilerFunctions.swift:41-65 | roots come first, every node follows the producers of its connected inputs, and the list is closed under the walk's ready-successor step |
| Ordering.AppendReadySuccessors | JelloCompilerStatic/JelloCompilerFunctions.swift:57-61 | the inner loop appends, in edge order, exactly the successors whose producers are visited, pruned nodes and repeated successors included |
| Ordering.ReadyClosure | JelloCompilerStatic/JelloCompilerFunctions.swift:52-63 | when every incoming edge is listed at its output, each successor whose producers are all listed is itself listed |
| Ordering.FeedersMeaning | JelloCompilerStatic/JelloCompilerFunctions.swift:43-50 | `hasNoDependencies` holds iff every feeding node is visited |
| Solver.ApplyEachStaysWithin | JelloCompilerStatic/JelloCompilerFunctions.swift:80-90 | applying a port's constraints only narrows domains, and every assignment made lies in the port's original domain |
| Solver.Propagate | JelloCompilerStatic/JelloCompilerFunctions.swift:73-93 | the queue loop of `propagateConstraintsFromCurrentPort`; its meaning is given by `PropagateKeepsSolutions`, `PropagateStaysWithin` and `PropagateSettles` |
| Solver.PropagateFrom | JelloCompilerStatic/JelloCompilerFunctions.swift:73-93 | `propagateConstraintsFromCurrentPort` from one port on a private copy of the domains; its meaning is given by `PropagateFromSettled` and the `Propagate` lemmas |
| Solver.PropagateKeepsSolutions | JelloCompilerStatic/JelloCompilerFunctions.swift:73-93 | propagation never discards a solution that is still possible: no contradiction, and the assignments agree with the solution |
| Solver.PropagateStaysWithin | JelloCompilerStatic/JelloCompilerFunctions.swift:73-93 | every assignment propagation reaches is a value of the port's original domain |
| Solver.PropagateSettles | JelloCompilerStatic/JelloCompilerFunctions.swift:73-93 | with same-type constraints the queue never reaches an unassigned port (no trap), and a consistent outcome keeps every assignment and leaves the ports settled |
| Solver.PropagateFromSettled | JelloCompilerStatic/JelloCompilerFunctions.swift:73-93 | propagating from an assigned port of a settled state never traps and ends settled |
| Solver.SearchSound | JelloCompilerStatic/JelloCompilerFunctions.swift:95-130 | the search never traps, and a result extends the assignments so far, stays in the domains, leaves every constraint closed and assigns every remaining port |
| Solver.SearchComplete | JelloCompilerStatic/JelloCompilerFunctions.swift:95-130 | when some solution still allows the assignments so far, the search finds a result, even though a pre-assigned port recurses with the assignments from before propagation |
| Solver.Search | JelloCompilerStatic/JelloCompilerFunctions.swift:95-130 | `concretiseTypesInGraphImpl`; `SearchSound` and `SearchComplete` say it finds a solution exactly when one extends the assignments so far |
| Solver.TryValues | JelloCompilerStatic/JelloCompilerFunctions.swift:117-129 | the `for value in domain` loop, which tries each value of an unassigned port in order; covered by the `Search` lemmas |
| Solver.Prepass | JelloCompilerStatic/JelloCompilerFunctions.swift:179-187 | the single-value pre-pass of `concretiseTypesInGraph`; covered by `SolveSound` and `SolveComplete` |
| Solver.SolveSound | JelloCompilerStatic/JelloCompilerFunctions.swift:179-192 | the pre-pass and search never trap, and a returned assignment types every port from its domain and satisfies every constraint |
| Solver.SolveComplete | JelloCompilerStatic/JelloCompilerFunctions.swift:179-192 | whenever some assignment satisfies all constraints within the domains, the solver finds one, so it fails only when there is none |
| Solver.Solve | JelloCompilerStatic/JelloCompilerFunctions.swift:179-192 | the pre-pass, then the search; `SolveSound` and `SolveComplete` say it returns a solution exactly when one exists |
| Concretise.PortsOf | JelloCompilerStatic/JelloCompilerFunctions.swift:145-149 | the search order lists exactly the input and output ports of the listed nodes |
| Concretise.DomainsOf | JelloCompilerStatic/JelloCompilerFunctions.swift:136-142 | every listed port's domain is `getDomain` of its declared type |
| Concretise.EdgeConstraints | JelloCompilerStatic/JelloCompilerFunctions.swift:159-162 | the edge constraints are exactly the same-type constraints over each connected input of a listed node and its producing output |
| Concretise.ConstraintMapOf | JelloCompilerStatic/JelloCompilerFunctions.swift:170-177 | each port's list holds exactly the edge and node constraints that mention it |
| Concretise.FileAll | JelloCompilerStatic/JelloCompilerFunctions.swift:170-177 | the `constraintsMapped` loop, which appends each constraint to the list of every port it mentions; `ConstraintMapOf` states the result |
| Concretise.WriteBackRecords | JelloCompilerStatic/JelloCompilerFunctions.swift:194-199 | the write-back records the assignment at every port of the listed nodes |
| Concretise.WriteBack | JelloCompilerStatic/JelloCompilerFunctions.swift:194-199 | every listed port takes its assignment as its concrete type and nothing else in the world changes |
| Concretise.SolvesIsTyping | JelloCompilerStatic/JelloCompilerFunctions.swift:136-177 | the solver's notion of a solution is a typing of the graph: each port typed from its domain and both ends of each edge equal |
| Concretise.ConcretiseSound | JelloCompilerStatic/JelloCompilerFunctions.swift:132-200 | on a graph closed under producers, concretising never traps, and on success each port's recorded type is in its domain and both ends of each edge agree |
| Concretise.ConcretiseComplete | JelloCompilerStatic/JelloCompilerFunctions.swift:179-192 | on a graph closed under producers, concretising throws exactly when the graph has no typing |
| Concretise.ConcretiseTypes | JelloCompilerStatic/JelloCompilerFunctions.swift:132-200 | `concretiseTypesInGraph`; its meaning is given by `ConcretiseSound` and `ConcretiseComplete` |
| Decompose.SplitBranchPartitions | JelloCompilerStatic/JelloCompilerFunctions.swift:208-216 | one pass is a stable partition: the remaining and moved lists keep the original order and together hold every node as often as before |
| Decompose.SplitAllGraph | JelloCompilerStatic/JelloCompilerFunctions.swift:205-218 | after all passes the graph list is the original list without the moved nodes, in order |
| Decompose.SplitAllSubNodes | JelloCompilerStatic/JelloCompilerFunctions.swift:205-218 | when no branch is visited twice, each branch gets exactly the nodes tagged with it alone, in order |
| Decompose.DecomposeGraphRemaining | JelloCompilerStatic/JelloCompilerFunctions.swift:204-219 | decomposing leaves exactly the nodes belonging to no single branch of a listed branch node, in their original order |
| Decompose.DecomposeGraphAsWritten | JelloCompilerStatic/JelloCompilerFunctions.swift:204-219 | `decomposeGraph` as written: only sub-node lists change; `DecomposeGraphRemaining`, `DecomposeGraphAsWrittenBranches` and `SplitAllRevisited` give its result |
| Decompose.DecomposeGraph | JelloCompilerStatic/JelloCompilerFunctions.swift:204-219 | the corrected `decomposeGraph`: only sub-node lists change; `DecomposeGraphRemaining` and `DecomposeGraphBranches` give its result |
| Decompose.DecomposeGraphBranches | JelloCompilerStatic/JelloCompilerFunctions.swift:204-219 | the corrected decomposition (each branch node split once; the corrected half of the first Findings row): with fresh branch ids, every branch of every listed branch node holds exactly the nodes tagged with that branch alone, in their original order |
| Decompose.AsWrittenWithoutRepeats | JelloCompilerStatic/JelloCompilerFunctions.swift:204-219 | when the graph list names no node twice, `decomposeGraph` as written equals the corrected decomposition |
| Decompose.DecomposeGraphAsWrittenBranches | JelloCompilerStatic/JelloCompilerFunctions.swift:204-219 | `decomposeGraph` as written, on a graph list without repeats and with fresh branch ids: every branch of every listed branch node holds exactly the nodes tagged with that branch alone, in their original order |
| Decompose.SplitAllRevisited | JelloCompilerStatic/JelloCompilerFunctions.swift:205-216 | as written, a branch visited twice ends with an empty sub-node list |
| Decompose.AsWrittenEmptiesBranch | JelloCompilerStatic/JelloCompilerFunctions.swift:205-216 | on a graph listing an if-else node twice, its true branch ends empty |
| Decompose.AsWrittenDropsNode | JelloCompilerStatic/JelloCompilerFunctions.swift:205-216 | in that graph the branch's node has left the graph list too, so it is lost |
| Decompose.CorrectedKeepsBranch | JelloCompilerStatic/JelloCompilerFunctions.swift:204-219 | processing each branch node once keeps that node in its branch |
| Prepare.OrderListsProducers | JelloCompilerStatic/JelloCompilerFunctions.swift:222-226 | a dependency order lists the producer of every connected input of a listed node |
| Prepare.ConcretiseOrdered | JelloCompilerStatic/JelloCompilerFunctions.swift:225-226 | on an ordered graph concretising is sound and complete with respect to graph typings |
| Prepare.TypeGraph | JelloCompilerStatic/JelloCompilerFunctions.swift:222-226 | the missing-branch-id trap happens iff a connected output input has no branch id; the concretiser never traps; it fails exactly when the ordered graph has no typing, and on success the world records a typing of the ordered graph |
| Prepare.PrepareInput | JelloCompilerStatic/JelloCompilerFunctions.swift:222-228 | the same outcomes as `TypeGraph`, and on success the typed world goes through `decomposeGraph` as written: the graph list keeps exactly the nodes in no single branch, and when the order names no node twice the result is the corrected decomposition |
| Prepare.PrepareInputCorrected | JelloCompilerStatic/JelloCompilerFunctions.swift:222-228 | the same outcomes, with the corrected decomposition on success, whose graph list keeps exactly the nodes in no single branch |
| NodeTypes.IfElseInitSets | JelloCompilerStatic/JelloCompilerNodeTypes.swift:82-92 | inputs are [condition, ifTrue, ifFalse], the condition becomes bool, ifTrue and ifFalse start the true and false branches, no other port changes |
| NodeTypes.IfElseInit | JelloCompilerStatic/JelloCompilerNodeTypes.swift:82-92 | `IfElseCompilerNode.init`: no port is added or removed and outputs are untouched; `IfElseInitSets` states the fields |
| NodeTypes.IfElseConstraintSkipsCondition | JelloCompilerStatic/JelloCompilerNodeTypes.swift:76-80 | the if-else constraint covers exactly ifTrue, ifFalse and the output, never the condition |
| NodeTypes.ConstantInitPinsType | JelloCompilerStatic/JelloCompilerNodeTypes.swift:163-189 | a constant's output port is owned by the node and has the singleton domain of the constant's own type |
| NodeTypes.ConstantInit | JelloCompilerStatic/JelloCompilerNodeTypes.swift:163-189 | the constant node initialisers: no port is added or removed and inputs are untouched; `ConstantInitPinsType` states the type |
| NodeTypes.PreviewOutputInitSets | JelloCompilerStatic/JelloCompilerNodeTypes.swift:270-278 | the preview node carries tag {id}, its input starts branch id, and it has no constraints |
| NodeTypes.PreviewOutputInit | JelloCompilerStatic/JelloCompilerNodeTypes.swift:270-278 | `PreviewOutput.init`: no port is added or removed and outputs are untouched; `PreviewOutputInitSets` states the fields |
| NodeTypes.ArithmeticInit | JelloCompilerStatic/JelloCompilerNodeTypes.swift:329-337 | the node lists the given inputs and one output and owns all of them; other ports are unchanged |
| NodeTypes.NodeConstraintsMeaning | JelloCompilerStatic/JelloCompilerNodeTypes.swift:323-327 | arithmetic nodes impose one same-type constraint over all their ports; constants and previews impose none |
| NodeTypes.NodeConstraints | JelloCompilerStatic/JelloCompilerNodeTypes.swift:323-327 | each node kind's `constraints`; `NodeConstraintsMeaning` and `IfElseConstraintSkipsCondition` state them |
| NodeTypes.SelectOperationMeaning | JelloCompilerStatic/JelloCompilerNodeTypes.swift:303-320 | the float opcode for float..float4, the integer opcode for int (SDiv for divide), none otherwise; distinct operations never share an opcode |
| NodeTypes.SelectOperation | JelloCompilerStatic/JelloCompilerNodeTypes.swift:303-320 | the opcode switch of the arithmetic nodes; `SelectOperationMeaning` states it |
| NodeTypes.ArithmeticWriteTraps | JelloCompilerStatic/JelloCompilerNodeTypes.swift:288-301 | `write` traps exactly when there is no input or output, the first input is untyped, or its type has no opcode |
| NodeTypes.ArithmeticWriteChains | JelloCompilerStatic/JelloCompilerNodeTypes.swift:288-301 | one instruction per later connected input, chained left to right from the first input's value (or the zero constant) |
| NodeTypes.ArithmeticWriteResult | JelloCompilerStatic/JelloCompilerNodeTypes.swift:288-301 | every result id is fresh, and the output holds the last result, or the starting operand when no later input is connected |
| NodeTypes.ArithmeticWrite | JelloCompilerStatic/JelloCompilerNodeTypes.swift:288-301 | the arithmetic nodes' `write`; `ArithmeticWriteTraps`, `ArithmeticWriteChains` and `ArithmeticWriteResult` state it |
| NodeTypes.FoldInputsFresh | JelloCompilerStatic/JelloCompilerNodeTypes.swift:296-298 | the fold's result ids are fresh and increasing, so none is handed out twice |
| NodeTypes.FoldInputsOperands | JelloCompilerStatic/JelloCompilerNodeTypes.swift:296-298 | each right operand is the id reserved by the output feeding that input |
| Lexer.LiteralMatchLongest | Jello/Domain/ExpressionParser/MathExpressionLexer.swift:50 | the literal pattern's match is the longest prefix of the form `([0-9]*[.])?[0-9]+`, and none exists when it fails |
| Lexer.Lex | Jello/Domain/ExpressionParser/MathExpressionLexer.swift:116-145 | `mathExpressionLexer`; `LexSpellsInput`, `LexTakesFirstMatch`, `LexFailsWhereStuck`, `LexRejectsUnlexable` and `LexSpellInverse` give its meaning |
| Lexer.LexSpellsInput | Jello/Domain/ExpressionParser/MathExpressionLexer.swift:116-145 | lexing only cuts the input: the tokens spell it back exactly |
| Lexer.LexTakesFirstMatch | Jello/Domain/ExpressionParser/MathExpressionLexer.swift:120-137 | each token is a longest literal prefix, or else the first table entry matching there, and only when no literal matches |
| Lexer.LexLiteralsUnsigned | Jello/Domain/ExpressionParser/MathExpressionLexer.swift:50 | every literal read is unsigned: digits with at most one point |
| Lexer.LexRejectsUnlexable | Jello/Domain/ExpressionParser/MathExpressionLexer.swift:139-141 | an input holding a character no token is spelt with, a space for one, fails to lex |
| Lexer.Step | Jello/Domain/ExpressionParser/MathExpressionLexer.swift:122-137 | the token taken at the front has a positive length within the input, and none is taken exactly when neither the literal pattern nor any table pattern matches |
| Lexer.LexFailsWhereStuck | Jello/Domain/ExpressionParser/MathExpressionLexer.swift:120-141 | lexing fails exactly when the token-by-token walk reaches a position where no pattern matches; with `LexRejectsUnlexable` this gives both directions of when the lexer throws |
| Lexer.PatternsApart | Jello/Domain/ExpressionParser/MathExpressionLexer.swift:85-113 | no table pattern is a prefix of another, so table order only matters against the literal |
| Lexer.LexSpellInverse | Jello/Domain/ExpressionParser/MathExpressionLexer.swift:116-145 | lexing inverts spelling: separated tokens lex back to themselves |
| Lexer.LexInfixExample | JelloCompilerTests/JelloMathExpressionLexerTests.swift:18-21 | "x+y+z" lexes to [x, +, y, +, z] |
| Lexer.LexComplexExample | JelloCompilerTests/JelloMathExpressionLexerTests.swift:12-15 | "sin(3^(1.0+2))" lexes to [sin(, 3, ^, (, 1.0, +, 2, ), )] |
| Parser.Parse | Jello/Domain/ExpressionParser/MathExpressionParser.swift:32-80 | a parse consumes at least one token and stops only at the end, at a non-infix token, or at an operator binding looser than the minimum |
| Parser.ParsePrefix | Jello/Domain/ExpressionParser/MathExpressionParser.swift:33-59 | the prefix switch of `mathExpressionParser`: a success consumes at least one token and leaves a suffix; `ParseRejectsLead` and `SignBindsTightest` state its cases |
| Parser.ParseInfix | Jello/Domain/ExpressionParser/MathExpressionParser.swift:61-80 | the infix loop of `mathExpressionParser`: a success leaves a suffix at which the loop must stop for the given power; `ThreeOperands` states the grouping |
| Parser.Closed | Jello/Domain/ExpressionParser/MathExpressionParser.swift:16-30 | `processLeftBracket` and `processBracketedUnaryOperator`: a success consumes the closing bracket; `UnclosedFails` states the failure |
| Parser.ParseMathExpression | Jello/Domain/ExpressionParser/MathExpressionParser.swift:123-127 | succeeds iff lexing and parsing from power 0 succeed, with the parsed expression and whatever tokens follow ignored |
| Parser.ParsePrinted | Jello/Domain/ExpressionParser/MathExpressionParser.swift:32-80 | parsing a bracketed printing gives the expression back and leaves what followed |
| Parser.ThreeOperands | Jello/Domain/ExpressionParser/MathExpressionParser.swift:103-112 | in `a op1 b op2 c` the first pair groups first iff op2's tier is not above op1's: equal tiers associate left |
| Parser.SignBindsTightest | Jello/Domain/ExpressionParser/MathExpressionParser.swift:56-57 | a prefix sign binds tighter than every infix operator: `-x op y` negates only x |
| Parser.ParseRejectsLead | Jello/Domain/ExpressionParser/MathExpressionParser.swift:58-59 | an expression cannot start with *, /, ^, ) or the end, and those are the only tokens that cannot start one |
| Parser.UnclosedFails | Jello/Domain/ExpressionParser/MathExpressionParser.swift:16-30 | a bracket or function whose expression is not followed by a right bracket fails |
| Parser.ParseSpelledPrint | Jello/Domain/ExpressionParser/MathExpressionParser.swift:123-127 | the spelling of a well-formed expression's printing parses back to that expression |
| Parser.ParseInfixExample | JelloCompilerTests/JelloMathExpressionParserTests.swift:18-21 | "x+y+z" parses to ((x+y)+z) |
| Parser.ParseComplexExample | JelloCompilerTests/JelloMathExpressionParserTests.swift:12-15 | "sin(3*x^(1.0+2))" parses to sin(3 * (x ^ (1.0 + 2))) |
| Parser.TrailingTokensIgnored | Jello/Domain/ExpressionParser/MathExpressionParser.swift:123-127 | tokens after the expression are left unread, not rejected |
| Spirv.BuildHeader | JelloCompiler/SpirvGenerator.swift:27-35 | the header is five words long; its contents are stated by `HeaderReadsBack` |
| Spirv.HeaderReadsBack | JelloCompiler/SpirvGenerator.swift:23-35 | word 0 is the magic number 0x07230203, word 1 declares version 1.6 with zero outer bytes, word 2 (the generator) is 0, word 4 (the schema) is 0, and a reader recovers the bound from word 3 whatever follows the header |
| Spirv.BuildInstruction | JelloCompiler/SpirvGenerator.swift:51-56 | exactly `length()` words: one plus the id, the result id and the operands |
| Spirv.Length | JelloCompiler/SpirvGenerator.swift:51-56 | `length()`; `BuildInstruction` shows it is the number of words built |
| Spirv.FirstWord | JelloCompiler/SpirvGenerator.swift:93 | `length << 16 \| opCode`; `InstructionRoundTrip` and `FirstWordSplits` show what a reader recovers from it |
| Spirv.InstructionRoundTrip | JelloCompiler/SpirvGenerator.swift:92-103 | an instruction shorter than 2^16 words reads back as itself from `length<<16 \| opcode`, id, result id and operands |
| Spirv.BuildOutput | JelloCompiler/SpirvGenerator.swift:105-109 | the output is the header followed by every instruction's words, 5 plus the sum of the lengths |
| Spirv.SplitRecoversInstructions | JelloCompiler/SpirvGenerator.swift:105-109 | a reader walking the concatenated stream recovers each instruction's words |
| Spirv.BoolWord | JelloCompiler/SpirvGenerator.swift:59-61 | a bool operand is the word 1 or 0 |
| Spirv.AppendOperands | JelloCompiler/SpirvGenerator.swift:59-89 | every `appendOperand`: the opcode and ids are kept, the old operands come first, the new words after them, and the length grows by their number |
| Spirv.Int32RoundTrip | JelloCompiler/SpirvGenerator.swift:87-89 | the two's-complement word of an Int32 round-trips both ways, with the sign in the top bit |
| Spirv.Int32Word | JelloCompiler/SpirvGenerator.swift:87-89 | `UInt32(bitPattern:)`; `Int32RoundTrip` states it |
| Spirv.PackString | JelloCompiler/SpirvGenerator.swift:63-81 | ⌊n/4⌋+1 words, with byte k at bits 8·(k mod 4) of word ⌊k/4⌋ and zeros after the bytes |
| Spirv.AppendString | JelloCompiler/SpirvGenerator.swift:63-81 | `appendOperand(string:)`: the old operands are kept, followed by the packing of the string bytes, ⌊n/4⌋+1 words |
| Spirv.PackedEndsInNul | JelloCompiler/SpirvGenerator.swift:74-81 | the packing ends in a NUL byte, a whole zero word when n is a multiple of 4 |
| Spirv.StringRoundTrip | JelloCompiler/SpirvGenerator.swift:63-81 | a string without NUL bytes is read back by taking the packed bytes up to the first NUL |
| FrameLayout.FrameOffsetsNatural | JelloCompilerStatic/DefaultVertexShader.swift:27-54 | the shader's running offsets are 0, 64, 128, 192, 256, 272, 288, 352, 400, 464, 480, 496, 512, 516: the natural C layout of `FrameData` |
| FrameLayout.FrameTypesInOrder | JelloCompilerStatic/FrameData.swift:14-35 | the member types follow `FrameData`'s declaration order |
| FrameLayout.FrameMembersApart | JelloCompilerStatic/DefaultVertexShader.swift:27-62 | offsets increase, each member fits before the next, and each sits at an offset its alignment allows |
| FrameLayout.MatrixDecorationsExact | JelloCompilerStatic/DefaultVertexShader.swift:56-70 | exactly members 0, 1, 2, 3, 6, 7, 8 carry MatrixStride 16 and RowMajor, all at 16-byte-aligned offsets |
| FrameLayout.ShadersShareLayout | JelloCompilerStatic/JelloCompilerFunctions.swift:262-310 | the block is decorated Block and the variable NonWritable; the fragment shader repeats the vertex shader's layout exactly but binds it at descriptor set 0, binding 2 instead of the vertex shader's set and binding |
| FrameLayout.AccessChainsSelectNamed | JelloCompilerStatic/DefaultVertexShader.swift:188-227 | indices 8, 0, 6, 7 select modelMatrix, projectionMatrix, modelViewMatrix and normalMatrix, with matching pointer types |
| FrameLayout.InputsFollowVertexData | JelloCompilerStatic/DefaultVertexShader.swift:103-130 | the input at location k reads field k of `VertexData` from attribute k, in the attribute's format |
| FrameLayout.AttributesMatchVertexData | Jello/Views/JelloPreviewBaker.swift:58-83 | attribute offsets 0/16/32/48/64 are where the `VertexData` fields lie, they do not overlap, and stride 80 is the padded struct size |
| Varyings.VertexLocationsDistinct | JelloCompilerStatic/DefaultVertexShader.swift:136-170 | no two vertex outputs share a location |
| Varyings.AsWrittenNoneReceive | JelloCompilerStatic/JelloCompilerFunctions.swift:328-355 | as written, no fragment input receives the value it is named after |
| Varyings.AsWrittenReadsOneBefore | JelloCompilerStatic/JelloCompilerFunctions.swift:328-355 | each fragment input reads the vertex output one location before its own value |
| Varyings.AsWrittenWrongValues | JelloCompilerStatic/JelloCompilerFunctions.swift:328-355 | the fragment's world position is read at location 0, where `modelPos` is never stored, and its float2 texture coordinate from the float4 world position at location 1 |
| Varyings.CorrectedInputsReceive | JelloCompilerStatic/DefaultVertexShader.swift:141-170 | at the vertex shader's locations every fragment input receives its value |
| Varyings.CorrectedInputsCover | JelloCompilerStatic/DefaultVertexShader.swift:141-170 | every stored, located vertex output is read by the corrected fragment shader at its location and type |
| Varyings.CorrectedOnlyRelocates | JelloCompilerStatic/JelloCompilerFunctions.swift:328-355 | the fragment-side correction only moves each input one location on, keeping its value and type |
| Varyings.RelocatedMatchesTest | JelloCompilerTests/JelloDefaultVertexShaderTest.swift:48-55 | the vertex outputs without `modelPos`, which the entry point's interface list leaves out (JelloCompilerStatic/DefaultVertexShader.swift:173), and moved one location down are exactly the outputs the test expects: worldPos … normal at locations 0-4 |
| Varyings.RelocatedVertexFeedsFragment | JelloCompilerStatic/JelloCompilerFunctions.swift:328-355 | with the vertex outputs relocated, the fragment shader as written receives every value it names, and no two outputs share a location |
| Varyings.RelocatedVertexAllRead | JelloCompilerStatic/JelloCompilerFunctions.swift:328-355 | with the vertex outputs relocated, the fragment shader as written reads every located output at its location and type |
| Varyings.RelocateKeepsListed | JelloCompilerStatic/DefaultVertexShader.swift:173 | relocating keeps exactly the outputs the interface lists, each moved one location down |
| TypingUtils.CompatibilityIsWildcardRule | Jello/Support/TypingUtils.swift:54-107 | the switch decides exactly: either side `any`, equal types, or one a wildcard standing for the other |
| TypingUtils.CompatibilitySymmetric | Jello/Support/TypingUtils.swift:54-107 | compatibility is symmetric and reflexive, and `any` is compatible with everything |
| TypingUtils.IsPortTypeCompatible | Jello/Support/TypingUtils.swift:54-107 | `isPortTypeCompatible`; `CompatibilityIsWildcardRule`, `CompatibilitySymmetric` and `WildcardCompatibility` give its meaning |
| TypingUtils.WildcardCompatibility | Jello/Support/TypingUtils.swift:62-105 | `anyFloat` meets exactly the floats, `anyTexture` the textures, `anyMaterial` the slab material; distinct non-wildcards are incompatible |
| TypingUtils.MostSpecificTypeMeets | Jello/Support/TypingUtils.swift:109-128 | for compatible types the most specific type admits exactly what both admit and does not depend on argument order |
| TypingUtils.AsWrittenBasics | Jello/Support/TypingUtils.swift:109-128 | the switch returns one of its arguments: x for (x, x), the other side when the first is `any`, the first when neither is a wildcard |
| TypingUtils.GetMostSpecificTypeAsWritten | Jello/Support/TypingUtils.swift:109-128 | `getMostSpecificType` as written; `AsWrittenBasics`, `AsWrittenDiffersExactly` and `AsWrittenLosesSpecificity` state it |
| TypingUtils.AsWrittenDiffersExactly | Jello/Support/TypingUtils.swift:109-128 | on compatible types the switch differs from the most specific type in exactly three cases |
| TypingUtils.AsWrittenLosesSpecificity | Jello/Support/TypingUtils.swift:109-128 | the switch gives `any` for (anyFloat, any) but anyFloat for (any, anyFloat), and anyMaterial for (anyMaterial, slabMaterial) |
| Canvas.ViewWorldViewRoundTrip | Jello/Support/CanvasTransformEnvironmentKey.swift:22-28 | for a non-zero scale, view to world to view is the identity |
| Canvas.WorldViewWorldRoundTrip | Jello/Support/CanvasTransformEnvironmentKey.swift:22-28 | for a non-zero scale, world to view to world is the identity |
| Canvas.SizeRoundTrips | Jello/Support/CanvasTransformEnvironmentKey.swift:30-36 | the size conversions are mutual inverses and ignore the pan position |
| Canvas.DefaultIsIdentity | Jello/Support/CanvasTransformEnvironmentKey.swift:41 | the default transform leaves points and sizes where they are |
| Canvas.ViewToWorld | Jello/Support/CanvasTransformEnvironmentKey.swift:22-24 | `transform(viewPosition:)`: defined exactly when the scale is non-zero; `ViewWorldViewRoundTrip` and `WorldViewWorldRoundTrip` state it is the inverse of `WorldToView` |
| Canvas.ViewToWorldSize | Jello/Support/CanvasTransformEnvironmentKey.swift:30-32 | `transform(viewSize:)`: defined exactly when the scale is non-zero; `SizeRoundTrips` states it |
| Canvas.WorldToView | Jello/Support/CanvasTransformEnvironmentKey.swift:26-28 | `transform(worldPosition:)`; the round-trip lemmas state it |
| Canvas.WorldToViewSize | Jello/Support/CanvasTransformEnvironmentKey.swift:34-36 | `transform(worldSize:)`; `SizeRoundTrips` states it |
| Color.Hue2Rgb | Jello/Math/ColorExtensions.swift:11-18 | the hue is clamped to [0, 1] and every component lies in [0, 1] |
| Color.Hue2RgbIsHueCircle | Jello/Math/ColorExtensions.swift:11-18 | the components follow the sixth-by-sixth hue circle of the clamped hue |
| Color.HueEndsAreRed | Jello/Math/ColorExtensions.swift:11-18 | hue 0 and hue 1 are both red, and hues outside [0, 1] are clamped |
| Color.HueColourExtremes | Jello/Math/ColorExtensions.swift:13-17 | a hue colour's largest component is 1 and its smallest 0 |
| Color.HsbEdges | Jello/Math/ColorExtensions.swift:20-25 | saturation 0 gives the grey (b, b, b); full saturation and brightness give the hue colour |
| Color.HsbMeaning | Jello/Math/ColorExtensions.swift:20-25 | for s in [0, 1] and b ≥ 0 every component lies in [0, b], the largest is b, and the smallest is b·(1 − s) |
| Color.Hsb2Rgb | Jello/Math/ColorExtensions.swift:20-25 | `hsb2rgb`; `HsbEdges` and `HsbMeaning` state it |
| Splines.MakeTangent | Jello/Domain/ClampedSplines.swift:14-21 | the gradient lies in [-50, 50]; a weight is kept (clamped to [0, 1]) iff one is given and it is not within 2·ulpOfOne of 1/3 |
| Splines.TangentOfGradient | Jello/Domain/ClampedSplines.swift:23-25 | `init(gradient:)` has no weight and a clamped gradient |
| Splines.MakeTangentNormalises | Jello/Domain/ClampedSplines.swift:14-21 | values already in range are stored as given, and rebuilding a stored tangent changes nothing |
| Splines.DefaultWeightDropped | Jello/Domain/ClampedSplines.swift:17-20 | the default weight and any weight near it are dropped, giving the same tangent as no weight |

## Left out

- SPIR-V emission through the `#document`, `#id` and `#globalDeclaration` macros is not modelled: the `compileToSpirv` body, node `install` and `write` emission, `declareType`, and the default fragment shader. They are a macro library with global state. `#id` is modelled only as a fresh-id counter, and `write` only as the instruction list and ids of the arithmetic fold.
- `compileMSLShader` is not modelled: it is a foreign call into SPIRV-Cross.
- Float operands (`appendOperand(float:)`) are not modelled: they are IEEE bit patterns of floating-point values, which are outside the model.
- The older duplicate snapshots of the compiler files are not modelled. They are superseded by the files cited above.
- Physics, SwiftUI views, SwiftData models, project management, mesh loading and the Metal preview baker are not modelled: they are UI, persistence, I/O and concurrency. From the baker, only the vertex descriptor's constants are taken.
- The CPU byte layout of `FrameData`/`VertexData` is not modelled as compiled. It is modelled as the natural layout of the simd types, because the C compiler's actual layout is not visible.
- The frame-data descriptor set and binding of the vertex shader are taken at the initial values of the global variables in `JelloCompilerStatic/CompilerConstants.swift`. Code that changes them is not modelled.
- Floating-point values are modelled as exact reals:
  - the canvas transform, HSB conversion and spline tangents;
  - the constant `1/3`, which is exact;
  - `ulpOfOne`, which is 2^-23.
  Rounding is not modelled.
- Canvas.ViewToWorld: a zero scale yields `None` where the source yields infinities or NaN, because reals have no infinity.
- Canvas.ViewToWorldSize: a zero scale yields `None` in the same way.
- Literal strings are taken as their UTF-8 bytes. The `Data(string.utf8)` conversion itself is not modelled.
- Spirv.BuildInstruction: requires the length to fit in a `UInt32`, because the source's sum traps otherwise. The shift drops the length's bits above 16, so the length is recovered only below 2^16 words, as `FirstWordSplits` states.
- Spirv.InstructionRoundTrip: assumes opcodes below 2^16, as every SPIR-V opcode is.
- Lexer: a literal is kept as its digit text, not converted with `Float(...)`. The conversion cannot fail on the literal pattern's matches.
- Labels.LabelBranches: bounded by `fuel`. On a graph with a cycle the source loops forever, and the model returns `OutOfFuel` instead.
- Ordering.TopologicallyOrder: bounded by `fuel` in the same way, with `None` when the fuel runs out.
- Labels.LabelBranchesTags: proved for graphs whose references resolve. A dangling reference is a force-unwrap trap in the source and is excluded by the precondition.
- Solver.PropagateKeepsSolutions: the `apply` call at `JelloCompilerStatic/JelloCompilerFunctions.swift:81` passes a `port:` and `type:` that the protocol at `JelloCompilerStatic/JelloCompilerTypes.swift:47` does not have. Propagation uses the protocol's meaning, with domains threaded through.
- Concretise.ConcretiseSound: stated for graphs closed under producers (every producer of a connected input is listed). For any other graph the edge constraint mentions an unlisted port whose domain is missing, and the source's behaviour there depends on dictionary defaults that the model states only through the trap outcome.
- Constraints: a constraint's `Set<UUID>` of ports is modelled as a duplicate-free sequence, so the iteration order is a parameter.
- ClampedSplineControlPoint's initialiser is modelled by the `Splines.ControlPoint` constructor, which stores its arguments unchanged. It has no contract of its own.

## Findings

| source | as written | input that shows it | evidently intended | confidence | as-written member | corrected member |
|---|---|---|---|---|---|---|
| JelloCompilerStatic/JelloCompilerFunctions.swift:205-216 | the branch nodes are taken from the graph list with duplicates, and each one's branches are re-partitioned on every visit; a second visit stores `[]` over the branch's nodes | an if-else node listed twice, which the topological order produces when one producer feeds two of its inputs; node 1 tagged only with its true branch | each branch node processed once, so its branches keep their nodes | not executed | Decompose.AsWrittenEmptiesBranch | Decompose.CorrectedKeepsBranch |
| JelloCompilerStatic/JelloCompilerFunctions.swift:328-355 | the fragment shader reads worldPos at location 0, texCoord at 1, tangent at 2, bitangent at 3, normal at 4 | the vertex shader (JelloCompilerStatic/DefaultVertexShader.swift:141-170) puts the never-stored modelPos at 0 and worldPos at 1 … normal at 5 | the vertex side numbered from 0 without `modelPos`: the vertex shader's test (JelloCompilerTests/JelloDefaultVertexShaderTest.swift:48-55) expects worldPos … normal at locations 0-4, and the entry point's interface (JelloCompilerStatic/DefaultVertexShader.swift:173) leaves `modelPos` out; moving the fragment inputs to 1-5 restores the match as well (`CorrectedOnlyRelocates`, `CorrectedInputsReceive`); `AsWrittenWrongValues` names the values read instead | not executed | Varyings.AsWrittenNoneReceive | Varyings.RelocatedVertexFeedsFragment |
| Jello/Support/TypingUtils.swift:109-128 | `getMostSpecificType` treats only `any`, `anyFloat` and `anyTexture` as wildcards on the first side before checking the second side for `any` | (anyFloat, any) gives `any`; (anyMaterial, slabMaterial) gives `anyMaterial` | the more specific type: anyFloat and slabMaterial | not executed | TypingUtils.AsWrittenLosesSpecificity | TypingUtils.MostSpecificTypeMeets |
