# Verified models of the Intel Quantum Passes

The repository compiles quantum kernels: Clang extensions rewrite the operators of quantum
expressions, LLVM passes rewrite the gates of quantum basic blocks, build the dependency graph
of functional expressions and place program qubits on physical ones, and its sample programs
build circuits for the compiler to work on. This project models the parts of it that carry an
algorithm, and proves what they are for.

**Circuits.** A state of n qubits gives every basis state an amplitude in the ring R[w] with
w^4 = -1, which maps onto the complex numbers and has exact names for the phases of T and S and
for 1/sqrt 2 (`Amplitudes`). Gates are controlled 2x2 matrices (`Circuits`), and gates that the
passes do not know are arbitrary functions on states (`Gates`). On this meaning stand: the
iterator over a block and the two passes that rewrite blocks in place (`QbbIter`, `GatePasses`,
`GateRewriting`, `ToffoliMeaning`); the circuit that an example pass builds for the Toffoli gate
(`ToffoliCircuit`); and three programs for any number of qubits: control with ancillas
(`MultiControl`), GHZ states (`Ghz`), teleportation over lists (`Teleport`).

**The FLEQ graph.** `FleqSpec` says what each operation does to the graph as a value;
`FleqBuilding`, `FleqDeath`, `FleqAcyclic` and `FleqReplace` prove what addToFLEQGraph,
setNodesAsDead and replaceNodeWith establish; `FleqRuns` proves what holds of every graph of
every run; `FleqGraph` is the graph on the heap, nodes that point at each other and are updated
in place, each method proved against its specification.

**The QExpr rewriter.** `QExprSyntax` is the part of the syntax tree that the plugin looks at,
`QExprMeaning` gives operators and calls a meaning as time-ordered gates, `QExprRewriting` is
AnalyzeExpr, `QExprOperators` says which call each operator becomes, `QExprQueries` looks for
things in the arguments of calls, `QExprTraversal` and `QExprFunctions` are the traversal of
expressions and bodies, `QExprCompleteness` says what is left after it, and `QExprVisitor` is the
visitor with its flag and counter.

**Custom gates and placement.** `Matrices`, `CustomGates`, `UnitarityTest` and `GateAnnotations`
model the validation of a gate's matrix, with `BasisStates` on how many entries it has.
`Quicksort`, `CustomSubset` and `QubitMaps` are helpers of qubit placement, `PlacementSearch` is the
local search for a good placement, with `SwapCosts` on what a swap costs and `Sums` on finite sums,
and `LocalPlacement` puts them together for one block. `Options` is shared.

Where the code does not do what its comments or messages say, the code is modelled and the exact
condition under which both agree is proved:

- `UnitarityTest.VerdictRightIffSymmetric`: the test for unitarity reads the second factor without
  transposing it, so of the matrices that are unitary or pass, it is right on the symmetric ones
  only. `UnitarityTest.PauliYIsRejected` is a gate that is rejected, and
  `UnitarityTest.ShearIsAccepted` a matrix that is accepted. At the tolerance of the code,
  `UnitarityTest.AcceptedIsAlmostSymmetric` and `UnitarityTest.AlmostSymmetricIsAccepted` bound the
  unitary matrices that pass from both sides, and `UnitarityTest.AcceptedSymmetricIsAlmostUnitary`
  and `UnitarityTest.AcceptedUnitaryIsAlmostSymmetric` bound how far those that pass are from being
  unitary.
- `QubitMaps.HonouredIffPlaceholdersLast`: a placeholder in the mapping of a register stops the
  entries after it from being used, as in `QubitMaps.PlaceholderFirst`.
- `QubitMaps.PlacesTheVirtual`: the number of program qubits is used as a bound on their ids, so
  the ids to place are the right ones exactly if no excluded id is below it;
  `QubitMaps.HolesCanFail` is a case in which they do not fit.
- `PlacementSearch.StuckStartIff`: the search takes an entry of an empty table if it starts where no
  pair that may be swapped is in use, as in `PlacementSearch.LonelyStart`. It can start there
  exactly if there is a lonely qubit for every program qubit, and it cannot go wrong otherwise
  (`PlacementSearch.LocalSearch.Search`).
- `QExprFunctions.LiteralPower`: a literal exponent is cast to 32 bits;
  `QExprFunctions.LargePowerIsLost` is one that does not fit.
- `QExprCompleteness.TraverseComplete`: an operator under two layers of wrapping is accepted
  without being rewritten, as in `QExprCompleteness.MissedStaysRaw`; so is a conditional operator
  while cIf is not declared, as in `QExprCompleteness.UndeclaredStaysRaw`.
- `FleqReplace.LeftUnneededIff`: a node that nothing needs stays live when it replaces one without
  a live parent, as in `FleqReplace.AbandonedStaysUnneeded`, unless a dead node takes it along, as in
  `FleqReplace.DeadAboveTakesAlong`; in a quiet graph none does.
- `ToffoliCircuit.CircuitIsToffoliOnNumbersIff`: the example circuit is the Toffoli gate up to a
  phase (`ToffoliCircuit.CircuitIsToffoliUpToPhase`), and acts as the gate only on some states;
  `ToffoliCircuit.CircuitDiffers` is one on which it does not.

`dafny verify dfyconfig.toml` checks the project.

## Model

| member | source | states |
|---|---|---|
| `QbbIter.QBBIter.Advance` | IntelQuantum/QuantumPasses/src/QuantumAnalysis/QuantumIterator.cpp:419-429 | operator++ moves to the next gate and stays at the end once there |
| `QbbIter.QBBIter.Retreat` | IntelQuantum/QuantumPasses/src/QuantumAnalysis/QuantumIterator.cpp:431-441 | operator-- moves to the gate before and stays at the beginning once there |
| `QbbIter.QBBIter.GotoNextGateInstance` | IntelQuantum/QuantumPasses/src/QuantumAnalysis/QuantumIterator.cpp:488-498 | finds the first gate of the kind strictly after the cursor: none is skipped, and without one the cursor ends past the block |
| `QbbIter.QBBIter.GotoFirstGateInstance` | IntelQuantum/QuantumPasses/src/QuantumAnalysis/QuantumIterator.cpp:544-549 | finds the first gate of the kind in the block, wherever the cursor was |
| `QbbIter.QBBIter.InsertGate` | IntelQuantum/QuantumPasses/src/QuantumAnalysis/QuantumIterator.cpp:721-863 | inserts before the cursor and leaves the cursor on the new gate; a list of operands or parameters of the wrong length is refused and changes nothing |
| `QbbIter.QBBIter.RemoveGate` | IntelQuantum/QuantumPasses/src/QuantumAnalysis/QuantumIterator.cpp:647-703 | removes the gate under the cursor and leaves the cursor on the following one, whatever it returns; at the end it refuses |
| `ToffoliMeaning.PhasesAddUp` | IntelQuantum/QuantumPasses/src/QuantumCompile/DecomposeToffoli.cpp:52-114 | the phases of the two blocks of the expansion cancel on all bit patterns but 111, where they make -1 |
| `ToffoliMeaning.MiddleTrace` | IntelQuantum/QuantumPasses/src/QuantumCompile/DecomposeToffoli.cpp:76-111 | the nine gates between the Hadamards return every basis state to itself with the first phase |
| `ToffoliMeaning.TailTrace` | IntelQuantum/QuantumPasses/src/QuantumCompile/DecomposeToffoli.cpp:54-70 | the four gates on the controls do the same with the second phase |
| `ToffoliMeaning.ExpansionIsToffoli` | IntelQuantum/QuantumPasses/src/QuantumCompile/DecomposeToffoli.cpp:31-114 | the 15 gates act exactly as the Toffoli gate on every state of a register of any size, for any three distinct qubits |
| `GateRewriting.RewriteKeepsMeaning` | IntelQuantum/QuantumPasses/src/QuantumCompile/DecomposeToffoli.cpp:41-127 | a block with any number of rewritten gates among gates of any meaning acts on every state as it did |
| `GateRewriting.HZHIsX` | ExamplePassLibraries/ExamplePassesLibrary/src/XToHZHPass.cpp:51-60 | H Z H acts exactly as X |
| `GateRewriting.RewriteShape` | IntelQuantum/QuantumPasses/src/QuantumCompile/DecomposeToffoli.cpp:41-127 | no rewritten gate is left, and the block has grown by 14 for each Toffoli or 2 for each X |
| `GateRewriting.OthersStay` | IntelQuantum/QuantumPasses/src/QuantumCompile/DecomposeToffoli.cpp:41-127 | every other gate is still there, at its place plus the growth before it |
| `GatePasses.InsertExpansion` | IntelQuantum/QuantumPasses/src/QuantumCompile/DecomposeToffoli.cpp:48-114 | the backward insertions, which stop at the first refusal, put the 15 gates in order in front of the cursor and never fail |
| `GatePasses.ReplaceToffoli` | IntelQuantum/QuantumPasses/src/QuantumCompile/DecomposeToffoli.cpp:44-126 | one turn of the loop replaces the Toffoli gate under the cursor by its expansion; the gate is found again, so the error branch is not taken |
| `GatePasses.NextStanding` | IntelQuantum/QuantumPasses/src/QuantumCompile/DecomposeToffoli.cpp:127 | the search that starts on the new gates passes all of them and the gates that stay, and stops at the next gate to rewrite |
| `GatePasses.DecomposeAllToffoli` | IntelQuantum/QuantumPasses/src/QuantumCompile/DecomposeToffoli.cpp:41-128 | the pass terminates on every block and leaves it with each Toffoli gate replaced in place and nothing else changed |
| `GatePasses.ConvertXToHZH` | ExamplePassLibraries/ExamplePassesLibrary/src/XToHZHPass.cpp:33-73 | the same for X and H Z H |
| `ToffoliCircuit.CircuitIsToffoliUpToPhase` | ExamplePassLibraries/ExamplePassesLibrary/src/ToffoliWithCircuitPass.cpp:50-80 | every amplitude after the example circuit is the one after the Toffoli gate turned by w^(2(x xor y) - x - z) for output bits x, y, z |
| `ToffoliCircuit.CircuitIsToffoliIff` | ExamplePassLibraries/ExamplePassesLibrary/src/ToffoliWithCircuitPass.cpp:50-80 | on a state over R[w], circuit and gate agree exactly if every basis state with an amplitude has a zero on the second control and equal bits on the other two qubits |
| `ToffoliCircuit.CircuitIsToffoliOnNumbersIff` | ExamplePassLibraries/ExamplePassesLibrary/src/ToffoliWithCircuitPass.cpp:50-80 | the same for the complex numbers that the amplitudes stand for: the vectors agree exactly if all amplitudes other than 0 are on such basis states |
| `ToffoliCircuit.CircuitOnBasisState` | ExamplePassLibraries/ExamplePassesLibrary/src/ToffoliWithCircuitPass.cpp:50-80 | so on a single basis state they agree exactly if it has these bits |
| `ToffoliCircuit.CircuitDiffers` | ExamplePassLibraries/ExamplePassesLibrary/src/ToffoliWithCircuitPass.cpp:73-78 | and on the basis state 010 they do not, as complex vectors either |
| `MultiControl.ControlWAncMeaning` | test-samples/FLEQ_test_source/v2_qexpr_control_on_local.cpp:13-26 | for any number of controls and MAX at least 2, on ancillas that are 0: the expression applies e exactly where all controls are 1 and leaves every ancilla 0 |
| `MultiControl.ComputeUseUncompute` | test-samples/FLEQ_test_source/v2_qexpr_control_on_local.cpp:14-19 | setting an ancilla to the conjunction, using it and unsetting it is a control on the conjunction |
| `MultiControl.ControlWAncSize` | test-samples/FLEQ_test_source/v2_qexpr_control_on_local.cpp:13-26 | 2a + 1 control calls for a ancillas, none on more than MAX qubits |
| `MultiControl.AncillaCount` | test-samples/FLEQ_test_source/v2_qexpr_control_on_local.cpp:21-26 | the number of ancillas is ceil((n - MAX)/(MAX - 1)) for n > MAX controls |
| `Ghz.PrepQubits` | test-samples/ghz.cpp:37-40 | the loop prepares every qubit of the list, in order |
| `Ghz.GHZ` | test-samples/ghz.cpp:42-47 | the loops emit exactly the preparations, the Hadamard and the chain of CNOTs |
| `Ghz.AfterChain` | test-samples/ghz.cpp:45-46 | after k turns of the second loop the amplitudes are where the first k + 1 qubits are equal and the rest are 0 |
| `Ghz.GhzState` | test-samples/ghz.cpp:42-47 | for every N and every start state: the amplitude that the qubits had when prepared, over sqrt 2, where all N bits are equal, and nothing elsewhere; other qubits keep their bits |
| `Ghz.GhzRegister` | test-samples/ghz.cpp:42-47 | on a register of exactly N qubits, equal amplitudes on all zeros and all ones and zero elsewhere |
| `Teleport.BellsAt` | test-samples/FLEQ_test_source/teleport_map_bind_bug.cpp:17-22 | map of bell00 over the lists, for every list length: amplitudes where each pair agrees, each over sqrt 2 |
| `Teleport.AlicesAt` | test-samples/FLEQ_test_source/teleport_map_bind_bug.cpp:26-31 | map of alice, for every vector of outcomes: where the amplitudes come from, and with what sign |
| `Teleport.BobsAt` | test-samples/FLEQ_test_source/teleport_map_bind_bug.cpp:34-37 | map of bob: the corrections, applied position by position |
| `Teleport.Teleported` | test-samples/FLEQ_test_source/teleport_map_bind_bug.cpp:5-37 | for every list length, every joint state with any other qubits and every vector of outcomes, the amplitude that had the bits on the sources has them on the targets, up to the factor 2^-N |
| `FleqSpec.AddTo` | IntelQuantum/QuantumPasses/src/QuantumAnalysis/QuantumFLEQGraph.cpp:40-57 | keeps the nodes, their types and every expanded list, and ends although the program may have cycles of dependencies |
| `FleqBuilding.AddToExact` | IntelQuantum/QuantumPasses/src/QuantumAnalysis/QuantumFLEQGraph.cpp:40-57 | every list that the call fills in is exactly the list of dependencies, in order; the others are untouched |
| `FleqBuilding.AddToBalanced` | IntelQuantum/QuantumPasses/src/QuantumAnalysis/QuantumFLEQGraph.cpp:49-53 | p lists c as a dependency as often as c lists p as a parent, plus the edges that are pending on the call stack |
| `FleqBuilding.AddToSettles` | IntelQuantum/QuantumPasses/src/QuantumAnalysis/QuantumFLEQGraph.cpp:44-54 | with any call stack below it, the call leaves every node off the stack complete, and its dependencies too |
| `FleqBuilding.AddToTypes` | IntelQuantum/QuantumPasses/src/QuantumAnalysis/QuantumFLEQGraph.cpp:26-57 | every node that the call makes has the type that characterizeNodeType gives its value |
| `FleqBuilding.AddToReaches` | IntelQuantum/QuantumPasses/src/QuantumAnalysis/QuantumFLEQGraph.cpp:40-57 | and every such node is that of a value to which a chain of dependencies leads from the argument |
| `FleqBuilding.ReachableIsComplete` | IntelQuantum/QuantumPasses/src/QuantumAnalysis/QuantumFLEQGraph.cpp:40-57 | everything that a chain of dependencies without a dead node reaches from the argument has a node of the type that characterizeNodeType gives the value, with exactly the dependencies that go with it; the chain is read off the program, not off the graph |
| `FleqBuilding.AddToEmptyIsBuilt` | IntelQuantum/QuantumPasses/include/IntelQuantumPasses/QuantumAnalysis/QuantumFLEQGraph.h:129-132 | a new graph has a node exactly for the values that dependencies of the root lead to, each of the right type with exactly its dependencies, and every edge is in both lists, equally often |
| `FleqDeath.MarkDeadExact` | IntelQuantum/QuantumPasses/src/QuantumAnalysis/QuantumFLEQGraph.cpp:98-120 | on any graph without cycles: what the frontiers mark is exactly what the first one calls for, a node being called for if it is in the first frontier or a child of one that is, and all its parents are dead or called for; those nodes are dead afterwards, and no others that were not |
| `FleqDeath.DeathsAreUnique` | IntelQuantum/QuantumPasses/src/QuantumAnalysis/QuantumFLEQGraph.cpp:98-120 | in a graph without cycles what is called for is determined by the graph and the first frontier alone, whatever nodes are left aside |
| `FleqDeath.MarkDeadMeaning` | IntelQuantum/QuantumPasses/src/QuantumAnalysis/QuantumFLEQGraph.cpp:98-120 | the same; and in a graph that is quiet but for the first frontier, no death comes down by nodes that were dead before, and the graph is quiet afterwards |
| `FleqAcyclic.AcyclicIffRanked` | IntelQuantum/QuantumPasses/src/QuantumAnalysis/QuantumFLEQGraph.cpp:98-120 | a graph has no cycle exactly if some rank falls along every edge, which is why the frontiers end |
| `FleqReplace.RewiredShape` | IntelQuantum/QuantumPasses/src/QuantumAnalysis/QuantumFLEQGraph.cpp:68-91 | FN is replaced position by position in the lists of its parents, its own parent list is emptied, and only the new node's parent list grows |
| `FleqReplace.RewiredBalance` | IntelQuantum/QuantumPasses/src/QuantumAnalysis/QuantumFLEQGraph.cpp:59-91 | after the rewiring every edge is counted alike in both directions, but for those that were not before and the one from FN to the new node whose entry was overwritten |
| `FleqReplace.RewiredStaysAcyclic` | IntelQuantum/QuantumPasses/src/QuantumAnalysis/QuantumFLEQGraph.cpp:68-91 | no cycle appears if the new node reaches neither FN nor a parent of FN |
| `FleqReplace.ReplaceExact` | IntelQuantum/QuantumPasses/src/QuantumAnalysis/QuantumFLEQGraph.cpp:59-120 | in any graph without cycles, quiet or not, and whether or not FN has a live parent: what is marked is exactly what the rewired graph calls for, FN among it, and only nodes below FN or below the new node; the parents of FN stay as they were |
| `FleqReplace.ReplaceMeaning` | IntelQuantum/QuantumPasses/src/QuantumAnalysis/QuantumFLEQGraph.cpp:59-96 | so a node is dead afterwards exactly if it was before or is called for, and the new node stays live if FN has a live parent; in a quiet graph no death comes down by nodes that were dead before |
| `FleqReplace.LeftUnneededIff` | IntelQuantum/QuantumPasses/src/QuantumAnalysis/QuantumFLEQGraph.cpp:59-96 | the new node is left live without a live parent exactly if it was before, FN has no live parent, and no dead node that is marked again lists it |
| `FleqReplace.QuietSpares` | IntelQuantum/QuantumPasses/src/QuantumAnalysis/QuantumFLEQGraph.cpp:98-120 | in a quiet graph there is no such dead node |
| `FleqReplace.DeadAboveTakesAlong` | IntelQuantum/QuantumPasses/src/QuantumAnalysis/QuantumFLEQGraph.cpp:59-96 | a graph of two nodes with one: a dead node is replaced by its live child, which dies with it |
| `FleqReplace.ReplaceQuietIff` | IntelQuantum/QuantumPasses/src/QuantumAnalysis/QuantumFLEQGraph.cpp:59-120 | a quiet graph stays quiet exactly if the new node is not left so below parents of FN |
| `FleqReplace.AbandonedStaysUnneeded` | IntelQuantum/QuantumPasses/src/QuantumAnalysis/QuantumFLEQGraph.cpp:59-96 | a graph of three nodes in which a dead child of a dead node is replaced and the new node stays live below a dead parent |
| `FleqRuns.AddToHangs` | IntelQuantum/QuantumPasses/src/QuantumAnalysis/QuantumFLEQGraph.cpp:40-57 | every node that the call makes is live and, but for its argument, has a live parent |
| `FleqRuns.StepKeeps` | IntelQuantum/QuantumPasses/src/QuantumAnalysis/QuantumFLEQGraph.cpp:40-120 | every call keeps the edges counted, but for some out of dead nodes, and every live node on a live parent or wanted for itself; a replaced node is dead afterwards |
| `FleqRuns.RunHolds` | IntelQuantum/QuantumPasses/include/IntelQuantumPasses/QuantumAnalysis/QuantumFLEQGraph.h:129-132 | so this holds of every graph of every run of additions and replacements, of the root and of nodes with dead parents too |
| `FleqRuns.RunTypes` | IntelQuantum/QuantumPasses/src/QuantumAnalysis/QuantumFLEQGraph.cpp:26-120 | in every graph of every run a node is dead or of the type that characterizeNodeType gives its value |
| `FleqRuns.StepQuietIff` | IntelQuantum/QuantumPasses/src/QuantumAnalysis/QuantumFLEQGraph.cpp:40-120 | a call on a quiet graph leaves it quiet exactly if it does not replace a node without live parents, but with parents, by one that nothing needs |
| `FleqRuns.RunStaysQuiet` | IntelQuantum/QuantumPasses/src/QuantumAnalysis/QuantumFLEQGraph.cpp:40-120 | so a run without such calls is quiet throughout: a child of a dead node is dead or has a live parent |
| `FleqRuns.LiveEdgesCountedAlike` | IntelQuantum/QuantumPasses/src/QuantumAnalysis/QuantumFLEQGraph.cpp:26-96 | in every graph of every run a live node lists a child exactly as often as the child lists it |
| `FleqRuns.LiveIsReachable` | IntelQuantum/QuantumPasses/src/QuantumAnalysis/QuantumFLEQGraph.cpp:59-120 | in every graph of every run that has no cycle, a live node hangs by a chain of live nodes from a value that was added for itself or took the place of a node without live parents |
| `FleqGraph.FLEQGraph.constructor` | IntelQuantum/QuantumPasses/include/IntelQuantumPasses/QuantumAnalysis/QuantumFLEQGraph.h:129-132 | the new graph is the empty one to which the value was added: complete nodes for exactly what dependencies of the root lead to |
| `FleqGraph.FLEQGraph.GetNode` | IntelQuantum/QuantumPasses/src/QuantumAnalysis/QuantumFLEQGraph.cpp:19-24 | the node of the value, or null exactly if there is none |
| `FleqGraph.FLEQGraph.GetOrInsertNode` | IntelQuantum/QuantumPasses/src/QuantumAnalysis/QuantumFLEQGraph.cpp:26-38 | returns the one node of the value; a new one has the type that characterizeNodeType gives the value and empty lists, and nothing changes if there was one |
| `FleqGraph.FLEQGraph.AddToFLEQGraph` | IntelQuantum/QuantumPasses/src/QuantumAnalysis/QuantumFLEQGraph.cpp:40-57 | the recursion on the heap does to the graph what its specification does, keeps all nodes and their types, and adds fresh ones only, each of the type of its value |
| `FleqGraph.FLEQGraph.RewireParent` | IntelQuantum/QuantumPasses/src/QuantumAnalysis/QuantumFLEQGraph.cpp:72-88 | one parent's list and the entries it leaves in the new node's parent list, the first of which may overwrite FN |
| `FleqGraph.FLEQGraph.ReplaceNodeWith` | IntelQuantum/QuantumPasses/src/QuantumAnalysis/QuantumFLEQGraph.cpp:59-96 | the whole replacement on the heap does what its specification does |
| `FleqGraph.FLEQGraph.AllParentsDead` | IntelQuantum/QuantumPasses/src/QuantumAnalysis/QuantumFLEQGraph.cpp:106-109 | the loop over the parents decides whether a live one is left |
| `FleqGraph.FLEQGraph.SetNodesAsDead` | IntelQuantum/QuantumPasses/src/QuantumAnalysis/QuantumFLEQGraph.cpp:98-120 | the recursion over frontiers on the heap does what its specification does |
| `QExprSyntax.Register` | IntelQuantum/ClangQuantumExtensions/src/RewriteQExpr.cpp:520-552 | a function that returns a QExpr is entered under both names, and no entry is overwritten |
| `QExprRewriting.CallMeaning` | IntelQuantum/ClangQuantumExtensions/src/RewriteQExpr.cpp:184-215 | a call to join, power, bind, invert or cIf that is built from adapted arguments means what the operator means |
| `QExprRewriting.AnalyzeKeepsTrace` | IntelQuantum/ClangQuantumExtensions/src/RewriteQExpr.cpp:152-473 | whether or not it fails, what the analysis returns and what it leaves in the tree apply the same gates in the same order as the expression, for every meaning of leaves, calls and conditions, if literals fit where it casts them |
| `QExprRewriting.FlagMeansFault` | IntelQuantum/ClangQuantumExtensions/src/RewriteQExpr.cpp:152-473 | unless the plugin dereferences null on the way, the flag ends up raised exactly if it was, or if some analyzed position has a fault: a binary operator other than * + ^ >> <<, a unary one other than ! - ~, one whose function is not declared, a call that does not return a QExpr, or another non-QExpr |
| `QExprRewriting.StumblesOnConditionals` | IntelQuantum/ClangQuantumExtensions/src/RewriteQExpr.cpp:303-335 | the analysis does not dereference null if cIf is declared, nor if it meets no conditional operator |
| `QExprRewriting.AnalyzeSettles` | IntelQuantum/ClangQuantumExtensions/src/RewriteQExpr.cpp:152-473 | without an error the result is one that a second analysis accepts |
| `QExprRewriting.SettledStays` | IntelQuantum/ClangQuantumExtensions/src/RewriteQExpr.cpp:152-473 | and that second analysis leaves it alone |
| `QExprOperators.WhatIsAFault` | IntelQuantum/ClangQuantumExtensions/src/RewriteQExpr.cpp:187-283 | with all five functions declared an operator is a fault exactly if it is none of * + ^ >> << and none of ! - ~, a conditional and parentheses never are, and a call is if the function that is found for it does not return a QExpr |
| `QExprOperators.WhichLeavesAreFaults` | IntelQuantum/ClangQuantumExtensions/src/RewriteQExpr.cpp:453-468 | anything else is one exactly if its type, with its wrapping, is not that of a QExpr |
| `QExprOperators.BinaryBecomesCall` | IntelQuantum/ClangQuantumExtensions/src/RewriteQExpr.cpp:165-237 | for operands without a fault: A + B becomes join(A, B), A * B join(B, A), A << B bind(A, B), A >> B bind(B, A), A ^ n power(n, A), with the results of the operands, no error, and the wrapping kept that is to be kept; any other operator is refused |
| `QExprOperators.UnaryBecomesCall` | IntelQuantum/ClangQuantumExtensions/src/RewriteQExpr.cpp:239-294 | likewise !A, -A and ~A become invert(A), without the cast to bool below a logical not; any other is refused |
| `QExprOperators.ConditionalBecomesCall` | IntelQuantum/ClangQuantumExtensions/src/RewriteQExpr.cpp:303-335 | and c ? A : B becomes cIf(c, A, B), with the condition as it stands |
| `QExprOperators.NotOfSum` | IntelQuantum/ClangQuantumExtensions/src/RewriteQExpr.cpp:253-268 | !(A + B), with the cast to bool around the parentheses, becomes invert((join(A, B))) without it |
| `QExprOperators.FirstCallIsDone` | IntelQuantum/ClangQuantumExtensions/src/RewriteQExpr.cpp:336-452 | a first call raises the flag exactly if an argument for a QExpr has a fault; otherwise each of these arguments is what its analysis returns, and the others, the object of an operator call among them, stay |
| `QExprTraversal.AnalyzeShrinks` | IntelQuantum/ClangQuantumExtensions/src/RewriteQExpr.cpp:152-473 | the rewritten expression is no heavier, though it has new casts: why the traversal of new calls ends |
| `QExprTraversal.AnalyzeFits` | IntelQuantum/ClangQuantumExtensions/src/RewriteQExpr.cpp:115-122 | an analysis, with errors or without, brings no literal to a place where a cast would change it |
| `QExprTraversal.TraverseKeepsMeaning` | IntelQuantum/ClangQuantumExtensions/src/RewriteQExpr.cpp:481-508 | the traversal keeps every expression's gates and value, whatever errors it finds, if literals fit in the exponents and conditions that are analyzed |
| `QExprCompleteness.AnalyzeKeepsTotal` | IntelQuantum/ClangQuantumExtensions/src/RewriteQExpr.cpp:152-473 | an analysis that returns something without an error moves the flaws of the expression into new calls, where the traversal finds them; it adds none and loses none |
| `QExprCompleteness.VisitKeepsFlaws` | IntelQuantum/ClangQuantumExtensions/src/RewriteQExpr.cpp:420-452 | a visit raises an error only for a fault in the call, and otherwise settles every QExpr argument but conditional operators where cIf is not declared, and keeps the flaws |
| `QExprCompleteness.TraverseComplete` | IntelQuantum/ClangQuantumExtensions/src/RewriteQExpr.cpp:387-508 | whichever of the five functions are declared, where the plugin does not dereference null: the traversal fails exactly if the original has a fault in a QExpr argument at any depth; otherwise all QExpr arguments are settled but conditional operators where cIf is not declared, and operators are left exactly where there are such, or some that more than one layer of wrapping hides |
| `QExprCompleteness.DeclaredComplete` | IntelQuantum/ClangQuantumExtensions/src/RewriteQExpr.cpp:387-508 | so with all five declared all QExpr arguments are settled, and only hidden operators stay |
| `QExprCompleteness.MissedStaysRaw` | IntelQuantum/ClangQuantumExtensions/src/RewriteQExpr.cpp:156-163 | f(!a) for a reference parameter, with a cast below the reference: accepted, unchanged, and an operator still |
| `QExprCompleteness.UndeclaredStaysRaw` | IntelQuantum/ClangQuantumExtensions/src/RewriteQExpr.cpp:317-335 | f(b ? x : y) while cIf is not declared: accepted and unchanged too |
| `QExprCompleteness.TraverseAgain` | IntelQuantum/ClangQuantumExtensions/src/RewriteQExpr.cpp:481-508 | visiting the new calls, or the whole result again, changes nothing |
| `QExprFunctions.BodyKeepsMeaning` | IntelQuantum/ClangQuantumExtensions/src/RewriteQExpr.cpp:481-508 | every statement of a body, returned QExprs included, keeps its meaning |
| `QExprFunctions.BodyComplete` | IntelQuantum/ClangQuantumExtensions/src/RewriteQExpr.cpp:481-508 | the same exact account of errors and of what is left, for whole bodies and returned QExprs, whichever functions are declared |
| `QExprFunctions.DeclaredBodyComplete` | IntelQuantum/ClangQuantumExtensions/src/RewriteQExpr.cpp:481-508 | and with all five declared |
| `QExprFunctions.ProductIsReversedSum` | IntelQuantum/ClangQuantumExtensions/src/RewriteQExpr.cpp:187-197 | A1 * ... * An and An + ... + A1 apply the same gates, for every n |
| `QExprFunctions.RewrittenProductIsReversedSum` | IntelQuantum/ClangQuantumExtensions/src/RewriteQExpr.cpp:187-197 | and still do once both are rewritten, and both are exactly if no factor has a fault |
| `QExprFunctions.LiteralPower` | IntelQuantum/ClangQuantumExtensions/src/RewriteQExpr.cpp:117-122 | A ^ n for a literal n and any A that is accepted keeps its meaning exactly if n is below 2^32 or A never applies a gate |
| `QExprFunctions.LargePowerIsLost` | IntelQuantum/ClangQuantumExtensions/src/RewriteQExpr.cpp:117-122 | A ^ 4294967296 is accepted and does not apply the same gates afterwards |
| `QExprVisitor.QExprRewriterVisitor.GetFunctionRefForOperator` | IntelQuantum/ClangQuantumExtensions/src/RewriteQExpr.cpp:87-140 | the call with its arguments in order, integer literals among them cast, or nothing exactly if the function is not declared |
| `QExprVisitor.QExprRewriterVisitor.AnalyzeExpr` | IntelQuantum/ClangQuantumExtensions/src/RewriteQExpr.cpp:152-473 | the recursive method computes the specified result, leaves the specified tree and flag |
| `QExprVisitor.QExprRewriterVisitor.AnalyzeBinaryOperator` | IntelQuantum/ClangQuantumExtensions/src/RewriteQExpr.cpp:165-237 | the same for binary operators: the flag is raised exactly on a fault, and otherwise the result is the call, flipped or not, that stands for the operator |
| `QExprVisitor.QExprRewriterVisitor.AnalyzeUnaryOperator` | IntelQuantum/ClangQuantumExtensions/src/RewriteQExpr.cpp:239-294 | the same for unary operators, with the cast below a logical not removed: an error exactly on a fault, the call to invert otherwise |
| `QExprVisitor.QExprRewriterVisitor.AnalyzeConditionalOperator` | IntelQuantum/ClangQuantumExtensions/src/RewriteQExpr.cpp:303-335 | the same for the conditional operator |
| `QExprVisitor.QExprRewriterVisitor.AnalyzeFirstCall` | IntelQuantum/ClangQuantumExtensions/src/RewriteQExpr.cpp:336-452 | the loop over the arguments of a first call |
| `QExprVisitor.QExprRewriterVisitor.VisitExpr` | IntelQuantum/ClangQuantumExtensions/src/RewriteQExpr.cpp:481-489 | a visit puts the flag aside and joins it afterwards |
| `QExprVisitor.QExprRewriterVisitor.VisitReturn` | IntelQuantum/ClangQuantumExtensions/src/RewriteQExpr.cpp:493-504 | the same for return statements, which are counted in functions that return a QExpr |
| `QExprVisitor.QExprRewriterVisitor.TraverseExpr` | IntelQuantum/ClangQuantumExtensions/src/RewriteQExpr.cpp:481-508 | the walk in pre-order over the tree as it changes |
| `QExprVisitor.QExprRewriterVisitor.TraverseBody` | IntelQuantum/ClangQuantumExtensions/src/RewriteQExpr.cpp:481-508 | the walk over a body, with the returns counted |
| `QExprVisitor.QExprRewriterVisitor.HandleTopLevelDecl` | IntelQuantum/ClangQuantumExtensions/src/RewriteQExpr.cpp:573-593 | before any body is rewritten the table gets every function of the group that returns a QExpr under both its names, each new name bound to the first function that has it, and keeps what it had; all bodies are rewritten by that table, and exactly the QExpr functions with more than one return are reported |
| `QExprVisitor.QExprRewriterVisitor.EnterAll` | IntelQuantum/ClangQuantumExtensions/src/RewriteQExpr.cpp:520-552 | the finder of declarations, run over the group, makes that table |
| `QExprVisitor.EnteredOnce` | IntelQuantum/ClangQuantumExtensions/src/RewriteQExpr.cpp:541-546 | there is only one table like that |
| `QExprFunctions.BodyNeverStumbles` | IntelQuantum/ClangQuantumExtensions/src/RewriteQExpr.cpp:481-508 | what the methods ask for, that the walk does not dereference null, holds of every body once cIf is declared |
| `CustomGates.ConvertOrder` | IntelQuantum/QuantumPasses/src/QuantumAnalysis/QuantumAnnotationsToJson.cpp:512-519 | for every dimension both flat arrays end up transposed |
| `CustomGates.IsHermitian` | IntelQuantum/QuantumPasses/src/QuantumAnalysis/QuantumAnnotationsToJson.cpp:538-548 | the loops, early exit included, decide whether the matrix is its own adjoint |
| `CustomGates.ImaginaryPass` | IntelQuantum/QuantumPasses/src/QuantumAnalysis/QuantumAnnotationsToJson.cpp:560-576 | the first pass decides whether all imaginary parts of U.conj(U) are within the tolerance |
| `CustomGates.RealPass` | IntelQuantum/QuantumPasses/src/QuantumAnalysis/QuantumAnnotationsToJson.cpp:578-598 | the second pass does so for the real parts of U.conj(U) - 1 |
| `CustomGates.IsUnitary` | IntelQuantum/QuantumPasses/src/QuantumAnalysis/QuantumAnnotationsToJson.cpp:557-598 | together they decide whether U.conj(U) is the identity within 1e-10, entry by entry |
| `UnitarityTest.HermitianInEitherOrder` | IntelQuantum/QuantumPasses/src/QuantumAnalysis/QuantumAnnotationsToJson.cpp:512-548 | the verdict on hermiticity does not depend on the order of the entries |
| `UnitarityTest.UnitaryInEitherOrder` | IntelQuantum/QuantumPasses/src/QuantumAnalysis/QuantumAnnotationsToJson.cpp:512-598 | nor does the verdict of the unitarity test |
| `UnitarityTest.SymmetricIsTestedAsAnnounced` | IntelQuantum/QuantumPasses/src/QuantumAnalysis/QuantumAnnotationsToJson.cpp:561-597 | on symmetric matrices the test is the announced one, U.adjoint(U) against the identity, for every tolerance |
| `UnitarityTest.AcceptedIsAlmostSymmetric` | IntelQuantum/QuantumPasses/src/QuantumAnalysis/QuantumAnnotationsToJson.cpp:561-597 | a unitary matrix that passes with a tolerance is symmetric up to that tolerance times twice the dimension |
| `UnitarityTest.AlmostSymmetricIsAccepted` | IntelQuantum/QuantumPasses/src/QuantumAnalysis/QuantumAnnotationsToJson.cpp:561-597 | a unitary matrix that is symmetric up to d passes with the tolerance 2nd |
| `UnitarityTest.UnitaryPassesIffSymmetric` | IntelQuantum/QuantumPasses/src/QuantumAnalysis/QuantumAnnotationsToJson.cpp:561-597 | with tolerance zero a unitary matrix passes exactly if it is symmetric |
| `UnitarityTest.PauliYIsRejected` | IntelQuantum/QuantumPasses/src/QuantumAnalysis/QuantumAnnotationsToJson.cpp:577-597 | the matrix of Y is unitary and hermitian, and is rejected |
| `UnitarityTest.AcceptedIsUnitaryIffSymmetric` | IntelQuantum/QuantumPasses/src/QuantumAnalysis/QuantumAnnotationsToJson.cpp:561-597 | with tolerance 0, a matrix that passes is unitary exactly if it is symmetric |
| `UnitarityTest.ShearIsAccepted` | IntelQuantum/QuantumPasses/src/QuantumAnalysis/QuantumAnnotationsToJson.cpp:561-597 | the real matrix with the rows (1, 1) and (0, -1) passes and is not unitary |
| `UnitarityTest.AcceptedSymmetricIsAlmostUnitary` | IntelQuantum/QuantumPasses/src/QuantumAnalysis/QuantumAnnotationsToJson.cpp:561-597 | a matrix that passes at a tolerance and is symmetric up to d is unitary up to the tolerance and 2nbd, for entries up to b |
| `UnitarityTest.AcceptedUnitaryIsAlmostSymmetric` | IntelQuantum/QuantumPasses/src/QuantumAnalysis/QuantumAnnotationsToJson.cpp:561-597 | a matrix that passes at a tolerance and is unitary up to d is symmetric up to 2nb times d and 2nb times the tolerance |
| `UnitarityTest.VerdictRightIffSymmetric` | IntelQuantum/QuantumPasses/src/QuantumAnalysis/QuantumAnnotationsToJson.cpp:561-597 | of all matrices that are unitary or pass, the verdict is right exactly on the symmetric ones |
| `GateAnnotations.NoRepetitions` | IntelQuantum/QuantumPasses/src/QuantumAnalysis/QuantumAnnotationsToJson.cpp:474-482 | the loops decide whether the qubit list has no repetition |
| `BasisStates.BasisCount` | IntelQuantum/QuantumPasses/src/QuantumAnalysis/QuantumAnnotationsToJson.cpp:496-502 | there are 2^n basis states of n qubits |
| `BasisStates.PairCount` | IntelQuantum/QuantumPasses/src/QuantumAnalysis/QuantumAnnotationsToJson.cpp:496 | and 4^n pairs of them, the square of their number |
| `GateAnnotations.GateAnnotation.CompleteValidation` | IntelQuantum/QuantumPasses/src/QuantumAnalysis/QuantumAnnotationsToJson.cpp:474-605 | valid exactly if the qubits are distinct, both parts have one entry for every pair of basis states of the qubits, and the order is known; then the matrix, with as many rows as there are basis states, keeps its meaning in row-major form and both fields hold the verdicts on it, whatever they held before |
| `Quicksort.Partition` | IntelQuantum/QuantumPasses/src/QuantumAnalysis/QuantumInitPlacement.cpp:47-59 | the part is permuted, the result splits it around the pivot, and nothing else moves |
| `Quicksort.QuicksortRange` | IntelQuantum/QuantumPasses/src/QuantumAnalysis/QuantumInitPlacement.cpp:61-68 | the part is sorted, a permutation of what it was, and nothing outside it is touched |
| `CustomSubset.ValidateCustomSubset` | IntelQuantum/QuantumPasses/src/QuantumAnalysis/QuantumInitPlacement.cpp:71-92 | accepts exactly if all indices that are not placeholders are distinct, across all registers |
| `CustomSubset.GetCustomSubset` | IntelQuantum/QuantumPasses/src/QuantumAnalysis/QuantumInitPlacement.cpp:94-144 | accepts exactly if every index is below the number of physical qubits and the requested ones are distinct; every index that validation uses is in bounds |
| `CustomSubset.RequestedParts` | IntelQuantum/QuantumPasses/src/QuantumAnalysis/QuantumInitPlacement.cpp:105-136 | what is requested, register by register and element by element: a register of zeros only is passed over, and so is an element that is not an integer; a negative one is a placeholder; order is kept |
| `QubitMaps.MapProgToPhysQubits.GetNumProgQubits` | IntelQuantum/QuantumPasses/include/IntelQuantumPasses/QuantumUtils/QuantumMapProgToPhysQubits.hpp:101-110 | counts the program qubits that are not excluded: the size of their set |
| `QubitMaps.MapProgToPhysQubits.IsConsistent` | IntelQuantum/QuantumPasses/src/QuantumUtils/QuantumMapProgToPhysQubits.cpp:495-530 | decides whether each map undoes the other |
| `QubitMaps.MapProgToPhysQubits.SetNumPhysQubits` | IntelQuantum/QuantumPasses/src/QuantumUtils/QuantumMapProgToPhysQubits.cpp:172-175 | adds free physical qubits and keeps the maps consistent |
| `QubitMaps.MapProgToPhysQubits.SetCustomRange` | IntelQuantum/QuantumPasses/src/QuantumUtils/QuantumMapProgToPhysQubits.cpp:327-350 | writes the entries before the first placeholder, to consecutive program qubits, and nothing else; refuses if the lengths differ |
| `QubitMaps.HonouredIffPlaceholdersLast` | IntelQuantum/QuantumPasses/src/QuantumUtils/QuantumMapProgToPhysQubits.cpp:339-348 | the request for a fresh register is honoured exactly if no entry follows a placeholder |
| `QubitMaps.PlaceholderFirst` | IntelQuantum/QuantumPasses/src/QuantumUtils/QuantumMapProgToPhysQubits.cpp:339-348 | of the request (placeholder, 0) nothing is written |
| `QubitMaps.MapProgToPhysQubits.SetCustomMap` | IntelQuantum/QuantumPasses/src/QuantumUtils/QuantumMapProgToPhysQubits.cpp:244-259 | for any custom map whose indices are in bounds: virtual program qubits get what it has for them, a physical qubit that is written holds one of those that take it, the others are left alone; refuses if there are more program ids than physical qubits |
| `QubitMaps.FilledConsistentIff` | IntelQuantum/QuantumPasses/src/QuantumUtils/QuantumMapProgToPhysQubits.cpp:251-256 | that keeps the maps consistent exactly if no two program qubits take the same physical qubit, nor one in use |
| `QubitMaps.PhysPartition` | IntelQuantum/QuantumPasses/src/QuantumAnalysis/QuantumInitPlacement.cpp:407-414 | fixed and free physical qubits are all of them, each once |
| `QubitMaps.SplitSizes` | IntelQuantum/QuantumPasses/src/QuantumAnalysis/QuantumInitPlacement.cpp:407-420 | free and fixed physical qubits add up to all of them, and ids to place and fixed ids below the total add up to the total |
| `QubitMaps.EnoughFree` | IntelQuantum/QuantumPasses/src/QuantumAnalysis/QuantumInitPlacement.cpp:403-420 | there are enough free qubits exactly if the fixed ids not below the total fit into the difference between physical qubits and total |
| `QubitMaps.PlacesTheVirtual` | IntelQuantum/QuantumPasses/src/QuantumAnalysis/QuantumInitPlacement.cpp:416-420 | the ids to place are the virtual ones exactly if no excluded id is below the total |
| `QubitMaps.EnoughWithoutHoles` | IntelQuantum/QuantumPasses/src/QuantumAnalysis/QuantumInitPlacement.cpp:391-420 | then there are enough free qubits exactly if the total is within the physical qubits |
| `QubitMaps.HolesCanFail` | IntelQuantum/QuantumPasses/src/QuantumAnalysis/QuantumInitPlacement.cpp:387-420 | and otherwise there may be none for two ids |
| `LocalPlacement.SplitQubits` | IntelQuantum/QuantumPasses/src/QuantumAnalysis/QuantumInitPlacement.cpp:400-420 | the two loops compute that split |
| `SwapCosts.DifferentialIsExact` | IntelQuantum/QuantumPasses/src/QuantumUtils/QuantumPlacementUtils.cpp:323-416 | the cost differential of two neighbouring places, summed over the neighbours of two program qubits, is what the swap adds to the sum over all edges |
| `SwapCosts.SwapBack` | IntelQuantum/QuantumPasses/src/QuantumUtils/QuantumPlacementUtils.cpp:699-718 | after the swap the differential of the same pair is the negative one |
| `SwapCosts.FarDifferential` | IntelQuantum/QuantumPasses/src/QuantumUtils/QuantumPlacementUtils.cpp:426-508 | a swap changes no differential of a pair away from the moved qubits and their neighbours |
| `PlacementSearch.LocalSearch.PrecomputeSwapHeuristic` | IntelQuantum/QuantumPasses/src/QuantumUtils/QuantumPlacementUtils.cpp:246-297 | the loops fill the tables with the cost of every pair that matters and the index of every pair that may be swapped |
| `PlacementSearch.EdgeCosts` | IntelQuantum/QuantumPasses/src/QuantumUtils/QuantumPlacementUtils.cpp:246-319 | with these tables an edge of the program costs the distance of its places less 1, in the direction in which they go up, and nothing if both ends are fixed |
| `PlacementSearch.LocalSearch.ValueHeuristic` | IntelQuantum/QuantumPasses/src/QuantumUtils/QuantumPlacementUtils.cpp:299-319 | the two loops sum over every edge once |
| `PlacementSearch.LocalSearch.ValueHeuristicDifferential` | IntelQuantum/QuantumPasses/src/QuantumUtils/QuantumPlacementUtils.cpp:323-380 | the two loops compute the differential |
| `PlacementSearch.LocalSearch.SwapQubits` | IntelQuantum/QuantumPasses/src/QuantumUtils/QuantumPlacementUtils.cpp:382-416 | both maps follow the exchange of two places, either of which may be empty |
| `PlacementSearch.LocalSearch.InitializePhysToProgramMap` | IntelQuantum/QuantumPasses/src/QuantumUtils/QuantumPlacementUtils.cpp:418-424 | the second map undoes the placement |
| `PlacementSearch.LocalSearch.InitializeSwapsToCheck` | IntelQuantum/QuantumPasses/src/QuantumUtils/QuantumPlacementUtils.cpp:510-533 | finds the indices of exactly the pairs that are in use |
| `PlacementSearch.LocalSearch.UpdateSwapChecks` | IntelQuantum/QuantumPasses/src/QuantumUtils/QuantumPlacementUtils.cpp:426-508 | finds the pairs in use near a swap, and drops the differentials of those no longer in use |
| `PlacementSearch.SwapStep` | IntelQuantum/QuantumPasses/src/QuantumUtils/QuantumPlacementUtils.cpp:693-718 | so after each swap the kept differentials that are not to be checked again are right, there is one for every pair in use, and the entry of the swapped pair is not among the erased ones |
| `PlacementSearch.LocalSearch.OneReset` | IntelQuantum/QuantumPasses/src/QuantumUtils/QuantumPlacementUtils.cpp:599-731 | the reset is a walk of one swap of neighbours in use after another from a start of its own: it goes on for all iterations and comes to the best placement on the way, or stops one swap further at a cost of 0, and does so in the first iteration if a single swap solves the start; the cost kept up to date is the value of the placement; it is stuck with an empty table exactly if no pair is in use at the start, for which there must be a lonely qubit for every program qubit |
| `PlacementSearch.LocalSearch.OneIteration` | IntelQuantum/QuantumPasses/src/QuantumUtils/QuantumPlacementUtils.cpp:638-726 | one iteration: the first one finds a swap that solves if there is one, is idle exactly if no pair is in use, and otherwise swaps and leaves the differentials right |
| `PlacementSearch.LonelyStart` | IntelQuantum/QuantumPasses/src/QuantumUtils/QuantumPlacementUtils.cpp:687-710 | a start on three qubits where it is stuck |
| `PlacementSearch.StuckStartIff` | IntelQuantum/QuantumPasses/src/QuantumUtils/QuantumPlacementUtils.cpp:510-533 | such a start exists exactly if there are at least as many qubits next to no other one to use as program qubits |
| `PlacementSearch.EveryStartIsDrawn` | IntelQuantum/QuantumPasses/src/QuantumUtils/QuantumPlacementUtils.cpp:604-625 | and every start is one that a choice of distinct qubits in some order gives |
| `PlacementSearch.LocalSearch.Search` | IntelQuantum/QuantumPasses/src/QuantumUtils/QuantumPlacementUtils.cpp:535-736 | it gives no placement only if there are too few qubits, a fixed one is among them, or program qubits are to be placed and fit on lonely qubits, and there are others; a placement puts every program qubit on a qubit of its own, keeps the fixed ones, and is the one in order if there is nothing to place or to swap; otherwise all resets were walked to the end and it is the best of the one in order and of everything that they came by, or a reset came to a cost of 0 and this is its last placement |
| `PlacementSearch.SearchImproves` | IntelQuantum/QuantumPasses/src/QuantumUtils/QuantumPlacementUtils.cpp:599-735 | so the cost is 0, or there was a start that no single swap solves, and the result costs at most what one of its swaps leads to |
| `LocalPlacement.PlaceBlock` | IntelQuantum/QuantumPasses/src/QuantumAnalysis/QuantumInitPlacement.cpp:386-441 | ends well only if there is room, and always if there is, unless there are ids to place, they fit on lonely free qubits, and there are other free ones; then exactly the program qubits below the total, and without holes all, are placed; those that were placed have not moved, and the maps undo each other; what the others are placed on is what the search came to |
| `LocalPlacement.MayStickIff` | IntelQuantum/QuantumPasses/src/QuantumAnalysis/QuantumInitPlacement.cpp:422-433 | that is exactly when the search for the block has a start at which it is stuck |
| `LocalPlacement.KnownWithoutHoles` | IntelQuantum/QuantumPasses/src/QuantumAnalysis/QuantumInitPlacement.cpp:416-433 | without excluded ids below the total the search is asked about all program qubits of the gates |

## Left out

- LLVM, Clang and JSON plumbing: instructions, values, diagnostics text, command lines and files. A basic block is its sequence of gates, a syntax tree is a value, a gate annotation its fields.
- QbbIter.QBBIter.InsertGate: failures to create operands in the IR are not modelled, so an insertion fails only for operand lists of the wrong length; instructions between gates are not modelled either.
- Gates other than H, X, Z, T, Tdag, CX and Toffoli are arbitrary functions on states; preparation and measurement take the outcome as a parameter, and states are not normalised.
- MultiControl.ControlWAncMeaning: asks for MAX of at least 2, since the recursion does not end for smaller ones, for ancillas that are 0, and for e to touch neither controls nor ancillas. `InvertPrim` inverts by the adjoint, which undoes unitary gates only; only controlled X is inverted here.
- Teleport.Teleported: is about `bell00`, `alice` and `bob` mapped in sequence; the barrier that `<<` puts between them has no effect on states, and `ghz` over lists is not repeated from `test-samples/ghz.cpp`.
- FleqSpec.AddTo: getFLEQDependencies and characterizeNodeType are functions of the program; of their case tables only this is used: no kind is kDead, a dead node has no dependencies, and dependencies are values of the program.
- FleqDeath.MarkDeadExact: asks for a rank that falls along every edge, since setNodesAsDead need not end on a cycle.
- FleqReplace.ReplaceMeaning: asks that the new node is not FN and reaches neither FN nor a parent of FN, since a cycle would appear otherwise.
- FleqGraph.FLEQGraph.SetNodesAsDead: the rank and its bound are ghost parameters.
- QExprVisitor.QExprRewriterVisitor.AnalyzeExpr: asks, as the methods that call it do, that the plugin does not dereference null (`Stumbles`): where cIf is not declared, it dereferences the null that a conditional operator comes to if it is wrapped or passed on. The tree is a value, so the sharing of subtrees between an operator that stays because a later operand failed and the call that was built for it is not modelled.
- Expressions never have a reference type in Clang, so the branch of GetFunctionRefForOperator for them is not modelled; the text and number of diagnostics are not either.
- QExprRewriting.AnalyzeKeepsTrace: asks that literals fit where a cast is put around them, see `QExprFunctions.LiteralPower`.
- CustomGates.IsUnitary: works on real numbers; rounding is not modelled.
- The detection of control qubits, the local basis list and the comparison with canonical gates in the validation of custom gates: scans of fixed positions.
- LocalPlacement.PlaceBlock: asks that the gates use only program qubits that the search is told about, since a look-up of any other id would place it at 0, and that distances and connections of the machine agree; a run without a platform is refused by the pass before it gets here.
- PlacementSearch.LocalSearch.Search: which swap is taken is left open, where the search of the compiler draws one by its cost, and the shuffles are any permutations; the set of starting qubits, which both callers leave empty, is not modelled. That it may end without a placement stands for what the compiler does with an empty table.
- Quicksort.QuicksortRange: indices are integers, without the wrap-around of a C++ int; it has no caller left in the pass.
- CustomSubset.ValidateCustomSubset: the end of the compilation on an error is a result that is false.
- Scheduling, dense placement, register references, the kernel iterator, the gate identifier tables and the stage checks: they would add simple scans or finite tables only.
