# Function equivalence of PowerPC code: a verified model

ppc2cpp decides whether two PowerPC functions do the same. It finds each function's basic blocks, follows register
definitions through them to a graph of data-flow nodes, and compares the two graphs. This project models those three
steps and the way they are put together, and proves what each one guarantees to the next.

## What is modelled

**Instructions and code** (`Instructions.dfy`, `MachineCode.dfy`). The branch tests work on 32-bit words. Behind them an
instruction is its branch class, its resolved target (none, outside the function, or an instruction index inside it),
its opcode, and its lists of references, immediates, inputs and outputs. `Step` is the control flow of the code, also
stated in bits of the words; the blocks have to reproduce it.

**Block construction** (`ControlFlowGraph.dfy`, `BlockInvariants.dfy`, `BlockConstruction.dfy`,
`ControlFlowAnalysis.dfy`, `BlockTheorems.dfy`). `Constructed` is the block graph as a function of the code, or a
failure. `ControlFlowGraph` is a class over the two tables, `ControlFlowAnalysis` the mutually recursive scan that
appends to them; it makes exactly the constructed graph, and fails (`ok == false`: an assertion, or a target without a
location) exactly when the code is `Stuck`. The block invariant `Settled` says where a block ends, which flags it has
and which successors in which order. From it follow the meaning of the flags, the laminar ranges, the two-way simulation
of the code, the coverage of the reachable instructions and the bound on the number of blocks.

**Data flow** (`FlowContext.dfy`, `ReachingDefinitions.dfy`, `ChaoticIteration.dfy`, `DataFlowNodes.dfy`,
`DataFlowInvariants.dfy`, `CanonicalNodes.dfy`, `OperandNodes.dfy`, `DataFlowAnalysis.dfy`, `SinkTheorems.dfy`).
`FlowContext` has the register banks as fields; different registers have different cells. `DataFlowAnalysis` keeps the
worklist, the contexts and the sinks, and an append-only list of nodes in which inputs have smaller numbers. A node is
interpreted by its definition site: block, instruction, register, and whether a call returned it. The least solution of
the data-flow equations is characterised by paths. A pass is `Complete` if its contexts are that solution and the sinks,
and the definitions that the blocks hold, have the operands one more pass would give them. `OperandNodes.dfy` says of
one instruction which nodes it makes, with which inputs, and what every register holds afterwards.

**Two change tests.** The code makes new nodes on every visit, and compares how many *nodes* a context holds per
register before and after. What it needs to know is whether the set of definition *sites* has grown. The pass is
therefore modelled twice, with the same visit. `FunctionDFA` compares the numbers of sites: it ends on every function,
and is then complete. `FunctionDFAByNodes` compares the numbers of nodes, as the code does, and stops after a given
number of visits. Step by step it makes exactly the nodes, contexts, sinks and worklist of a pure run
(`NodeCounting.dfy`, `NodeRuns.dfy`), up to the order of phi inputs. About that run is proved:

- it never finds a definition that does not reach, and has found all of them exactly when every block satisfies its
  equation; every block has the sinks of its last visit, and what came to that visit was never too much;
- it ends and is complete, with loops too (`PrologueLoop.dfy` has one), if in every block that leaves a register alone
  no definition of it comes in over two edges, except definitions in blocks that are visited once
  (`NodeConvergence.dfy`, `AllOneWay`);
- whenever it ends it is complete, if each register satisfies that condition or no block is reached by two of its
  definitions (`Noticed`);
- it ends on every function without loops (`LoopFreeRuns.dfy`), but it need not be complete there: `MissedDefinition.dfy`
  has a function of nine instructions, without loops, on which it ends after twelve visits with a definition missing at
  the return;
- it never ends, whatever else the function does, if a loop may take a definition in just before it goes round again
  (`EndlessRuns.dfy`, `LoopAround`): an ordinary `do { if (!c) r3 = 1; } while (d);` hangs it. `ConditionInLoop.dfy` has
  that function of four instructions, `NestedLoopExample.dfy` one with a one-block loop inside another;
- it may end with every output right and a sink wrong: `StaleSink.dfy` has a function of seven instructions on which it
  does.

The functions of these examples are given by their code alone; their blocks are those the construction makes
(`ExampleGraphs.dfy` and `ExampleRuns.dfy` evaluate construction and run).

**Comparison** (`FlowEquivalence.dfy`, `ProgramComparator.dfy`, `SameCode.dfy`). `Match` is the plain recursion over two
nodes. The cached comparison stores answers early and, for a failing sink, a wrong one; it is proved to return what
`Match` does, and to expand each pair at most once. `Match` is equality of the unfolded label trees, where a label is
just what the comparison looks at; `MatchInFields` says what that is. Two analyses of the same code need not match,
because phi inputs come in the order of a hash set: they match in all orders exactly if no phi node in use has two
inputs with different trees (`SameCode.dfy`, `Pipeline.MatchesItselfIff`). `JoinedReturn.dfy` has a function of four
instructions that can differ from itself.

**The whole** (`BuiltProblems.dfy`, `Pipeline.dfy`). Both analyses of two functions and the comparison, as the command
line runs them: with the code's change test and a limit on the visits, and with the intended one without.

## Where the code differs from what it says

- A block falls through when the next instruction *starts* an internal block. The comment at
  src/control_flow/ControlFlowAnalysis.cpp:73 says "is contained in". Blocks can therefore overlap, but only nested.
- A block that runs past the last instruction keeps `end == start`, so that its other instructions belong to no block
  and are not analysed. No assertion notices it. `BlockTheorems.ClosedIffNotFallingOff` says exactly when it happens,
  `BlockTheorems.RangesCoverIff`, `TargetedTailCovered` and `CoveredNeedsLast` when nothing is lost by it.
- A branch is taken for a tail call only if it is the function's last instruction.
- The comment at src/data_flow/PpcCallingConvention.cpp:62 spares the condition fields CR2 to CR4; the list above and
  below it clears bit 8 of CR2 and spares bit 20 of CR5.
- Inputs of phi nodes are compared in the order of a hash set. `FlowEquivalence.PhiOrderMatters` says when the order
  matters, `SameCode.AllOrdersMatchIff` what that means for a function compared with itself.

## Model

| member | source | states |
|---|---|---|
| Instructions.ScanTestsAgree | include/ppc2cpp/common/insn_properties.h:12-84 | on every word the four branch tests of the scan exclude each other and together are the one test of the data-flow pass; "always" is the BO pattern 1z1zz |
| Instructions.BranchInBits | include/ppc2cpp/common/insn_properties.h:12-74 | which words are branches, which of them name their target and which go to LR, by their opcode bits |
| Instructions.ContinuesInBits | include/ppc2cpp/common/insn_properties.h:25-84 | a branch of any form links exactly if its last bit is set; control goes on behind a word unless it is a branch that neither links nor has a condition |
| MachineCode.StepInBits | src/control_flow/ControlFlowAnalysis.cpp:24-60 | the control flow that the blocks reproduce, in bits of the words |
| MachineCode.AbortsInBits | src/control_flow/ControlFlowAnalysis.cpp:29-84 | where the construction stops, in bits of the words |
| ControlFlowGraphs.ControlFlowGraph.Init | include/ppc2cpp/control_flow/ControlFlowGraph.hpp:50-53 | the graph of one internal block, valid |
| ControlFlowGraphs.ControlFlowGraph.FindBlockByInsnIdx | include/ppc2cpp/control_flow/ControlFlowGraph.hpp:55-60 | finds what the specification of the first-match search finds |
| ControlFlowGraphs.FirstHoldingMeaning | include/ppc2cpp/control_flow/ControlFlowGraph.hpp:55-60 | that is the least block that holds the instruction, and -1 only if none does |
| ControlFlowGraphs.ControlFlowGraph.FindBlockByPosition | include/ppc2cpp/control_flow/ControlFlowGraph.hpp:63-68 | finds what the specification of the search finds |
| ControlFlowGraphs.FirstStartingMeaning | include/ppc2cpp/control_flow/ControlFlowGraph.hpp:63-68 | that is the first block of the type that starts there, and -1 only if there is none |
| ControlFlowGraphs.ControlFlowGraph.FindInternalBlockByPosition | include/ppc2cpp/control_flow/ControlFlowGraph.hpp:70-72 | an internal block that starts there, or that there is none |
| ControlFlowGraphs.ControlFlowGraph.TryCreateSuccessorInternal | include/ppc2cpp/control_flow/ControlFlowGraph.hpp:75-92 | both outcomes as exact new tables, with the surplus row for an existing block; the graph stays valid: dual tables, indices in range, surplus rows empty, one internal block per start |
| ControlFlowGraphs.ControlFlowGraph.CreateSuccessorOutside | include/ppc2cpp/control_flow/ControlFlowGraph.hpp:94-112 | the external and the runtime successor: exact new tables; the graph stays valid |
| ControlFlowGraphs.ControlFlowGraph.CreateSuccessorFallthrough | include/ppc2cpp/control_flow/ControlFlowGraph.hpp:114-119 | exact new tables; the graph stays valid |
| ControlFlowGraphs.ControlFlowGraph.HasExternalSuccessor | include/ppc2cpp/control_flow/ControlFlowGraph.hpp:121-126 | whether some successor is not internal |
| ControlFlowGraphs.Graph.EdgeKeepsValid | include/ppc2cpp/control_flow/ControlFlowGraph.hpp:78-81 | an edge between internal blocks keeps both tables dual as multisets and the graph valid |
| ControlFlowGraphs.Graph.NewBlockKeepsValid | include/ppc2cpp/control_flow/ControlFlowGraph.hpp:84-90 | a new block, its row and its edge keep the graph valid, although the row written to need not be the one pushed |
| ControlFlowAnalysis.FunctionCFA | src/control_flow/ControlFlowAnalysis.cpp:14-17 | makes exactly the constructed graph; succeeds exactly when no reachable instruction fails an assertion or has a target without a location |
| ControlFlowAnalysis.ScanBlock | src/control_flow/ControlFlowAnalysis.cpp:19-80 | makes exactly what the specification of the scan makes of the graph, with all blocks created on the way, in order; ends, because every new block takes an unused start |
| ControlFlowAnalysis.EndInBranch | src/control_flow/ControlFlowAnalysis.cpp:24-71 | the same for a block that has come to a branch: target, next instruction; and its flags: a call links or leaves the function by its last instruction, only the latter is a tail call, and that and a plain return are exits |
| BlockConstruction.RowOutside | src/control_flow/ControlFlowAnalysis.cpp:33-66 | the successor row of a branch that does not continue shows whether it leaves the function |
| ControlFlowAnalysis.TakeBranch | src/control_flow/ControlFlowAnalysis.cpp:24-56 | adds exactly where the branch goes when taken: its target, or a block known only at run time |
| ControlFlowAnalysis.HandleBranch | src/control_flow/ControlFlowAnalysis.cpp:82-92 | the same for a branch that names its target: failure, a block outside, or a position inside |
| ControlFlowAnalysis.FollowInternal | src/control_flow/ControlFlowAnalysis.cpp:87-88 | the successor is the block at the position, found, or created and scanned at once |
| BlockConstruction.ConstructedBuilt | src/control_flow/ControlFlowAnalysis.cpp:14-92 | the construction fails exactly on stuck code; otherwise every block of its graph is settled and the graph is valid |
| BlockConstruction.ScanSettles | src/control_flow/ControlFlowAnalysis.cpp:19-80 | the scan settles the block and every block created for it, and leaves all others as they are |
| BlockTheorems.ScansLaminar | src/control_flow/ControlFlowAnalysis.cpp:73-78 | the scanned ranges of two internal blocks are disjoint, or the younger lies inside the older and starts later |
| BlockTheorems.RangesLaminar | src/control_flow/ControlFlowAnalysis.cpp:73-78 | the same for the recorded ranges |
| BlockTheorems.OutsideAtBranch | src/control_flow/ControlFlowAnalysis.cpp:56-90 | a block outside the function sits at the end of an earlier internal block, of which it is the first successor |
| BlockTheorems.FirstMatchIsOutermost | include/ppc2cpp/control_flow/ControlFlowGraph.hpp:55-60 | the first-match search finds a block exactly when an internal one holds the instruction; what it finds is internal and contains all others that do |
| BlockTheorems.LiftWalk | src/control_flow/ControlFlowAnalysis.cpp:19-92 | every walk over instructions from the entry is the projection of a walk over blocks |
| BlockTheorems.ProjectWalk | src/control_flow/ControlFlowAnalysis.cpp:19-92 | every walk over blocks projects to a walk over instructions |
| BlockTheorems.ScannedIffReachable | src/control_flow/ControlFlowAnalysis.cpp:19-92 | the instructions scanned for some block are exactly the reachable ones |
| BlockTheorems.NotStuck | src/control_flow/ControlFlowAnalysis.cpp:29-84 | a finished graph means that no reachable instruction fails an assertion |
| BlockTheorems.SuccessorsMeaning | src/control_flow/ControlFlowAnalysis.cpp:24-60 | the successors of a block that ends in a branch, by its form, its target, link and condition |
| BlockTheorems.CallComesBack | src/control_flow/ControlFlowAnalysis.cpp:28-62 | every reachable branch that links ends a block, and the block behind it is that block's second successor |
| BlockTheorems.LinkedWordComesBack | src/control_flow/ControlFlowAnalysis.cpp:28-62 | so a block starts behind every reachable branch word whose last bit is set |
| BlockTheorems.FlagsMeaning | src/control_flow/ControlFlowAnalysis.cpp:32-69 | what the three ending flags of a finished block say of its last instruction, its successors and its place in the function, both directions |
| BlockTheorems.ClosedIffNotFallingOff | src/control_flow/ControlFlowAnalysis.cpp:21-79 | every internal block has a successor exactly when control cannot run past the last instruction |
| BlockTheorems.RangesCoverReachable | src/control_flow/ControlFlowAnalysis.cpp:21-79 | under that condition the recorded ranges cover exactly the reachable instructions |
| BlockTheorems.RangesCoverIff | src/control_flow/ControlFlowAnalysis.cpp:21-79 | in general they cover exactly the reachable instructions if and only if every block that runs past the last instruction has one instruction or is followed at once by another block |
| BlockTheorems.StartsIffEntry | src/control_flow/ControlFlowAnalysis.cpp:24-88 | blocks start exactly where the code does, where a reachable branch goes, and behind a reachable branch that continues |
| BlockTheorems.TargetedTailCovered | src/control_flow/ControlFlowAnalysis.cpp:73-79 | so the ranges cover exactly the reachable instructions if, among plain instructions that run past the last one, every reachable one that follows another is a branch target |
| BlockTheorems.CoveredNeedsLast | src/control_flow/ControlFlowAnalysis.cpp:73-79 | and if control can run past the last instruction, they cover it only if it is such a start itself |
| BlockTheorems.FallingOffLosesCode | src/control_flow/ControlFlowAnalysis.cpp:21-79 | without it they need not: a function whose second instruction is reachable and in no block |
| BlockTheorems.FewBlocks | include/ppc2cpp/control_flow/ControlFlowGraph.hpp:75-112 | at most as many internal blocks as instructions, and at most twice as many blocks |
| FlowContexts.SizesDetectGrowth | include/ppc2cpp/data_flow/FlowContext.hpp:87-99 | for a context that has only grown, equal sizes per cell mean equal contexts |
| FlowContexts.SizesMissReplacement | include/ppc2cpp/data_flow/FlowContext.hpp:87-99 | otherwise they need not: two different contexts of equal sizes |
| FlowContexts.FlowContext.ContextUnion | include/ppc2cpp/data_flow/FlowContext.hpp:65-85 | every cell becomes the union of both |
| FlowContexts.KnownRegister | include/ppc2cpp/data_flow/FlowContext.hpp:101-132 | exactly which locations have a cell |
| FlowContexts.SameCellIff | include/ppc2cpp/data_flow/FlowContext.hpp:101-132 | two locations share a cell if and only if they are equal or name one quantization register, directly and by its number as a special-purpose register |
| FlowContexts.FlowContext.SetDefinition | include/ppc2cpp/data_flow/FlowContext.hpp:134-138 | the register, under each of its names, holds the node alone; every other register holds what it held |
| FlowContexts.FlowContext.KillDefinition | include/ppc2cpp/data_flow/FlowContext.hpp:140-143 | the register, under each of its names, holds nothing; every other register holds what it held |
| CallingConvention.ConventionKnown | src/data_flow/PpcCallingConvention.cpp:25-88 | both lists name only registers that a context has a cell for |
| CallingConvention.ClearedByCall | src/data_flow/PpcCallingConvention.cpp:25-78 | exactly which registers a call clears, and so which it preserves |
| CallingConvention.ReturnedByCall | src/data_flow/PpcCallingConvention.cpp:80-88 | exactly which registers a call returns values in, all of them cleared first |
| CallingConvention.ConditionBitsCleared | src/data_flow/PpcCallingConvention.cpp:53-73 | which condition bits a call clears: the volatile ones, except that bit 8 is cleared and bit 20 is not |
| ReachingDefinitions.ThroughMeaning | src/data_flow/DataFlowAnalysis.cpp:105-161 | a definition leaves a block if and only if it entered and nothing cleared it, or it was made inside and survived |
| ReachingDefinitions.RecomputedMonotone | src/data_flow/DataFlowAnalysis.cpp:39-170 | recomputing a block is monotone in the outputs of all blocks |
| ReachingDefinitions.RecomputedMeaning | src/data_flow/DataFlowAnalysis.cpp:39-170 | the right-hand side of an equation, definition by definition |
| ReachingDefinitions.ReachesMeaning | src/data_flow/DataFlowAnalysis.cpp:39-170 | reaching the end of a block along a path unfolds over its predecessors |
| ReachingDefinitions.PathOutsFixpoint | src/data_flow/DataFlowAnalysis.cpp:39-201 | the definitions that reach along paths solve the equations |
| ReachingDefinitions.PathOutsBelow | src/data_flow/DataFlowAnalysis.cpp:39-201 | every solution contains them |
| ReachingDefinitions.LeastIffPaths | src/data_flow/DataFlowAnalysis.cpp:39-201 | the least solution is unique and is exactly the definitions that reach |
| ReachingDefinitions.LeastMeansReaching | src/data_flow/DataFlowAnalysis.cpp:39-201 | a site is in a block's output for a register if and only if a path runs from it to the end of the block without redefinition or kill |
| ChaoticIteration.VisitGrows | src/data_flow/DataFlowAnalysis.cpp:55-59 | a visit loses nothing, and keeps every output within its recomputation and within the least solution |
| ChaoticIteration.SizesDetectChange | src/data_flow/DataFlowAnalysis.cpp:191-193 | along a run, if numbers of sites per cell are compared, they are equal exactly when the visit changed nothing |
| ChaoticIteration.VisitSolves | src/data_flow/DataFlowAnalysis.cpp:191-199 | if a change of sites makes the successors wait, then after the visit every block that is not waiting satisfies its equation |
| ChaoticIteration.AllSolvedIsLeast | src/data_flow/DataFlowAnalysis.cpp:48-49 | if then nothing waits, the outputs are the least solution |
| ChaoticIteration.ChangeShrinksMissing | src/data_flow/DataFlowAnalysis.cpp:191-199 | a visit that changes the sites leaves strictly less missing: why a run that waits only for such changes ends |
| ChaoticIteration.OrderIrrelevant | src/data_flow/DataFlowAnalysis.cpp:48-200 | two sequences of visits, in any orders, after which all equations hold, agree |
| DataFlowInvariants.EffectComposed | src/data_flow/DataFlowAnalysis.cpp:119-161 | defining results, then killing, then defining return values is the instruction's effect on each cell |
| DataFlowInvariants.MadeHereNotPassed | src/data_flow/DataFlowAnalysis.cpp:105-161 | a definition held in a cell stands at an instruction of its block that does not leave the cell alone |
| DataFlowInvariants.OwnUpToDate | src/data_flow/DataFlowAnalysis.cpp:62-170 | after a visit, the definitions a block itself makes and still holds are from this visit and carry the operands of its entry context |
| DataFlowInvariants.StillSunk | src/data_flow/DataFlowAnalysis.cpp:56-199 | if a change of sites makes the successors wait, the sinks and own definitions of blocks that are not waiting stay those of one more visit |
| DataFlowInvariants.CountsAgree | include/ppc2cpp/data_flow/FlowContext.hpp:87-99 | a context without two nodes of one site has as many nodes as sites in every cell (the states of `NodeRuns.RunCountsSites` are such) |
| DataFlowInvariants.ExploredFromEntry | src/data_flow/DataFlowAnalysis.cpp:15-27 | the depth-first listing has every internal block that can be entered, once |
| DataFlowAnalysis.DataFlowAnalysis.ReadRegister | src/data_flow/DataFlowAnalysis.cpp:105-117 | the operand stands for the sites of the register: an input, the one definition, or a phi node of all; and exactly which node is made |
| DataFlowAnalysis.DataFlowAnalysis.ReadOperands | src/data_flow/DataFlowAnalysis.cpp:95-117 | the inputs are a node for each reference, then for each immediate, then for each register: a function input if it holds nothing, its definition if it holds one, and else a phi node over exactly what it holds |
| DataFlowAnalysis.DataFlowAnalysis.DefineAll | src/data_flow/DataFlowAnalysis.cpp:119-169 | each listed register is defined by its own site alone, with the instruction's operands; all other cells keep their nodes |
| DataFlowAnalysis.DataFlowAnalysis.KillAll | src/data_flow/DataFlowAnalysis.cpp:151-154 | the listed cells are empty, all others keep their nodes |
| DataFlowAnalysis.DataFlowAnalysis.InitBlockContext | src/data_flow/DataFlowAnalysis.cpp:39-46 | the context holds the union of the predecessors' nodes, and so of their sites |
| DataFlowAnalysis.DataFlowAnalysis.VisitInsn | src/data_flow/DataFlowAnalysis.cpp:62-170 | results, call returns and sinks carry exactly the instruction's operands; a sink is made exactly for a store or a branch; every register then holds the return value of a call, nothing, the last result that names it, or what it held; fails exactly for an unknown register |
| OperandNodes.SpecifiedInsn | src/data_flow/DataFlowAnalysis.cpp:95-169 | the same of the node-by-node specification that the runs are made of |
| DataFlowAnalysis.DataFlowAnalysis.VisitInsns | src/data_flow/DataFlowAnalysis.cpp:62-170 | the same over the block's range |
| DataFlowAnalysis.DataFlowAnalysis.MakeReturns | src/data_flow/DataFlowAnalysis.cpp:172-189 | one return node per return register that holds something at the end of an exit block, reading what it holds |
| OperandNodes.ReturningAll | src/data_flow/DataFlowAnalysis.cpp:174-188 | each register that holds something is among those returned as often as it is listed, and no other |
| DataFlowAnalysis.DataFlowAnalysis.VisitBlock | src/data_flow/DataFlowAnalysis.cpp:53-192 | the outputs, as sites, change by exactly one recomputation; the sinks are the expected ones; nodes, context and sinks are exactly those specified; both change tests |
| DataFlowAnalysis.DataFlowAnalysis.InitWorklist | src/data_flow/DataFlowAnalysis.cpp:15-18 | the depth-first listing of the blocks: each internal block that can be entered, once |
| DataFlowAnalysis.DataFlowAnalysis.InitWorklistRecurse | src/data_flow/DataFlowAnalysis.cpp:20-27 | extends the listing depth first |
| DataFlowAnalysis.DataFlowAnalysis.PushSuccessors | src/data_flow/DataFlowAnalysis.cpp:194-198 | the exact new worklist, still without duplicates and internal only |
| DataFlowAnalysis.DataFlowAnalysis.FunctionDFAImpl | src/data_flow/DataFlowAnalysis.cpp:48-201 | ends on every function; whenever a block is taken, all blocks not waiting satisfy their equations and have the right sinks |
| DataFlowAnalysis.DataFlowAnalysis.FunctionDFA | src/data_flow/DataFlowAnalysis.cpp:29-37 | succeeds exactly when all blocks name known registers; then the outputs are the least solution, and sinks and held definitions have the operands that one more pass would give |
| DataFlowAnalysis.DataFlowAnalysis.VisitNext | src/data_flow/DataFlowAnalysis.cpp:50-199 | one visit with the code's change test takes the pass to the next state of the node-counting run: nodes, contexts, sinks and worklist |
| DataFlowAnalysis.DataFlowAnalysis.FunctionDFAImplByNodes | src/data_flow/DataFlowAnalysis.cpp:48-201 | any number of visits do |
| DataFlowAnalysis.DataFlowAnalysis.FunctionDFAByNodes | src/data_flow/DataFlowAnalysis.cpp:29-201 | the whole pass: only definitions that reach, all of them exactly when every block satisfies its equation; each block has exactly the sinks of its last visit; complete when it has ended, if changes are noticed |
| NodeRuns.VisitRepresents | src/data_flow/DataFlowAnalysis.cpp:53-199 | a visit to the nodes is one step of the node-counting run, with the same sizes and the same new worklist |
| NodeRuns.SizesAgree | include/ppc2cpp/data_flow/FlowContext.hpp:87-99 | a block holds as many nodes in each cell as the run has definitions there |
| NodeRuns.RunIsSound | src/data_flow/DataFlowAnalysis.cpp:29-201 | what the nodes stand for is within the least solution, and is it exactly when every block satisfies its equation |
| NodeRuns.GivenBelow | src/data_flow/DataFlowAnalysis.cpp:39-46 | what came to the last visit of a block is within what reaches it in the least solution |
| NodeRuns.EndedComplete | src/data_flow/DataFlowAnalysis.cpp:48-201 | under the condition `Noticed` an ended run is complete, sinks included |
| NodeRuns.OneWayRun | src/data_flow/DataFlowAnalysis.cpp:15-201 | if every definition comes one way, the run of the code ends with the least solution, loops included |
| NodeRuns.RunCountsSites | include/ppc2cpp/data_flow/FlowContext.hpp:87-99 | in all its states numbers of nodes are then numbers of sites |
| NodeConvergence.StepListed | src/data_flow/DataFlowAnalysis.cpp:15-27 | a block whose predecessors are all listed before it and visited once is visited once |
| NodeConvergence.VisitSingle | src/data_flow/DataFlowAnalysis.cpp:39-46 | then the nodes of one definition that come to a block over different edges are the same |
| NodeConvergence.CellNoticed | src/data_flow/DataFlowAnalysis.cpp:191-199 | if the sites of a cell change, so does its number of nodes, given either condition for its register |
| NodeConvergence.Ends | src/data_flow/DataFlowAnalysis.cpp:191-200 | if every definition comes one way the run ends |
| NodeConvergence.EndsRight | src/data_flow/DataFlowAnalysis.cpp:48-201 | a run in which changes are noticed has found everything when it ends |
| NodeConvergence.LastEntryFresh | src/data_flow/DataFlowAnalysis.cpp:56-199 | and then a block that is not waiting was last given what it would be given now |
| NodeConvergence.OnceDefinedOneWay | src/data_flow/DataFlowAnalysis.cpp:15-27 | definitions of a register that is defined only in blocks visited once come one way |
| SinkTheorems.SinksInOrder | src/data_flow/DataFlowAnalysis.cpp:125-165 | the sinks expected of a visit are one per store or branch, in strictly increasing instruction order |
| SinkTheorems.SunkInOrder | src/data_flow/DataFlowAnalysis.cpp:125-189 | so are those of a block after any of its visits, followed only by return values, and those only at the end of exit blocks |
| SinkTheorems.CompleteInOrder | src/data_flow/DataFlowAnalysis.cpp:125-189 | and those of every block of a complete pass |
| SinkTheorems.SinksWithin | src/data_flow/DataFlowAnalysis.cpp:105-165 | a visit to which less came makes sinks for the same stores and branches, with operands that read fewer definitions |
| NodeCounting.VisitSites | src/data_flow/DataFlowAnalysis.cpp:53-189 | a visit recomputes the same sites however the nodes are numbered |
| NodeCounting.CountedRunsAreSound | src/data_flow/DataFlowAnalysis.cpp:48-201 | in every state of every node-counting run the outputs are within the least solution, and are it exactly when every block satisfies its equation |
| EndlessRuns.LoopNeverEnds | src/data_flow/DataFlowAnalysis.cpp:191-200 | on a function with a loop of passing blocks, of any length and entered from anywhere, whose end goes on to its start or first to a block that defines the register, such a run has something waiting after any number of visits, in whatever order the blocks are first listed |
| EndlessRuns.NestedLoopNeverEnds | src/data_flow/DataFlowAnalysis.cpp:191-200 | in particular with a one-block loop inside another loop |
| EndlessRuns.TurningStep | src/data_flow/DataFlowAnalysis.cpp:48-200 | why: the new node is pending, fresh, or on its way round, and every step keeps that |
| LoopFreeRuns.StepLightens | src/data_flow/DataFlowAnalysis.cpp:191-200 | without loops every step makes the worklist lighter |
| LoopFreeRuns.LoopFreeIffDownhill | src/data_flow/DataFlowAnalysis.cpp:191-200 | there is no loop if and only if the blocks can be numbered so that every edge goes down |
| LoopFreeRuns.LoopFreeRunEnds | src/data_flow/DataFlowAnalysis.cpp:48-201 | without loops a node-counting run ends |
| LoopFreeRuns.LoopFreeEnds | src/data_flow/DataFlowAnalysis.cpp:48-201 | within a number of visits given by its first worklist |
| LoopFreeRuns.ForwardEndsRight | src/data_flow/DataFlowAnalysis.cpp:15-201 | if no edge goes against the first listing, it visits every block once and ends with the least solution |
| LoopFreeRuns.ForwardOneWay | src/data_flow/DataFlowAnalysis.cpp:15-27 | in such a listing every definition comes one way |
| NestedLoopExample.Blocks | src/control_flow/ControlFlowAnalysis.cpp:14-92 | the blocks constructed for the four-instruction example |
| NestedLoopExample.NeverEnds | src/data_flow/DataFlowAnalysis.cpp:48-201 | on it the node-counting run does not end, in whatever order the blocks are first listed |
| NestedLoopExample.RunNeverEnds | src/data_flow/DataFlowAnalysis.cpp:15-201 | in particular not from the code's own listing, on the constructed graph |
| ConditionInLoop.Blocks | src/control_flow/ControlFlowAnalysis.cpp:14-92 | the blocks constructed for a conditional assignment in a loop |
| ConditionInLoop.NeverEnds | src/data_flow/DataFlowAnalysis.cpp:48-201 | on it the node-counting run does not end, in whatever order the blocks are first listed |
| ConditionInLoop.RunNeverEnds | src/data_flow/DataFlowAnalysis.cpp:15-201 | in particular not from the code's own listing |
| PrologueLoop.LoopEndsRight | src/data_flow/DataFlowAnalysis.cpp:15-201 | a function with a loop whose definitions all come one way: the run of the code ends with the least solution |
| MissedDefinition.Blocks | src/control_flow/ControlFlowAnalysis.cpp:14-92 | the blocks constructed for the nine-instruction example |
| MissedDefinition.EndsTooEarly | src/data_flow/DataFlowAnalysis.cpp:15-201 | it has no loops; the run of the code on the constructed graph ends after twelve visits; a definition that reaches the return is not found there |
| StaleSink.Blocks | src/control_flow/ControlFlowAnalysis.cpp:14-92 | the blocks constructed for the seven-instruction example |
| StaleSink.EndsStale | src/data_flow/DataFlowAnalysis.cpp:56-199 | on it the run of the code ends after twelve visits with the least solution, but the store's sink reads one of the two definitions that reach it; no pass that follows the run is complete |
| FlowEquivalence.MatchInFields | src/analysis/ProgramComparator.cpp:32-117 | when two nodes match, field by field, both directions: the same kind, as many inputs that match one by one, and opcode and block, symbol, type and addend, immediate, or location |
| FlowEquivalence.LocalMatchIsLabel | src/analysis/ProgramComparator.cpp:32-96 | two nodes pass the checks before their inputs if and only if their labels are equal and their instructions lie in a block |
| FlowEquivalence.MatchIffTreesEqual | src/analysis/ProgramComparator.cpp:23-118 | two nodes match if and only if their unfolded label trees are equal and every instruction in them lies in a block |
| FlowEquivalence.FlowsMatchIffTrees | src/analysis/ProgramComparator.cpp:147-199 | flows are equal if and only if block counts, successor rows and, per block, the lists of sink trees are |
| FlowEquivalence.PhiOrderMatters | src/analysis/ProgramComparator.cpp:92-111 | two phi nodes with matching inputs at exchanged places match if and only if the trees at the exchanged places are equal |
| FlowEquivalence.MatchingValuesAgree | src/analysis/ProgramComparator.cpp:44-117 | matching nodes have equal values under every interpretation of the labels |
| FlowEquivalence.AgreeingNodesMatch | src/analysis/ProgramComparator.cpp:44-117 | nodes with equal values under every interpretation match |
| FlowEquivalence.MatchingFlowsObservedAlike | src/analysis/ProgramComparator.cpp:147-199 | functions with equal flows have the same routes over blocks and along each the same values of stores, branches and returns, under every interpretation |
| FlowEquivalence.MatchingFlowsSamePredecessors | src/analysis/ProgramComparator.cpp:181-192 | and the same predecessors, each as often, although only successors are compared |
| FlowEquivalence.FlowsMatchReflexive | src/analysis/ProgramComparator.cpp:57-117 | a flow whose instructions all lie in blocks matches itself |
| FlowEquivalence.FlowsMatchSymmetric | src/analysis/ProgramComparator.cpp:57-117 | the comparison is symmetric |
| FlowEquivalence.FlowsMatchTransitive | src/analysis/ProgramComparator.cpp:57-117 | the comparison is transitive |
| SameCode.AllOrdersMatchIff | src/analysis/ProgramComparator.cpp:92-111 | a flow matches all flows that differ from it in the order of phi inputs, if and only if no phi node in use has two inputs with different trees |
| SameCode.AgreeingOrdersMatch | src/analysis/ProgramComparator.cpp:92-111 | two given flows of the same code match if the orders of their phi inputs agree |
| SameCode.AlikeMatchIffOrdersAgree | src/analysis/ProgramComparator.cpp:92-111 | for two given flows also only if, when no phi node lies under another |
| ProgramComparators.VarNodeComparisonCache.Set | include/ppc2cpp/analysis/ProgramComparator.hpp:23-25 | the pair has the new answer, all others are unchanged |
| ProgramComparators.VarNodeComparisonCache.Check | include/ppc2cpp/analysis/ProgramComparator.hpp:26-30 | the stored answer, or none |
| ProgramComparators.ProgramComparator.CompareLocally | src/analysis/ProgramComparator.cpp:32-96 | decides whether two nodes agree before their inputs |
| ProgramComparators.ProgramComparator.CompareVarNodes | src/analysis/ProgramComparator.cpp:23-118 | the cached comparison gives the answer of the plain recursion; after a match the cache is right for every finished pair, entries above are untouched, and no pair is expanded twice |
| ProgramComparators.ProgramComparator.CompareInputs | src/analysis/ProgramComparator.cpp:98-117 | the same for the loop over the inputs, with the pair itself entered early |
| ProgramComparators.ProgramComparator.CompareSinks | src/analysis/ProgramComparator.cpp:154-176 | whether the sinks of a block match, with the wrong entry for a failing pair |
| ProgramComparators.ProgramComparator.CompareFunctionFlows | src/analysis/ProgramComparator.cpp:135-200 | true exactly when the flows are equal by the plain recursion; expansions number at most the product of the node counts |
| ProgramComparators.ExpandedFew | src/analysis/ProgramComparator.cpp:24-110 | distinct expanded pairs are at most the product of the node counts |
| BuiltProblems.BlocksEntered | src/data_flow/DataFlowAnalysis.cpp:20-27 | every internal block is entered from block 0, so the first worklist has all of them |
| BuiltProblems.CallIsLast | src/data_flow/DataFlowAnalysis.cpp:133-162 | a call's kills and definitions come after every other instruction of its block |
| BuiltProblems.CallEffect | src/data_flow/DataFlowAnalysis.cpp:133-162 | what a branch that links does to each register, by its names in the calling convention |
| BuiltProblems.KeptByCall | src/data_flow/PpcCallingConvention.cpp:25-88 | exactly which registers keep their definitions behind a call of a constructed block |
| Pipeline.PassGivesFlow | src/analysis/ProgramComparator.cpp:62-68 | the nodes of a pass are acyclic, and every instruction that the comparison looks up lies in a block |
| Pipeline.Analyse | src/cli/ppc2cpp.cpp:201-210 | with the intended change test, both analyses succeed except on code they must refuse; the result is the constructed graph, complete and fit for comparison |
| Pipeline.CheckFlow | src/cli/ppc2cpp.cpp:201-216 | with the intended change test, the answer is equality of the two analysed flows |
| Pipeline.AnalyseByNodes | src/cli/ppc2cpp.cpp:201-210 | with the code's change test and a limit: the constructed graph, and exactly the nodes, contexts and sinks of the run; refused only for code that must be |
| Pipeline.CheckFlowByNodes | src/cli/ppc2cpp.cpp:201-216 | if both runs have ended within the limit, the answer of the tool is equality of the two flows that the code makes |
| Pipeline.MatchingNodesSameOperands | src/analysis/ProgramComparator.cpp:73-117 | matching results and sinks of analysed functions stand for instructions with the same references and immediates, and as many registers |
| Pipeline.EqualFlowsSameStores | src/analysis/ProgramComparator.cpp:154-176 | in functions that the tool finds equal, the stores and branches of each block correspond one by one, with the same opcodes, references and immediates |
| Pipeline.SameCodeAlike | src/cli/ppc2cpp.cpp:201-216 | two ended analyses of the same code make the same nodes and sinks, up to the order of phi inputs |
| Pipeline.ReorderedAnalysed | src/data_flow/DataFlowAnalysis.cpp:112-116 | a flow that differs only in the order of phi inputs is a result of the analysis too |
| Pipeline.MatchesItselfIff | src/cli/ppc2cpp.cpp:201-216 | an analysed function matches every other result of its own analysis if and only if no phi node in use has two inputs with different trees |
| ReorderedPhis.SameSunk | src/data_flow/DataFlowAnalysis.cpp:112-116 | what is known of a block's sinks and definitions does not depend on the order of phi inputs |
| JoinedReturn.Blocks | src/control_flow/ControlFlowAnalysis.cpp:14-92 | the blocks constructed for a function at whose return two definitions meet |
| JoinedReturn.AnalysesDiffer | src/cli/ppc2cpp.cpp:201-216 | its analysis can have two results that the comparison finds different |

## Left out

- DataFlowAnalysis.DataFlowAnalysis.FunctionDFAImpl: compares numbers of definition sites where the code compares numbers of nodes, so termination and completeness are those of the intended test; `FunctionDFAImplByNodes` has the code's own.
- DataFlowAnalysis.DataFlowAnalysis.FunctionDFA: the same; `FunctionDFAByNodes` has the code's own test.
- ChaoticIteration.SizesDetectChange: for numbers of sites; for numbers of nodes see `NodeConvergence.CellNoticed`.
- ChaoticIteration.VisitSolves: assumes that a change of sites is noticed; when numbers of nodes notice it is `NodeConvergence.CellNoticed`.
- ChaoticIteration.AllSolvedIsLeast: an ended run of the code need not meet its hypothesis; `NodeConvergence.EndsRight` says when it does.
- ChaoticIteration.ChangeShrinksMissing: measures sites; `NodeConvergence.Ends` uses it for the run of the code.
- ChaoticIteration.OrderIrrelevant: for visits after which all equations hold, which a run of the code may miss.
- DataFlowInvariants.StillSunk: assumes that a change of sites is noticed; for the run of the code see `NodeConvergence.LastEntryFresh`.
- DataFlowAnalysis.DataFlowAnalysis.FunctionDFAImplByNodes: is cut off after a number of visits, because the code need not end; the number is arbitrary.
- NodeRuns.OneWayRun: one direction; the condition can be computed before the run, but a run can also end with everything found where two nodes of one definition meet and happen not to hide a change. Whether they do depends on the whole sequence of visits, and no condition on the graph that is both necessary and sufficient is given.
- NodeRuns.EndedComplete: one direction, for the same reason.
- EndlessRuns.LoopNeverEnds: one direction; other functions on which the run does not end are not characterised.
- EndlessRuns.NestedLoopNeverEnds: a special case of it.
- LoopFreeRuns.ForwardEndsRight: one direction; `NodeRuns.OneWayRun` is wider.
- SameCode.AgreeingOrdersMatch: one direction for two given flows, whose exchanged orders can cancel out; exact over all orders is `SameCode.AllOrdersMatchIff`.
- SameCode.AlikeMatchIffOrdersAgree: exact for two given flows only if no phi node lies under another; over all orders see `SameCode.AllOrdersMatchIff`.
- Pipeline.Analyse: uses the pass that counts sites; `AnalyseByNodes` has the code's own.
- Pipeline.CheckFlow: the same; `CheckFlowByNodes` has the code's own.
- DataFlowAnalysis.DataFlowAnalysis.ReadRegister: the order of a phi node's inputs is fixed but arbitrary, as in a hash set.
- FlowEquivalence.LocalMatchIsLabel: references to local symbols, which the code compares by the symbols' contents, are not covered; only references to global symbols are.
- ProgramComparators.ProgramComparator.CompareLocally: the same.
- Transitive inputs of nodes left over from earlier visits: described exactly as nodes, but in terms of sites only for the operands of sinks and of the definitions a block still holds.
- A node's `block` is kept for specifications; the code does not store it.
- Builds in which assertions are switched off, where a scan would go on past them.
- Functions without instructions, of a size that is not a multiple of 4, or whose addresses wrap around; these are the caller's.
- 32-bit block indices: `FewBlocks` bounds them by twice the function's length.
- Jump tables behind a branch to CTR: the code does not follow them either.
- Target resolution, relocation and symbol tables, and the lookup that supplies a missing reference of a call: parameters of an instruction.
- Opcode tables, operand extraction and the use/define lists of each opcode: parameters of an instruction.
- The loop over call arguments, whose effect is commented out in the code.
- Comparison of whole programs, symbols and data.
- Loading of ELF, DOL and REL files, project files, the command line, graph output, logging and messages.
