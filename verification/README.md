# ByteVeil, verified models

This project models the parts of ByteVeil that other code relies on without looking twice, and proves what they promise.

**Control and data flow of Luau functions.** From validated instruction words to basic blocks, liveness, reachability,
dominators, immediate dominators, natural loops, post-dominators, strongly connected components and register versions.
Every analysis is specified by paths through the graph or the code, and every loop has a termination argument. The
analysis always passes the check the program makes of it.

**The Lua 5.1 reconstruction.** A small-step Lua 5.1 machine whose data effects are left open, and the programs the
reconstruction emits for it: the program-counter dispatcher, the dispatcher isolated in a single-entry region, folded
condition chains, the success-flag protocol, and the cells that stand for captured registers. Each is proved to do what
the machine does. The search for ranges that return on all paths is exact.

**The byte formats.** The two MoonSec readers agree byte for byte, and every tree that can be written is what its bytes
denote; layouts and tag maps survive their textual names; payload alphabets and quoted strings read back, and string
literals are read in exactly their spellings. A written Luau envelope parses to the code written, whatever the code bytes
are, and unscrambling restores exactly the scrambled opcode bytes.

## Files

| files | content |
|---|---|
| `Graph`, `MustPass`, `Sorting`, `Optional` | graphs and paths; greatest fixpoints of "lies on every path"; sorted lists; optional values |
| `Validation`, `Cfg`, `RegisterBlocks` | validated words, basic blocks, the renderer's block table |
| `Liveness`, `Dominators`, `ImmediateDominators`, `NaturalLoops`, `LoopTheory`, `Loops`, `CrossingLoops`, `PostDominators`, `TarjanTheory`, `Tarjan` | the analyses of one graph |
| `VersionTheory`, `Versions`, `Propagation`, `PhiHistory`, `VersionPaths`, `VersionEntry` | version propagation: one register, all registers, the loop, the phis it records, paths, paths back to the entry |
| `Function`, `SelfCheck` | the analysed function object, and the check it passes |
| `Lua51`, `Lua51Proto`, `Lua51Words`, `Dispatcher`, `Simulation`, `Regions`, `ReturnPaths` | the machine, the prototypes it runs, their words, the dispatcher, its simulation, regions, returning ranges |
| `GuardChains`, `FlagProtocol` | condition chains |
| `CaptureCells`, `CaptureRefinement`, `Captures` | upvalues, cells, and the tables behind them |
| `Bytes`, `Quoting`, `Escapes`, `Alphabet` | bytes, string literals, every spelling in them, payload alphabets |
| `MoonSecFormat`, `MoonSecTotals`, `MoonSecReaders`, `MoonSecTree`, `MoonSecWriter`, `MoonSecText`, `MoonSecProbe` | the serialized prototypes, and a writer for them |
| `Opcodes`, `Envelope`, `EnvelopeFrame`, `EnvelopeReader`, `EnvelopeWriter`, `EnvelopeChunk` | Luau chunks, and a writer for them |

Methods follow the loops of the original and are proved against specification functions or predicates; the lemmas then
say what those mean. Vectors that the original fills are fields or sequences. Vectors that only ever serve as sorted sets
(live registers, dominators, loop members, components) are sets.

## Results that qualify the source

- `Lua51Proto.AcceptedIsWellFormedIff`: the validator accepts a test that no JMP follows, although the machine takes the next
  word for one (`Lua51Proto.TestWithoutJump`); everything else the machine needs of control follows from acceptance.
- `NaturalLoops.WorklistLoopIsNatural`: the worklist starts from the latch even when it is the header, so for a self edge
  it walks the header's own predecessors (`NaturalLoops.SelfEdgeTakesInEntry`); the lemma says exactly when the result is
  still the natural loop.
- `LoopTheory.NestedOrDisjointIff`: for the same reason the loops of two headers may overlap without nesting
  (`LoopTheory.LoopsMayCross`); they do so exactly if both headers have self edges and neither reaches the other.
- `LoopTheory.HeaderDominatesIff`: and the header of such a loop does not dominate it, because the entry is in it.
- `Loops.ParentIsInnermostIff` and `Loops.ChainIsCompleteIff`: a scope's parent is the smallest loop around it, which need not
  be the innermost one when loops overlap (`CrossingLoops.ParentMayNotBeInnermost`); both conditions are exact.
- `Loops.PreheaderIsImmediateDominatorIff`: the block recorded as preheader need not be one control ever reaches (`Loops.PreheaderMayBeUnreachable`); it is the
  header's immediate dominator exactly if the header is not the entry and has no self edge.
- `RegisterBlocks.SuccessorsAssignedIff`: the renderer leaves out one of the two ways a LOADB that skips, a FASTCALL or a
  CMPPROTO has in the CFG; for a CMPPROTO this loses its jump (`RegisterBlocks.CompareLosesTarget`).
- `VersionEntry.ReplayExactIff`: block 0 always starts from version 0, so versions are inexact on paths that come back to it
  with another one (`VersionEntry.EntryLoopIsInexact`); the condition on the code is exact.
- `FlagProtocol.MiddleEnteredIff`: the check of a guarded chain looks at jumps and loops outside the chain but not at a
  LOADBOOL that skips (`FlagProtocol.LoadBoolEntersMiddle`); the lemma says that this is the only way left into the middle.

## Model

| member | source | states |
|---|---|---|
| Validation.ValidateOne | byteveil_decompiler/IR.cpp:352-490 | accepts exactly the words whose walk is in order, stays in the instruction budget and whose jumps land on instructions; what it accepts is tiled as the later passes need |
| Validation.DecodeWords | byteveil_decompiler/IR.cpp:364-474 | the decoding loop succeeds exactly if the walk over the words does, and yields its instructions and boundaries |
| Validation.CheckTargets | byteveil_decompiler/IR.cpp:475-482 | succeeds exactly if every jump target is an instruction boundary |
| Validation.AcceptedIsValidated | byteveil_decompiler/IR.cpp:364-482 | accepted words tile the code and every jump lands on an instruction |
| Validation.ValidateTree | byteveil_decompiler/IR.cpp:352-487 | the recursion over child prototypes accepts exactly if every prototype of the tree has a legal header, decodes and jumps to instructions, nesting stays within the limit, and the instructions of all prototypes together do too |
| Validation.EveryPrototypeValidated | byteveil_decompiler/IR.cpp:485-487 | every prototype of an accepted tree, however deep, has the code shape the later passes rely on, lies within the nesting limit, has no more parameters than registers and no more children and constants than allowed |
| Cfg.CollectStarts | byteveil_decompiler/IR.cpp:532-537 | the block starts are, ascending, exactly offset 0, the jump targets and the offsets behind jumps and returns |
| Cfg.LeaderListUnique | byteveil_decompiler/IR.cpp:532-537 | the ascending list of leaders is determined by the code alone |
| Cfg.InstructionsBetween | byteveil_decompiler/IR.cpp:541 | a block lists exactly the instructions whose offsets lie in it, in order |
| Cfg.BlockSuccessors | byteveil_decompiler/IR.cpp:542-550 | the sorted, duplicate-free successors are exactly the blocks that start where the last instruction can go |
| Cfg.CutBlocks | byteveil_decompiler/IR.cpp:538-553 | the blocks, cut at the leaders, with their instruction lists and successors |
| Cfg.AddPredecessors | byteveil_decompiler/IR.cpp:554-556 | predecessor lists mirror the successor lists, both directions, and are sorted without duplicates |
| Cfg.LinkInstructions | byteveil_decompiler/IR.cpp:557-568 | every instruction gets the block it lies in and the block its jump leads to, or -1 |
| Cfg.BuildBlocks | byteveil_decompiler/IR.cpp:532-556 | blocks partition the instructions, control enters a block only at its first and leaves it only from its last instruction, and block edges are exactly the last instructions' steps |
| RegisterBlocks.Blocks | byteveil_decompiler/RegisterDecompile.cpp:200-220 | the renderer's block table has exactly the leaders as starts, each paired with the next start or the end of the code |
| RegisterBlocks.TablesAgree | byteveil_decompiler/RegisterDecompile.cpp:200-220 | the renderer's blocks and the blocks of the analysed CFG have the same starts and ends |
| RegisterBlocks.RenderBlock | byteveil_decompiler/RegisterDecompile.cpp:298-489 | walking a block from its start to its end collects exactly the program counters its last instruction and the fallthrough give |
| RegisterBlocks.AssignedStartSuccessors | byteveil_decompiler/RegisterDecompile.cpp:286-489 | every assigned program counter other than -1 is the start of a successor of the block in the analysed CFG |
| RegisterBlocks.SuccessorsAssignedIff | byteveil_decompiler/RegisterDecompile.cpp:286-489 | a block assigns the starts of all its successors iff it does not end in a LOADB that skips, a FASTCALL or a CMPPROTO with two different ways to go |
| RegisterBlocks.CompareLosesTarget | byteveil_decompiler/RegisterDecompile.cpp:473-475 | a concrete function: nothing a block ending in CMPPROTO assigns leads to the block it jumps to |
| RegisterBlocks.RenderFunction | byteveil_decompiler/RegisterDecompile.cpp:285-489 | over all blocks of the renderer's own table, what the emitted code of a block assigns: only starts of its successors, or -1 behind the last block; all of them iff it does not end in a LOADB that skips, a FASTCALL or a CMPPROTO with two different ways to go; and which one those three keep |
| Liveness.Summarise | byteveil_decompiler/IR.cpp:575-586 | upward-exposed uses and definitions of one block |
| Liveness.SummaryIsWalk | byteveil_decompiler/IR.cpp:595-617 | the forward use/definition summary and the backward walk over a block compute the same set |
| Liveness.Sweep | byteveil_decompiler/IR.cpp:591-605 | one descending in-place sweep keeps the tables below every solution and settles or raises them |
| Liveness.Solve | byteveil_decompiler/IR.cpp:587-606 | the iteration terminates in the least solution of the liveness equations |
| Liveness.WalkIsSound | byteveil_decompiler/IR.cpp:587-606 | a register found by walking a block backward is read on some path before being written |
| Liveness.WalkIsComplete | byteveil_decompiler/IR.cpp:587-606 | a register read on some path before being written is found by the backward walk |
| Liveness.SolutionIsExact | byteveil_decompiler/IR.cpp:587-606 | a least solution holds, for every block, exactly the registers read before being written on some instruction path |
| Liveness.ComputeLiveness | byteveil_decompiler/IR.cpp:571-606 | the recorded live-in sets are exact for instruction paths, and live-out sets are the unions over the successors |
| Liveness.PeakOfBlock | byteveil_decompiler/IR.cpp:607-619 | walking back from live-out ends exactly at live-in, and the recorded count is the largest set on the way |
| Liveness.PeakBoundsBothEnds | byteveil_decompiler/IR.cpp:607-619 | the recorded peak bounds both the live-in and the live-out set of its block |
| Liveness.AnalyseLiveness | byteveil_decompiler/IR.cpp:569-619 | live-in, live-out and peaks of all blocks together |
| Dominators.MarkReachable | byteveil_decompiler/IR.cpp:630-636 | depth-first marking marks exactly what the block reaches through unmarked blocks, on top of what was marked |
| Dominators.ReachableBlocks | byteveil_decompiler/IR.cpp:630-637 | the marked blocks are exactly those some path from block 0 reaches |
| FunctionAnalysis.PredecessorSets | byteveil_decompiler/IR.cpp:625-628 | the predecessor sets are exactly the reversed edges |
| Dominators.Intersect | byteveil_decompiler/IR.cpp:654-664 | intersects the sets of the reachable predecessors and adds the block itself |
| Dominators.Sweep | byteveil_decompiler/IR.cpp:651-666 | one ascending in-place sweep stays above the exact answer and shrinks the tables unless all equations hold |
| Dominators.ComputeDominators | byteveil_decompiler/IR.cpp:639-667 | the in-place iteration terminates; d is in dominators[x] iff every path from block 0 to reachable x contains d, and unreachable blocks get nothing |
| Dominators.DominatesIsMustPass | byteveil_decompiler/IR.cpp:639-667 | lying on every entry path is lying on every backward walk to the entry |
| MustPass.FixpointIsExact | byteveil_decompiler/IR.cpp:646-667 | a stable table above the exact answer is the exact answer, for any neighbour relation |
| MustPass.UpdateIsApprox | byteveil_decompiler/IR.cpp:654-665 | an in-place update keeps a table above the exact answer |
| MustPass.TotalSizeDrops | byteveil_decompiler/IR.cpp:665 | an update that changes an entry lowers the total, so the loop ends |
| ImmediateDominators.DominatorsOrdered | byteveil_decompiler/IR.cpp:669-682 | two dominators of one reachable block are ordered by dominance |
| ImmediateDominators.ImmediateDominatorUnique | byteveil_decompiler/IR.cpp:669-682 | a block has at most one immediate dominator |
| ImmediateDominators.StrictDominatorSmaller | byteveil_decompiler/IR.cpp:676-680 | a strict dominator has strictly fewer dominators, so set sizes order a chain |
| ImmediateDominators.DeepestIsImmediate | byteveil_decompiler/IR.cpp:674-681 | the strict dominator with the largest set is the immediate dominator |
| ImmediateDominators.ComputeImmediateDominators | byteveil_decompiler/IR.cpp:669-682 | records the immediate dominator of every reachable block, 0 for the entry and -1 elsewhere |
| ImmediateDominators.DominatorsViaIdom | byteveil_decompiler/IR.cpp:669-682 | dominators[b] is b together with dominators[idom b] |
| ImmediateDominators.AncestorsAreDominators | byteveil_decompiler/IR.cpp:669-682 | following immediate dominators from a reachable block visits exactly its dominators and ends at block 0 |
| NaturalLoops.WorklistLoop | byteveil_decompiler/IR.cpp:689-696 | the worklist yields header, latch and the reachable blocks that get to the latch through blocks it expands |
| NaturalLoops.WorklistLoopIsNatural | byteveil_decompiler/IR.cpp:689-697 | for a back edge, the result is the header plus the reachable blocks reaching the latch without passing the header iff latch and header differ or no other reachable block enters the header |
| NaturalLoops.HeaderDominatesLoop | byteveil_decompiler/IR.cpp:684-698 | the header of a back edge dominates every block of its natural loop |
| NaturalLoops.FindLoops | byteveil_decompiler/IR.cpp:684-698 | records exactly the edges whose target dominates their source, each with its loop; with ascending successor lists each edge comes once, by source and then by target |
| NaturalLoops.SelfEdgeTakesInEntry | byteveil_decompiler/IR.cpp:689-697 | a concrete graph: for a block that jumps to itself the worklist takes in the entry, which is not in the natural loop |
| Loops.MergeLoops | byteveil_decompiler/IR.cpp:702-710 | one loop per header, with exactly the back edges to it in order, their latches and the union of their natural loops |
| Loops.FindPreheader | byteveil_decompiler/IR.cpp:718-721 | the one predecessor of the header outside the loop, or -1 if there is none or more than one |
| Loops.FindExits | byteveil_decompiler/IR.cpp:722-726 | exactly the blocks outside the loop that some member goes to |
| Loops.MaterializeLoops | byteveil_decompiler/IR.cpp:702-727 | one loop for each header of a back edge; back edges, latches, members, exits and preheader stated by paths and edges, the back edges in the order they were found |
| LoopTheory.HeaderDominatesIff | byteveil_decompiler/IR.cpp:684-727 | the header dominates its whole merged loop iff it is the entry or has no self edge |
| LoopTheory.LoopEnteredAtHeader | byteveil_decompiler/IR.cpp:684-727 | control enters a loop at its header only |
| LoopTheory.LoopsNest | byteveil_decompiler/IR.cpp:702-710 | of two such loops with a common block, that of the dominated header lies inside the other and leaves out its header |
| LoopTheory.NestedOrDisjointIff | byteveil_decompiler/IR.cpp:702-710 | the loops of two headers are disjoint or nested iff not both headers have self edges with neither reaching the other |
| LoopTheory.LoopsMayCross | byteveil_decompiler/IR.cpp:689-710 | a concrete graph: two branches with a self edge each have loops that overlap without nesting |
| Loops.PreheaderIsImmediateDominatorIff | byteveil_decompiler/IR.cpp:718-721 | a recorded preheader is the header's immediate dominator iff the header is not the entry and has no self edge |
| Loops.PreheaderMayBeUnreachable | byteveil_decompiler/IR.cpp:718-721 | a concrete graph: a block control never reaches is recorded as the preheader |
| Loops.ScopeParent | byteveil_decompiler/IR.cpp:793-798 | the smallest loop strictly around a loop, or the function |
| Loops.ParentIsInnermostIff | byteveil_decompiler/IR.cpp:789-798 | the recorded parent lies inside every other loop around a loop iff, wherever two of those have self-edge headers neither of which reaches the other, a third of them lies inside both |
| Loops.ChainContains | byteveil_decompiler/IR.cpp:789-798 | following parents from a loop always ends at the function and visits only loops that contain it |
| Loops.ChainIsCompleteIff | byteveil_decompiler/IR.cpp:789-798 | and it visits all of them, up to loops with the same blocks, iff no two of those around it have self-edge headers neither of which reaches the other |
| CrossingLoops.ParentMayNotBeInnermost | byteveil_decompiler/IR.cpp:789-798 | a concrete graph: whichever of two overlapping loops is recorded as the parent, the other does not contain it, and the chain misses the other |
| PostDominators.Sweep | byteveil_decompiler/IR.cpp:738-750 | one descending in-place sweep stays above the exact answer and shrinks the tables unless all equations hold |
| PostDominators.ComputePostDominators | byteveil_decompiler/IR.cpp:729-751 | p is in postDominators[x] iff every path from reachable x to a block without successors contains p; blocks that reach no exit keep all reachable blocks |
| TarjanTheory.EnterKeepsInv | byteveil_decompiler/IR.cpp:768 | numbering and pushing a block keeps the invariant of the search |
| TarjanTheory.RootSegmentIsScc | byteveil_decompiler/IR.cpp:774-777 | what lies on the stack from a root upward is a strongly connected component |
| TarjanTheory.EmitKeepsInv | byteveil_decompiler/IR.cpp:774-780 | emitting that segment keeps the invariant |
| TarjanTheory.LeaveKeepsInv | byteveil_decompiler/IR.cpp:768-773 | finishing a block that is no root keeps the invariant |
| TarjanTheory.VisitChild | byteveil_decompiler/IR.cpp:771 | folding in the low link of an unvisited successor |
| TarjanTheory.VisitSeen | byteveil_decompiler/IR.cpp:772 | folding in the number of a successor on the stack |
| TarjanTheory.FinishedIsDecomposition | byteveil_decompiler/IR.cpp:764-782 | once all reachable blocks are numbered the components are complete |
| Tarjan.Search.PopComponent | byteveil_decompiler/IR.cpp:777 | pops the stack down to and including the root and records what was popped |
| Tarjan.Search.StrongConnect | byteveil_decompiler/IR.cpp:767-781 | visits a block and everything unvisited it leads to, keeping the invariant and its low link exact |
| Tarjan.Search.Run | byteveil_decompiler/IR.cpp:782 | starts at every reachable block not yet numbered, and ends with the decomposition |
| Tarjan.StronglyConnectedComponents | byteveil_decompiler/IR.cpp:764-782 | the components partition the reachable blocks, two blocks share one iff each reaches the other, and each component leads only to itself and earlier ones |
| Versions.VersionsDistinctAndBounded | byteveil_decompiler/IR.cpp:816-824 | definition and phi versions never collide and stay below 2^31 under the limits of 1,000,000 instructions and 255 registers |
| Versions.Transfer | byteveil_decompiler/IR.cpp:861-871 | the outgoing row is, per register, the version of the block's last definition, or the incoming version |
| Versions.MergeRegister | byteveil_decompiler/IR.cpp:844-857 | compares the predecessors' versions of one register |
| Propagation.MergeRow | byteveil_decompiler/IR.cpp:838-859 | the merged row of a block, with a phi recorded wherever predecessors disagree |
| Propagation.Sweep | byteveil_decompiler/IR.cpp:836-873 | one in-place sweep over all blocks: settles at least one more block of every register not done, and takes no cell its version |
| VersionTheory.MergeHasVersionIff | byteveil_decompiler/IR.cpp:839-857 | merging yields a version exactly at the entry and behind a predecessor that has one |
| VersionTheory.UpdateKeepsVersions | byteveil_decompiler/IR.cpp:838-872 | no update of a block takes a version away from any block |
| Versions.RowLosesNothing | byteveil_decompiler/IR.cpp:859-872 | storing the rows of a block returns no incoming or outgoing cell to -1 |
| Propagation.VisitBlock | byteveil_decompiler/IR.cpp:838-872 | recomputing one block from the tables as they are is one step of a run, with the blocks taken in turn |
| Propagation.NeverReturns | byteveil_decompiler/IR.cpp:832-874 | in every sequence of tables that starts without versions and recomputes one block after the other in turn, no incoming, outgoing or phi cell that has a version is back at -1 later |
| VersionTheory.UpdateKeepsSealed | byteveil_decompiler/IR.cpp:836-873 | no update lets a group of pass-on blocks hold a version made outside it |
| VersionTheory.SomethingIsDue | byteveil_decompiler/IR.cpp:833-874 | as long as some block is unsettled a sweep settles another one |
| VersionTheory.SettledIsForeign | byteveil_decompiler/IR.cpp:844-857 | a live settled version is none an unsettled group can make |
| VersionTheory.StableStays | byteveil_decompiler/IR.cpp:836-873 | recomputing a settled block reproduces it |
| Versions.SweepSettlesMore | byteveil_decompiler/IR.cpp:836-873 | the termination measure: every sweep settles more of every unfinished register |
| Propagation.ComputeVersions | byteveil_decompiler/IR.cpp:829-874 | the loop terminates although cells may fall back from a phi to a plain version; the result is a fixpoint with a phi recorded wherever predecessors disagree, no sealed group holds a foreign version, and the result is reached from tables without versions by recomputing one block after the other in turn |
| VersionPaths.ReplayIsComputed | byteveil_decompiler/IR.cpp:832-874 | replaying definitions and phis along any entry path that does not come back to block 0 gives exactly the computed versions |
| VersionPaths.ReplayExactIffUndisturbed | byteveil_decompiler/IR.cpp:839 | the replay is exact on all entry paths iff no reachable predecessor of block 0 carries a version other than 0 |
| VersionEntry.ZeroIsUntouched | byteveil_decompiler/IR.cpp:839-872 | a reachable block carries version 0 only if nothing between the entry and it defines the register, lacks predecessors or lies on a cycle |
| VersionEntry.UntouchedIsZero | byteveil_decompiler/IR.cpp:839-872 | and then it does |
| VersionEntry.ReplayExactIff | byteveil_decompiler/IR.cpp:839 | the replay is exact on all entry paths iff the blocks between the entry and its reachable predecessors, the entry included, define nothing, all have predecessors and form no cycle without the entry |
| VersionEntry.EntryLoopIsInexact | byteveil_decompiler/IR.cpp:839 | a concrete flow: one block that defines a register and jumps back to itself |
| FunctionAnalysis.VersionsExactIff | byteveil_decompiler/IR.cpp:829-874 | the same for an analysed function, the condition read off its instructions and edges |
| VersionPaths.NonPhiIsLastWritten | byteveil_decompiler/IR.cpp:861-872 | a version that is no phi is the last one written on every entry path |
| VersionPaths.LastWrittenIsLastDefiner | byteveil_decompiler/IR.cpp:861-872 | the last written version is that of the last block on the path that defines the register |
| VersionPaths.NothingWritten | byteveil_decompiler/IR.cpp:839 | without a definition on the path it is the entry version 0 |
| VersionPaths.GroupEntryHoldsOwnPhi | byteveil_decompiler/IR.cpp:851-856 | an entry block of a sealed group fed a foreign version holds its own phi |
| VersionPaths.ReachableHasVersion | byteveil_decompiler/IR.cpp:829-874 | every reachable block ends with real versions, never -1 |
| FunctionAnalysis.CollectPhis | byteveil_decompiler/IR.cpp:875-886 | the phi nodes are exactly the recorded phi cells, each once, by block and then by register, with its predecessors' outgoing versions |
| PhiHistory.RunRecords | byteveil_decompiler/IR.cpp:836-874 | at every point of a run a phi cell holds its number iff an earlier step visited its block while two predecessors held different versions, and -1 otherwise |
| FunctionAnalysis.PhiIff | byteveil_decompiler/IR.cpp:839-857 | the analysed function reports a phi for a block and register iff the block is not the entry and at some visit of it two of its predecessors held different versions of the register |
| FunctionAnalysis.PhiJoins | byteveil_decompiler/IR.cpp:839-886 | the block of every reported phi is not the entry and has two different predecessors, both with an incoming version |
| FunctionAnalysis.BackEdgesInOrder | byteveil_decompiler/IR.cpp:684-688 | the back edges of the analysed function are listed once each, by source and then by target |
| FunctionAnalysis.VersionsFollowPaths | byteveil_decompiler/IR.cpp:811-887 | for the analysed function, incoming versions replay along entry paths and non-phi versions name the last writer |
| FunctionAnalysis.Function.AnalyseStructure | byteveil_decompiler/IR.cpp:623-782 | reachability, dominators, loops, post-dominators and components of any non-empty graph |
| FunctionAnalysis.Function.AllPasses | byteveil_decompiler/IR.cpp:532-887 | all passes over one function: faithful blocks, exact liveness, exact structure, and version tables that are the last of a run of the propagation, with the phi nodes of that run |
| FunctionAnalysis.Function.Analyse | byteveil_decompiler/IR.cpp:493-889 | fills the fields of the function object with the results of all passes, the version tables and the run they come from among them |
| SelfCheck.ValidateFunctionAnalysis | byteveil_decompiler/IR.cpp:981-1054 | accepts exactly if lists have one entry per block, edges are mirrored, instructions name their block, and registers, dominators, back edges, loops and phi nodes refer to what exists |
| SelfCheck.PhiPasses | byteveil_decompiler/IR.cpp:1047-1054 | a phi has as many incoming versions as its block has entries in the predecessor list |
| SelfCheck.AnalysisPasses | byteveil_decompiler/IR.cpp:981-1054 | whatever code it is given, the analysis passes its own check |
| Lua51.StepFollowsEdge | byteveil_decompiler/Lua51.cpp:2528-2549 | every step of the Lua 5.1 machine follows a recorded control successor and lands on an instruction or at the end |
| Lua51Words.AbcReads | byteveil_decompiler/Lua51.cpp:246 | a word written from an opcode and the operands A, B and C decodes to them |
| Lua51Words.AbxReads | byteveil_decompiler/Lua51.cpp:246 | a word written from an opcode, A and an eighteen-bit operand decodes to them |
| Lua51Words.DecodedWrites | byteveil_decompiler/Lua51.cpp:246 | every 32-bit word is written again by the fields it decodes to |
| Lua51Words.JumpLands | byteveil_decompiler/Lua51.cpp:246-247 | a JMP, FORLOOP or FORPREP at pc whose field is its displacement d plus half the largest eighteen-bit number, rounded down, has target pc + 1 + d, for every d that fits |
| Lua51Words.NoSuccessors | byteveil_decompiler/Lua51.cpp:2532 | operand words and opcodes 29 and 30 have no successors |
| Lua51Words.JumpSuccessors | byteveil_decompiler/Lua51.cpp:2533-2542 | opcodes 22 and 32 go by their displacement, 31 also to the next word |
| Lua51Words.TestSuccessors | byteveil_decompiler/Lua51.cpp:2534-2540 | opcodes 23 to 27 take the JMP behind them or skip a word |
| Lua51Words.GenericLoopSuccessors | byteveil_decompiler/Lua51.cpp:2517-2543 | opcode 33 goes by the displacement of the word behind it or skips that word |
| Lua51Words.OtherSuccessors | byteveil_decompiler/Lua51.cpp:2544-2548 | all other opcodes go on, 2 with C set over one word, 34 and 36 over their own operand words |
| Lua51Words.StraightLineWords | byteveil_decompiler/Lua51.cpp:934-941 | what an accepted prototype may have between the tests of a guarded chain, by opcode number: 0 to 21 but no skipping 2, 35, 36, and 28, 34 and 37 without an open operand list |
| Lua51Words.ClosureCaptures | byteveil_decompiler/Lua51.cpp:135-160 | in an accepted prototype opcode 36 captures, word by word, what opcode 0 or 4 behind it names, 4 from the enclosing function's upvalues |
| Lua51Words.CloseManages | byteveil_decompiler/Lua51.cpp:161-168 | a captured register is managed iff some opcode 35 names it or a lower one |
| Lua51Proto.MarkExtraWords | byteveil_decompiler/Lua51.cpp:242-260 | fails exactly if the last SETLIST lacks its extra word; otherwise marks exactly the words a SETLIST without a block number takes as its own |
| Lua51Proto.AcceptedIsWellFormedIff | byteveil_decompiler/Lua51.cpp:133-232 | a prototype whose words decode, associate and validate is well-formed code for the machine iff a JMP follows each of its tests and TFORLOOPs |
| Lua51Proto.TestWithoutJump | byteveil_decompiler/Lua51.cpp:213 | a concrete prototype: accepted although no JMP follows its TEST |
| Dispatcher.EmitPcBlock | byteveil_decompiler/Lua51.cpp:2640-2709 | the emitting loop yields the statements of the block |
| Dispatcher.MarkLeaders | byteveil_decompiler/Lua51.cpp:2717-2730 | adds the instructions of the range an instruction marks as block starts |
| Dispatcher.CollectLeaders | byteveil_decompiler/Lua51.cpp:2713-2731 | the block starts are, ascending, exactly the range's beginning and the marked instructions in it |
| Dispatcher.TreeSelects | byteveil_decompiler/Lua51.cpp:2739-2752 | the binary tree runs exactly the block whose start the program counter holds |
| Dispatcher.EmitPcDispatcherRange | byteveil_decompiler/Lua51.cpp:2710-2754 | emits nothing for an impossible range, and otherwise the dispatcher over its leaders |
| Dispatcher.TransferSimulates | byteveil_decompiler/Lua51.cpp:2645-2703 | the statements of a transfer do exactly what the machine does |
| Dispatcher.BlockSimulates | byteveil_decompiler/Lua51.cpp:2640-2709 | the statements of a block do what the machine does on its instructions, effect by effect |
| Simulation.BlockLandsOnHead | byteveil_decompiler/Lua51.cpp:2710-2754 | a block leaves the program counter at a block start or outside the range |
| Simulation.IterationSimulates | byteveil_decompiler/Lua51.cpp:2737-2753 | one iteration is at least one machine step and ends at a loop head |
| Simulation.LoopSimulates | byteveil_decompiler/Lua51.cpp:2737-2753 | at every loop head program counter and state are the machine's, after at least as many steps as iterations |
| Simulation.DispatcherRefinesMachine | byteveil_decompiler/Lua51.cpp:2710-2754 | the dispatcher ends with a result iff the machine does, so one runs forever iff the other does |
| Simulation.WholeFunctionDispatcher | byteveil_decompiler/Lua51.cpp:2755-2757 | for a whole function this needs nothing but well-formed code |
| Regions.BuildControlFlowGraph | byteveil_decompiler/Lua51.cpp:2550-2561 | successor and predecessor tables hold exactly the edges |
| Regions.IsSingleEntryExitRegion | byteveil_decompiler/Lua51.cpp:2562-2575 | answers yes exactly if begin is the only entry and end the only exit, and both exist |
| Regions.EnteredAtBegin | byteveil_decompiler/Lua51.cpp:2562-2575 | a walk from instruction 0 that is inside the region came through begin and has stayed inside since |
| Regions.LeftAtEnd | byteveil_decompiler/Lua51.cpp:2562-2575 | a walk that leaves the region arrives at end |
| Regions.IsolatedDispatcher | byteveil_decompiler/Lua51.cpp:2562-2575 | in such a region the isolated loop does what the machine does and exits only by a return or with the program counter at end |
| ReturnPaths.AllPathsReturn | byteveil_decompiler/Lua51.cpp:942-973 | answers yes exactly for ranges of at most 32 instructions all of whose paths return without leaving the range or looping |
| ReturnPaths.Search.Visit | byteveil_decompiler/Lua51.cpp:946-971 | a visit that succeeds proves its paths return; one that fails leaves a path from the root that never does |
| ReturnPaths.StuckNeverFinishes | byteveil_decompiler/Lua51.cpp:947-950 | a path that leaves the range, meets a loop instruction or closes a cycle never finishes |
| ReturnPaths.AllPathsReturnHalts | byteveil_decompiler/Lua51.cpp:942-973 | if the answer is yes, the machine started there returns, whatever its tests answer |
| ReturnPaths.AlwaysReturnsIff | byteveil_decompiler/Lua51.cpp:942-973 | in well-formed code the search says yes iff along every path of recorded control successors a return comes inside the range, without a cycle or a loop instruction |
| Captures.BindSlots | byteveil_decompiler/Lua51.cpp:144-156 | binds the words after a CLOSURE, and fails exactly if one of them is no MOVE or GETUPVAL |
| Captures.OwnerUnique | byteveil_decompiler/Lua51.cpp:135-160 | a binding word belongs to one CLOSURE at most |
| Captures.CollectManaged | byteveil_decompiler/Lua51.cpp:161-168 | a register is managed iff it is captured and some CLOSE covers it |
| Captures.Associate | byteveil_decompiler/Lua51.cpp:133-169 | succeeds iff every CLOSURE is followed by its bindings; owner, slot and capture lists are exact, and so are captured and managed registers |
| Captures.Prototype.AssociateClosureCaptures | byteveil_decompiler/Lua51.cpp:133-169 | fills in the prototype's tables, or reports failure |
| Captures.ManagedAreCells | byteveil_decompiler/Lua51.cpp:161-168 | the managed registers of the tables are those the run-time model keeps in cells |
| Captures.LocalCapturesAreCaptured | byteveil_decompiler/Lua51.cpp:152-154 | every recorded local capture is one the run-time model allows |
| CaptureRefinement.CellsRefineUpvalues | byteveil_decompiler/Lua51.cpp:1004-1053 | for every sequence of calls, register reads and writes, closure creations, upvalue reads and writes, CLOSEs and returns, the emitted cells show the values Lua 5.1 upvalues show |
| CaptureRefinement.StepAgrees | byteveil_decompiler/Lua51.cpp:1004-1053 | one operation keeps the relation between upvalues and cells and shows the same value |
| CaptureRefinement.CallAgrees | byteveil_decompiler/Lua51.cpp:857-879 | the declarations at a function's head give every managed register a cell of its own |
| CaptureRefinement.BindAllAgrees | byteveil_decompiler/Lua51.cpp:1036-1053 | a new closure holds, capture by capture, the home of the upvalue it gets: shared, inherited or new |
| CaptureRefinement.HomeIsFresh | byteveil_decompiler/Lua51.cpp:1004-1012 | a slot without an open upvalue has a home no upvalue stands for yet |
| CaptureRefinement.RebindRebinds | byteveil_decompiler/Lua51.cpp:1025-1035 | CLOSE gives each managed register from A up a fresh cell with the old value and touches nothing else |
| CaptureRefinement.CloseAgrees | byteveil_decompiler/Lua51.cpp:1143-1147 | CLOSE detaches exactly the upvalues Lua closes, and older closures keep their cells |
| CaptureRefinement.ReturnAgrees | byteveil_decompiler/Lua51.cpp:1025-1035 | a return closes the frame's upvalues while its locals and cells live on in the closures |
| CaptureRefinement.SlotWriteAgrees | byteveil_decompiler/Lua51.cpp:1004-1053 | writing a register or an open upvalue reaches every closure that shares it |
| CaptureRefinement.ClosedWriteAgrees | byteveil_decompiler/Lua51.cpp:1004-1053 | writing a closed upvalue reaches exactly the closures that share it, and no register |
| GuardChains.GuardStep | byteveil_decompiler/Lua51.cpp:916-928 | the A and C polarity: the machine falls through to the body exactly if the emitted condition holds |
| GuardChains.NegateNegates | byteveil_decompiler/Lua51.cpp:929-933 | the negated condition has the opposite value and the same effects |
| GuardChains.CollectChain | byteveil_decompiler/Lua51.cpp:1758-1764 | collects as many test and jump pairs as there are |
| GuardChains.FoldChain | byteveil_decompiler/Lua51.cpp:2195-2242 | a fold is produced exactly if all tests share one exit behind the body or a prefix of them forms an or; the and wins, then the shortest or; conditions, body and join are those of the shape |
| GuardChains.TryOr | byteveil_decompiler/Lua51.cpp:2222-2241 | finds the shortest prefix whose jumps all enter the body but the last, and reports none exactly if there is none |
| GuardChains.AndMeans | byteveil_decompiler/Lua51.cpp:2198-2216 | the and form, operand by operand |
| GuardChains.OrMeans | byteveil_decompiler/Lua51.cpp:2222-2239 | the or form, operand by operand |
| GuardChains.FoldMeans | byteveil_decompiler/Lua51.cpp:2195-2242 | for chains of any length the folded condition takes control to the body or the join exactly as the tests do, with the same tests in the same order |
| FlagProtocol.FindGuardedChain | byteveil_decompiler/Lua51.cpp:1783-1868 | finds the chain exactly if there is one: at most 128 consecutive candidates with one join, as many as there are, a fallback of at most 16 safe words, and no other transfer into or out of the middle |
| FlagProtocol.SeekCondition | byteveil_decompiler/Lua51.cpp:1794-1803 | the guard behind at most 16 safe words, if there is one |
| FlagProtocol.SeekIff | byteveil_decompiler/Lua51.cpp:1794-1803 | a guard is found iff it stands behind at most that many safe words with its jump inside the range; there is at most one such guard |
| FlagProtocol.SeekNoneIff | byteveil_decompiler/Lua51.cpp:1794-1803 | nothing is found iff there is no such guard |
| FlagProtocol.SearchEnds | byteveil_decompiler/Lua51.cpp:1830-1868 | when no further candidate follows, the candidates found are the chain if any is, and no other list of candidates is |
| FlagProtocol.TestCandidate | byteveil_decompiler/Lua51.cpp:1804-1823 | accepts exactly a primary test, payload and secondary test whose jumps fit the candidate and the join shared so far |
| FlagProtocol.CheckEdges | byteveil_decompiler/Lua51.cpp:1844-1868 | accepts exactly if the chain's transfers are the only ones inside and no jump outside leads into the middle |
| FlagProtocol.MiddleEnteredIff | byteveil_decompiler/Lua51.cpp:1853-1867 | after the check the middle can be entered from outside iff a LOADBOOL that skips stands right before the chain |
| FlagProtocol.LoadBoolEntersMiddle | byteveil_decompiler/Lua51.cpp:1853-1867 | a concrete prototype: a guarded chain that passes the check and is entered behind its first test by a LOADBOOL |
| FlagProtocol.EmitGuarded | byteveil_decompiler/Lua51.cpp:1869-1901 | the emitted do-block: the first candidate unguarded, the others and the fallback under the flag |
| FlagProtocol.FoldGuarded | byteveil_decompiler/Lua51.cpp:1783-1901 | a protocol is emitted exactly if there is a guarded chain, and it is the protocol of that chain |
| FlagProtocol.CandidateMeans | byteveil_decompiler/Lua51.cpp:1882-1893 | after a candidate the flag is up iff the machine is at the join |
| FlagProtocol.ProtocolMeans | byteveil_decompiler/Lua51.cpp:1869-1901 | the emitted statements end in the state in which the machine arrives at the join, for any number of candidates |
| Quoting.LuaQuote | byteveil_decompiler/Lua51.cpp:68-82 | writes the quoted form |
| Quoting.LuaString | byteveil_decompiler/RegisterDecompile.cpp:68-94 | the register renderer's writer produces the same quoted form |
| Quoting.ReadQuotedLiteral | byteveil_decompiler/MoonSec.cpp:71-142 | reads a literal, all escapes included, and fails exactly where the scan does |
| Quoting.ReadEscaped | byteveil_decompiler/MoonSec.cpp:91-139 | one escape: letters, line ends, z, hexadecimal and decimal |
| Quoting.EscapeReads | byteveil_decompiler/MoonSec.cpp:91-139 | an escaped byte reads back as itself whatever follows it |
| Quoting.ScanBody | byteveil_decompiler/MoonSec.cpp:79-142 | scanning undoes spelling for any writer and reader that are inverse item by item |
| Quoting.QuotedReadsBack | byteveil_decompiler/Lua51.cpp:68-82 | wherever the quoted form of a byte string stands, reading gives the string and stops just behind the closing quote |
| Quoting.QuoteThenRead | byteveil_decompiler/MoonSec.cpp:71-142 | the round trip through both, in front of any text |
| Escapes.SpellingReads | byteveil_decompiler/MoonSec.cpp:79-139 | every way to spell a character reads back: as it is, control letters, line ends alone and paired, z with any white space, two hexadecimal digits of either case, one to three decimal digits |
| Escapes.ItemIsSpelled | byteveil_decompiler/MoonSec.cpp:79-139 | whatever is read as one item is one of these spellings |
| Escapes.ReadsExactlySpellings | byteveil_decompiler/MoonSec.cpp:79-139 | the reader takes exactly the spellings, each as the bytes it stands for and up to its end |
| Alphabet.AlphabetCandidate | byteveil_decompiler/MoonSec.cpp:179-191 | accepts exactly texts of the right length with sixteen distinct letters and no line ends among them |
| Alphabet.DecodeAlphabetPayload | byteveil_decompiler/MoonSec.cpp:193-212 | every payload byte from its pair of letters and the rolling key |
| Alphabet.DecodeOfEncode | byteveil_decompiler/MoonSec.cpp:193-212 | decoding undoes encoding for every alphabet, key and payload |
| Alphabet.EncodeOfDecode | byteveil_decompiler/MoonSec.cpp:193-212 | a candidate in its own letters is the encoding of what it decodes to |
| MoonSecReaders.SerializedReader.ReadConstants | byteveil_decompiler/MoonSec.cpp:267-304 | follows the format of a constant table |
| MoonSecReaders.SerializedReader.ReadInstructions | byteveil_decompiler/MoonSec.cpp:306-337 | follows the format of an instruction table |
| MoonSecReaders.SerializedReader.ReadFunction | byteveil_decompiler/MoonSec.cpp:350-373 | follows the format of a function, its nested functions included |
| MoonSecReaders.SerializedReader.Parse | byteveil_decompiler/MoonSec.cpp:219-228 | accepts exactly the bytes that denote a tree with a live instruction, and reports its totals |
| MoonSecTree.VirtualTreeReader.ReadConstants | byteveil_decompiler/MoonSec.cpp:623-657 | reads the constants the format denotes |
| MoonSecTree.VirtualTreeReader.ReadInstruction | byteveil_decompiler/MoonSec.cpp:664-698 | reads the instruction the format denotes, with signed operands |
| MoonSecTree.VirtualTreeReader.ReadFunction | byteveil_decompiler/MoonSec.cpp:714-738 | reads the function the format denotes |
| MoonSecTree.VirtualTreeReader.Parse | byteveil_decompiler/MoonSec.cpp:563-570 | succeeds exactly on bytes that denote a tree, returns that tree and consumes every byte |
| MoonSecTree.InLockStep | byteveil_decompiler/MoonSec.cpp:214-381 | the tree reader succeeds whenever the validator does, the reported totals are those of the tree, and caps and nesting limit hold |
| MoonSecWriter.U16Reads | byteveil_decompiler/MoonSec.cpp:240-247 | a number below 2^16 is read from its low and high byte |
| MoonSecWriter.U32Reads | byteveil_decompiler/MoonSec.cpp:249-258 | a number below 2^32 is read from its four bytes, the lowest first |
| MoonSecWriter.ConstantReads | byteveil_decompiler/MoonSec.cpp:623-657 | a written constant of any kind is read back, whatever tag stands for its kind |
| MoonSecWriter.InstructionReads | byteveil_decompiler/MoonSec.cpp:664-698 | a written instruction is read back: opcode, flags, the operands of all four types, negative ones included |
| MoonSecWriter.SerializedDenotes | byteveil_decompiler/MoonSec.cpp:558-738 | every tree within the caps, written byte by byte with any step order and any tags, discarded words included, is exactly what its bytes denote, with its totals |
| MoonSecTotals.FunctionTotals | byteveil_decompiler/MoonSec.cpp:350-373 | reading a function adds exactly the nodes, live instructions, constants, strings and non-nil constants of its tree |
| MoonSecTotals.FunctionShallow | byteveil_decompiler/MoonSec.cpp:352 | no accepted function nests deeper than the prototype limit |
| MoonSecTotals.DenotedTotals | byteveil_decompiler/MoonSec.cpp:219-228 | the totals of accepted bytes are those of the tree and stay within the caps |
| MoonSecText.LayoutName | byteveil_decompiler/MoonSec.cpp:383-400 | the step names joined with commas |
| MoonSecText.DecodeLayout | byteveil_decompiler/MoonSec.cpp:523-538 | succeeds exactly on four known step names and gives their steps |
| MoonSecText.LayoutRoundTrip | byteveil_decompiler/MoonSec.cpp:383-400 | every layout survives its name |
| MoonSecText.TagName | byteveil_decompiler/MoonSec.cpp:402-419 | the numbered kinds joined with commas |
| MoonSecText.DecodeTags | byteveil_decompiler/MoonSec.cpp:540-556 | succeeds exactly if every field names a slot and a kind; later fields override |
| MoonSecText.TagsRoundTrip | byteveil_decompiler/MoonSec.cpp:402-419 | every tag map survives its name |
| MoonSecProbe.Probe | byteveil_decompiler/MoonSec.cpp:447-495 | of all layouts and tag maps the bytes are acceptable under, the one found has the best score, and every one that is tried before it a lower score; none is missed |
| MoonSecProbe.ChoiceUnique | byteveil_decompiler/MoonSec.cpp:447-495 | this determines the layout, the tag map and the totals |
| MoonSecProbe.InspectVirtualIR | byteveil_decompiler/MoonSec.cpp:881-903 | the internal decode error is unreachable; a tree is reported iff some layout and tag map accept the bytes, and it is the tree they denote under the first of the best, with its totals |
| Opcodes.ApplyOpcodeTransform | byteveil_decompiler/RobloxBytecode.cpp:305-327 | the in-place loop computes the transform of the bytes or reports its first error |
| Opcodes.TransformCode | byteveil_decompiler/RobloxBytecode.cpp:307-324 | the same for one code range |
| Opcodes.RangeChanges | byteveil_decompiler/RobloxBytecode.cpp:307-324 | a transformed range decodes and differs from the input in its opcode bytes alone |
| Opcodes.RestoreAll | byteveil_decompiler/RobloxBytecode.cpp:305-327 | scrambled opcode bytes are all restored |
| Opcodes.TransformRestoresIff | byteveil_decompiler/RobloxBytecode.cpp:305-327 | with inverse multipliers the transform yields a chunk iff the chunk decodes and the input is it with its opcode bytes, and nothing else, multiplied |
| Opcodes.RobloxKeys | byteveil_decompiler/RobloxBytecode.cpp:348 | 227 and 203 are inverse modulo 256 |
| Opcodes.OpcodeVariants | byteveil_decompiler/RobloxBytecode.cpp:339-361 | a reading is returned iff the input is that chunk, plain or scrambled; the plain one comes first and equal ones come once |
| EnvelopeReader.Reader.ReadULEB | byteveil_decompiler/RobloxBytecode.cpp:43-54 | reads a ULEB128 number of at most 32 bits |
| EnvelopeReader.Reader.ProtoParts | byteveil_decompiler/RobloxBytecode.cpp:156-298 | one prototype, part by part, as the format says |
| EnvelopeReader.Reader.AllProtos | byteveil_decompiler/RobloxBytecode.cpp:152-299 | all prototypes, with the running totals of words and constants |
| EnvelopeReader.ParseEnvelope | byteveil_decompiler/RobloxBytecode.cpp:103-303 | computes the version and code ranges of the envelope; the ranges are in bounds, in order and disjoint |
| EnvelopeWriter.NumberReads | byteveil_decompiler/RobloxBytecode.cpp:43-54 | every number below 2^32, written in groups of seven bits by repeated division by 128, is read back, and reading stops behind it |
| EnvelopeWriter.FieldReads | byteveil_decompiler/RobloxBytecode.cpp:27-100 | every field reads back from the bytes its value is written with |
| EnvelopeWriter.IntervalsAre | byteveil_decompiler/RobloxBytecode.cpp:260 | the shifted count of line intervals is one for every chunk of 2^gap words begun |
| EnvelopeWriter.ProtoTaken | byteveil_decompiler/RobloxBytecode.cpp:152-298 | a written prototype of any version, with constants of every kind, children, lines, debug info, feedback, cost and appended fields, is read as the place and number of its words and the totals with it, up to its last byte |
| EnvelopeChunk.WrittenParses | byteveil_decompiler/RobloxBytecode.cpp:103-303 | a written envelope of any version, with its strings, userdata types, prototypes, main index and trailer, parses to its version and, in order, to the place and number of words of every prototype |
| EnvelopeChunk.WrittenCodeStands | byteveil_decompiler/RobloxBytecode.cpp:185-188 | the range found for a prototype holds exactly the words written for it |
| EnvelopeFrame.ParsedRangesOrdered | byteveil_decompiler/RobloxBytecode.cpp:185-188 | the code ranges of an accepted envelope are in bounds, in order and disjoint |
| EnvelopeFrame.ProtosLocal | byteveil_decompiler/RobloxBytecode.cpp:152-299 | prototypes are read alike from inputs that differ only inside the code ranges found |
| EnvelopeFrame.ParseIgnoresCode | byteveil_decompiler/RobloxBytecode.cpp:103-303 | whatever bytes stand in the code ranges, the envelope parses to the same version and ranges |
| EnvelopeReader.ScrambledChunkIsRestored | byteveil_decompiler/RobloxBytecode.cpp:103-327 | a chunk that parses and decodes, with its opcode bytes multiplied by 227, parses alike and is restored exactly |
| EnvelopeReader.VariantsOf | byteveil_decompiler/RobloxBytecode.cpp:339-364 | every variant has the input's own envelope and decodes, and the original of a scrambled chunk is among them |

## Left out

- Decoding a Luau instruction (its class, length, jump target, the registers it reads and writes, operand checks) is given: the vendored definitions are not modelled.
- Validation.ValidateOne: how a word is decoded and its register and constant operands are checked is a parameter of the model, because the vendored opcode definitions are not part of it; null prototypes and missing storage do not occur.
- The recursion of `addFunction` over child prototypes, names, constants, debug locals, use counts and line numbers: bookkeeping beside the analyses.
- SelfCheck.ValidateFunctionAnalysis: the checks on constants, names, debug locals, recorded definition versions, primary destination registers, immediate post-dominators and child identifiers, which concern fields the model does not have.
- The register lists and exit blocks of scopes.
- `immediatePostDominators` and `commonPostdom`: both take the smallest set, which is the outermost post-dominator, so there is no nearest-post-dominator property to prove.
- Phi minimality: a phi recorded early may become redundant, and the model keeps it as the code does.
- FunctionAnalysis.Function.Analyse: the original fills the fields while it computes; the model computes the results first and assigns the fields at the end.
- Lua51.StepFollowsEdge: assumes well-formed code, in which a JMP follows each test; the machine relies on it and the validator does not check it, and `Lua51Proto.AcceptedIsWellFormedIff` shows that it is all acceptance leaves open.
- Operand checks of `validateProtoData` on registers, constants and upvalues: they say nothing about control.
- Data effects of Lua 5.1 instructions are left open, so the rendering of CONCAT, FORLOOP and value folding is not covered; the theorems hold for every choice of effects.
- The remaining patterns of `emitRange`, the search for a region to isolate, and the naming of emitted variables.
- The other flag form of `emitRange`, for chains whose tests are separated by straight-line code and share one body, and its boolean-tail forms.
- CaptureRefinement.CellsRefineUpvalues: frames never reuse stack slots, because a return closes what is open there; the structured loops' own rebinding of a captured loop variable and per-pc debug names are not modelled.
- CLOSEUPVALS in the register renderer, which emits a comment for it.
- Searching the source text for candidate literals, scoring between literals, checksums and the JSON report of the MoonSec adapter.
- MoonSecProbe.Probe: takes the decoded payload bytes; the search over keys and literals around it is not modelled.
- EnvelopeReader.ParseEnvelope: the texts of error messages; only acceptance and the ranges are modelled.
- The Luau opcode table: any instruction set with lengths is allowed.
- The command line, file access, time and memory limits, the Luau compiler and virtual machine, the legacy AST lifter, text and JSON formatting of the reports.
