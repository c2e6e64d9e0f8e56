# injir core in Dafny

injir is a small compiler IR toolkit. A `Function` holds a list of `BasicBlock`s.
Each block holds an instruction list, two successor slots (true edge, false edge),
a predecessor list and a marker. A `Builder` creates blocks and instructions and
wires edges. On top of this sit the control-flow analyses and two rewrite passes:

- a preorder DFS;
- a reverse-postorder numbering written back to front into a pre-sized buffer;
- naive dominator lists: each block is removed in turn and reachability is recomputed;
- a loop forest: back edges found with a grey on-stack marker, reducibility read
  from the dominator lists, loop bodies filled by a backward walk over predecessor
  lists, nesting through `outer_loop`/`inner_loops`, and a root loop keyed by `nullptr`;
- constant folding of `add`/`mul`/`or`/`shl` on two constants, in unsigned 64-bit arithmetic;
- peephole identities for `mul` by 0 or 1, `or` with itself or 0, and `shl` with 0.

The project models this core in Dafny, one module per source file. The modelling
choices are these.

- `BasicBlocks.BasicBlock`, `Functions.Function` and `Builders.Builder` are classes
  whose methods update their fields in place, as the C++ classes do.
- Instructions are values: the datatype `Instrs.Instr` has one constructor per
  instruction class of lib/ir/instr.hpp:36-97, with `Kind()` and `Operands()`
  as that header's accessors. They live in an arena `seq<Instr>`
  owned by the function, and an instruction's id is its index there. A block's
  instruction list is a `seq<InstrId>`, and a cursor is an index into it, with the
  length standing for `end()`. Each instruction carries its `users` list.
- The analyses run on a value view of the function's blocks, `Cfg.Graph`: block
  `i` is `f.blocks[i]`, with successors as `Option<BlockId>` and predecessors as
  block ids (`Functions.Function.Graph`). Reachability and dominance are ghost
  predicates over paths of this graph.
- The per-block markers of the traversals become explicit sets passed along:
  `visited`, the grey set, the removed set, and the walk's marks.
- Every recursive traversal (DFS, RPO, back-edge collection) is a recursive method
  proved equal to one specification traversal, `Walks.Walk`. That function yields
  the preorder, the postorder and the back edges together, and its properties are
  proved once.
- Each pass is a method that rewrites the function in place. It is proved equal to
  a function over the arena and the block lists (`ConstantFolding.FoldAll`,
  `Peephole.PeepAll`), and the pass's promises are proved as lemmas about that function.
  For the peephole pass, `Peephole.PeepBlock`, `Peephole.PeepAll` and
  `Peephole.Apply` compute the corrected cursor loop, which goes on from the
  position a rewrite returns. The loop as lib/pass/peephole.hpp:125-134 writes it
  is modelled only by `Peephole.PeepRunAsWritten` (see Findings).
- The loop forest is computed with the corrected claim step `LoopSearches.Claim`,
  which skips attaching a loop to itself (see Findings). `LoopSearches.LoopSearch`,
  `LoopTrees.HeaderStep`, `LoopTrees.ProcessHeader`, `LoopTrees.Populate`,
  `LoopTrees.PopulateLoops` and `LoopBuild.ComputeLoopTree` all use it. The step as
  lib/cfg_analysis/loop.hpp:81-84 writes it is modelled only by
  `LoopSearches.ClaimAsWritten`.

## Model

| member | source | states |
|---|---|---|
| IrTypes.KindsAreExactlyThirteen | lib/ir/instr.hpp:15-29 | the instruction kinds are exactly thirteen pairwise distinct enumerators, and every kind is one of them |
| Instrs.AddIncoming | lib/ir/instr.hpp:99-104 | `add_incoming` appends exactly one (value, block) pair at the end of the phi's incoming list and changes nothing else |
| Instrs.ReplaceOperand | lib/pass/common.hpp:15 | every operand equal to `from` becomes `to` and every other operand stays, in place; kind, value and users list are unchanged |
| Instrs.ReplaceOperandRemoves | lib/pass/common.hpp:15 | when `from != to`, `from` is no longer an operand, and every operand afterwards is `to` or was an operand before |
| Instrs.ReplaceOperandSwaps | lib/pass/common.hpp:15 | the operands after the replacement are the swapped operand list, and replacing a second time changes nothing |
| Instrs.AddUser | lib/pass/common.hpp:16 | `add_user` appends the user at the end of the users list and keeps the kind and operands |
| BasicBlocks.BasicBlock.constructor | lib/ir/basic_block.hpp:36 | a new block has no instructions, no predecessors, no marker and two empty successor slots |
| BasicBlocks.BasicBlock.Size | lib/ir/basic_block.hpp:39 | `size()` is the number of instructions |
| BasicBlocks.BasicBlock.Insert | lib/ir/basic_block.hpp:50-52 | the instruction is placed immediately before `pos`, the returned cursor points at it, all other instructions keep their order, and the size grows by one |
| BasicBlocks.BasicBlock.EmplaceBack | lib/ir/basic_block.hpp:54-57 | the instruction becomes the new last element, the returned cursor points at it, and earlier instructions are unchanged |
| BasicBlocks.BasicBlock.Erase | lib/ir/basic_block.hpp:59 | exactly the instruction at `pos` is removed; the returned cursor is the one that followed it, and is `end()` exactly when the erased one was last |
| BasicBlocks.BasicBlock.EmplaceBackPred | lib/ir/basic_block.hpp:71-74 | the predecessor is appended at the end and the returned position points at it |
| BasicBlocks.BasicBlock.SetPred | lib/ir/basic_block.hpp:76-79 | requires `pos < preds.size()`; only slot `pos` changes |
| BasicBlocks.BasicBlock.ErasePred | lib/ir/basic_block.hpp:81 | exactly the predecessor at `pos` is removed and the returned position is `pos` |
| BasicBlocks.BasicBlock.SetSucc | lib/ir/basic_block.hpp:94-100 | requires `pos < 2`; writes only slot `pos`; slot 0 is the true successor and slot 1 the false successor |
| BasicBlocks.BasicBlock.SetMarker | lib/ir/basic_block.hpp:103-104 | `get_marker` afterwards returns the value given, and instructions and predecessors are unchanged |
| Functions.Function.constructor | lib/ir/function.hpp:21-22 | a new function keeps its return type and its argument types in constructor order, with no blocks |
| Functions.Function.GetArgType | lib/ir/function.hpp:24-29 | corrected lookup: it succeeds exactly for `index < size` with the argument type at that index, and fails otherwise |
| Functions.ArgTypeAsWritten | lib/ir/function.hpp:24-29 | the lookup as written: it throws exactly for `index > size`, reads past the end for `index == size`, and reads the type below that |
| Functions.ArgGuardAdmitsEnd | lib/ir/function.hpp:25 | the guard lets `index == size` through, for every argument list, the empty one included |
| Functions.ArgTypeAgreesBelowEnd | lib/ir/function.hpp:24-29 | the corrected and the as-written lookup agree on every index except `size`, where only the corrected one fails |
| Functions.Function.Size | lib/ir/function.hpp:31 | `size()` is the number of blocks |
| Functions.Function.Insert | lib/ir/function.hpp:42-44 | the block is placed immediately before `pos` and the returned position points at it |
| Functions.Function.EmplaceBack | lib/ir/function.hpp:46-49 | the block is appended at the end and returned; the first block created is `begin()`, the entry the passes use |
| Functions.Function.Graph | lib/ir/basic_block.hpp:99-100 | the successor view of the blocks has one node per block and every successor and predecessor names a block |
| Functions.Function.Alloc | lib/pass/constant_folding.hpp:25 | a new instruction is appended to the arena under a fresh id, and the blocks are unchanged |
| Functions.Function.ReplaceOperandOf | lib/pass/common.hpp:15 | exactly instruction `x` has its operand replaced in the arena |
| Functions.Function.AddUserTo | lib/pass/common.hpp:16 | exactly instruction `x` gains the user in the arena |
| Builders.Builder.constructor | lib/ir/builder.hpp:22 | a new builder has no current function and no current block |
| Builders.Builder.SetInsertPoint | lib/ir/builder.hpp:24-30 | sets both the current function and the current block |
| Builders.Builder.SetInsertBlock | lib/ir/builder.hpp:32-36 | requires a current function; sets only the current block |
| Builders.Builder.CreateFunction | lib/ir/builder.hpp:38-43 | a fresh function with the given return and argument types and no blocks becomes the current function |
| Builders.Builder.CreateBB | lib/ir/builder.hpp:45-50 | requires a current function; one fresh empty block is appended to it and returned |
| Builders.Builder.CreateBinInstr | lib/ir/builder.hpp:52-59 | a binary instruction of the given kind, lhs then rhs, becomes the current block's last instruction and a user of both operands |
| Builders.Builder.CreateAdd | lib/ir/builder.hpp:61-63 | `create_bin_instr` with kind `add` |
| Builders.Builder.CreateMul | lib/ir/builder.hpp:65-67 | `create_bin_instr` with kind `mul` |
| Builders.Builder.CreateCmpLe | lib/ir/builder.hpp:69-71 | `create_bin_instr` with kind `cmp_le` |
| Builders.Builder.CreateJump | lib/ir/builder.hpp:73-82 | slot 0 of the current block becomes the target and slot 1 is kept, the current block is appended to the target's predecessors, and a jump under the next arena id is appended to the current block; unless the target is the current block, the target's instructions and marker and the current block's predecessors are unchanged |
| Builders.Builder.CreatePhi | lib/ir/builder.hpp:84-89 | an empty phi is appended to the current block |
| Builders.Builder.CreateBr | lib/ir/builder.hpp:91-104 | slot 0 becomes the true target and slot 1 the false target; the current block is appended to the true then the false target's predecessors, twice to one target when both are the same; a branch on the condition, under the next arena id, is appended to the current block; a target other than the current block keeps its instructions and marker, and the current block keeps its predecessors when neither target is itself |
| Builders.Builder.LinkBoth | lib/ir/builder.hpp:96-100 | both edges of a branch: the slots and the predecessor lists as in `create_br`, the targets' instructions untouched; a well-wired function stays well wired when both targets are its blocks |
| Builders.Builder.Link | lib/ir/builder.hpp:77-78 | one edge: only the slot is written, the current block is appended to the target's predecessors, and a well-wired function stays well wired when the target is one of its blocks |
| Builders.Builder.CreateRet | lib/ir/builder.hpp:106-112 | a return of the value is appended to the current block and becomes a user of the value |
| Builders.Builder.CreateInt | lib/ir/builder.hpp:114 | a constant holding the 64-bit value is added to the function under a fresh id |
| Builders.Created | lib/ir/builder.hpp:57-58 | creating an instruction appends it under the next id and records it as a user of each of its operands, leaving every other instruction as it was |
| Builders.CreatedKeeps | lib/ir/builder.hpp:52-59 | creating an instruction keeps the arena closed, keeps every operand recorded in its users list, and keeps operands before their users |
| Builders.OrderedRanked | lib/ir/builder.hpp:52-112 | in an arena built this way only phis can refer forward, which is the ordering the peephole pass's def-use proof relies on |
| Builders.AssembledGraphPreds | lib/ir/builder.hpp:96-100 | in a function wired by the builder, for every edge U -> V of the successor view, U is in V's predecessor list |
| Cfg.DominatesIffUnreachable | lib/cfg_analysis/dom.hpp:25-28 | D dominates B exactly when B cannot be reached from the entry once D is removed |
| Dfs.Dfs | lib/cfg_analysis/dfs.hpp:15-34 | the traversal returns the preorder of the specification walk, which holds each block reachable without passing a removed block exactly once |
| Dfs.DfsVisit | lib/cfg_analysis/dfs.hpp:15-34 | one recursive visit appends the preorder of the walk from its block and marks exactly those blocks visited |
| Dfs.ProcessSuccessor | lib/cfg_analysis/dfs.hpp:23-30 | an absent or already visited successor is skipped; any other successor is visited |
| Dfs.DfsOrder | lib/cfg_analysis/dfs.hpp:15-34 | what `dfs(entry)` returns: nothing when the entry is removed, else the walk's preorder; `DfsOrderIsReachSet` and `DfsOrderIsPreorder` state what that order holds |
| Dfs.DfsOrderIsReachSet | lib/cfg_analysis/dfs.hpp:15-34 | the preorder is duplicate-free, its blocks are exactly those reachable avoiding removed blocks, it starts at the entry, and it is empty exactly when the entry is removed |
| Dfs.DfsOrderIsPreorder | lib/cfg_analysis/dfs.hpp:21-33 | every block after the first is entered by an edge from a block listed earlier, so a block is listed before the blocks it leads to |
| Walks.Walk | lib/cfg_analysis/dfs.hpp:15-34 | the traversal `dfs`, `rpo` and `collect_back_edges` share: mark a block, then visit its true and then its false successor unless absent, removed or visited, yielding the preorder, the postorder and the edges into blocks still on the active path; `WalkFromEntryOrders`, `WalkFromEntryReach` and `WalkFromEntryEdges` state what these are |
| Walks.WalkFromEntryEdges | lib/cfg_analysis/rpo.hpp:22-36 | every edge out of a block in postorder goes to a block placed earlier in postorder or is a recorded back edge, and every back edge closes a cycle inside the reachable set |
| Walks.WalkFromEntryOrders | lib/cfg_analysis/rpo.hpp:15-37 | the pre- and postorders are duplicate-free and equally long; preorder starts and postorder ends at the entry |
| Walks.WalkFromEntryReach | lib/cfg_analysis/rpo.hpp:15-37 | both orders hold exactly the blocks reachable from the entry avoiding removed blocks |
| Rpo.Rpo | lib/cfg_analysis/rpo.hpp:15-37 | the buffer holds the reverse postorder in its last slots and nothing before them; if the counter starts at the reachable count, the entry is at index 0 and the buffer is full |
| Rpo.RpoVisit | lib/cfg_analysis/rpo.hpp:15-37 | one recursive visit writes the postorder of its walk back to front below the counter, lowers the counter by its length, and changes no other slot |
| Rpo.RpoSuccessor | lib/cfg_analysis/rpo.hpp:22-30 | an absent or already visited successor is skipped; any other successor is visited |
| Rpo.RpoOrder | lib/cfg_analysis/rpo.hpp:15-37 | the walk's postorder from the entry, reversed; `RpoOrderIsReachSet`, `RpoStartsAtEntry` and `RpoForwardEdges` state what that order holds |
| Rpo.BackEdges | lib/cfg_analysis/loop.hpp:37-61 | the edges the same walk meets into a block still on its active path, in the order met; `Loops.CollectBackEdges` records exactly these, and `Loops.LatchesCloseCycles` and `Loops.BackTargetsReachable` state what they are |
| Rpo.RpoOrderIsReachSet | lib/cfg_analysis/rpo.hpp:27-36 | the reverse postorder holds each reachable block exactly once, so its length is the reachable count |
| Rpo.RpoStartsAtEntry | lib/cfg_analysis/rpo.hpp:36 | the entry comes first in reverse postorder |
| Rpo.RpoForwardEdges | lib/cfg_analysis/rpo.hpp:27-36 | for every edge U -> V that is not a back edge, V comes after U in reverse postorder |
| Dom.ComputeDom | lib/cfg_analysis/dom.hpp:17-39 | the map has exactly one key per reachable block, so its size is the reachable count, and each key's list is `DomList` |
| Dom.CollectUnreached | lib/cfg_analysis/dom.hpp:30-35 | the inner loop lists, in DFS order, the blocks other than D missing from the reduced reachability |
| Dom.Unreached | lib/cfg_analysis/dom.hpp:30-35 | a block is listed exactly when it is in the DFS order, is not D and is not reached; no repeats |
| Dom.DomList | lib/cfg_analysis/dom.hpp:25-35 | the list `dom` keeps for D: the blocks of the DFS order, other than D, that a DFS with D removed misses; `DomListMeaning` states that these are exactly the blocks D dominates |
| Dom.DomListMeaning | lib/cfg_analysis/dom.hpp:25-34 | B is listed under D exactly when B is reachable, B is not D and D dominates B; no block is listed twice |
| Dom.DomTreeMeaning | lib/cfg_analysis/dom.hpp:17-39 | in the computed map B is under D exactly when B is reachable, B is not D and D dominates B, and no block lists itself |
| Dom.EntryListsAll | lib/cfg_analysis/dom.hpp:25-34 | the entry lists every other reachable block |
| Dom.DomListTrans | lib/cfg_analysis/dom.hpp:25-34 | domination as listed is transitive |
| Dom.DominatesTrans | lib/cfg_analysis/dom.hpp:25-34 | dominance is transitive |
| Dom.DominatesAntisymmetric | lib/cfg_analysis/dom.hpp:25-34 | for two distinct blocks with A reachable, if A dominates B then B does not dominate A |
| CfgExamples.Example1Dfs | tests/cfg_analysis/dfs.cpp:11-21 | on the first fixture graph the DFS order is a, b, c, d, f, e, g |
| CfgExamples.Example1Rpo | tests/cfg_analysis/rpo.cpp:13-24 | on the first fixture graph the reverse postorder is a, b, f, g, e, c, d |
| CfgExamples.Example1DomListB | tests/cfg_analysis/dom.cpp:22-35 | on the first fixture graph b's dominated list holds c, d, f, e and g, each once |
| CfgExamples.Example1DomListF | tests/cfg_analysis/dom.cpp:22-35 | on the first fixture graph f's dominated list holds e and g, each once |
| CfgExamples.Example4BackEdges | tests/cfg_analysis/loop.cpp:110-124 | on the fourth fixture graph the only back edge is e -> b |
| CfgExamples.Example4HeaderDominatesLatch | tests/cfg_analysis/loop.cpp:110-124 | on the fourth fixture graph b dominates e |
| CfgExamples.Example4Loops | tests/cfg_analysis/loop.cpp:110-124 | on the fourth fixture graph the back-edge collection creates exactly one loop: header b, latch e, block b, reducible, no outer or inner loop |
| Loops.CollectBackEdges | lib/cfg_analysis/loop.hpp:31-67 | the back-edge DFS records into the loop tree exactly the back edges of the specification walk, in order, and marks exactly the walked blocks |
| Loops.CollectSuccessor | lib/cfg_analysis/loop.hpp:37-61 | an absent or removed successor is skipped; a grey successor records a back edge; an unvisited one is visited |
| Loops.RecordAll | lib/cfg_analysis/loop.hpp:43-56 | the back edges recorded one after the other, each as one grey-successor case of `process_successor`; `RecordAllLoop`, `BackEdgeLoops` and `RecordAllConcat` state the loops that result |
| Loops.RecordAllLoop | lib/cfg_analysis/loop.hpp:43-56 | a block heads a loop after the collection exactly when it was already a header or is the target of a recorded edge; its loop is extended by exactly its latches, in order; the root is untouched |
| Loops.LatchesOfMembers | lib/cfg_analysis/loop.hpp:49 | U is a latch of H exactly when U -> H is a recorded back edge |
| Loops.BackEdgeLoops | lib/cfg_analysis/loop.hpp:43-56 | after the collection from an empty tree, H has a loop exactly when it has latches; the loop's header is H, its latches are the sources of the back edges into H in order, its blocks are H once per latch, and it is reducible exactly when H dominates some latch other than itself |
| Loops.ExtendCompose | lib/cfg_analysis/loop.hpp:46-55 | recording latches in two batches gives the same loop as recording them in one |
| Loops.LatchesCloseCycles | lib/cfg_analysis/loop.hpp:43-49 | every latch U of H is reachable, has an edge U -> H, and is reachable from H |
| Loops.BackTargetsReachable | lib/cfg_analysis/loop.hpp:43-49 | both ends of every back edge are reachable from the entry |
| Loops.ReducibleIff | lib/cfg_analysis/loop.hpp:51-55 | some latch is in the header's dominated list exactly when the header dominates some latch other than itself |
| Loops.RecordAllConcat | lib/cfg_analysis/loop.hpp:58-64 | recording two runs of back edges one after the other is recording their concatenation |
| LoopSearches.Claim | lib/cfg_analysis/loop.hpp:76-84 | corrected step of `loop_search` on one block: an unowned block joins the loop and is owned by it; a block owned by another loop without an outer loop attaches that loop as an inner loop; owners already set never change |
| LoopSearches.ClaimAsWritten | lib/cfg_analysis/loop.hpp:76-84 | the step as written, which also attaches the loop to itself when the block is already its own |
| LoopSearches.ClaimAll | lib/cfg_analysis/loop.hpp:76-84 | claiming visited blocks in order keeps the set of loops and every owner a loop; `ClaimAllOwners`, `ClaimAllHeads` and `ClaimAllNested` state the rest of its effect |
| LoopSearches.ClaimAllOwners | lib/cfg_analysis/loop.hpp:76-84 | after claiming a sequence, the owned blocks are those owned before plus the claimed ones, earlier owners are kept, and new ones belong to the loop |
| LoopSearches.LoopSearch | lib/cfg_analysis/loop.hpp:71-93 | the backward walk claims its visits in order with the corrected step `Claim` (see Findings) and marks them, as `Search` and `ClaimAll` state |
| LoopSearches.SearchPredecessors | lib/cfg_analysis/loop.hpp:86-92 | the loop over the predecessor list claims and marks exactly what `SearchPreds` visits |
| LoopSearches.Search | lib/cfg_analysis/loop.hpp:71-93 | the blocks `loop_search(b)` visits, in order: b, then the search from each unmarked predecessor in list order; `SearchIsBackReach` states that these are the blocks reached backward, each once |
| LoopSearches.SearchIsBackReach | lib/cfg_analysis/loop.hpp:71-93 | the walk from B visits each block exactly once, starting at B; the visited blocks are exactly those reaching B backwards over predecessor lists without passing a marked block |
| LoopSearches.ClaimAllNested | lib/cfg_analysis/loop.hpp:81-84 | with the corrected step, a consistently nested loop tree stays consistently nested: outer and inner links agree and no loop is its own outer loop |
| LoopSearches.ClaimAllHeads | lib/cfg_analysis/loop.hpp:76-84 | a walk changes no loop's header, latches or reducibility |
| LoopSearches.SharedLatchVisits | lib/cfg_analysis/loop.hpp:109-111 | in the shared-latch graph the walks from latches 3 and 2 visit 3, 2 and then 2 again, because marks persist and the second walk starts unconditionally |
| LoopSearches.AsWrittenSelfParent | lib/cfg_analysis/loop.hpp:81-84 | as written, that run makes loop 1 its own outer loop and its own inner loop |
| LoopSearches.AsWrittenBreaksNesting | lib/cfg_analysis/loop.hpp:81-84 | the nesting is consistent before that run and inconsistent after it as written |
| LoopSearches.CorrectedSharedLatch | lib/cfg_analysis/loop.hpp:76-84 | with the corrected step the same run leaves loop 1 without outer or inner loops, with blocks 1, 1, 3 and 2, consistently nested |
| LoopSearches.SearchLatches | lib/cfg_analysis/loop.hpp:109-111 | the searches from each latch in turn, each starting from the marks the previous one left; `SearchLatchesIsBody` states that together they visit the backward body |
| LoopSearches.SearchLatchesIsBody | lib/cfg_analysis/loop.hpp:107-111 | together, the walks from all latches mark exactly the blocks that reach some latch backwards without passing the marked header |
| LoopTrees.SearchFromLatches | lib/cfg_analysis/loop.hpp:109-111 | the loop over the latches runs the walks in latch order with the marks carried from one walk to the next |
| LoopTrees.ProcessHeader | lib/cfg_analysis/loop.hpp:102-117 | one header, with the corrected `Claim` (see Findings): it is owned by its loop; a reducible loop is walked from its latches with the header marked; an irreducible loop gets its latches appended and owned |
| LoopTrees.AppendLatches | lib/cfg_analysis/loop.hpp:113-117 | an irreducible loop's blocks gain exactly its latches, at the end and in order, each latch is owned by it, other owners stay, and no other loop changes |
| LoopTrees.HeaderStep | lib/cfg_analysis/loop.hpp:102-117 | one header, walked with the corrected `Claim` (see Findings), keeps the set of loops and every owner a loop; `HeaderStepBody`, `HeaderStepKeeps` and `HeaderStepDone` state its effect |
| LoopTrees.HeaderStepBody | lib/cfg_analysis/loop.hpp:102-117 | after one header the marks are those before plus the header and the backward body; the header belongs to its loop; every unowned, unmarked body block joins the loop; the loop holds no block outside its old blocks and the body |
| LoopTrees.HeaderStepKeeps | lib/cfg_analysis/loop.hpp:102-117 | one header keeps every loop's header, latches and reducibility, and keeps the nesting consistent |
| LoopTrees.HeaderStepDone | lib/cfg_analysis/loop.hpp:102-117 | when the loop of H holds only its header copies and the marks lie off the reachable blocks, one header leaves it as `LoopDone` says: an irreducible loop holds its copies then exactly its latches; a reducible loop holds its copies then distinct blocks other than H, each reached backward from a latch without passing H, and every reachable block reached that way through reachable blocks has an owner; no other loop's blocks change and every loop block keeps an owner |
| LoopTrees.ClaimedSound | lib/cfg_analysis/loop.hpp:106-111 | the blocks a reducible loop gains from its searches are distinct, are not its header, and are each reached backward from a latch without passing the header |
| LoopTrees.ClaimedComplete | lib/cfg_analysis/loop.hpp:106-111 | when the marks lie off the reachable blocks, every reachable block reached backward from a latch through reachable blocks without passing the header is the header or is visited by the searches |
| LoopTrees.LoopDoneStable | lib/cfg_analysis/loop.hpp:101-123 | a finished loop stays finished when later headers leave its blocks alone, keep the loop records and only add owners |
| LoopTrees.Populate | lib/cfg_analysis/loop.hpp:95-124 | `populate_loops` with the corrected `Claim` (see Findings), over the RPO blocks, last first, keeps the set of loops and every owner a loop; `PopulateLoops` and `PopulateDone` state its effect |
| LoopTrees.PopulateLoops | lib/cfg_analysis/loop.hpp:95-124 | with the corrected `Claim` (see Findings): headers are taken in reverse RPO, marks are cleared over the RPO blocks after each header, every header gets an owner, loops only gain blocks, and the nesting stays consistent |
| LoopTrees.PopulateDone | lib/cfg_analysis/loop.hpp:95-124 | taking the RPO blocks last first from loops holding only header copies, every header's loop ends as `LoopDone` says, loops not yet reached keep their blocks, owners only grow, and every loop block has an owner except copies of its own header |
| LoopTrees.ClearMarks | lib/cfg_analysis/loop.hpp:120-122 | the marks of the RPO blocks are cleared and no others |
| LoopBuild.RootBlocks | lib/cfg_analysis/loop.hpp:144-148 | the root's blocks are the RPO blocks owned by no loop, in RPO order |
| LoopBuild.Unowned | lib/cfg_analysis/loop.hpp:144-148 | the blocks of the order that no loop owns, in order; `UnownedMeaning` states them |
| LoopBuild.UnownedMeaning | lib/cfg_analysis/loop.hpp:144-148 | a block is a root block exactly when it is in the RPO order and has no owner; no repeats |
| LoopBuild.AddRoot | lib/cfg_analysis/loop.hpp:150-158 | the root loop is added; exactly the loops that had no outer loop get the root as outer loop and are listed once as its inner loops; nothing else changes |
| LoopBuild.AddRootNested | lib/cfg_analysis/loop.hpp:150-158 | adding the root keeps the nesting consistent |
| LoopBuild.ComputeLoopTree | lib/cfg_analysis/loop.hpp:126-161 | `loop_tree` with the corrected `Claim` (see Findings): the root is present; H heads a loop exactly when some back edge enters H; that loop records H, its latches and whether H dominates a latch other than itself, and has an outer loop; its blocks start with H once per latch, then (`HeaderBody`) an irreducible loop has exactly its latches, and a reducible loop has distinct blocks other than H, each reached backward from a latch without passing H, while every reachable block reached that way through reachable blocks lies in some loop; the nesting is consistent; the root holds, without repeats, reachable blocks that are no header and in no other loop, and every reachable block is in the root or in some loop; every outer link to a loop is sound (`OuterSound`: some block of the inner loop is reached backward from a latch of the outer, reducible loop without passing its header), and the nesting is complete over the RPO order (`OuterComplete`: when the walks of an earlier reducible header reach a later header that is no latch of an irreducible loop, the later loop's outer loop is a loop, not the root) |
| LoopBuild.BackEdgeLoopTree | lib/cfg_analysis/loop.hpp:129-132 | the dominator map and the loop tree right after the back-edge collection |
| LoopBuild.TreeRoot | lib/cfg_analysis/loop.hpp:143-148 | the root's blocks are distinct reachable non-headers, and every reachable block is in the root or in a loop |
| LoopBuild.TreeHeaders | lib/cfg_analysis/loop.hpp:126-161 | in the final tree the headers are exactly the back-edge targets and each header's loop keeps what the collection recorded |
| LoopBuild.TreeBodies | lib/cfg_analysis/loop.hpp:101-124 | in the final tree every loop's blocks after its header copies are as `HeaderBody` states |
| LoopBuild.TreeRootApart | lib/cfg_analysis/loop.hpp:143-148 | no block of the root loop is in any other loop |
| LoopBuild.PopulatedNesting | lib/cfg_analysis/loop.hpp:95-124 | `populate_loops` from loops with no outer links leaves every outer link sound and the nesting complete over the RPO order |
| LoopBuild.TreeNesting | lib/cfg_analysis/loop.hpp:150-158 | adding the root keeps every link to a loop sound and keeps the nesting complete, since only loops without an outer loop are attached to the root |
| LoopBuild.PopulatedBodies | lib/cfg_analysis/loop.hpp:95-124 | `populate_loops` over an RPO order holding every header, from the loops of the back edges, finishes every loop as `LoopDone` states |
| LoopNesting.ClaimOuterSound | lib/cfg_analysis/loop.hpp:80-84 | claiming, for a reducible loop, a block reached backward from one of its latches without passing its header keeps every outer link sound: a loop it attaches as inner loop owns that block |
| LoopNesting.HeaderStepOuterSound | lib/cfg_analysis/loop.hpp:102-117 | one header keeps every outer link sound: a reducible loop's walks visit only its backward body, and an irreducible loop attaches nothing |
| LoopNesting.PopulateOuterSound | lib/cfg_analysis/loop.hpp:95-124 | `populate_loops` keeps every outer link sound |
| LoopNesting.PopulateKeepsOuter | lib/cfg_analysis/loop.hpp:76-124 | an outer link, once set, is never changed by later headers |
| LoopNesting.HeaderStepNests | lib/cfg_analysis/loop.hpp:102-111 | when the walks of a reducible header, with no marks on the reachable blocks, reach a reachable block owned by another loop, that loop has an outer link after the header's turn |
| LoopNesting.PopulateNests | lib/cfg_analysis/loop.hpp:95-124 | over the RPO blocks taken last first, with no marks on them and every later header owned by its own loop unless an irreducible loop has it as a latch, every header the walks of an earlier reducible header reach (`Nests`) ends with an outer link |
| LoopNesting.PopulateNestsPair | lib/cfg_analysis/loop.hpp:95-124 | the same for one pair of positions in the order, by induction: the later header's loop gets its outer link when the earlier header takes its turn, and keeps it |
| NestingExamples.TwoLoopsNesting | lib/cfg_analysis/loop.hpp:126-161 | on the graph a -> b, b -> c, c -> d, d -> c (true), d -> b (false), any tree meeting `ComputeLoopTree`'s contract has the loop of b as the outer loop of the loop of c |
| NestingExamples.TwoLoopsTree | lib/cfg_analysis/loop.hpp:126-161 | `loop_tree(a)` on that graph has loops root, b and c; b and c each have latch d and are reducible, and c's loop sits in b's |
| LoopExamples.E4Reach | tests/cfg_analysis/fixtures.hpp:146-170 | every block of the fourth fixture is reachable from a |
| LoopExamples.E4LatchBody | tests/cfg_analysis/fixtures.hpp:146-170 | walking backward from latch e without entering b reaches exactly d and e |
| LoopExamples.Example4Tree | tests/cfg_analysis/loop.cpp:110-124 | any tree meeting `ComputeLoopTree`'s contract on the fourth fixture is the one the test expects, up to order: loops root and b; b has latch e, is reducible, holds b, d and e once each, has no inner loops and sits in the root; the root holds a and c once each and has b as its one inner loop |
| LoopExamples.Example4LoopTree | tests/cfg_analysis/loop.cpp:110-124 | `loop_tree(a)` on the fourth fixture returns that tree |
| PassCommon.ReplaceInstrUses | lib/pass/common.hpp:10-18 | the loop over `from`'s users list gives the arena `ReplaceUses` describes |
| PassCommon.ReplaceUses | lib/pass/common.hpp:10-18 | the arena after the loop over the users list keeps its size; `ReplaceUsesEffect` and `ReplaceUsesDefUse` state what changes |
| PassCommon.ReplaceUsesEffect | lib/pass/common.hpp:14-17 | each listed user has `from` replaced by `to`; `to`'s users list gains the listed users in order, with duplicates kept; no other instruction changes, and `from`'s own list is untouched |
| PassCommon.ReplaceUsesDefUse | lib/pass/common.hpp:14-17 | when every user of `from` is listed, afterwards no instruction refers to `from` and every operand is still recorded in its users list |
| PassCommon.ApplyRewrite | lib/pass/constant_folding.hpp:25-31 | a rewrite keeps the arena closed; forwarding removes one instruction from the block; a new constant keeps the block's length |
| PassCommon.RewriteShape | lib/pass/constant_folding.hpp:25-31 | forwarding erases the instruction at the cursor; a new constant goes in its place; in both cases its users are redirected to the target |
| PassCommon.RewriteKeepsBlock | lib/pass/constant_folding.hpp:25-31 | a rewrite keeps the block well formed: instructions distinct and in the arena, operands defined earlier in the block |
| PassCommon.RewriteKeepsUses | lib/pass/constant_folding.hpp:25-31 | a rewrite keeps every operand recorded in its users list, and nothing refers to the rewritten instruction afterwards |
| PassManager.Run | lib/pass/common.hpp:30 | `run` applies the chosen pass exactly once and returns what it returns |
| ConstantFolding.Wrap | lib/pass/constant_folding.hpp:41-54 | values are reduced modulo 2^64, as `uint64_t` arithmetic does |
| ConstantFolding.Or64 | lib/pass/constant_folding.hpp:50-51 | the 64-bit `or` is the bitwise or of the two values |
| ConstantFolding.FoldValue | lib/pass/constant_folding.hpp:43-63 | exactly `add`, `mul`, `or` and `shl` have an operator |
| ConstantFolding.FoldValueLaws | lib/pass/constant_folding.hpp:43-58 | the folded operators are commutative where the operator is, and have the identities the peephole pass uses |
| ConstantFolding.FoldValueWraps | lib/pass/constant_folding.hpp:43-58 | `add` and `mul` wrap modulo 2^64; the comparisons have no operator |
| ConstantFolding.FoldExamples | lib/pass/constant_folding.hpp:43-58 | `add(0x52, 0x812) = 0x864`, `mul = 0x295C4`, `or = 0x852`, `shl(0x52, 5) = 0xA40` |
| ConstantFolding.FoldRule | lib/pass/constant_folding.hpp:34-64 | `try_fold_binary_op` never forwards: it keeps the instruction or makes a new constant; `FoldRuleMeaning` states when and with which value |
| ConstantFolding.FoldRuleMeaning | lib/pass/constant_folding.hpp:34-64 | an instruction is folded exactly when it is an `add`, `mul`, `or` or `shl` on two constants, and the new constant holds the operator's value |
| ConstantFolding.FoldSample | lib/pass/constant_folding.hpp:67-83 | for two constants and one binary instruction, the run replaces the instruction by a constant with the folded value and reports a change exactly when the kind has an operator |
| ConstantFolding.TryFoldBinaryOp | lib/pass/constant_folding.hpp:34-64 | the instruction at the cursor is rewritten as `FoldRule` says and the cursor stays on the new constant |
| ConstantFolding.FoldInto | lib/pass/constant_folding.hpp:17-32 | `constant_folding`: a constant is inserted before the instruction, its users are redirected to the constant, and the instruction is erased |
| ConstantFolding.FoldAt | lib/pass/constant_folding.hpp:72-79 | one round of the cursor loop advances by one and leaves the rest of the run unchanged |
| ConstantFolding.FoldRun | lib/pass/constant_folding.hpp:70-80 | the cursor loop over one block keeps the arena closed and only growing and keeps the block's length; `FoldRunRewrites`, `FoldRunSettles`, `FoldRunReportsChange` and `FoldRunKeepsUses` state the rest |
| ConstantFolding.FoldBlock | lib/pass/constant_folding.hpp:70-80 | the loop over one block computes `FoldRun` from its first instruction and changes no other block |
| ConstantFolding.FoldRunRewrites | lib/pass/constant_folding.hpp:70-80 | after a fold the cursor moves on from the new constant to the instruction that followed the original, so no instruction is skipped |
| ConstantFolding.FoldRunReportsChange | lib/pass/constant_folding.hpp:67-82 | the run returns true exactly when the flag was already set or the block changed |
| ConstantFolding.FoldRunSettles | lib/pass/constant_folding.hpp:70-80 | after the run the block is well formed and no instruction in it admits a fold, so chains fold completely in one run; well formed (`DefsBefore`) asks that an operand defined in the block come before its user unless the user is a phi, so a block that loops to itself through a phi is covered |
| ConstantFolding.FoldRunKeepsUses | lib/pass/constant_folding.hpp:70-80 | the run keeps every operand recorded in its users list, and no instruction refers to one it removed |
| ConstantFolding.FoldAllFrame | lib/pass/constant_folding.hpp:69 | blocks outside the RPO order are left alone |
| ConstantFolding.FoldAllReportsChange | lib/pass/constant_folding.hpp:67-82 | `apply` returns true exactly when some block changed |
| ConstantFolding.FoldAllKeepsUses | lib/pass/constant_folding.hpp:67-82 | the whole pass keeps the def-use lists consistent, and no instruction refers to one removed from any block |
| ConstantFolding.FoldAll | lib/pass/constant_folding.hpp:67-83 | the runs over the blocks in order keep the arena closed and only growing and one list per block; `FoldAllFrame`, `FoldAllReportsChange` and `FoldAllKeepsUses` state the rest |
| ConstantFolding.Apply | lib/pass/constant_folding.hpp:67-83 | the pass visits the blocks in reverse postorder from the first block and computes `FoldAll` |
| Peephole.MulRule | lib/pass/peephole.hpp:12-48 | a `mul` rewrite forwards only to one of its operands, or creates the constant 0 |
| Peephole.OrRule | lib/pass/peephole.hpp:69-104 | an `or` rewrite forwards only to one of its operands and never creates a constant |
| Peephole.ShlRule | lib/pass/peephole.hpp:50-67 | a `shl` rewrite forwards only to one of its operands and never creates a constant |
| Peephole.PeepRule | lib/pass/peephole.hpp:106-118 | only binary instructions are rewritten, forwarding only to an operand; any new constant is 0 |
| Peephole.PeepRuleMeaning | lib/pass/peephole.hpp:12-118 | an instruction is rewritten exactly when it is a `mul` with a constant 0 or 1 operand, an `or` with equal operands or a constant 0 operand, or a `shl` with a constant 0 operand |
| Peephole.PeepRuleSound | lib/pass/peephole.hpp:12-118 | every rewrite keeps the value: the forwarded-to operand, or the new constant, holds the value the folded operator gives for any operand values consistent with the constants |
| Peephole.MulSound | lib/pass/peephole.hpp:18-46 | `mul` by 1 forwards to the other operand and `mul` by 0 gives 0, lhs checked first |
| Peephole.OrSound | lib/pass/peephole.hpp:75-103 | `or` with itself or with 0 forwards to an operand holding the result |
| Peephole.ShlSound | lib/pass/peephole.hpp:50-67 | `shl` with a 0 operand forwards to the lhs, which holds the result, so `shl(0, y)` becomes the lhs constant 0 |
| Peephole.MulPeephole | lib/pass/peephole.hpp:12-48 | the instruction at the cursor is rewritten as `MulRule` says |
| Peephole.MulWithConst | lib/pass/peephole.hpp:18-33 | the decision of the `mul` lambda: forward to the other operand for 1, a new constant 0 for 0, no change otherwise; `MulWithConstant` carries it out and `MulSound` proves it keeps the value |
| Peephole.MulWithConstant | lib/pass/peephole.hpp:18-33 | the lambda: value 1 forwards to the other operand, value 0 inserts a constant 0 and forwards to it, any other value changes nothing |
| Peephole.OrPeephole | lib/pass/peephole.hpp:69-104 | the instruction at the cursor is rewritten as `OrRule` says |
| Peephole.OrWithConst | lib/pass/peephole.hpp:80-89 | the decision of the `or` lambda: forward to the other operand for 0, no change otherwise; `OrWithConstant` carries it out and `OrSound` proves it keeps the value |
| Peephole.OrWithConstant | lib/pass/peephole.hpp:80-89 | the lambda: value 0 forwards to the other operand, any other value changes nothing |
| Peephole.ShlPeephole | lib/pass/peephole.hpp:50-67 | the instruction at the cursor is rewritten as `ShlRule` says |
| Peephole.ForwardTo | lib/pass/peephole.hpp:24-30 | an erase-only rewrite: the users are redirected and the instruction is erased, the cursor on what followed |
| Peephole.TryBinaryInstPeephole | lib/pass/peephole.hpp:106-118 | dispatch on the kind: `mul`, `or` and `shl` go to their rules, other kinds are unchanged |
| Peephole.PeepRunAsWritten | lib/pass/peephole.hpp:125-134 | the loop as written, which advances the cursor again after an erase-only rewrite: when it does not run past `end()`, the arena stays closed and the block does not grow (`TrailingMulAsWritten` shows the failing case) |
| Peephole.TrailingMulAsWritten | lib/pass/peephole.hpp:125-134 | for `mul(0x52, 1)` as the last instruction the loop as written advances past the end; the corrected loop erases it and reports a change |
| Peephole.ChainedMulAsWritten | lib/pass/peephole.hpp:125-134 | for two chained `mul ..., 1` the loop as written skips the second, which still admits a rewrite; the corrected loop removes both |
| Peephole.ChainedRunCorrected | lib/pass/peephole.hpp:125-134 | the corrected loop leaves only the two constants of the chain |
| Peephole.PeepRun | lib/pass/peephole.hpp:125-134 | the corrected loop, which goes on from the returned position after a rewrite: the arena stays closed and only grows, and the block does not grow and is left with at least `pos` instructions |
| Peephole.PeepAt | lib/pass/peephole.hpp:125-134 | one round of the corrected cursor loop leaves the rest of the run unchanged and makes progress |
| Peephole.PeepBlock | lib/pass/peephole.hpp:125-135 | the corrected loop over one block computes `PeepRun` from its first instruction and changes no other block |
| Peephole.PeepRunReportsChange | lib/pass/peephole.hpp:121-137 | the run returns true exactly when the flag was already set or the block changed |
| Peephole.PeepRunSettles | lib/pass/peephole.hpp:125-135 | after the corrected run the block is well formed and no instruction in it admits a rewrite; well formed (`DefsBefore`) exempts phi users, so a block that loops to itself through a phi is covered |
| Peephole.PeepRunKeepsUses | lib/pass/peephole.hpp:125-135 | the run keeps every operand recorded in its users list and the arena ordered, and no instruction refers to one it removed |
| Peephole.PeepAll | lib/pass/peephole.hpp:121-137 | the corrected runs over the blocks in order keep the arena closed and only growing and one list per block; `PeepAllFrame`, `PeepAllReportsChange` and `PeepAllKeepsUses` state the rest |
| Peephole.PeepAllFrame | lib/pass/peephole.hpp:124 | blocks outside the RPO order are left alone |
| Peephole.PeepAllReportsChange | lib/pass/peephole.hpp:121-137 | `apply` returns true exactly when some block changed |
| Peephole.PeepAllKeepsUses | lib/pass/peephole.hpp:121-137 | the whole pass keeps the def-use lists consistent, and no instruction refers to one removed from any block |
| Peephole.Apply | lib/pass/peephole.hpp:121-138 | the pass visits the blocks in reverse postorder from the first block and computes `PeepAll`, the corrected cursor loop on each block; the loop as written is `PeepRunAsWritten` (see Findings) |

## Left out

- Markers: the traversals take explicit visited, grey, removed and mark sets instead of writing block markers, so the model has no markers to leave behind or to clear; `dom`'s restoring of the removed marker and `loop_tree`'s reset are these sets being discarded. The marker field and `set_marker`/`get_marker` are modelled on `BasicBlock`.
- The dfs.hpp and rpo.hpp files take out-parameters and fixed integer markers, while dom.hpp and loop.hpp call a `dfs(entry)` that skips removed blocks and an `rpo(entry, count)` that returns the buffer. The model follows the second form: `Dfs.Dfs` skips removed blocks, and `Rpo.Rpo` returns the buffer.
- Instruction users: lib/ir/instr.hpp declares no users list, no `replace_operand` and no `add_user`, but lib/pass/common.hpp:14-16 calls them. The model gives every instruction a users list, and the builder registers each new instruction as a user of its operands.
- `format_bb` (string output of pointer addresses), lib/ir/context.hpp and lib/ir/value.hpp (heap ownership of functions and values), `FloatConst` and `create_float`: no floating point or ownership is modelled.
- Builders.Builder.CreateInt: the constant goes into the function's arena but into no block, like the context-owned constants of the source that the builder's tests use as operands. The source returns a `Value` owned by the context, which is not part of this model.
- Builders.Builder.CreateBinInstr: requires a current function as well as a current block, because the arena the instruction goes into belongs to the function. The same holds for every `create_*` that appends an instruction.
- Builders.Builder.CreateBB: `Ready()` (the builder's function is well wired, recorded and ordered) is kept only when it held before. That is written `old(Ready()) ==> Ready()` on every builder method, and such contracts use `old`.
- `get_arg`, `create_or` and `create_shl`, which the tests call, do not appear in lib/ir/builder.hpp or lib/ir/function.hpp, and are not modelled.
- Other names the passes and tests rely on are not declared in lib/ir either: `InstrTraits::is_binary` (lib/pass/constant_folding.hpp:72, lib/pass/peephole.hpp:127), the operand accessors `get_lhs`, `get_rhs` and `get_value`, and the one-argument `set_insert_point(&test_func)` the fixtures use to pick a function. The model reads them as their names say: `IrTypes.IsBinary` for `is_binary`, the `lhs`, `rhs` and `value` fields of `Instrs.Instr`, and, for the one-argument `set_insert_point`, the builder's current function, which `Builders.Builder.CreateFunction` and `Builders.Builder.SetInsertPoint` set.
- `IrTypes.IsBinary` counts the comparisons as binary as well as the arithmetic kinds; this is the model's own choice where `is_binary` is not declared. It changes no result: both passes hand a binary instruction to a rule, and neither `FoldRule` nor `PeepRule` rewrites a comparison, so a comparison is kept either way.
- Edges to blocks outside the function: `Functions.Function.Graph` names successors and predecessors by their index in the function's block list, and drops any that are not blocks of the function. The builder keeps `Ready()` only when it links blocks of its current function. The source does not rule such edges out, and its analyses would follow them; the model's analyses do not.
- Pointer identity, `unique_ptr` lifetimes and iterators: blocks are identified by their index in the function, instructions by their arena id, and cursors are indices. An iterator comparison `next_it != instr_it` becomes the rule's report of whether it rewrote anything.
- ConstantFolding.FoldValue: a shift by 64 or more is undefined in the source; the model gives 0 there, and no contract speaks about that case.
- ConstantFolding.Apply and Peephole.Apply: they require that the RPO from the first block covers every block, as `rpo(func.begin(), func.size())` assumes. A function with unreachable blocks is not covered.
- PassCommon.ReplaceUses: the case `from == to` is not specified further. The source would walk a users list while appending to it.
- Or is modelled arithmetically, bit by bit from the lowest (`ConstantFolding.BitOr`), not as a bit-vector operation.
- The order of the root's inner loops follows the iteration order of an `unordered_map`, so `LoopBuild.AddRoot` states which loops they are and that none repeats, not their order.
- LoopBuild.ComputeLoopTree: the nesting contract says that each outer link is sound and that the nesting is complete over the RPO order. It does not state that following outer links ends at the root, nor that the blocks of different non-root loops are disjoint. The source's tests check only the nesting of fixtures.
- Stale marks: `populate_loops` clears marks only over the RPO blocks, and the model carries the other marks across headers as the source does. A walk reaching a block outside the RPO is not otherwise characterised.
- Recursion depth, stack exhaustion, the gtest framework, the virtual dispatch of `Pass` (a datatype of the two passes in `PassManager.Run`), and the `MULByZero` change check that the tests leave commented out.
- Fixture graphs of the tests: only the first fixture's DFS, RPO and two dominator lists, and the fourth fixture's back-edge collection and final loop tree, are stated as lemmas. The other fixtures and their loop trees are not, because each concrete walk has to be proved one block at a time.

## Findings

| source | as written | input that shows it | evidently intended | confidence | as-written member | corrected member |
|---|---|---|---|---|---|---|
| lib/ir/function.hpp:25 | `get_arg_type` throws only for `index > size`, so `index == size` reads one past the end | any function, index equal to the number of arguments (for example no arguments and index 0) | fail for `index >= size` | not executed | Functions.ArgTypeAsWritten, Functions.ArgGuardAdmitsEnd | Functions.Function.GetArgType, Functions.ArgTypeAgreesBelowEnd |
| lib/cfg_analysis/loop.hpp:81-84 | `loop_search` attaches the owner of an already-owned block as an inner loop even when that owner is the loop being filled | blocks 0 -> 1, 1 -> 2, 2 -> 3 (true) and 2 -> 1 (false), 3 -> 1; header 1 with latches [3, 2]; the walk from 3 claims 2, the walk from 2 then finds it owned by loop 1, so loop 1 becomes its own outer and inner loop and is never attached to the root | skip the attachment when the owner is the current loop | not executed | LoopSearches.ClaimAsWritten, LoopSearches.AsWrittenSelfParent, LoopSearches.AsWrittenBreaksNesting | LoopSearches.Claim, LoopSearches.CorrectedSharedLatch, LoopSearches.ClaimAllNested |
| lib/pass/peephole.hpp:125-134 | after an erase-only rewrite the cursor already points at the next instruction and the loop's `++` steps over it; when the erased instruction was last, `++` is applied to `end()` | `mul(c, 1)` as the last instruction of a block; or two chained `mul(x, 1)` and `mul(that, 1)`, where the second is never examined | continue from the returned position without advancing | not executed | Peephole.PeepRunAsWritten, Peephole.TrailingMulAsWritten, Peephole.ChainedMulAsWritten | Peephole.PeepRun, Peephole.PeepRunSettles, Peephole.ChainedRunCorrected |
