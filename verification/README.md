# llir-opt: graph algorithms, use lists, symbols and bitcode

A Dafny model of the parts of llir-opt whose correctness is a statement about every run of
every control-flow graph, and of the data structures and the file format beneath them.

| group | files | what is proved |
|---|---|---|
| graphs and runs | `Cfg`, `Ssa`, `SsaForm` | runs, dominance read off runs, one machine for programs before and after SSA |
| SSA construction | `Liveness`, `Placement`, `Renaming`, `PhiMeaning`, `ParserPhi`, `DeadPhis` | the parser's PHI placement preserves meaning, is pruned and least, and fails exactly when it must |
| checks and rewrites on SSA | `Verifier`, `PhiCycles`, `DomEdges`, `CondSimplify`, `CondComplete`, `CondTraverse`, `CondInverse` | the verifier accepts exactly the functions whose definitions dominate their uses; PHI cycles collapse without changing a run, and redundant comparisons fold without changing one unless an inexact floating-point code is inverted |
| stack cells | `Words`, `CellFind`, `CellBytes`, `CellMemory`, `CellSimulation`, `CellPromotion`, `CellMeaning`, `CellRewrite`, `CellView`, `CellPass` | all accesses to an object are found or its address escapes, bytes of cells may be taken for registers, and promoting object after object makes every load read what memory holds |
| dead stores | `StoreMachine`, `StoreFlow`, `DeadStore`, `DeadStoreExact` | the analysis finds exactly the stores that every way forward makes; erasing is a simulation exactly under a condition on widths |
| component graph | `Dag`, `DagBuild` | loops, returns and lengths of the nodes are exact, the order is a strict weak order |
| heap structures | `UseLists`, `SymbolTable` | intrusive use lists and the table of names keep their invariants under every operation |
| data | `ObjectSplit`, `AtomSimplify` | slicing keeps every byte, merging keeps every address |
| bitcode | `Bytes`, `BitcodeValue`, `BitcodeData`, `BitcodeAnnot`, `BitcodeInst`, `BitcodeCode`, `BitcodeBody`, `BitcodeBodyTrip`, `BitcodeFunc`, `BitcodeNames`, `BitcodeProg`, `BitcodeTrip`, `BitcodeFixups`, `BitcodeReader`, `BitcodeWriter`, `BitcodeSample`, `Bitcode` | reading a written file gives back the program exactly when everything fits; one file byte for byte |
| helpers | `Options`, `Arith` | optional values, remainders |

`dafny verify dfyconfig.toml` checks all of it.

## How the source is modelled

*Graphs and runs.* Blocks are numbers, block 0 is the entry, a run is a path from the entry, and
a block dominates another when every run to the second visits the first. Dominator trees and
dominance frontiers are inputs with that definition as their contract (`Cfg.TreeOf`), because
they come from LLVM (core/analysis/dominator.h). Unreachable blocks stay in the function and are
never run.

*Programs.* One machine (`Ssa`) runs programs whose operands are virtual registers, SSA
references, constants or undefined values. Everything an instruction can observe or do beyond
its operands is an oracle: an arbitrary function of the history, which records every operation
with the values it read. Moves, arguments and comparisons are pure and leave no history. PHIs are evaluated together when an edge
is taken. Where the code inserts an undefined value the model reads an arbitrary one, a single one
for each oracle. A program means the same as another (`Ssa.SameMeaning`) when, under every oracle
and as long as the other one does not get stuck, it is at the same block after the same number of
steps with the same history, and when every instruction the other one executes, pure or not and
also in the block in which it then gets stuck, reads the same operand values.

*Memory.* `CellMemory` runs a program on the bytes of one stack object. An address of the object is
marked when it is computed and wherever it is copied; loads and stores through marked addresses
reach its bytes, accesses outside it or to bytes never stored are wrong. As soon as a marked address
is stored or put to any use other than computing an address from it, the object has leaked and
every instruction may change its bytes arbitrarily. How values are kept in bytes and where the
object is are parameters.

*Dead stores* have a machine of their own (`StoreMachine`): a store through an atom and an offset
writes the bytes at that offset, a store through any other address may change all of memory.
Bytes of an atom that is alone in its object lie apart from all others; atoms that share an object
lie somewhere.

*Imperative code* is imperative here: worklists, stacks, cursors, use lists and tables are
methods and classes whose contracts name the resulting state. Where a loop and a specification
function compute the same thing, the properties are proved about the function.

*Bitcode.* Symbols are identified by their names, blocks by theirs, and a result of an
instruction by its block, its position there and its number, so that a program that was read
can be compared with the one that was written. A file is a sequence of bytes. Kinds of
instructions are described by layouts, as in core/instructions.td and
util/inst_gen/get_bitcode.cpp. A function lists its blocks in the reverse post-order of the
writer. Undefined behaviour of the reader is an outcome of its own (`Wild`).

## Where the code does something other than one would expect

* `IsDominatorEdge` accepts the only edge into the entry block although the run that starts
  there has not taken it (`DomEdges.EntryLoopAccepted`), and rejects an edge that every run takes
  if it is listed twice (`DomEdges.DoubleEdgeRejected`); otherwise it is exact.
* A weak function one of whose own blocks claims its name is deleted while its blocks are being
  inserted (`SymbolTable.Prog.OwnerSurvives`, `SymbolTable.Prog.WeakFunctionClaimed`); in all other
  cases insertion keeps the table (`SymbolTable.Prog.AddFunc`).
* Dead-store erasure is right exactly when each erased store is unconditional and no wider than
  the store that stays in its stead (`DeadStoreExact.ErasureExact`); the pass tests neither, so
  a wide store followed by a narrow or a conditional one is erased wrongly
  (`DeadStoreExact.TwoStoresExact`).
* Splitting an object fails exactly when an access cuts a number or an address
  (`ObjectSplit.Split`).
* Inverting a floating-point comparison negates it only for some codes once an operand is not a
  number; `CondSimplify.InverseNegates` says for which. A comparison folded through an earlier one
  gets its value exactly under the condition of `CondSimplify.RedundantExact`; the pass does not
  test it and changes runs (`CondInverse.InverseFoldExact`), so `CondTraverse.Simplify` promises
  unchanged runs for invertible functions only.
* The alignment of a stack object is written with one byte: 256 comes back as 0
  (`BitcodeFunc.StackExact`, `BitcodeFunc.WideAlignmentLost`). An optional scalar is stored plus
  one, so the largest value of its type comes back as none (`BitcodeInst.FitsField`).
* The check of PHI fixups lets the number just past the last instruction through, and the
  reader then reads past its table (`BitcodeFixups.WildExact`); no written file does that.
* An atom that stops a merge is skipped as the base of the next one (`AtomSimplify.Greedy`).
* The documentation of the component graph calls `Length` the longest path to an exit
  (core/dag.h:30); the code takes the longest path to anywhere, and that is what is proved.

## Model

| member | source | states |
|---|---|---|
| Liveness.KillGen | core/parser_phi.cpp:27-69 | kill holds the registers a block writes, gen those it reads before writing them |
| Liveness.Flow | core/parser_phi.cpp:82-95 | a register is live in iff it is read first here or is live into a successor and not written here |
| Liveness.Compute | core/parser_phi.cpp:71-106 | the worklist ends; at every reachable block the result holds v iff some path from there reads v before writing it, and elsewhere it never claims too much |
| Placement.Place | core/parser_phi.cpp:130-175 | the placement is closed under live dominance frontiers, has a PHI only where the register is live, and is contained in every other closed placement |
| Placement.NoDefBetween | core/parser_phi.cpp:149-175 | a live register without a PHI at b: no path from idom(b) to b that avoids idom(b) meets a definition or a PHI of it |
| Placement.QuietSinceIdom | core/parser_phi.cpp:149-175 | on every run to b, nothing after the last visit of idom(b) touches such a register |
| Renaming.PushedTop | core/parser_phi.cpp:185-216 | the top of a stack is the definition that reaches the point |
| Renaming.Renamer.RenameOperands | core/parser_phi.cpp:199-208 | every register operand becomes the top of its stack; fails iff one of the stacks is empty |
| Renaming.Renamer.FillSuccessors | core/parser_phi.cpp:218-251 | every PHI of a successor gets the definition on top for this block, or an undefined value if there is none, and no other operand changes |
| Renaming.Renamer.Rename | core/parser_phi.cpp:180-272 | the subtree is renamed as specified, the stacks are restored, and it fails iff an operand in it has no definition |
| PhiMeaning.PhiCase | core/parser_phi.cpp:218-251 | a PHI receives the value its register holds along the edge taken |
| PhiMeaning.NoPhiCase | core/parser_phi.cpp:149-216 | without a PHI the definition inherited from the immediate dominator still holds the value of the register |
| PhiMeaning.RenamedReads | core/parser_phi.cpp:199-208 | at every point of every run the source reaches, the instruction just executed has read the same operand values in the renamed program, whatever its kind |
| PhiMeaning.RenamingPreservesMeaning | core/parser_phi.cpp:177-276 | while the source reads only defined registers, the renamed program is at the same block after as many steps, and every instruction reads the same operand values, moves, arguments and comparisons included |
| ParserPhi.UndefinedIsNeverDefined | core/parser_phi.cpp:199-208 | an operand has no definition on the stack iff no run to it defines its register |
| ParserPhi.Construct | core/parser_phi.cpp:21-276 | succeeds iff every register that is read is defined by some run before; then every instruction is the same operation on the same constants, the result means the same operand by operand, its definitions dominate their uses and its operands name existing results |
| ParserPhi.RenamedComplete | core/parser_phi.cpp:177-276 | every operand of the renamed program names an existing result or an immediate; only PHIs may be undefined |
| ParserPhi.RenamedDominates | core/parser_phi.cpp:177-276 | in the renamed program every definition dominates its uses and every PHI operand is available on its edge |
| ParserPhi.PhiPlacement | core/parser_phi.cpp:21-368 | the pass without types and unreachable blocks: the error case is exact, every instruction of the result is the same operation as in the source with only register operands replaced, and reads what it reads in the source, the result is in SSA form, and the value of every PHI left flows into an instruction |
| DeadPhis.IsDeadCycle | core/parser_phi.cpp:335-351 | follows the users of a PHI; answers yes iff no instruction depends on it, and then the cycle has all its dependents |
| DeadPhis.EraseKeepsRuns | core/parser_phi.cpp:353-361 | erasing PHIs that only such PHIs use changes no run |
| DeadPhis.EraseKeepsReads | core/parser_phi.cpp:353-361 | nor does it change an operand value that any instruction reads |
| DeadPhis.RemoveDeadPhis | core/parser_phi.cpp:329-366 | erases exactly the PHIs whose value flows into no instruction; every instruction, run and operand value stays |
| DeadPhis.RemainingNeeded | core/parser_phi.cpp:329-366 | afterwards the value of every PHI flows into an instruction |
| DeadPhis.NeededExact | core/parser_phi.cpp:335-351 | a chain of users from a PHI to an instruction is a chain of PHIs each fed by the one before and the last an operand |
| SsaForm.NeverReadsUndefined | core/verifier.cpp:44-87 | when definitions dominate uses, no run ever reads a definition that has not been executed; PHIs and moves may read undefined values |
| Verifier.Verifier.CheckInst | core/verifier.cpp:49-60 | accepts iff the definition of every operand is available before the instruction |
| Verifier.Verifier.CheckEdge | core/verifier.cpp:61-78 | accepts iff every PHI of the successor has a value for the block that is available at its end |
| Verifier.Verifier.Check | core/verifier.cpp:46-85 | accepts iff every block of the subtree is right; the shared set of definitions is restored |
| Verifier.Verifier.CheckPreds | core/verifier.cpp:100-121 | accepts iff the PHIs of a block name exactly its predecessors |
| Verifier.Verifier.Verify | core/verifier.cpp:44-87 | accepts iff definitions dominate uses in every reachable block and, by CheckPreds, PHIs match predecessors |
| PhiCycles.PhiEqualTo | passes/eliminate_tags.cpp:96-122 | true iff some set of PHIs around phi takes values only from the set and from op |
| PhiCycles.RefDominates | passes/eliminate_tags.cpp:96-122 | then op strictly dominates every PHI of the set |
| PhiCycles.CycleEqualsOp | passes/eliminate_tags.cpp:245-260 | at every block of every run that a PHI of the set dominates, the PHI equals op |
| PhiCycles.NeverEqualToItself | passes/eliminate_tags.cpp:249-251 | a reachable PHI is never equal only to itself, so it is not replaced by itself |
| PhiCycles.ReplaceKeepsRuns | passes/eliminate_tags.cpp:253-254 | replacing the PHI by op changes no run |
| PhiCycles.ReplaceKeepsReads | passes/eliminate_tags.cpp:253-254 | nor does it change an operand value that any instruction reads, moves and comparisons included |
| PhiCycles.ReplaceKeepsDominance | passes/eliminate_tags.cpp:253-254 | every definition still dominates its uses |
| PhiCycles.CollapsePhi | passes/eliminate_tags.cpp:248-257 | tries the operands in turn; afterwards every instruction is the same operation, no run and no operand value has changed, no PHI but this one is gone, and the function is still in SSA form |
| PhiCycles.CollapsePhis | passes/eliminate_tags.cpp:245-260 | each PHI of a list in turn, in the function that is left, becomes one of its operands iff it equals one; no operation, run or operand value changes |
| DomEdges.IsDominatorEdge | passes/cond_simplify.cpp:31-50 | accepts iff the edge occurs once and every other predecessor of its end is dominated by the end |
| DomEdges.DominatorEdgeExact | passes/cond_simplify.cpp:31-50 | for a block other than the entry the test accepts iff every run to the block takes the edge and the edge occurs once |
| DomEdges.DoubleEdgeRejected | passes/cond_simplify.cpp:37-43 | an edge listed twice is rejected although every run takes it |
| DomEdges.EntryLoopAccepted | passes/cond_simplify.cpp:33-35 | the entry with a loop to itself: accepted although not every run to it takes the edge |
| DomEdges.NotAfterEdge | passes/cond_simplify.cpp:238-283 | a run does not visit a dominator of the start after its last use of a dominating edge |
| CondSimplify.InverseNegates | core/cond.cpp:38-63 | the inverse code negates a comparison iff the operands are ordered or the code is exact |
| CondSimplify.InverseFamily | core/cond.cpp:38-63 | the inverse of a code keeps how it treats unordered operands, except that of UNE, and inverting twice gives the code back except for UEQ and UNE |
| CondSimplify.EdgeDecides | passes/cond_simplify.cpp:254-280 | when a deciding edge is taken, its condition has the recorded outcome |
| CondSimplify.EqualOperands | passes/cond_simplify.cpp:94-103 | equal operands of the earlier and the later comparison read the same value |
| CondSimplify.DecidedExact | passes/cond_simplify.cpp:204-231 | in codes and operands: the stacked conditions decide exactly the comparisons that compare the same operands or constants as one whose outcome a dominating edge has decided, with the same outcome for the same code and the other for the inverse code |
| CondSimplify.RedundantExact | passes/cond_simplify.cpp:204-231 | at any point of any run, a comparison that a stacked condition decides has the constant it is replaced with iff its code is that of the earlier one, its operands are ordered or the earlier code is exact |
| CondSimplify.RedundantHasConstant | passes/cond_simplify.cpp:204-231 | on every run of an invertible function a comparison that a stacked condition decides has the constant it is replaced with; invertible means that no floating-point comparison repeats one that dominates it with the inverse of a code the inverse does not negate |
| CondSimplify.RewriteKeepsRuns | passes/cond_simplify.cpp:181-186 | replacing it changes no run |
| CondSimplify.RewriteStaysSimplifiable | passes/cond_simplify.cpp:181-186 | the function stays in SSA form and well typed |
| CondSimplify.RewriteStaysInvertible | passes/cond_simplify.cpp:181-186 | and it stays invertible |
| CondComplete.CondAtSplit | passes/cond_simplify.cpp:238-283 | the conditions that hold in a block are those from above and those its own in-edges decide |
| CondComplete.SettledStays | passes/cond_simplify.cpp:286-293 | a rewrite elsewhere settles or unsettles no other comparison |
| CondTraverse.CondSimplifier.VisitInst | passes/cond_simplify.cpp:139-179 | the comparison becomes the constant that the first stacked condition to decide it gives, and stays if none does; afterwards none decides it, and no run of an invertible function changes |
| CondTraverse.CondSimplifier.PushConds | passes/cond_simplify.cpp:238-283 | afterwards the stack holds exactly the conditions of edges that dominate the block |
| CondTraverse.CondSimplifier.Traverse | passes/cond_simplify.cpp:233-311 | no run of an invertible function changes, blocks outside the subtree are untouched, the stack is restored, and every comparison of the subtree is settled |
| CondTraverse.Simplify | passes/cond_simplify.cpp:119-311 | the pass on any function, floating-point comparisons of every code included: the result comes by folding comparisons, each to the outcome of the one it repeats or to its negation for the inverse code, and by nothing else; in the result no comparison repeats one whose outcome a dominating edge decides; no run changes if the function is invertible |
| CondInverse.InverseFoldExact | passes/cond_simplify.cpp:204-223 | four blocks in which a floating-point comparison is folded by the inverse of an earlier one, for every code and either edge: what the pass returns has the same runs iff the code is exact or unordered operands take the other edge |
| Words.OrShift | passes/mem_to_reg.cpp:89-98 | or-ing bits below the alignment into an aligned address changes only the offset |
| Words.AlignedOr | passes/mem_to_reg.cpp:89-98 | the same for words of m bits, with any offset |
| Words.OrBits | passes/mem_to_reg.cpp:89-98 | a bit of the result of or is set iff it is set in one of the operands |
| CellFind.DerivedUnique | passes/mem_to_reg.cpp:63-120 | a value is derived from one frame address only and has one offset |
| CellFind.StepExact | passes/mem_to_reg.cpp:59-120 | in operations and operands: which users of an address compute another one, by moving it, adding or subtracting a constant or or-ing bits below the alignment into it, and with which offset |
| CellFind.AccessExact | passes/mem_to_reg.cpp:45-58 | the accesses are the loads from the address and the stores to it of another value, with the type they load or store |
| CellFind.FindUses | passes/mem_to_reg.cpp:29-133 | for any function, loops through PHIs included, the worklist ends; it fails iff the address escapes, and otherwise lists exactly the loads and stores through it, with their offsets and types |
| CellFind.FindAllUses | passes/mem_to_reg.cpp:273-293 | the same for all frame addresses of an object together |
| CellBytes.Overlaps | passes/mem_to_reg.cpp:297-324 | rejects iff two accesses are neither the same cell nor disjoint, or one is below the object |
| CellBytes.CellsAreRegisters | passes/mem_to_reg.cpp:297-324 | among such accesses a load right after a store sees the bytes stored iff it is of the same cell, and is not affected otherwise |
| CellBytes.LoadsSeeLastStore | passes/mem_to_reg.cpp:297-324 | after any sequence of such accesses a load sees the bytes last stored to its own cell, or what was there before all of them |
| CellSimulation.OffsetExact | passes/mem_to_reg.cpp:82-105 | at every point of every run a derived value is the address of the object plus its offset, modulo the word size |
| CellSimulation.OtherTracked | passes/mem_to_reg.cpp:122-126 | if no address escapes, no other instruction leaks the object or changes its bytes, and the addresses stay marked |
| CellSimulation.InstSim | passes/mem_to_reg.cpp:36-50 | each instruction on bytes has the effect of its counterpart on registers: registers hold what the bytes of their cells stand for |
| CellSimulation.RunSim | passes/mem_to_reg.cpp:148-263 | every run of the program on memory is, step by step, a run of the program whose cells are registers |
| CellPromotion.TopIsOk | passes/mem_to_reg.cpp:189-228 | the definition on the stack is available wherever it is used |
| CellMeaning.QuietSinceIdom | passes/mem_to_reg.cpp:171-185 | without a PHI, a run meets no store to the cell after its last visit of the immediate dominator |
| CellMeaning.PromotionPreservesMeaning | passes/mem_to_reg.cpp:159-262 | with a cell as a register: while the source loads only initialised cells, the promoted program is at the same block after as many steps and every instruction reads the same operand values |
| CellMeaning.LoadReadsLastStore | passes/mem_to_reg.cpp:205-218 | at every load of every run the replacing reference holds what the register of the cell holds |
| CellMeaning.PromotionKeepsDominance | passes/mem_to_reg.cpp:148-263 | every definition still dominates its uses |
| CellRewrite.PlacePhis | passes/mem_to_reg.cpp:158-185 | the PHIs are closed under dominance frontiers of stores and PHIs, and each is forced |
| CellRewrite.CellRewriter.RewriteBlock | passes/mem_to_reg.cpp:191-225 | loads become the current definition, stores set it, nothing else changes |
| CellRewrite.CellRewriter.FillSuccessors | passes/mem_to_reg.cpp:230-249 | each PHI of a successor gets the current definition, or an undefined value, for this block |
| CellRewrite.CellRewriter.Rewrite | passes/mem_to_reg.cpp:188-258 | the subtree is rewritten as specified and the stack of definitions is restored |
| CellRewrite.ReplaceCell | passes/mem_to_reg.cpp:159-262 | promotes one cell: for a closed and forced placement the result is the promoted program, means the same and stays in SSA form |
| CellRewrite.KeepsOtherCells | passes/mem_to_reg.cpp:159-262 | promoting one cell leaves the accesses to the others as they were |
| CellRewrite.CompleteAfter | passes/mem_to_reg.cpp:159-262 | afterwards no operand names the cell, and every new one names an existing result or is undefined |
| CellRewrite.ReplaceObject | passes/mem_to_reg.cpp:148-263 | promotes the cells given as registers one after the other; runs that load only initialised cells do not change and no access is left |
| CellView.ResultWellFormed | passes/mem_to_reg.cpp:148-263 | whatever is promoted from the view with registers for cells, with unreachable blocks as they were, is again a function of the machine with byte memory whose definitions dominate their uses |
| CellPass.LoadReadsLastStored | passes/mem_to_reg.cpp:205-218 | on memory, every load of the object reads the value of the bytes last stored to its cell |
| CellPass.PromotedImplements | passes/mem_to_reg.cpp:148-263 | what is promoted from the cells as registers does what the program on memory does, and reads at each load the value last stored in memory |
| CellPass.PromoteObject | passes/mem_to_reg.cpp:266-330 | the pass on one object: leaves it alone iff an address escapes, nothing accesses it or accesses overlap; otherwise, on every run on memory that does not go wrong, every instruction of the result reads the same values, each load the value last stored to its cell, and no access is left; all other instructions are the same operations, and the result is well formed, so the next object can follow |
| CellPass.PromoteObjects | passes/mem_to_reg.cpp:266-330 | the loop: every object in turn in the function the ones before it left, as PromoteObject says for one; reports a change iff one of them is promoted when its turn comes, and the result is well formed |
| StoreFlow.MeetSuccessors | passes/dead_store.cpp:115-132 | keeps the entries on which all successors agree |
| StoreFlow.TransferBlock | passes/dead_store.cpp:144-147 | applies the visitor to the instructions of a block, last to first |
| StoreFlow.Progress | passes/dead_store.cpp:111-164 | processing a block whose incoming map is new or changes leaves less missing, so the worklist ends |
| StoreFlow.Solve | passes/dead_store.cpp:99-164 | the worklist ends; every incoming map is what the successors agree on and every outgoing map what the visitor makes of it; nothing is held that some way forward does not store |
| StoreFlow.HeldExact | passes/dead_store.cpp:99-164 | in stores and paths: the analysis holds a store to an atom at a point iff within some number of blocks, all of which can reach an exit, every way forward comes to that store before any other store to the atom and before anything that may look at memory |
| DeadStore.EraseBlock | passes/dead_store.cpp:166-180 | walking backwards, erases a store to an atom for which a later store is due, and does not record a store that it erases |
| DeadStore.RemoveLocalDeadStores | passes/dead_store.cpp:99-184 | the pass erases exactly the stores to the start of an atom that is alone in its object which every way forward overwrites, by one and the same store, before memory may be looked at; everything else stays in place |
| DeadStore.SafeSimulates | passes/dead_store.cpp:99-184 | if every erasure is safe, original and erased function agree at every point of every run except on stores that are still due |
| DeadStore.EqualWhereSeen | passes/dead_store.cpp:85-89 | wherever memory is looked at nothing is due, so there the memories are equal |
| DeadStoreExact.ErasureExact | passes/dead_store.cpp:99-184 | the erased function simulates the original iff every erased store of a reachable block is unconditional and no wider than the store that stays in its stead |
| DeadStoreExact.OneWidthSimulates | passes/dead_store.cpp:99-184 | with unconditional stores of one width for each atom the pass is sound |
| DeadStoreExact.TwoStoresExact | passes/dead_store.cpp:76-83 | of two stores in a row the first is erased, which is right iff neither is conditional and the second is no narrower |
| Dag.StrictWeakOrder | core/dag.cpp:119-129 | the comparison of successors is irreflexive, transitive, and incomparability is transitive |
| Dag.LessExact | core/dag.cpp:119-129 | nodes that return come first, among those that do alike the ones that do not trap, and then longer ones |
| Dag.LoopExact | core/dag.cpp:65-115 | a node is a loop iff its blocks lie on cycles |
| Dag.ReturnsExact | core/dag.cpp:82-111 | a node returns iff a returning block can be reached from its blocks |
| Dag.LengthExact | core/dag.cpp:57-110 | the length of a node is the greatest number of instructions on a path of components that starts there |
| DagBuild.DAGFunc.AddNode | core/dag.cpp:45-131 | appends the node of one component: its fields are as specified, and of its successors those that return come first, then those that do not trap, then longer ones |
| DagBuild.DAGFunc.Collect | core/dag.cpp:49-54 | the blocks of the component are recorded and their instructions counted |
| DagBuild.DAGFunc.Connect | core/dag.cpp:100-113 | follows the edges of one block; successors and predecessors mirror each other |
| DagBuild.DAGFunc.constructor | core/dag.cpp:41-132 | every node is as specified, successors and predecessors mirror each other and successors are in that order |
| UseLists.Use.constructor | core/use.cpp:15-19 | a new use is at the front of the list of its value |
| UseLists.Use.Remove | core/use.cpp:31-39 | the use is gone from the list of its value, all other lists are unchanged |
| UseLists.Use.Add | core/use.cpp:42-50 | the use is at the front of the list of its value, all other lists are unchanged |
| UseLists.Use.Assign | core/use.cpp:22-28 | the use leaves the old list and is at the front of the new one; no other use changes |
| UseLists.ReplaceUses | core/inst.cpp:58-78 | the walk meets each original use once, even when uses are given back to the value it walks; each is given the reference for its index and no other use changes |
| UseLists.ReplaceWithValue | core/value.cpp:34-43 | every use of the value refers to index 0 of the new one |
| UseLists.ReplaceWithRef | core/value.cpp:46-54 | every use of the value refers to the new reference |
| UseLists.ReplaceInstWithValue | core/inst.cpp:58-66 | every use keeps its index and refers to the new value |
| UseLists.ReplaceInstWithRefs | core/inst.cpp:69-78 | every use of result i refers to the reference given for i, which may be a result of the instruction itself |
| UseLists.UseSize | core/value.h:163-163 | walking the list counts exactly the uses that refer to the value |
| UseLists.DestroyValue | core/value.cpp:12-15 | no use refers to the value, and it is no longer live |
| UseLists.User.constructor | core/user.cpp:43-54 | all operands are empty and the lists are unchanged |
| UseLists.User.ResizeUses | core/user.cpp:114-146 | the first operands keep their references in newly allocated uses, new ones are empty, dropped ones leave their lists |
| UseLists.User.Destroy | core/user.cpp:57-63 | no operand is left in a list |
| SymbolTable.ToStringInjective | core/prog.cpp:200-200 | different counters print differently |
| SymbolTable.ToStringDenotes | core/prog.cpp:200-200 | the digits denote the number, without leading zeros |
| SymbolTable.LocalNameInjective | core/prog.cpp:197-201 | different counters give different names |
| SymbolTable.Prog.Rename | core/prog.cpp:198-201 | the loop ends with the first free name from the counter on, and the table gains that name |
| SymbolTable.Prog.RemoveGlobalName | core/prog.cpp:225-230 | forgets exactly one name |
| SymbolTable.Prog.Erase | core/symbol_table.cpp:56-61 | the symbol, and with a function its blocks, leave the table; their uses become empty |
| SymbolTable.Prog.RemoveNames | core/symbol_table.cpp:115-126 | the names of a function and of its blocks are forgotten, and no others |
| SymbolTable.Prog.Displace | core/prog.cpp:188-206 | the uses of the deleted symbol refer to its replacement, which has its name |
| SymbolTable.Prog.RenamePrev | core/prog.cpp:207-218 | the local symbol gets a fresh name and the new one the name it wants |
| SymbolTable.Prog.InsertGlobal | core/prog.cpp:180-222 | the table stays a bijection between names and live symbols; which symbol is deleted, renamed or rejected is decided exactly, only local symbols are renamed, and every block still has its function iff the symbol does not displace the function it is inserted into |
| SymbolTable.Prog.OwnerSurvives | core/symbol_table.cpp:109-111 | inserting a block keeps the function it belongs to iff the block does not displace that very function |
| SymbolTable.Prog.WeakFunctionClaimed | core/symbol_table.cpp:103-112 | such a program: a weak function and a block of its own with the same name |
| SymbolTable.Prog.AddNode | core/symbol_table.cpp:43-52 | the symbol is live, no symbol that is not local has a new name, and the program stays valid iff the symbol does not displace its parent |
| SymbolTable.Prog.InsertBlocks | core/symbol_table.cpp:109-111 | the function is lost iff a block claims its name and it is weak; otherwise every block is live afterwards, or a later one that claimed its name is, the table stays a bijection and only local symbols are renamed |
| SymbolTable.Prog.AddFunc | core/symbol_table.cpp:103-112 | the function is lost iff it is weak and one of its blocks claims its name; otherwise it is live and every block is, or a later one that claimed its name, the table stays a bijection and only local symbols are renamed |
| SymbolTable.Prog.GetGlobalOrExtern | core/prog.cpp:66-75 | returns the symbol of that name, adding an extern iff there is none |
| ObjectSplit.Overlaps | passes/object_split.cpp:142-159 | true iff two accesses share a byte |
| ObjectSplit.Advance | passes/object_split.cpp:171-184 | the cursor stands at the offset: the passed items and the offset inside the current one add up to it |
| ObjectSplit.Populate | passes/object_split.cpp:204-297 | the new items have exactly the bytes of the access; fails iff a number or an address would be cut |
| ObjectSplit.Split | passes/object_split.cpp:164-298 | each new atom has exactly the bytes of its location, for any mix of items; fails iff some access cuts a number or an address |
| AtomSimplify.FillerIsPadding | passes/atom_simplify.cpp:44-51 | the filler is the padding the emitter would have put there, at every start address |
| AtomSimplify.MergeExports | passes/atom_simplify.cpp:37-98 | a merge takes one local symbol away and leaves all others where they were |
| AtomSimplify.PowersDivide | passes/atom_simplify.cpp:22-27 | an alignment accepted as coalescible divides that of the base |
| AtomSimplify.MergeFront | emitter/data_printer.cpp:183-257 | merging two neighbours leaves every emitted byte and the address of every other symbol |
| AtomSimplify.MergeSameLayout | passes/atom_simplify.cpp:55-98 | every reference resolves to the same address after its atom was merged away |
| AtomSimplify.Simplify | passes/atom_simplify.cpp:30-105 | for every start address the bytes and the address of every reference are unchanged, every atom that is not local is still there with its alignment and address, and an atom that was not merged into the base before it is not local or wants an alignment other than 1 that the base does not have |
| Bytes.NumberOfEmit | core/bitcode_writer.cpp:32-38 | a number written in n bytes is read back iff it is below 256 to the n |
| Bytes.EmitAt | core/bitcode_writer.cpp:32-38 | byte i of a written number is its ith digit to the base 256, the lowest first |
| Bytes.NumberAt | core/bitcode_reader.cpp:26-35 | the bytes that are read are the digits of the number, the lowest first |
| Bytes.SignedUnsigned | core/bitcode_reader.cpp:26-35 | a signed number in range survives its two's complement form |
| Bytes.ReadEmittedName | core/bitcode_reader.cpp:45-55 | a string shorter than 2 to the 32 is read back |
| Bytes.ListRoundTrip | core/bitcode_writer.cpp:147-152 | a list is read back if its length and elements are |
| BitcodeValue.GlobalRoundTrip | core/bitcode_writer.cpp:307-312 | an optional symbol, numbered from 1, is read back |
| BitcodeValue.SymbolExact | core/bitcode_reader.cpp:348-355 | a symbol, numbered from 0, is read back, and whatever is read has a number that fits |
| BitcodeValue.ExprRoundTrip | core/bitcode_reader.cpp:296-314 | an expression is read back |
| BitcodeValue.ValueRoundTrip | core/bitcode_reader.cpp:317-345 | an operand whose result was read before is read back |
| BitcodeValue.ValueFits | core/bitcode_reader.cpp:317-345 | an operand that is read fits and refers only to results that were read before |
| BitcodeData.ItemRoundTrip | core/bitcode_reader.cpp:203-240 | every kind of data item is read back |
| BitcodeData.AtomRoundTrip | core/bitcode_reader.cpp:196-243 | alignment, visibility and items of an atom are read back |
| BitcodeData.ExternRoundTrip | core/bitcode_reader.cpp:246-255 | visibility, value and section of an extern are read back |
| BitcodeData.XtorRoundTrip | core/bitcode_reader.cpp:438-447 | a constructor or destructor is read back |
| BitcodeAnnot.AnnotsRoundTrip | core/bitcode_reader.cpp:387-435 | a set of annotations with one of each kind is read back |
| BitcodeAnnot.SetAllKinds | core/bitcode_reader.cpp:387-435 | of the annotations that are read there is one of every kind, and no second one |
| BitcodeInst.FieldRoundTrip | util/inst_gen/get_bitcode.cpp:47-87 | every kind of instruction field is read back |
| BitcodeInst.FieldFits | util/inst_gen/get_bitcode.cpp:47-87 | whatever is read as a field fits and has the shape of the layout |
| BitcodeCode.RawSplits | core/bitcode_reader.cpp:275-286 | of the incoming values of a written PHI those whose results were read are added at once and the others wait, in order |
| BitcodeCode.InstRoundTrip | core/bitcode_reader.cpp:258-293 | an instruction that fits is read back, a PHI up to the values that wait |
| BitcodeCode.FinishDraft | core/bitcode_reader.cpp:186-191 | adding the waiting values completes the PHI |
| BitcodeCode.AddReplaces | core/insts/phi.cpp:38-49 | adding a value for a block that has one replaces it in its place |
| BitcodeCode.SettleKeeps | core/bitcode_reader.cpp:186-191 | every block keeps its value, although values that waited come last |
| BitcodeCode.FinishFits | core/bitcode_reader.cpp:186-191 | an instruction that was read fits wherever it stands |
| BitcodeBody.BeforePrefix | core/bitcode_writer.cpp:163-172 | the results numbered before an instruction are a prefix of all results of the function |
| BitcodeBody.VerdictExact | core/bitcode_reader.cpp:186-189 | the check passes iff the number of every waiting value is below the number of results |
| BitcodeBodyTrip.CodeRoundTrip | core/bitcode_writer.cpp:162-180 | a body that fits is read back up to the order of incoming values |
| BitcodeBodyTrip.CodeFits | core/bitcode_reader.cpp:173-192 | only a body that fits is read back |
| BitcodeFunc.StackExact | core/bitcode_writer.cpp:139-143 | a stack object is read back iff its fields fit, the alignment below 256 |
| BitcodeFunc.WideAlignmentLost | core/bitcode_writer.cpp:142-142 | an alignment of 256 comes back as 0 |
| BitcodeFunc.FuncRoundTrip | core/bitcode_reader.cpp:133-193 | a function that fits is read back |
| BitcodeNames.NumberAllNumbers | core/bitcode_writer.cpp:53-86 | distinct keys are numbered by their positions |
| BitcodeNames.InBlocks | core/bitcode_writer.cpp:166-172 | the results of a function are distinct, so each has a number of its own |
| BitcodeNames.SymbolsOfFileRoundTrip | core/bitcode_reader.cpp:60-102 | the names of all symbols are read back |
| BitcodeTrip.SymbolsAgree | core/bitcode_reader.cpp:68-99 | writer and reader number the symbols of a program identically |
| BitcodeTrip.FuncAgrees | core/bitcode_reader.cpp:175-185 | writer and reader number the results of a function identically |
| BitcodeTrip.Readable | core/bitcode_reader.cpp:58-130 | a program that fits is read back, to the end of the file |
| BitcodeTrip.ReadableFits | core/bitcode_reader.cpp:58-130 | a program that is read back fits |
| BitcodeTrip.RoundTrip | core/bitcode_writer.cpp:41-114 | a written program is read back, up to the order of incoming values of PHIs, iff everything in it fits |
| BitcodeFixups.WildExact | core/bitcode_reader.cpp:186-191 | the reader reads past its table iff the first number out of range is just past the end |
| BitcodeFixups.PatchedAll | core/bitcode_reader.cpp:186-191 | going through one list of fixups gives every PHI exactly the values that waited for it, in order |
| BitcodeReader.Reader.ReadNames | core/bitcode_reader.cpp:60-102 | reads the names as specified; the table then holds all symbols in the order of the file |
| BitcodeReader.Reader.ReadIncoming | core/bitcode_reader.cpp:275-286 | splits the incoming values of a PHI into those to add and those to fix up |
| BitcodeReader.Reader.ReadBody | core/bitcode_reader.cpp:173-192 | the loops over blocks, instructions and fixups yield what reading block by block with a waiting list for each PHI does, errors included |
| BitcodeReader.Reader.Read | core/bitcode_reader.cpp:58-130 | reads a file as specified, for any bytes |
| BitcodeWriter.Writer.WriteNames | core/bitcode_writer.cpp:43-87 | writes the names as specified and numbers the symbols by their positions |
| BitcodeWriter.Writer.NumberResults | core/bitcode_writer.cpp:164-172 | numbers the results of a function by their positions, from 1 |
| BitcodeWriter.Writer.WriteFunction | core/bitcode_writer.cpp:117-181 | appends the bytes of the function, with its own numbering of results |
| BitcodeWriter.Writer.Write | core/bitcode_writer.cpp:41-114 | the stream is the file of the program |
| BitcodeSample.SampleFile | core/bitcode_writer.cpp:41-330 | the file of one program with a part of every kind, byte for byte |
| BitcodeSample.MagicFirst | core/bitcode_writer.cpp:43-44 | every file begins with the letters L, L, I and R |
| BitcodeSample.NotAFile | core/bitcode_reader.cpp:58-66 | bytes that begin otherwise, or end too early, are rejected |
| BitcodeSample.UnknownTags | core/bitcode_reader.cpp:201-345 | a tag that the writer does not use is rejected |
| BitcodeSample.UnknownKind | core/bitcode_reader.cpp:268-293 | so is an unknown kind of instruction |
| BitcodeSample.UnknownNumbers | core/bitcode_reader.cpp:275-362 | so are the number of a symbol or a result that does not exist, and a PHI without a value |
| Bitcode.SaveAndLoad | core/bitcode_writer.cpp:41-114 | writing a program and reading the file yields it, up to the order of incoming values, iff everything fits |
| Bitcode.DominatorsFirst | core/bitcode_writer.cpp:165-165 | in a reverse post-order dominators come first |
| Bitcode.DominatedFits | core/bitcode_reader.cpp:320-325 | in a function whose definitions dominate their uses no operand refers to a result that has not been read, so only widths can prevent reading it back |

## Left out

- Exceptional edges: invoke, landing pads and raise; results of such calls are not modelled.
- SSA construction: hand-written PHIs, the encoding of registers as tagged pointers, the choice of PHI types (core/parser_phi.cpp:295-327) and the removal of unreachable blocks, which no run enters.
- Verifier.Verifier.Verify: does not check types, terminators or the operands of single instruction kinds (core/verifier.cpp:89-99, 123-127); entry blocks have no PHIs.
- ParserPhi.Construct: takes functions without hand-written PHIs; the registers such PHIs name are exempt from placement (core/parser_phi.cpp:113-139).
- ParserPhi.PhiPlacement: leaves out the choice of PHI types (core/parser_phi.cpp:295-327) and the removal of unreachable blocks.
- SsaForm.NeverReadsUndefined: is stated for functions whose blocks end in a terminator that selects an existing successor.
- PhiCycles.CollapsePhis: takes the PHIs in any order and leaves out the type analysis that introduces them; the other rewrites of passes/eliminate_tags.cpp rest on an analysis that is not part of this model.
- CondTraverse.Simplify: leaves out the folding of null checks, which rests on undefined behaviour, and claims nothing about the runs of functions that are not invertible in general, only of one such function for each code (CondInverse.InverseFoldExact); a comparison is replaced in place by a constant where the code inserts a move and redirects the uses.
- CondSimplify.EdgeDecides: a switch edge is recorded as a truth value, as in the code (passes/cond_simplify.cpp:90), which is right because comparisons are 0 or 1.
- CellFind.FindUses: an and-instruction ends in an unreachable marker of the code (passes/mem_to_reg.cpp:99-101) and counts as an escape; offsets are unbounded numbers, and the order of users in a use list is arbitrary.
- CellMemory.ExecMem: an access through an unmarked address does not reach the object before it has leaked, as its address cannot have been computed from it; the object lies in the address space without wrapping around, and a stored value is one that its type can represent.
- CellPass.PromoteObject: the pass runs only on a function named dlopen (passes/mem_to_reg.cpp:268), which the model ignores; a promoted load becomes a move in place, and a promoted store keeps its position as an instruction without results. Blocks that are never reached keep their accesses. Nothing is claimed from the first load of bytes that have not been stored on, where the code puts an undefined value.
- CellPass.PromoteObjects: each step is stated on a machine with the bytes of the object it promotes, in which accesses to other objects are ordinary instructions whose results are those of the oracle.
- CellMeaning.PromotionPreservesMeaning: claims nothing from the first load of an uninitialised cell on, where the code puts an undefined value.
- DeadStore.RemoveLocalDeadStores: memory is observed only by the instructions on which the visitor clears its map and at the exit; system calls and other instructions that the visitor ignores are not modelled, and neither is passes/dead_store.cpp:187-340.
- Dag.ReturnsExact: components are an input in reverse topological order, as the iterator of LLVM yields them; the flags Raises and Lands and the propagation of Traps are left out.
- DagBuild.DAGFunc.AddNode: std::sort is modelled by insertion, so the order among equal successors is the one insertion leaves.
- UseLists.User.ResizeUses: freed memory is memory that is no longer live; the tag bit that registers carry during parsing is left out.
- SymbolTable.Prog.AddFunc: says nothing about the table once the function has been deleted while its blocks are walked, which the code does not survive; fewer than 2 to the 32 symbols exist.
- SymbolTable.Prog.InsertGlobal: uses are a map from uses to symbols; their lists are the subject of UseLists. Moving nodes between lists is left out.
- ObjectSplit.Split: the accesses are given, sorted and inside the atom; finding them and redirecting the instructions is left out.
- AtomSimplify.Simplify: references are a map to a symbol and an offset; sizes do not wrap around.
- BitcodeTrip.RoundTrip: the reverse post-order is an input, blocks it does not reach are not written; symbols and data sections have distinct names, so nothing is renamed or joined while reading; enumerators are bytes, floating-point numbers are bit patterns and a power-of-two check of alignments is left out.
- BitcodeReader.Reader.Read: streams in which names repeat, or in which a block operand is the number of another kind of symbol, are read without the renaming or the failed cast of the code.
- Passes that rest on solvers (pre-evaluation, points-to analysis, constant propagation, global forwarding, inlining), the peephole passes and the code generator: outside this model, except for the layout of data.
- Files, command lines, directives of the parser, statistics and debug output.
