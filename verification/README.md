# Verification of the compiler middle end

The repository is a small SSA compiler middle end: analyses over a method's control-flow graph that feed each
other, and passes that rewrite the graph.  This project models them in Dafny and proves what they promise.

- `Util`, `Cfg`: sequences; graphs, paths, dominance stated over all paths, reducibility.
- `Rpo`, `Dominators`, `DominatorTree`: depth-first postorder, strict dominators by the removal test, immediate
  dominators by largest index, the dominator tree.
- `NaturalLoops`, `Loops`: natural loops by paths; the grey/black search for back edges and the loop nest.
- `LinearOrder`: the wait-count scheduler.
- `Ir`, `LiveRanges`, `Liveness`, `LivenessAnalyzer` (module `LivenessPass`), `LivenessTheory`, `LivenessExact`,
  `RangesExact`, `LivenessGap`: position numbering, live ranges in one reverse pass, path-based liveness, exactly when
  the pass covers it, the ranges in closed form, and a program on which liveness is not covered.
- `Pools`, `RegAlloc`, `Pipeline`, `PlaceRuns`: the linear-scan allocator, the whole chain of analyses, and the
  program run on the allocated registers and slots.
- `Semantics`: what running a graph means, and the fact both passes rest on: in strict SSA, wherever a run is, an
  available pure operation has the value of its operation on the current values of its inputs.
- `GraphEdits`, `EditGap`: the graph as an object edited in place: edges with phi inputs, user sets, instructions;
  and graphs on which an edit does not keep what it should.
- `CheckTheory`, `CheckGuards`, `CheckElim`, `CheckGap`: check elimination, and a program it changes.
- `PeepholeArith`, `PeepholeTheory`, `PeepholeRuns`, `PeepholeRules`, `PeepholeZero`, `PeepholeDone`, `Peepholes`: the
  peepholes, and what they leave.

## How the source is read

Blocks and instructions are numbers; what the C++ objects hold in their fields is held in maps of the analysis
object that writes them, and `GraphEdits.MethodGraph` holds the graph that passes edit.  A block's instruction
list is its phis followed by its body.  Null slots of successor and predecessor lists are left out of the lists.

A run (`Semantics.Exec`) goes from block to block.  Phis are assigned together on entering a block.  Parameters,
the results of calls, loads, stores, allocations and returns, the outcomes of `if` and of the bounds test, and
arithmetic that no proof needs (casts, multiplication, division, and, floating point) are supplied by a *world*;
opaque operations append themselves and the values they read to a log, and their answer may depend on the whole
log.  Statements about runs are for all worlds and all lengths.  A null check takes its first successor when the
value is null, as `ProcessNullInstruction` presumes, and every branch takes its first successor when it holds.

Hypotheses that the code does not establish are spelled out where they are needed:

- a single start block; predecessor and successor lists naming the same edges (`Graph.Mirrored`);
- no self-edges, because recorded dominators leave out the block itself
  (Analyzers/dominatorAnalyzer.cpp:94-97) and a self-edge is therefore classed as irreducible;
- reducible graphs for what is said of loops and of the forward order;
- strict SSA (`Prog.Ssa`), all blocks reachable and no parallel edges for liveness and allocation.

Some claims one would expect are false of the code.  Each is given with the exact condition and with an input:

- one reverse pass does not always cover liveness: it does if and only if what is live into a loop header without
  taking a back edge is carried over the end of every block of the loop, by a read or by a loop end
  (`LivenessExact.SoundExactly`); the whole chain of analyses misses a value on `LivenessGap.P`
  (`LivenessGap.ChainMisses`);
- check elimination does not always keep runs, as nothing tests where else the block behind the guarding outcome
  is entered from: it does if and only if no removed check ever left by the edge that went with it
  (`CheckElim.RunsKeptExactly`), which holds when guarding outcomes are entered from the guard only
  (`CheckElim.Run`, `CheckGuards.ThroughEdgeExactly`); on `CheckGap.P` the pass changes a run
  (`CheckGap.PassRemoves`);
- cutting an edge keeps phis and predecessors in step only without a parallel edge: `GraphEdits.CutArityExactly`,
  `EditGap.ArityLost`.  Likewise `EraseInput` keeps the user sets complete only when the phi does not read the
  same value twice: `GraphEdits.EraseCoversExactly`, `EditGap.UserLost`;
- the stack pool is not kept sorted: `Pools.SortedExactly`, `Pools.UnsortedPool`;
- a place can stay held after the last instruction, since deaths are looked up only at positions that an
  instruction carries: `RegAlloc.AllFreeExactly`, `LivenessGap.NeverFreed`.

`LivenessGap.LineIsLegal`, `LivenessGap.NestExists` and `CheckGap.IsWellFormed` show that these programs meet the
hypotheses of the liveness pass and of check elimination.

Names in the code that read against what it does: `CheckElimination` looks dominators up afresh exactly when its
flag `dominatorsFound` is set (Passes/CheckElimination.cpp:153-159), and the model follows the code by proving the
pass for any records that are sound, fresh, older or absent.  The branch for irreducible loops "merges", but two ends
that have different loops already stay in them (`Loops.MergeOutcome`).

## Model

| member | source | states |
|---|---|---|
| Rpo.PostOrder.Visit | Analyzers/dominatorAnalyzer.cpp:9-23 | the recursive search ends with its block visited unless it is the ignored one, and keeps the invariant of the search, under which finished blocks have their successors visited and a dominator finishes after what it dominates |
| Rpo.DFSPO | Analyzers/dominatorAnalyzer.cpp:25-39 | the postorder lists each block reached without the ignored one once |
| Rpo.ReversePostOrder | Analyzers/dominatorAnalyzer.cpp:51-57 | the reversed list holds exactly the blocks reachable from the start while avoiding the ignored block, each once, dominators first |
| Rpo.EnumerateBlocks | Analyzers/dominatorAnalyzer.cpp:41-49 | every block is paired with its position |
| Rpo.RpoForward | Analyzers/dominatorAnalyzer.cpp:51-57 | on a reducible graph every edge whose target does not dominate its source goes to a larger index |
| Rpo.RpoAcyclic | Analyzers/dominatorAnalyzer.cpp:51-57 | on an acyclic graph every edge goes to a larger index |
| Rpo.RpoStartsWith | Analyzers/dominatorAnalyzer.cpp:51-57 | the start block comes first |
| Cfg.RemovalTest | Analyzers/dominatorAnalyzer.cpp:90-99 | a block is cut off by removing d exactly when every path to it passes d |
| Dominators.DominatorAnalyzer.CutOffBy | Analyzers/dominatorAnalyzer.cpp:91-99 | the blocks found by the removal test are exactly those strictly dominated, in index order |
| Dominators.DominatorAnalyzer.FindDominators | Analyzers/dominatorAnalyzer.cpp:79-119 | all three fields of every block: dominators, dominated blocks and immediate dominator are those of path dominance |
| Dominators.RecordsIsStrictDominance | Analyzers/dominatorAnalyzer.cpp:90-106 | d is recorded for a reachable b exactly when it strictly dominates b, and the dominated lists are the inverse relation |
| Dominators.DominatorsChainByIndex | Analyzers/dominatorAnalyzer.cpp:108-118 | strict dominators of a block form a chain ordered by index |
| Dominators.LargestIndexIsImmediate | Analyzers/dominatorAnalyzer.cpp:112-117 | the recorded dominator of largest index is dominated by every other one |
| Dominators.ImmediateExactly | Analyzers/dominatorAnalyzer.cpp:108-118 | what is recorded as the immediate dominator is the only one, and only blocks without one have none recorded |
| Dominators.NoDominatorsOnlyAtStart | Analyzers/dominatorAnalyzer.cpp:108-111 | the list is empty, so that no immediate dominator is set, only for the start |
| DominatorTree.CreateNode | Analyzers/dominatorAnalyzer.cpp:170-184 | the recursion ends; the subtree holds each block dominated by its root once, with ancestors exactly its dominators below the root |
| DominatorTree.Build | Analyzers/dominatorAnalyzer.cpp:156-168 | the tree holds every reachable block exactly once, and the proper ancestors of a block are its strict dominators |
| NaturalLoops.NestedLoop | Analyzers/loopAnalyzer.cpp:156-177 | of two natural loops sharing a block, the one with the dominating header contains the other |
| Loops.LoopAnalyzer.CollectVisit | Analyzers/loopAnalyzer.cpp:54-129 | on any graph the grey/black search ends; when a block is left each of its edges leads to a block left earlier or has been classified; what is classified lies on a cycle, and counts as a back edge exactly if its target strictly dominates its source |
| Loops.CycleIsMet | Analyzers/loopAnalyzer.cpp:54-129 | on any graph, whatever the search order, an edge of every cycle of reachable blocks has been classified |
| Loops.CycleIsLooped | Analyzers/loopAnalyzer.cpp:90-121 | so a cycle without a back edge has an edge both of whose ends have a loop in the outcome |
| Loops.GreyTargetDominates | Analyzers/loopAnalyzer.cpp:69-90 | on a reducible graph an edge to a grey block always goes to a strict dominator |
| Loops.SearchCovers | Analyzers/loopAnalyzer.cpp:69-90 | every back edge has been met as an edge to a grey block, whatever the search order |
| Loops.LoopAnalyzer.AddBackEdge | Analyzers/loopAnalyzer.cpp:80-89 | the target's loop is made on demand and gets the source as a node |
| Loops.LoopAnalyzer.MergeIrreducible | Analyzers/loopAnalyzer.cpp:90-121 | blocks that have a loop keep it, ends without one join the other end's as nodes, two ends without one get a new irreducible loop without a head; ends in two different loops stay apart |
| Loops.MergeOutcome | Analyzers/loopAnalyzer.cpp:90-121 | the same of the classification that the search replays |
| Loops.ReplayKeepsTable | Analyzers/loopAnalyzer.cpp:80-121 | on any graph: one list holds the loops with a head, which are reducible, the other those without; every block with a loop is its head or one of its nodes; both ends of every edge that closes a cycle irreducibly have a loop |
| Loops.ReplayMatches | Analyzers/loopAnalyzer.cpp:82-88 | classified back edges give one loop per header holding all its latches |
| Loops.LoopAnalyzer.Mark | Analyzers/loopAnalyzer.cpp:163-170 | an unassigned block joins the loop, an assigned one makes its loop a subloop |
| Loops.LoopAnalyzer.Flood | Analyzers/loopAnalyzer.cpp:156-177 | on any graph the backward flood ends, visits only what reaches one of the loop's nodes around the header, and marks exactly what it visits |
| Loops.LoopAnalyzer.ProcessLoop | Analyzers/loopAnalyzer.cpp:142-154 | on any graph exactly the blocks that reach a node of the loop without passing its header are marked |
| Loops.FloodIsLoop | Analyzers/loopAnalyzer.cpp:142-177 | when the nodes are the latches of the header, these are its natural loop |
| Loops.LoopAnalyzer.PopulateLoops | Analyzers/loopAnalyzer.cpp:131-140 | the loops are processed one after the other by falling index of their heads |
| Loops.PopulatedNest | Analyzers/loopAnalyzer.cpp:131-140 | so on a reducible graph inner headers come first, and each extends the nest by its natural loop |
| Loops.LoopAnalyzer.FindLoops | Analyzers/loopAnalyzer.cpp:26-46 | on any graph it ends, the edges taken as back edges are exactly those to strict dominators, and every cycle of reachable blocks takes a back edge or has an edge both of whose ends have a loop; on a reducible graph no loop is irreducible, and the nest is complete |
| Loops.NaturalLoopFromNest | Analyzers/loopAnalyzer.cpp:131-177 | b is in the natural loop of h exactly when b is h or its assigned loop is h's or one of h's recorded subloops |
| Loops.AssignedIsInnermost | Analyzers/loopAnalyzer.cpp:131-177 | the assigned loop of a block is that of the innermost natural loop around it, which is unique |
| LinearOrder.CalculateWaitCount | Analyzers/linearOrderAnalyzer.cpp:50-62 | the count is the number of predecessor entries that are not back edges |
| LinearOrder.PickNextBlock | Analyzers/linearOrderAnalyzer.cpp:64-105 | the chosen ready block is the first ready successor, else the first ready block of the same loop, else the first, and leaves the list |
| LinearOrder.MatesExactly | Analyzers/linearOrderAnalyzer.cpp:85-95 | with the nest of FindLoops two blocks are in the same loop exactly if they have the same innermost natural loop |
| LinearOrder.RulesExactly | Analyzers/linearOrderAnalyzer.cpp:64-105 | and the rule of the line is the rule in terms of paths: first a successor whose entering edges come from scheduled blocks or back from below it, else a block of the same innermost natural loop, else any, that could be scheduled first |
| LinearOrder.NestNamesBackEdges | Analyzers/linearOrderAnalyzer.cpp:12-48 | with the nest of FindLoops the scheduler's back-edge test is strict dominance of the target |
| LinearOrder.ReleaseSuccessors | Analyzers/linearOrderAnalyzer.cpp:143-160 | an unvisited block's wait count stays the number of its unscheduled forward predecessors, and blocks are released at zero |
| LinearOrder.NoneLeft | Analyzers/linearOrderAnalyzer.cpp:162-176 | on a reducible graph an empty ready list means that nothing is unvisited, so the fallback is not needed |
| LinearOrder.LinearOrderAnalyzer.CreateLinearOrder | Analyzers/linearOrderAnalyzer.cpp:109-186 | for any graph it ends with a permutation of the blocks that starts at the start block; on a reducible one no block is forced, the source of every forward edge precedes its target, and every choice follows the rules of PickNextBlock, stated by innermost loops and dominance |
| LiveRanges.LiveRange.AddInterval | IR/instructions/instr.h:193-205 | the range stays the hull of the intervals |
| LiveRanges.ShortenRangeStart | Analyzers/livenessAnalyzer.cpp:20-52 | intervals that start with the block start at the definition instead, an unused value gets an empty one, and the range is the hull again |
| LivenessPass.LivenessAnalyzer.InitLiveLinForInstr | Analyzers/livenessAnalyzer.cpp:71-90 | blocks tile the line, phis share their block's start, other instructions follow two apart |
| LivenessPass.GetPredecessorIndex | Analyzers/livenessAnalyzer.cpp:10-18 | the first entry for the predecessor, or none |
| LivenessPass.GetLoopEndPos | Analyzers/livenessAnalyzer.cpp:54-67 | the largest end among the loop's own nodes, 0 if there are none |
| LivenessPass.LivenessAnalyzer.CollectLive | Analyzers/livenessAnalyzer.cpp:102-129 | the live set at a block's end: live-ins of successors later in the line, and phi inputs along the edges |
| LivenessPass.LivenessAnalyzer.WalkBody | Analyzers/livenessAnalyzer.cpp:136-156 | the intervals and the live set after the reverse walk over a body |
| LivenessPass.LivenessAnalyzer.ProcessBlock | Analyzers/livenessAnalyzer.cpp:98-174 | one block extends the closed form of the live-in sets and the interval invariant to itself |
| LivenessPass.LivenessAnalyzer.CalculateLiveRanges | Analyzers/livenessAnalyzer.cpp:92-175 | every block's demands on every range are met, and every interval is accounted for by a demand or the definition and starts no earlier than the definition |
| Liveness.IntervalsStep | Analyzers/livenessAnalyzer.cpp:131-171 | processing one block meets its demands, keeps those of later blocks and adds nothing unaccounted for |
| LivenessTheory.RisingLive | Analyzers/livenessAnalyzer.cpp:104-129 | along a path that only moves on in the line, a live value is in every computed live-in set |
| LivenessTheory.EarliestLive | Analyzers/livenessAnalyzer.cpp:104-173 | on any live path the value is in the live-in set of the path's earliest block |
| LivenessTheory.LiveInIsLive | Analyzers/livenessAnalyzer.cpp:104-173 | conversely, what is in a computed live-in set is live into the block along a path that only moves on |
| LivenessExact.LiveInExactly | Analyzers/livenessAnalyzer.cpp:104-173 | the computed live-in sets are liveness along edges that are not back edges |
| LivenessExact.SoundExactly | Analyzers/livenessAnalyzer.cpp:92-175 | every point where a value is live lies in its range if and only if, for every header and block of its natural loop, what is live into the header without taking a back edge is read on an edge out of the block, or read in a block later in the line, or live like this into a header whose loop end is not before the block's end |
| LivenessExact.NotCarriedMissed | Analyzers/livenessAnalyzer.cpp:54-67 | a value that nothing carries over the end of a block of the loop is live there and outside its range |
| RangesExact.RangeExactly | Analyzers/livenessAnalyzer.cpp:92-175 | the range of a value is set exactly if something asks for it; it runs from the definition to the last instruction that reads the value, end of a block along whose edges it is read, or end of a loop into whose header it is live without taking a back edge |
| RangesExact.OutAtDefinition | Analyzers/livenessAnalyzer.cpp:104-129 | what another block reads is in the live set at the end of the block that defines it |
| LivenessTheory.CoveringLoopEndsSuffice | Analyzers/livenessAnalyzer.cpp:54-67 | it suffices that every block of a natural loop ends by the loop end the pass uses |
| LivenessTheory.SimpleLoopCovered | Analyzers/livenessAnalyzer.cpp:163-170 | which holds of every loop without subloops |
| LinearOrder.ReadyListIs | Analyzers/linearOrderAnalyzer.cpp:143-160 | on a reducible graph the ready list holds exactly the unscheduled blocks whose forward predecessors are all scheduled |
| LinearOrder.PickedFollows | Analyzers/linearOrderAnalyzer.cpp:64-105 | so each block of the line is the first ready successor of the one before, else the ready block of its loop, else of all, that became ready first |
| LivenessGap.OnlyOrder | Analyzers/linearOrderAnalyzer.cpp:64-186 | on the example graph, with any nest that the loop analysis can find, the scheduler's rules leave one line, with the inner loop's exit before its body |
| LivenessGap.NestExists | Analyzers/loopAnalyzer.cpp:131-177 | what the loop nest of the example looks like |
| LivenessGap.LineIsLegal | Analyzers/livenessAnalyzer.cpp:92-98 | that program and line, with any such nest, meet every hypothesis of the liveness pass |
| LivenessGap.LiveValueMissed | Analyzers/livenessAnalyzer.cpp:54-67 | on that program and line, with any such nest, any outcome of the pass leaves a live value out of its range |
| LivenessGap.ChainMisses | tests/reg_alloc_1.cpp:35-51 | the whole chain of analyses, run on that program with any registers, produces that line, misses the value, and still holds a place at the end |
| LivenessGap.NeverFreed | Analyzers/regAlloc.cpp:154-157 | there the range of a value ends where no instruction stands |
| Pools.TryGetMemPlace | Analyzers/regAlloc.cpp:35-49 | the place taken is wide enough and, in a sorted pool, a narrowest one; nothing is returned only if nothing free is wide enough |
| Pools.ReturnMemPlace | Analyzers/regAlloc.cpp:51-60 | the place goes to the bucket of its size |
| Pools.EnsureBucket | Analyzers/regAlloc.cpp:72-104 | afterwards a bucket of the size exists, a new one before the last smaller one passed, and the free places are the same |
| Pools.SortedExactly | Analyzers/regAlloc.cpp:88-104 | a sorted pool stays sorted if and only if no bucket in it is smaller than the new one |
| Pools.UnsortedPool | Analyzers/regAlloc.cpp:88-104 | a slot of 8 bits and then one of 32 leave it unsorted |
| RegAlloc.InitFreePool | Analyzers/regAlloc.cpp:107-131 | the pools hold the registers of their class, sorted, with a bucket for every register's size |
| RegAlloc.Allocator.FreeMemPlace | Analyzers/regAlloc.cpp:133-145 | exactly the pool of the place's kind gets it back |
| RegAlloc.CanReturn | Analyzers/regAlloc.cpp:58 | the bucket assertion on return never fails |
| RegAlloc.Allocator.ProcessCurrentEvents | Analyzers/regAlloc.cpp:149-168 | the deaths of the position are gone, all others stay, and no place is lost or doubled |
| RegAlloc.Allocator.AllocateStackSlot | Analyzers/regAlloc.cpp:65-105 | a slot of the size with a new id, and its bucket |
| RegAlloc.NoOverlapGiven | Analyzers/regAlloc.cpp:187-216 | a place that no pending death holds was last used by ranges that have ended |
| RegAlloc.Allocator.AllocateFor | Analyzers/regAlloc.cpp:180-216 | a register is the narrowest free one of the class that fits; a slot is used only if there is none, and created only if no free slot is wide enough; every invariant of the scan is kept |
| RegAlloc.Allocator.IterateThroughInstructions | Analyzers/regAlloc.cpp:172-218 | conservation, one place per non-empty range, disjoint ranges per place, and no better place passed over, hold over the whole scan |
| RegAlloc.ChosenNow | Analyzers/regAlloc.cpp:187-216 | every register of the class that is wide enough and narrower than the place given, or any if that is a slot, is the place of an earlier instruction whose range's end has not been passed; a slot used for the first time has just the size, and the same holds of every earlier slot that is wide enough |
| RegAlloc.Allocator.Allocate | Analyzers/regAlloc.cpp:220-238 | exactly the instructions with a non-empty range have a place, one each, wide enough and of the right class; equal places have disjoint half-open ranges; no better register and no wide enough slot was free when a place was given; each register and slot is in one pool or held by one death; the deaths still pending are exactly those no later instruction has passed, and none is held exactly when all have been |
| RegAlloc.DeathsPassed | Analyzers/regAlloc.cpp:149-168 | a death stays pending exactly as long as no later instruction stands at its position |
| RegAlloc.AllFreeExactly | Analyzers/regAlloc.cpp:154-157 | no place is held at the end if and only if every non-empty range ends at the position of a later instruction |
| Pipeline.LineOfSchedule | Analyzers/linearOrderAnalyzer.cpp:109-186 | the line puts every block after its dominators, as the liveness pass needs |
| Pipeline.LatchesFollow | Analyzers/livenessAnalyzer.cpp:163-170 | a loop never ends before its header |
| Pipeline.AllocatorReady | Analyzers/livenessAnalyzer.cpp:71-90 | the numbering gives the allocator positions that do not fall and ranges that start in time |
| Pipeline.SoundRangesApart | Analyzers/regAlloc.cpp:172-218 | at every program point any two distinct live values have different places |
| Pipeline.AllocateGraph | tests/reg_alloc_1.cpp:35-51 | the chain of analyses establishes every hypothesis of the next; it ends with ranges in closed form, which are sound if and only if loops carry what is live into their headers, and then live values are apart; no better place was passed over |
| PlaceRuns.PlacedIsLive | Analyzers/regAlloc.cpp:180-185 | an instruction gets a place only if its value is live right after its definition |
| PlaceRuns.AllocationSeparates | Analyzers/regAlloc.cpp:172-218 | the allocation separates live values and places nothing else |
| PlaceRuns.MachineMatches | Analyzers/regAlloc.cpp:172-218 | with a separating allocation, a run on registers and slots passes the same blocks with the same log as a run on values, and every live value is in its place |
| PlaceRuns.AllocatedRunsMatch | Analyzers/regAlloc.cpp:220-238 | end to end: where loops carry what is live into their headers, the allocated program does what the program does, in every run |
| Semantics.SaneRun | Passes/peepholes.cpp:100-112 | the deep lemma: in every run, at every block, available values are there, typed, and pure operations equal their operation on the current values of their inputs |
| Semantics.PureAtPoint | Passes/CheckElimination.cpp:12-60 | the same at every position inside a block |
| GraphEdits.MethodGraph.EraseInput | IR/instructions/instr.h:123-132 | the input at the index goes, and its user entry |
| GraphEdits.MethodGraph.ReplaceInput | IR/instructions/instr.h:134-149 | every occurrence is replaced, and the user entry moves |
| GraphEdits.MethodGraph.RemovePredecessor | IR/basicBlock.cpp:40-42 | all copies of the predecessor go |
| GraphEdits.MethodGraph.RemoveSuccessor | IR/basicBlock.cpp:6-38 | the whole new graph and the user sets: the edge, the predecessor entries, the phi inputs of the first entry |
| GraphEdits.MethodGraph.RemoveInstr | IR/basicBlock.h:113-136 | the instruction is out of its block and out of the graph |
| GraphEdits.MethodGraph.AllocateConstantAfter | IR/basicBlock.h:96-111 | a constant with a new id stands right behind the given instruction |
| GraphEdits.CutKeepsPhis | IR/basicBlock.cpp:12-34 | without a parallel edge, cutting an edge keeps phi arity and which input belongs to which predecessor |
| GraphEdits.CutAllKeepsPhis | IR/basicBlock.cpp:6-42 | so does any sequence of cuts, and the two edge lists stay mirrors |
| GraphEdits.CutArityExactly | IR/basicBlock.cpp:12-42 | the target's phis keep their arity if and only if there was one entry for the predecessor |
| GraphEdits.EraseCoversExactly | IR/instructions/instr.h:123-132 | the users still cover all readers if and only if the phi does not read the erased value elsewhere |
| GraphEdits.EraseExactly | IR/instructions/instr.h:123-132 | exact user sets stay exact under the same condition |
| GraphEdits.MovedExactly | IR/instructions/instr.h:134-149 | ReplaceInput keeps exact user sets exact if and only if it does not replace an input by itself |
| EditGap.ParallelCut | IR/basicBlock.cpp:12-42 | a well-formed graph with a parallel edge on which a cut leaves a phi with an input too many and a successor without its predecessor entry |
| EditGap.ArityLost | IR/basicBlock.cpp:6-38 | RemoveSuccessor does so on that graph |
| EditGap.UserLost | IR/basicBlock.cpp:6-38 | RemoveSuccessor on a diamond whose phi reads one value twice leaves a reader that is not among the value's users |
| CheckGuards.AreChecksEqual | Passes/CheckElimination.cpp:12-60 | true exactly for checks of one kind whose operands are pairwise the same or equal constants of one type |
| CheckGuards.ChecksEqualExactly | Passes/CheckElimination.cpp:32-54 | equal constants are those of one type that are congruent modulo two to its width, or equal if it is a floating-point type; REF constants are never equal |
| CheckGuards.ThroughEdgeExactly | Passes/CheckElimination.cpp:62-87 | every path to a block takes the guard's edge if and only if the edge's target dominates the block and is otherwise entered only from what it dominates |
| CheckGuards.DropKeepsRunsExactly | Passes/CheckElimination.cpp:69-75 | dropping a check with one of its edges keeps all runs if and only if no run leaves the check by that edge |
| CheckGuards.RegionHolds | Passes/CheckElimination.cpp:62-87 | wherever a run is behind an outcome of a check, the check would decide the same way again, loops included |
| CheckGuards.DecidedByGuard | Passes/CheckElimination.cpp:107-149 | an equal check behind an outcome always leaves the way the guard did |
| CheckGuards.NullDecided | Passes/CheckElimination.cpp:92-105 | a null check of the null value always finds null |
| CheckTheory.DropWellFormed | Passes/CheckElimination.cpp:69-75 | taking a check and one of its edges out keeps strict SSA, phis and edge lists in order |
| CheckTheory.DropKeepsRuns | Passes/CheckElimination.cpp:69-75 | if the check is decided, every run stays the same, values and log included |
| CheckElim.CheckElimination.Remove | Passes/CheckElimination.cpp:69-75 | the new graph and the user sets exactly |
| CheckElim.CheckElimination.CheckDominanceAndRemove | Passes/CheckElimination.cpp:62-87 | the check goes, with that edge, exactly when the guard's outcome block is its own or a recorded dominator, whether or not the guard is sound |
| CheckElim.CheckElimination.ProcessNullInstruction | Passes/CheckElimination.cpp:92-105 | exactly the null checks among the users go, each keeping its first outcome |
| CheckElim.CheckElimination.ProcessNullCheck | Passes/CheckElimination.cpp:107-126 | exactly the equal null checks behind an outcome go, each keeping that outcome, the first one if both qualify |
| CheckElim.CheckElimination.ProcessBoundsCheck | Passes/CheckElimination.cpp:128-149 | the same for equal bounds checks |
| CheckElim.CheckElimination.EliminateRedundantChecks | Passes/CheckElimination.cpp:151-180 | for any records of dominators: only checks go, each with one of its edges, and each for a reason, an equal check whose outcome it keeps or the null value; if the user sets covered the checks, none is left that an equal check of a listed block guards, and no null check of a null value of a listed block; every run stays the same if and only if no removed check ever left by the edge that went with it; that is so when the records are sound and guarding outcomes are entered from the guard only |
| CheckElim.DoneIsUnguarded | Passes/CheckElimination.cpp:162-179 | what has been looked at has no guarded equal check left, as a check that stays keeps its successors |
| CheckElim.RunsKeptExactly | Passes/CheckElimination.cpp:69-75 | that if and only if |
| CheckElim.GuardDecides | Passes/CheckElimination.cpp:62-149 | in what is left of the graph a guard that was sound still decides the checks behind it |
| CheckElim.FreshRecordsHold | Passes/CheckElimination.cpp:152-160 | freshly found dominators are sound records |
| CheckElim.Run | Passes/CheckElimination.cpp:182-185 | the same with freshly found dominators, all stated by paths: exactly redundant checks go |
| CheckElim.NoneRedundant | Passes/CheckElimination.cpp:62-149 | no check of a reachable block is left with an outcome whose block is, or strictly dominates, the block of an equal check that shares its first operand |
| CheckElim.JustifiedByPaths | Passes/CheckElimination.cpp:62-149 | every removed check was behind such an outcome of an equal check, or checked the null value, and keeps that outcome |
| CheckGap.GuardTrusted | Passes/CheckElimination.cpp:62-87 | on the example program a check is guarded by an outcome whose block is also entered from elsewhere |
| CheckGap.PassRemoves | Passes/CheckElimination.cpp:107-126 | taking up the first check of that program, with any records of dominators, the pass removes the second and changes a run |
| CheckGap.RunChanges | Passes/CheckElimination.cpp:62-87 | removing that check changes a run |
| PeepholeArith.AddAfterSub | Passes/peepholes.cpp:119-130 | (s - a) + a wraps back to s at every width and signedness |
| PeepholeArith.OrLaws | Passes/peepholes.cpp:50-75 | or with itself, with zero and with all ones, on values of every integer type |
| PeepholeArith.ShiftByZero | Passes/peepholes.cpp:86-91 | shifting by nothing gives the value back |
| PeepholeArith.ShiftTooFar | Passes/constantFolding.cpp:62-81 | shifting by at least the width gives zero |
| PeepholeRules.RuleValue | Passes/peepholes.cpp:33-164 | wherever an operation is available in a run, it equals the value that its rule names |
| PeepholeRules.RuleReplaceable | Passes/peepholes.cpp:33-164 | that value is also available at every use, across blocks and loops |
| PeepholeDone.KeepExactly | Passes/peepholes.cpp:33-164 | no rule applies to an operation on integers exactly when it has none of the operands: an or equal operands or a deciding constant congruent to 0 or -1 modulo two to the width, an addition one congruent to 0 or an operand that takes the other one away, a shift of a non-constant a count that is 0 or at least the width |
| PeepholeDone.RuleExactly | Passes/peepholes.cpp:33-164 | the same of every instruction of a typed graph |
| PeepholeTheory.UseInsteadOk | Passes/pass.cpp:5-13 | redirecting all users and unlinking keeps strict SSA and typing |
| PeepholeRuns.UseInsteadAgrees | Passes/pass.cpp:5-13 | using an always-equal value instead keeps blocks, log and every surviving value of every run |
| PeepholeZero.ZeroInstead | Passes/peepholes.cpp:76-85 | so does a new zero in place of an over-shift |
| Peepholes.ReplaceInstr | Passes/pass.cpp:5-13 | all readers are redirected although only recorded users are visited; user sets that cover, or are exactly, the readers stay so |
| Peepholes.PeepHoles.CheckAndApplyConstantPeephole | Passes/peepholes.cpp:33-98 | reports a change exactly when the operation has an operand that is to be used up, stated of the instructions; applies the rule, and keeps runs |
| Peepholes.PeepHoles.CheckAndApplyAddAfterSubPeephole | Passes/peepholes.cpp:100-112 | the same for an addition that undoes a subtraction |
| Peepholes.PeepHoles.ProcessInstr | Passes/peepholes.cpp:119-158 | applies the first rule that fits, exactly when the operation has such an operand; one binary operation goes, nothing else does |
| Peepholes.PeepHoles.ProcessBlock | Passes/peepholes.cpp:114-165 | a change removes a binary operation; no change means that no operation of the block has such an operand |
| Peepholes.PeepHoles.Run | Passes/peepholes.cpp:19-31 | the repetition ends; in the listed blocks no integer operation has an operand that a peephole uses up; only additions, ors and shifts have gone and only zeroes are new; every run agrees with the original on blocks, log and all surviving values |
| Peepholes.Optimize | Passes/peepholes.cpp:19-31 | the same of all reachable blocks |

## Left out

- Dump functions, the IR dumper, the textual IR builder: text only; the dump format is not the input format.
- Constant folding as a pass: it folds a constant phi to its first input and reports changes without making them,
  so it neither keeps meaning nor ends in general.  Only its reading of arithmetic shift right is used.
- Inlining: the call stays in place and the callee's return stays in the middle of the graph.
- Linear numbers and use lists of live ranges, and block tail pointers: nothing modelled reads them.
- Floating-point arithmetic: values of those types are opaque, and constants compare by their stored number.
- Object identity and lifetime: blocks, instructions and loops are ids in maps, so pointer aliasing, deletion and
  pointer order in sets are not modelled.  The order in which users are visited is left open.  A removed
  instruction that lingers in a user set is passed over by `Peepholes.ReplaceInstr`, where the program would
  follow a dangling pointer.
- Repeated `FindDominators` on one graph, which appends to the lists, and graphs with several entries.
- Irreducible loops: what the loop analysis does with them is stated for any graph, but what its outcome means, and
  the forward order, liveness and allocation, only for graphs without them.
- Pipeline.AllocateGraph: is for reducible graphs without self-edges and parallel edges, whose blocks are reachable.
- LivenessPass.LivenessAnalyzer.CollectLive: is for graphs without parallel edges, where a phi input has one edge.
- LivenessPass.LivenessAnalyzer.ProcessBlock: is for reachable blocks in strict SSA form, without parallel edges.
- LivenessPass.LivenessAnalyzer.CalculateLiveRanges: is for reachable blocks in strict SSA form, without parallel edges.
- RegAlloc.Allocator.Allocate: does not say that every place is free at the end, which is false in general.
- Pools.TryGetMemPlace: best fit is claimed for sorted pools, that is for registers.
- Peepholes.PeepHoles.Run: additions, subtractions, ors and shifts are taken to be on integers.  A subtraction is in
  the type of its first operand, and may take away any integer; an addition has operands of its type or puts back
  what one of them has taken away, as in tests/peepholes.cpp; ors and shifts have operands of their type.  An operand
  of another type, used instead of the operation, would change what its readers see.
- Peepholes.PeepHoles.ProcessBlock: is for operations typed in the same way.
- Peepholes.PeepHoles.ProcessInstr: is for operations typed in the same way.
- Peepholes.PeepHoles.CheckAndApplyConstantPeephole: is for operations typed in the same way.
- Peepholes.PeepHoles.CheckAndApplyAddAfterSubPeephole: is for operations typed in the same way.
- CheckElim.Run: checks are taken to end their blocks, with two different successors; so in the methods it calls.
- PlaceRuns.MachineMatches: the repository emits no code, so how an allocated program runs is this project's
  reading: operands are read from their places, results written to theirs, phis moved together on an edge.
