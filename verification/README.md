# LuaTier: verified models of a Lua 5.3 runtime

LuaTier is a Lua 5.3 runtime written from scratch. This project models its
hardest engines in Dafny and proves what they are for. Each engine that works
by changing state is a class whose methods are proved against functions or
relations, and the properties of those are lemmas.

| engine | files | central results |
|---|---|---|
| garbage collector | `GcHeap`, `Collector`, `GcSafety`, `GcEphemerons` | a full collection keeps exactly the closure of the roots and the doomed `__gc` objects; ephemeron convergence is a least fixpoint; no dangling reference if and only if a stated condition holds; no object is finalized twice |
| compiler and register machine | `Lang`, `Bytecode`, `Lowering`, `LoweringProof`, `LoweringStmt`, `LoweringStmtProof`, `FuncState`, `LoweringLimits`, `LoweringFrames`, `LoweringChunk`, `LoweringLists` | running the emitted code equals evaluating the tree, for expressions, assignment, `if`, `while` and blocks; code stays inside its frame if and only if its value lists do, and then a chunk halts or fails if and only if its meaning does |
| hybrid table | `TableLayout`, `Table`, `TableRuns`, `TableNext` | array part plus open-addressing hash refine a finite map over every run; `next` visits each key once under edits; the metamethod-absence cache is invisible |
| pattern matching | `Pattern`, `PatternMatcher`, `PatternProps`, `PatternScripts`, `PatternMeaning`, `PatternSearch`, `PatternTemplate` | the backtracking matcher returns the preferred derivation of a relation on the texts; its recursion limit cannot show below 200 pattern bytes; `gsub` terminates and tiles the subject |
| sorting | `Sort` | in-place quicksort for any comparison, sorted for strict weak orders, logarithmic nesting |
| binary chunks | `ByteOrder`, `Chunk`, `ChunkProof`, `ChunkIO`, `ChunkLayout` | undump undoes dump exactly when sources are named; every cut is noticed |
| string packing | `PackFormat`, `Pack`, `PackProof`, `PackMeaning` | unpack undoes pack through alignment, byte order and integer widths; packsize foretells the length |
| upvalues and closures | `Upvalues`, `UpvalueRuns` | one open upvalue per slot; closing changes no observed value; cached closures are indistinguishable from fresh ones |
| coroutines | `Coroutines` | the running threads are the resume chain in every run; resumers come back; dead stays dead |
| string interning | `StringTable` | pointer equality is content equality over every run |
| quoting and lexing | `QuotedString`, `LiteralMeaning` | lexing a `%q` string gives the string back; a literal is read as what its escapes spell |

Objects that the runtime links by pointers are named by numbers, and memory is
a map from numbers to objects, in the collector, the upvalue lists and the
string table. The table's bucket and array vectors are sequences; the sort
works on an array in place. `Common` holds what several engines share.

## Findings

The following are proved of the code as it is.

- A collection can leave a surviving weak-key table that refers to a freed
  object: convergence skips keys that are not collectable
  (`GcEphemerons.DanglingExample`, exact condition in `GcSafety.NoDanglingIff`).
- A `__gc` object that the program reaches only through a weak-key entry is
  finalized and dropped from weak values all the same, because the finalizable
  objects are collected before convergence
  (`GcEphemerons.FinalizedWhileReachable`, exact condition in
  `GcEphemerons.ReachableDoomedIff`).
- A unary operator on a temporary frees the register below its own result, and
  the next temporaries overwrite it (`LoweringLimits.UnaryResultClobbered`).
  Some instruction of the other operand writes the result's register if and
  only if that operand needs a second register (`LoweringLimits.LeftKeptIff`);
  if it does not, the code is right (`LoweringLimits.ExposedLeftCorrect`).
- A value list whose registers pass the 8-bit field wraps around to the live
  locals, with no limit error (`LoweringLists.WrappedAssignmentExample`).
- A value that is a bare local is moved into its place in a list without
  reserving it, so a list with more values than targets can run past the
  `maxstack` registers of its frame (`LoweringLists.OverrunExample`). A list
  compiles correctly if and only if neither happens
  (`LoweringLists.ListFitsIff`); a chunk stays in its frame if and only if its
  lists do (`LoweringChunk.ChunkInsideIff`).
- An empty source inside a function with a named source does not survive dump
  and undump (`ChunkProof.NamelessInsideNamed`, exact condition in
  `ChunkProof.UnstrippedRoundTripIff`).
- The room check for `s` options in unpack adds 64-bit words without regard to
  overflow (`PackProof.LengthAcceptedIff`, `PackProof.WrappedLengthExample`).
- An anchored search is tried past the end of the subject, where section 6.4 of
  the Lua 5.3 Reference Manual lets no match start
  (`PatternSearch.AnchorPastEnd`, exact condition in `PatternSearch.PastEndIff`).
- A C call refused at the nesting limit, or in error handling beyond it, leaves
  the nesting count raised (exact condition in `Coroutines.RefusalRaisesCount`,
  over runs in `Coroutines.ExcessCountsRefusals`).

## Model

| member | source | states |
|---|---|---|
| `GcHeap.ReachIsLeast` | src/gc/gc.cpp:291-336 | the closure of a root set under strong edges and the ephemeron rule contains the roots, is closed, lies inside the heap, and is contained in every other such set |
| `GcHeap.StrongReachIsLeast` | src/gc/gc.cpp:173-256 | the same for strong edges alone: the set marked before convergence is a least closed set |
| `GcHeap.ChildrenAreEdges` | src/gc/gc.cpp:173-256 | the references `propagate_one` pushes from an object are exactly the strong edges of the heap graph, kind by kind, weak keys and weak values excepted |
| `Collector.GC.MarkObject` | src/gc/gc.cpp:66-75 | marking grays exactly one object, keeps the tri-colour invariant, and changes the gray list exactly when the object was white |
| `Collector.GC.MarkRoots` | src/gc/gc.cpp:133-171 | adds exactly the roots to the marked set and keeps the tri-colour invariant |
| `Collector.GC.PropagateOne` | src/gc/gc.cpp:173-256 | one propagation keeps the tri-colour invariant inside every closed bound, strictly shrinks the set of objects that are not black, unmarks nothing, and only ever drops proto caches |
| `Collector.GC.Drain` | src/gc/gc.cpp:333-334 | terminates with no gray object left and the tri-colour invariant kept inside every closed bound, so that the marked set is closed under strong edges |
| `Collector.GC.ConvergeEphemerons` | src/gc/gc.cpp:291-336 | terminates and marks exactly the least set that contains what was marked and is closed under strong edges and "marked table and marked collectable key imply marked value", for every order of the object list |
| `Collector.GC.ClearDeadStacks` | src/gc/gc.cpp:124-131 | the slots of the main and current threads that lie at or above `top` and every frame (`top` alone in a strict C window) become nil and nothing else changes; GcHeap.DeadFromIff says it slot by slot |
| `Collector.GC.ClearWeakTables` | src/gc/gc.cpp:279-289 | every table of the heap is cleared of white weak values (or keys) as `ClearWeak` says, whatever the list order |
| `Collector.GC.SelectFinalizable` | src/gc/gc.cpp:433-441 | the list holds, in object-list order, exactly the white unfinalized objects with a `__gc` field |
| `Collector.GC.ResurrectList` | src/gc/gc.cpp:452-460 | marks every listed object, unmarks nothing, leaves no gray object and stays inside every closed bound that holds the list |
| `Collector.GC.QueueFinalizers` | src/gc/gc.cpp:468-471 | appends the list to the finalizer queue in order and leaves the set of objects to keep unchanged |
| `Collector.GC.SweepList` | src/gc/gc.cpp:473-513 | sweeping frees exactly the white objects, keeps the order of the rest, gives each survivor the other white and drops caches of freed protos |
| `Collector.ClearingValuesIsUntraced` | src/gc/gc.cpp:443-446 | clearing weak values changes no strong edge, so marking and clearing commute |
| `Collector.WipingIsUntraced` | src/gc/gc.cpp:427-430 | wiping dead stack slots changes no strong edge |
| `Collector.SurvivorBounds` | src/gc/gc.cpp:432-462 | what survives lies in the heap, contains the roots, the doomed `__gc` objects and everything convergence marks before resurrection, and is closed under strong edges |
| `Collector.SweepAll` | src/gc/gc.cpp:473-514 | sweeping the whole list frees exactly the white objects, gives the rest the other white and forgets the caches of freed protos |
| `Collector.GC.MarkPhase` | src/gc/gc.cpp:518-530 | ends in the sweep phase with a marked set that contains the roots, is closed under strong edges and stays inside every closed bound |
| `Collector.GC.SweepStep` | src/gc/gc.cpp:419-516 | the whole sweep, from dead stack slots through the white flip to the finalizers, in the order of the code: exactly the closure of roots and doomed objects is left, in list order and uniformly white; exactly the doomed objects are flagged and taken off the queue, which is empty |
| `Collector.GC.Collect` | src/gc/gc.cpp:518-537 | one cycle from Pause to Pause with the outcome stated for FullGc |
| `Collector.GC.FullGc` | src/gc/gc.cpp:539-558 | a collection started in Pause leaves exactly the closure of the roots together with the unfinalized `__gc` objects not strongly reached, in list order, all in the new white, dead stack slots wiped, weak tables cleared, proto caches only between survivors; exactly those `__gc` objects come up for finalization, in list order, and are flagged; a nested call does nothing |
| `Collector.GC.RunFinalizers` | src/gc/gc.cpp:350-358 | empties the queue and flags each of its objects, in order, before its `__gc` field is looked up again |
| `GcSafety.EdgesAfter` | src/gc/gc.cpp:419-516 | every survivor keeps exactly the strong edges it had |
| `GcSafety.EntriesAfter` | src/runtime/table.cpp:40-72 | every entry of every surviving table after a collection: dead weak keys are wiped with their values, weak values stay exactly if they were strongly reached before resurrection, all else is untouched |
| `GcSafety.NoDanglingIff` | src/gc/gc.cpp:322-324 | no survivor refers to a freed object, by a traced edge or any table entry, if and only if the surviving weak-key tables hold only surviving values under keys that are not collectable |
| `GcSafety.PlainTablesNeverDangle` | src/gc/gc.cpp:443-513 | heaps that keep collectable values only under collectable keys never end with a dangling reference |
| `GcEphemerons.DanglingExample` | src/gc/gc.cpp:319-331 | a concrete heap on which the collection leaves a surviving table pointing at a freed one, because convergence skips a boolean key |
| `GcEphemerons.ReachIsStrongOrBehind` | src/gc/gc.cpp:291-336 | what is reachable under the ephemeron rule is exactly what is strongly reachable from the roots or from the value of a weak-key entry whose table and key are reachable |
| `GcEphemerons.ReachableDoomedIff` | src/gc/gc.cpp:432-441 | a collection finalizes an object that the program can reach if and only if an unflagged `__gc` object lies behind such an entry and is not strongly reachable |
| `GcEphemerons.PlainEphemeronsFinalizeGarbage` | src/gc/gc.cpp:432-450 | where no `__gc` object can be reached from a value under a weak key, only unreachable objects are finalized |
| `GcEphemerons.FinalizedWhileReachable` | src/gc/gc.cpp:432-446 | a concrete heap on which a table that a live weak-key entry still maps to is finalized and dropped from the weak values of another table |
| `GcSafety.SoundAfter` | src/gc/gc.cpp:509-516 | the heap, list and caches left by a collection satisfy everything the next collection needs |
| `GcSafety.CollectAndRest` | src/gc/gc.cpp:539-558 | after a collection the collector is again at rest, ready for the next one |
| `GcSafety.QueuedOnce` | src/gc/gc.cpp:269-277 | a collection takes only objects that are not flagged, so none a second time |
| `GcSafety.Collections` | src/gc/gc.cpp:350-417 | over any sequence of collections, with any program and any finalizers running in between, no object is queued for finalization twice |
| `GcHeap.HighWaterIff` | src/gc/gc.cpp:98-107 | a slot is below the high-water mark if and only if it is below the top register of some frame, innermost or not |
| `GcHeap.DeadFromIff` | src/gc/gc.cpp:109-131 | the live limit separates exactly the slots below `top` or, outside a strict C window, below some frame from all others |
| `GcHeap.LiveSlotsMember` | src/gc/gc.cpp:109-122 | a value is traced through a thread if and only if some live slot of its stack holds it |
| `GcHeap.RootsIff` | src/gc/gc.cpp:133-171 | an object is a root if and only if the state, a thread or a metatable slot names it as listed there |
| `GcHeap.LookupIff` | src/gc/gc.cpp:269-277 | looking a name up in a metatable finds the value of the one entry that has it |
| `GcHeap.HasGcIff` | src/gc/gc.cpp:269-277 | an object is finalizable if and only if it is a table or userdata whose metatable has a `__gc` entry that is neither nil nor false |
| `GcSafety.SlotsAfter` | src/gc/gc.cpp:109-131 | in every surviving thread a collection leaves each live slot its value, its object among the survivors; each other slot of the main and current threads is nil, and other threads keep theirs |
| `GcSafety.CollectStacks` | src/gc/gc.cpp:539-558 | a full collection run on any heap at rest leaves every slot of every surviving thread so |
| `Collector.WhitesAlternate` | src/gc/gc.cpp:420-514 | there are two whites, and a cycle turns each into the other |
| `Bytecode.FalsyValues` | src/runtime/value.hpp:49-49 | nil and false are the only false values |
| `Bytecode.FrameIsPrivate` | src/vm/interpreter.cpp:289-291 | a run in a frame depends on the registers of the frame alone and changes no other |
| `Lang.FindIff` | src/frontend/lowering.cpp:210-215 | a name means the last binding of that name, the innermost one, and nothing if there is none |
| `LoweringProof.NegatedIsNeg` | src/frontend/lowering.cpp:559-573 | the literal folder computes negation: `-n` for integers within 64 bits, the least one itself, and the sign bit flipped for floats, as the operators are asked to |
| `LoweringProof.LoadStep` | src/frontend/lowering.cpp:414-485 | one step of the load that is emitted for a constant puts that constant into the register |
| `LoweringLists.OpsNegate` | src/vm/interpreter.cpp:1132-1141 | operators with these laws exist: those of the examples have them |
| `LoweringProof.LowerShape` | src/frontend/lowering.cpp:519-760 | the result of every expression in the fragment is a constant, a local below `nactvar`, or a temporary that is the last register in use, and constants are only appended |
| `LoweringProof.LowerCorrect` | src/frontend/lowering.cpp:519-760 | for every expression of the fragment and operators that negate numbers (stated in arithmetic), running the emitted code from any register file ends just past it with the evaluator's value (or its error) and every register below the entry `freereg` unchanged |
| `LoweringProof.ToRegCorrect` | src/frontend/lowering.cpp:414-494 | the same after `exp2reg`, with the value in a register |
| `LoweringProof.UnaryCorrect` | src/frontend/lowering.cpp:559-591 | unary operators on locals and negated numerals compute what the evaluator says, where the operators yield `-n` modulo 2^64 for integers and flip the sign bit of floats |
| `LoweringProof.PairCorrect` | src/frontend/lowering.cpp:592-760 | the second operand never disturbs the first, and the first error is the one reported |
| `LoweringProof.StrictCorrect` | src/frontend/lowering.cpp:592-760 | arithmetic with an in-place destination, `..` and comparisons deliver the operator's result |
| `LoweringProof.LogicCorrect` | src/frontend/lowering.cpp:660-682 | `and`/`or` jump code evaluates the right operand only when needed and delivers the deciding value |
| `LoweringProof.TwoTestsCorrect` | src/frontend/lowering.cpp:611-659 | `cmp and cmp` with its shared false exit equals the evaluator |
| `LoweringProof.CompareStep` | src/vm/interpreter.cpp:1320-1456 | the skip-next comparison opcodes, with swapped operands for > and >=, decide the relation the source names |
| `LoweringStmtProof.ValuesCorrect` | src/frontend/lowering.cpp:1157-1196 | where all registers are there, a value list lands in consecutive registers, left to right; LoweringFrames.ValuesInsideIff says when they are |
| `LoweringStmtProof.LocalCorrect` | src/frontend/lowering.cpp:1151-1203 | declarations bind the values, missing ones nil |
| `LoweringStmtProof.AssignCorrect` | src/frontend/lowering.cpp:1204-1271 | multiple assignment evaluates everything before it stores anything |
| `LoweringStmtProof.IfCorrect` | src/frontend/lowering.cpp:1360-1390 | an `if` chain runs exactly the block of its first true condition |
| `LoweringStmtProof.WhileCorrect` | src/frontend/lowering.cpp:1391-1420 | a `while` loop follows the evaluator round by round, end marker included |
| `LoweringStmtProof.BlockCorrect` | src/frontend/lowering.cpp:1060-1146 | leaving a block clears only registers above the locals that stay |
| `LoweringFrames.LowerInside` | src/frontend/lowering.cpp:414-760 | the code of an expression names no register past the locals and its own high-water mark |
| `LoweringFrames.ValuesInsideIff` | src/frontend/lowering.cpp:1157-1196 | in a frame large enough for the operands, the code of a value list stays inside if and only if `base + n` does |
| `LoweringFrames.StmtInsideIff` | src/frontend/lowering.cpp:85-90 | in a frame of at least `maxstack` registers, the code of a statement names only registers of the frame if and only if each of its value lists ends inside it; and the high-water mark and `nactvar` never pass `maxstack` |
| `LoweringChunk.ChunkInsideIff` | src/frontend/lowering.cpp:1709-1722 | the code of a chunk stays inside the frame of `max(maxstack, 2)` registers if and only if its value lists do |
| `LoweringChunk.ChunkHalts` | src/vm/interpreter.cpp:289-291 | in the frame that a call allocates, the code of a chunk whose value lists end inside it halts if and only if the chunk finishes in the evaluator |
| `LoweringChunk.ChunkFails` | src/vm/interpreter.cpp:289-291 | in that frame, the code fails with a message if and only if the chunk raises that message |
| `LoweringChunk.ChunkStaysInside` | src/vm/interpreter.cpp:726-757 | no run of such a chunk ever names a register past its frame |
| `FuncStateModule.FuncState.NewReg` | src/frontend/lowering.cpp:85-95 | the register allocator: the limit error comes exactly past the limit, otherwise both the high-water mark and `maxstack` are raised |
| `FuncStateModule.FuncState.AddConstant` | src/frontend/lowering.cpp:100-109 | finds the first identical constant or appends one |
| `FuncStateModule.FuncState.Discharge` | src/frontend/lowering.cpp:414-485 | emits the load of a constant and nothing for values already in registers |
| `FuncStateModule.FuncState.Expr` | src/frontend/lowering.cpp:519-760 | the recursive compiler over mutable code, constants and `freereg` emits exactly the code of LoweringProof.LowerCorrect, with the same limit errors |
| `FuncStateModule.FuncState.LogicExpr` | src/frontend/lowering.cpp:660-682 | emit-then-patch of short-circuit jumps equals the final code |
| `FuncStateModule.FuncState.TwoTestsExpr` | src/frontend/lowering.cpp:611-659 | the two patched failure jumps share one exit |
| `FuncStateModule.FuncState.ValueList` | src/frontend/lowering.cpp:1157-1196 | the value loop emits the consecutive loads |
| `FuncStateModule.FuncState.LeaveBlock` | src/frontend/lowering.cpp:156-192 | popping a block emits the clearing instruction and restores the scope |
| `FuncStateModule.FuncState.IfStatement` | src/frontend/lowering.cpp:1360-1390 | the branch loop with its patched jumps emits the code proved correct |
| `FuncStateModule.FuncState.WhileStatement` | src/frontend/lowering.cpp:1391-1420 | loop code with back jump, end marker and patched exit |
| `FuncStateModule.FuncState.Statement` | src/frontend/lowering.cpp:1148-1420 | the statement compiler emits exactly the code proved correct and asks for exactly the frame proved about |
| `FuncStateModule.CompileChunk` | src/frontend/lowering.cpp:1695-1724 | compiling a whole chunk gives the code, the constants and the frame size of the theorems |
| `Lowering.RegisterLimit` | src/frontend/lowering.cpp:85-95 | a register is refused exactly from 249 taken ones on |
| `Lowering.LoadForms` | src/frontend/lowering.cpp:414-485 | integers of 16 bits are loaded at once, nil and booleans by their own instructions, and all else from the constant table, where it is found again |
| `LoweringStmtProof.PushFailsIff` | src/frontend/lowering.cpp:113-124 | declaring names is refused exactly past 200 locals |
| `LoweringStmtProof.LeaveClears` | src/frontend/lowering.cpp:156-192 | leaving a block makes nil exactly the registers from its first local up to its last or its high-water mark |
| `LoweringLimits.UnaryProtectedIff` | src/frontend/lowering.cpp:559-591 | the register of a unary result counts as taken if and only if the operand is a local or a numeral being negated |
| `LoweringLimits.UnaryResultClobbered` | src/frontend/lowering.cpp:96-99 | with x = 0, `-(x + 1) + 2 * 3` means 5 and its emitted code computes 9 |
| `LoweringLimits.LowerTame` | src/frontend/lowering.cpp:414-760 | the code of an expression of the fragment writes exactly the registers from the entry `freereg` up to its high-water mark, no more and no fewer |
| `LoweringLimits.LeftKeptIff` | src/frontend/lowering.cpp:575-589 | where a unary result does not count as taken, the code of the other operand leaves it alone if and only if that operand needs no register beyond the first free one |
| `LoweringLimits.ExposedLeftCorrect` | src/frontend/lowering.cpp:559-760 | and then the code of the whole operation is right, for every arithmetic, concatenation and comparison operator |
| `LoweringLimits.ClobberedGoesBeyond` | src/frontend/lowering.cpp:575-589 | `2 * 3` fails that condition and a plain `2` in its place meets it |
| `LoweringLists.ListFitsIff` | src/frontend/lowering.cpp:1151-1271 | in every scope with at least two locals and with every entry mark M of `maxstack`, every declaration or assignment of n values to k targets runs right and inside its frame, in a function that asks for no more registers elsewhere, if and only if `nactvar + max(k, n) <= 256` and `nactvar + n <= max(M, nactvar + k)` |
| `LoweringLists.FittingListRuns` | src/frontend/lowering.cpp:1151-1271 | the first half: any fragment list that fits follows the evaluator inside the frame, wherever its code is placed |
| `LoweringLists.RepeatClobbers` | src/frontend/lowering.cpp:67-71 | past the field: `x, ..., x = x, ..., x`, which raises no limit error, overwrites the first local, with 1 or with a padding nil |
| `LoweringLists.RepeatStrays` | src/frontend/lowering.cpp:1228-1264 | past the frame: the code of the same assignment leaves the frame before it ends |
| `LoweringLists.WrappedAssignmentExample` | src/frontend/lowering.cpp:1204-1271 | with locals y = 0 and x = 1 and 255 values, the evaluator keeps y at 0 and the code sets it to 1 |
| `LoweringLists.OverrunExample` | src/frontend/lowering.cpp:1228-1264 | `local y, x = 0, 1; x = x, ..., x` with 200 values asks for a frame of 3 registers, and its runs leave every frame of fewer than 202 |
| `LoweringLists.StmtKeepsDense` | src/frontend/lowering.cpp:113-124 | the scopes of a chunk hold their locals in registers 0, 1, 2 and so on |
| `TableLayout.MissedAll` | src/runtime/table.cpp:136-144 | a probe that meets an unused slot, or has met every slot, proves the key absent |
| `TableLayout.PutSlotSound` | src/runtime/table.cpp:252-302 | storing a key in a tombstone or unused slot reached by its probe sequence keeps chains intact, keys unique and integer keys placed |
| `TableLayout.PutArray` | src/runtime/table.cpp:212-227 | writing or growing the array part within the first 64 indices changes exactly that key, because no such key lives in the hash part |
| `TableObject.Table.Get` | src/runtime/table.cpp:126-145 | returns the finite map's value, nil if absent, at the integer i for the key i and for the float equal to i, whatever its sign, and at the key as given for every other key, nil and NaN included |
| `TableObject.Table.GetInt` | src/runtime/table.cpp:100-104 | the same for integer keys |
| `TableObject.Table.SetInt` | src/runtime/table.cpp:212-227 | integer assignment is assignment in the finite map |
| `TableObject.Table.Set` | src/runtime/table.cpp:229-302 | errors exactly for nil and NaN keys; otherwise the finite map with that key assigned (nil removes), where a float equal to an integer i, zero and negative ones included, is the key i and any other key is itself; enters itself at most once more, and only when no slot was free; assigning an existing key moves nothing |
| `TableObject.Table.Rehash` | src/runtime/table.cpp:147-210 | for any size hints, rebuilding keeps the map, always leaves a free slot, and never reaches the "hash full" panic; the placement of integer keys is kept if and only if no index up to 64 with a value falls outside the new array part, which cannot happen with the present array size that its only caller passes |
| `TableObject.Table.RawInsert` | src/runtime/table.cpp:168-200 | re-inserting one entry updates exactly that key |
| `TableObject.Table.ClearWeakEntries` | src/runtime/table.cpp:40-72 | removes exactly the entries with a white key or value as the weak mode asks |
| `TableObject.Table.GetTm` | src/vm/meta.cpp:73-85 | the cached metamethod lookup always equals the plain lookup |
| `TableObject.CacheAfterPut` | src/runtime/table.cpp:234-239 | assignments keep every cached absence true, because writing any key that starts with two underscores empties the cache |
| `TableObject.CacheCleared` | src/runtime/table.cpp:58-71 | weak clearing keeps every cached absence true |
| `TableRuns.Run` | src/runtime/table.cpp:100-302 | for every sequence of assignments, reads, metamethod lookups, rehashes and weak clearings, the program observes exactly what a finite map would show |
| `TableRuns.RunIsStories` | src/runtime/table.cpp:100-302 | after every run, collections included, a key reads what its own assignments and drops say; no other key matters |
| `TableRuns.LastWriteIsRead` | src/runtime/table.cpp:126-145 | a key reads the value of its last assignment unless a later collection drops that very entry |
| `TableRuns.UnwrittenIsKept` | src/runtime/table.cpp:229-302 | a key that no operation assigns and no collection drops keeps its value through tombstones, growth and rehash |
| `TableRuns.IntKeysUnobserved` | src/runtime/table.cpp:106-130 | replacing every integral float key of a run by its integer changes nothing that the program observes |
| `TableLayout.RawEquality` | src/runtime/value.cpp:176-209 | raw equality of keys: an integer equals exactly the float of the same value, NaN nothing, and otherwise only equal keys |
| `TableObject.EventNumbers` | src/vm/meta.cpp:63-71 | the events and their numbers, by which absence is cached |
| `TableNext.Next` | src/lib/lbaselib.cpp:666-722 | from nil the first entry, from a key the first entry after its position (also if it was cleared meanwhile), an error exactly for keys without a position |
| `TableNext.HoldsOnce` | src/lib/lbaselib.cpp:684-709 | a key has one position, so `next` cannot meet it in both parts |
| `TableNext.EditExisting` | src/runtime/table.cpp:276-283 | assignments to existing fields keep every key in its place |
| `TableNext.Traverse` | src/lib/lbaselib.cpp:651-722 | a loop over `next` with any assignments to existing fields in between ends, never meets an invalid key, visits no key twice, visits only keys the table had and misses only keys that were cleared |
| `PatternMatcher.MatchState.MatchBracketClass` | src/lib/lstrlib.cpp:502-535 | bracket scanning with escapes, ranges and negation equals the set it denotes, including its two kinds of failure |
| `PatternMatcher.MatchState.FindClassEnd` | src/lib/lstrlib.cpp:596-619 | the end of a single item, or the malformed-pattern error |
| `PatternMatcher.MatchState.MaxExpand` | src/lib/lstrlib.cpp:571-583 | greedy repetition returns the first outcome over decreasing counts |
| `PatternMatcher.MatchState.MinExpand` | src/lib/lstrlib.cpp:585-594 | lazy repetition returns the first outcome over increasing counts |
| `PatternMatcher.MatchState.EndCapture` | src/lib/lstrlib.cpp:629-640 | closes the innermost open capture and reopens it on failure |
| `PatternMatcher.MatchState.MatchBalance` | src/lib/lstrlib.cpp:654-673 | balanced delimiters, continuing after the closing one |
| `PatternMatcher.MatchState.Match` | src/lib/lstrlib.cpp:675-756 | the verdict, match end and captures are those of the first element of the priority-ordered list of all outcomes; with an empty list the captures are as before; PatternMeaning.ListedIffDerived says what is in that list |
| `PatternMeaning.ListedIffDerived` | src/lib/lstrlib.cpp:571-756 | the list holds exactly the matches and errors derived from the texts: `$` at the end of the pattern only at the end of the subject, `%f` by the characters before and at the position, `%b` up to the first balance, `%1` the captured text again, single items as many characters as their quantifier allows |
| `PatternMeaning.LinkIff` | src/lib/lstrlib.cpp:675-756 | item by item, one step of the matcher is one step of that relation |
| `PatternMeaning.BracketIff` | src/lib/lstrlib.cpp:502-535 | scanning a set says whether it is closed, where, and whether the characters, ranges and classes spelled in it cover the character |
| `PatternMeaning.ClassEndIff` | src/lib/lstrlib.cpp:596-619 | an item ends where its text says, a set at the first closing bracket that is not its first character, or is malformed |
| `PatternMeaning.SingleIff` | src/lib/lstrlib.cpp:539-569 | a character is taken if and only if `.`, the class, the set or the plain character allows it |
| `PatternMeaning.BalanceIff` | src/lib/lstrlib.cpp:654-673 | the balance scan ends at the first position where closings have caught up with openings |
| `PatternProps.BudgetSuffices` | src/lib/lstrlib.cpp:461-479 | with as many nested calls left as pattern bytes the recursion budget has no effect and "pattern too complex" cannot occur, whatever the subject |
| `PatternProps.ParenthesesExhaust` | src/lib/lstrlib.cpp:472-476 | the bound is tight: a pattern of opening parentheses exhausts the budget exactly when it is longer |
| `PatternProps.OutcomesWithin` | src/lib/lstrlib.cpp:571-756 | every match ends at or after its start, inside the subject, with ordered captures |
| `PatternScripts.ScriptListed` | src/lib/lstrlib.cpp:571-756 | every way to fix the repetition counts that fits the subject is in the list |
| `PatternScripts.ListedHasScript` | src/lib/lstrlib.cpp:571-756 | every listed outcome comes from such counts |
| `PatternScripts.FirstIsPreferred` | src/lib/lstrlib.cpp:571-594 | the first outcome belongs to the counts preferred at the first difference: more for `*`, `+`, `?`, fewer for `-` |
| `PatternSearch.VerdictOfPreferredScript` | src/lib/lstrlib.cpp:675-756 | for patterns below 200 bytes the matcher answers No exactly when no counts fit, and otherwise with the outcome of the preferred ones, never "pattern too complex" |
| `PatternSearch.VerdictIsDerived` | src/lib/lstrlib.cpp:675-756 | below 200 pattern bytes the matcher says yes only to a match derived from the texts, raises only errors that are, and says no exactly where nothing is derived |
| `PatternSearch.LeftmostIff` | src/lib/lstrlib.cpp:758-774 | in terms of the texts, a search reports the first allowed position where something is derived |
| `PatternSearch.TooComplexFrom200` | src/lib/lstrlib.cpp:472-476 | so many opening parentheses are too complex exactly from 200 on |
| `PatternSearch.Search` | src/lib/lstrlib.cpp:758-774 | reports the leftmost allowed start with an outcome, or No exactly when there is none; never a start past the subject unless it begins there and is anchored |
| `PatternSearch.AnchorPastEnd` | src/lib/lstrlib.cpp:764-765 | such a search: "^" on any subject from any start past its end |
| `PatternSearch.PastEndIff` | src/lib/lstrlib.cpp:758-774 | a search reports a start past the end of the subject if and only if it begins there, is anchored, and the pattern has an outcome there |
| `PatternSearch.ExpandRepl` | src/lib/lstrlib.cpp:855-886 | the replacement loop computes the expansion of the template, with its errors |
| `PatternTemplate.EscapeIs` | src/lib/lstrlib.cpp:859-880 | `%0` is the match, `%1` to `%9` the captures in order (the match for `%1` without captures), a position capture its number, `%%` a percent sign; anything else is the stated error |
| `PatternTemplate.ExpandWrites` | src/lib/lstrlib.cpp:855-886 | an expansion is the template with each escape replaced so and all else as it stands |
| `PatternTemplate.ExpandFailsIff` | src/lib/lstrlib.cpp:855-886 | the expansion is refused if and only if the template has an escape that says nothing, or ends in a percent sign |
| `PatternTemplate.DecimalIsNumeral` | src/lib/lstrlib.cpp:870-872 | a position is written as its decimal numeral without leading zeros |
| `PatternTemplate.SwappedExample` | src/lib/lstrlib.cpp:870-872 | `%2 %1` writes the second capture, a space and the first |
| `PatternSearch.GSub` | src/lib/lstrlib.cpp:888-995 | terminates for every pattern; the result tiles the subject with the pieces the matcher dictates until limit, anchor or end; the count is the number of replaced pieces |
| `PatternSearch.TilingUnique` | src/lib/lstrlib.cpp:968-985 | there is only one such tiling |
| `PatternSearch.SwapsBounded` | src/lib/lstrlib.cpp:968-979 | at most one more match than characters passed |
| `PatternSearch.DefaultLimitIsNoLimit` | src/lib/lstrlib.cpp:892-892 | the default limit never cuts a substitution short |
| `PatternSearch.SelfReplacement` | src/lib/lstrlib.cpp:888-995 | replacing every match by itself rebuilds the subject |
| `PatternSearch.GSubWhole` | src/lib/lstrlib.cpp:855-995 | with replacement `%0` the subject comes back unchanged, for every pattern and limit, unless the pattern itself is in error |
| `Sort.Sorter.Partition` | src/lib/ltablib.cpp:222-240 | for any comparison only the range is permuted; for a strict weak order no error and a proper split around the pivot; a comparison that always says true gets "invalid order function" |
| `Sort.Sorter.ScanUp` | src/lib/ltablib.cpp:226-229 | the upward scan stops at the first element the comparison does not put below the pivot, and raises exactly if it puts every one up to the bound there; for a strict weak order it never raises |
| `Sort.Sorter.ScanDown` | src/lib/ltablib.cpp:230-233 | the downward scan stops at the first element the comparison does not put above the pivot, and raises only once it has passed the upward scan; for a strict weak order it never raises |
| `Sort.Sorter.ChoosePivot` | src/lib/ltablib.cpp:242-245 | the random pivot is in the middle half of the range |
| `Sort.Sorter.AuxSort` | src/lib/ltablib.cpp:253-286 | for any comparison a permutation of exactly the range, with nesting at most the number of bits of its length; for a strict weak order no "invalid order function" and a sorted range; that error always for an always-true comparison on four or more elements |
| `Sort.Sorter.TabSort` | src/lib/ltablib.cpp:288-304 | the whole sort, at most 31 nested calls for every accepted length |
| `Sort.LevelsIsLog` | src/lib/ltablib.cpp:271-281 | the nesting bound is the binary logarithm |
| `ChunkIO.Writer.WriteProto` | src/lib/ldump.cpp:162-211 | appends the layout of the prototype tree; fails exactly on constants a chunk cannot hold |
| `ChunkIO.DumpProto` | src/lib/ldump.cpp:295-314 | the whole dump is the layout of the header and the kept part of the tree |
| `ChunkIO.Reader.Number` | src/lib/ldump.cpp:65-77 | the shift loop reads the little-endian value or reports truncation |
| `ChunkIO.Reader.ReadProto` | src/lib/ldump.cpp:213-262 | the positioned reader returns what the layout function says, or the same error |
| `ChunkIO.UndumpProto` | src/lib/ldump.cpp:316-325 | the loader is the layout reader, header checks included |
| `ChunkProof.ProtoDecodes` | src/lib/ldump.cpp:162-262 | on input that agrees with a tree's layout as far as it goes, reading gives the tree with its sources resolved and what follows, or reports truncation |
| `ChunkProof.UndumpOf` | src/lib/ldump.cpp:264-325 | the same for whole chunks |
| `ChunkProof.DumpRoundTrip` | src/lib/ldump.cpp:295-325 | undumping a dump, also with bytes after it, gives the kept tree with empty sources inherited |
| `ChunkProof.CutDumpIsTruncated` | src/lib/ldump.cpp:59-63 | every non-empty proper prefix of a dump fails as truncated |
| `ChunkProof.UnstrippedRoundTripIff` | src/lib/ldump.cpp:229-230 | an unstripped dump comes back equal if and only if no function has an empty source inside a named one |
| `ChunkProof.NamelessInsideNamed` | src/lib/ldump.cpp:175-179 | a function without a source inside a named one comes back with the outer source |
| `ChunkProof.StrippedRoundTrip` | src/lib/ldump.cpp:175-199 | a stripped dump comes back as the stripped tree, always |
| `ChunkLayout.DumpBegins` | src/lib/ldump.cpp:295-314 | the first 33 bytes of every dump, byte by byte, then the number of upvalues and the mark of a stripped one |
| `ChunkLayout.HeaderMismatch` | src/lib/ldump.cpp:264-280 | the first wrong byte of the first 17 decides the complaint |
| `ChunkLayout.NumberMismatch` | src/lib/ldump.cpp:281-284 | behind them, a wrong integer is an endianness mismatch, otherwise a wrong number a float format mismatch |
| `ChunkLayout.ConstantBytes` | src/lib/ldump.cpp:120-141 | the five constant tags with the bytes of their values |
| `ChunkLayout.ExampleLayout` | src/lib/ldump.cpp:162-211 | the bytes of a prototype with a child, every field different, in the order of the code |
| `ChunkLayout.StrippedDrops` | src/lib/ldump.cpp:175-199 | exactly what a stripped dump leaves out |
| `ChunkLayout.LenientReads` | src/lib/ldump.cpp:143-160 | any non-zero byte reads as true, and tags past four are no constants |
| `Pack.Number` | src/lib/lstrlib.cpp:1109-1117 | the digit loop with its overflow cut |
| `Pack.PackInt` | src/lib/lstrlib.cpp:1192-1206 | the in-place byte loop writes the integer in the requested order and width, sign-filled beyond eight bytes |
| `Pack.UnpackInt` | src/lib/lstrlib.cpp:1217-1237 | reads it back, or reports a value that does not fit |
| `Pack.StrPack` | src/lib/lstrlib.cpp:1239-1328 | the packing loop computes the packed bytes or the first error, as PackMeaning spells out option by option |
| `Pack.StrUnpack` | src/lib/lstrlib.cpp:1353-1428 | the unpack loop computes the values and the final position or the first error, as PackMeaning spells out option by option |
| `PackMeaning.OrderGoesOn` | src/lib/lstrlib.cpp:1160-1162 | `<` makes what follows little-endian, `>` big-endian, `=` and the start native, in packing and unpacking |
| `PackMeaning.AlignGoesOn` | src/lib/lstrlib.cpp:1153-1163 | `!n` sets the maximal alignment, 8 without a number; the six blanks change nothing |
| `PackMeaning.IntPacks` | src/lib/lstrlib.cpp:1254-1274 | an integer option b B h H l L j J T i I, of its width (4 for i and I without a number) and signedness, after the least padding: byte k of little-endian order is `u / 256^k % 256`, of big-endian order the mirror image, sign-filled past eight; out of range is the stated error |
| `PackMeaning.IntUnpacks` | src/lib/lstrlib.cpp:1378-1386 | an integer option reads the number its bytes have in that order, signed options in two's complement; past eight bytes only if the others repeat the sign, else it does not fit; too short data are refused |
| `PackMeaning.FloatPacks` | src/lib/lstrlib.cpp:1275-1296 | f in four bytes, d and n in eight, in the order in force |
| `PackMeaning.FloatUnpacks` | src/lib/lstrlib.cpp:1387-1400 | f, d and n read back |
| `PackMeaning.StringPacks` | src/lib/lstrlib.cpp:1297-1306 | `sn` (8 without a number) writes the length in n bytes and then the string, or says it does not fit |
| `PackMeaning.TextPacks` | src/lib/lstrlib.cpp:1289-1318 | `z` ends with a zero and refuses zeros inside, `cn` is padded with zeros and refuses longer strings, `x` is one zero |
| `PackMeaning.AlignPacks` | src/lib/lstrlib.cpp:1168-1189 | `X` pads for the option after it and writes nothing else |
| `PackMeaning.UnknownOption` | src/lib/lstrlib.cpp:1164-1164 | every other character is refused |
| `PackMeaning.BadSize` | src/lib/lstrlib.cpp:1119-1148 | a missing size of `c`, and sizes outside 1 to 16, are refused |
| `PackMeaning.BadAlign` | src/lib/lstrlib.cpp:1183-1186 | an alignment that is not a power of two is refused |
| `PackMeaning.BadNextOption` | src/lib/lstrlib.cpp:1173-1179 | `X` before nothing, `z`, `X`, a blank or `<`, `>`, `=` is refused |
| `PackMeaning.StartsAt` | src/lib/lstrlib.cpp:1358-1367 | where unpacking starts: counted from 1, from the end if negative, refused outside the data |
| `Pack.StrPackSize` | src/lib/lstrlib.cpp:1330-1351 | the size loop |
| `PackFormat.ToAlignIsLeast` | src/lib/lstrlib.cpp:1180-1188 | padding is the least that aligns the item |
| `PackProof.IntRoundTrip` | src/lib/lstrlib.cpp:1192-1237 | every accepted integer reads back, signed or unsigned, at every width |
| `PackProof.ItemRoundTrip` | src/lib/lstrlib.cpp:1254-1323 | every item reads back in canonical form from where it was written |
| `PackProof.PackRoundTrip` | src/lib/lstrlib.cpp:1239-1428 | unpack of the packed string returns the position after it, and the same arguments if and only if `c` strings have the exact length and floats are exact at their width, through alignment, byte order and 1 to 16 byte integers |
| `PackProof.CanonIff` | src/lib/lstrlib.cpp:1275-1296 | the list form of that condition |
| `PackProof.SizeOfPacked` | src/lib/lstrlib.cpp:1330-1351 | packsize equals the packed length exactly for formats without `s`/`z` up to INT_MAX, and fails otherwise |
| `PackProof.LengthAcceptedIff` | src/lib/lstrlib.cpp:1404-1411 | the room check of `s` accepts, besides lengths that fit, exactly those whose end passes 2^64 |
| `PackProof.WrappedLengthExample` | src/lib/lstrlib.cpp:1404-1411 | eight 255 bytes unpack with `s8` as an empty string at position 8 |
| `Upvalues.OnePerSlot` | src/vm/state.cpp:131-143 | in every sound state a slot has at most one open upvalue |
| `Upvalues.State.Get` | src/runtime/upvalue.cpp:7-11 | reads the slot while open, the closed value after |
| `Upvalues.State.Set` | src/runtime/upvalue.cpp:13-19 | a write is seen through that upvalue and through no other |
| `Upvalues.State.FindUpval` | src/vm/state.cpp:131-143 | returns the open upvalue of the slot, made on first use, and changes nothing that any upvalue reads |
| `Upvalues.State.CloseUpvals` | src/vm/state.cpp:118-129 | splices out and closes exactly the upvalues at or above the level, each on its slot's value; no observed value changes |
| `Upvalues.UnlinkedSound` | src/vm/state.cpp:118-129 | unlinking one upvalue anywhere in a list keeps every list well formed |
| `Upvalues.State.MakeClosure` | src/vm/interpreter.cpp:1610-1660 | a reused or fresh closure has exactly the upvalues that belong there; the error exactly for a missing enclosing upvalue |
| `Upvalues.State.CacheFits` | src/vm/interpreter.cpp:1617-1643 | the cache test is exactly "this closure has the upvalues a fresh one would get" |
| `Upvalues.CapturesUnique` | src/vm/interpreter.cpp:1610-1660 | those upvalues are unique, so reuse is invisible |
| `Upvalues.State.WriteSlot` | src/runtime/upvalue.cpp:7-11 | a register write is seen through the open upvalue of that slot only |
| `Upvalues.State.Grow` | src/vm/state.cpp:55-60 | stacks grow by nils at the end, and no upvalue reads anything else |
| `UpvalueRuns.Run` | src/vm/state.cpp:118-143 | over every run of writes, closures, closings and stack growth, each upvalue is where its story says and reads the fold of the writes to its own variable; the lists stay well formed |
| `UpvalueRuns.LastWriteIsRead` | src/vm/state.cpp:118-129 | a write through an upvalue is read until that variable is written again, closed or not |
| `Coroutines.StepInv` | src/lib/lcorolib.cpp:20-211 | every create, call, resume, yield, return and error keeps the invariant |
| `Coroutines.RunInv` | src/lib/lcorolib.cpp:20-211 | in every state of every run the running threads are exactly the duplicate-free resume chain from main to current, and the chain has at most 100 threads |
| `Coroutines.DeadForever` | src/lib/lcorolib.cpp:69-72 | a dead coroutine stays dead through every run |
| `Coroutines.ResumerIsBack` | src/lib/lcorolib.cpp:44-56 | however a resumed coroutine leaves, after any nested resumes, the resumer is current and the chain is as before |
| `Coroutines.StatusNames` | src/lib/lcorolib.cpp:196-211 | "running" names exactly the current thread, "normal" exactly the threads waiting for one they resumed, "dead" the ended ones and "suspended" all others |
| `Coroutines.StatusAfter` | src/lib/lcorolib.cpp:34-211 | what each event does to the status of every coroutine |
| `Coroutines.ResumeAnswers` | src/lib/lcorolib.cpp:67-80 | resume is refused for the dead, for the running and the normal, and from 200 nested calls on, exactly; a refusal changes nothing |
| `Coroutines.YieldAnswers` | src/lib/lcorolib.cpp:185-194 | yield is refused exactly in the main thread and across a C call |
| `Coroutines.LeavingUncounts` | src/lib/lcorolib.cpp:81-87 | however a coroutine leaves, its pending calls and its resume are no longer counted |
| `Coroutines.CallAnswers` | src/vm/interpreter.cpp:234-252 | a C call is refused exactly at nesting 200 and from 225 on |
| `Coroutines.RefusalRaisesCount` | src/vm/interpreter.cpp:234-252 | a C call is counted for no longer than it is pending if and only if it is not refused: both refusals leave the count raised |
| `Coroutines.ExcessCountsRefusals` | src/vm/interpreter.cpp:234-252 | over every run in which a thread stays in the resume chain, its count exceeds its pending calls by exactly as much more as it had calls refused |
| `Coroutines.Machine.CoResume` | src/lib/lcorolib.cpp:34-120 | the entry of resume: its three refusals and the switch of threads |
| `Coroutines.Machine.ReturnFromResume` | src/lib/lcorolib.cpp:44-56 | the exit of resume: unwinding, status, and the resumer current again |
| `Coroutines.Machine.CoroYield` | src/lib/lcorolib.cpp:185-194 | yield with its two errors |
| `Coroutines.Machine.Run` | src/lib/lcorolib.cpp:20-211 | runs of the machine are runs of the steps |
| `StringTable.HashBytes` | src/runtime/string.cpp:10-17 | the hash loop is a function of the bytes |
| `StringTable.Interner.Intern` | src/runtime/string.cpp:55-88 | returns the one object with these bytes, the old one if and only if there was one, and keeps the table canonical |
| `StringTable.Interner.Remove` | src/runtime/string.cpp:38-53 | removes exactly that string and keeps `nuse` the number of strings |
| `StringTable.Interner.Resize` | src/runtime/string.cpp:19-36 | rebuilding keeps exactly the same strings, each in the bucket its hash selects |
| `StringTable.Spread` | src/runtime/string.cpp:26-33 | moving all chains loses and duplicates nothing |
| `StringTable.Interner.SameObjectIff` | src/runtime/value.cpp:203-205 | two interned strings are the same object if and only if their bytes are equal |
| `StringTable.InternAgain` | src/runtime/string.cpp:55-88 | interning the same bytes after any operations but the removal of that string gives the same object |
| `StringTable.HashSnoc` | src/runtime/string.cpp:10-17 | each byte is mixed in by exclusive or and one multiplication, in order |
| `StringTable.KnownHashes` | src/runtime/string.cpp:10-17 | the hashes of the empty string and of "a" |
| `QuotedString.FormatQuote` | src/lib/lstrlib.cpp:138-160 | the quoting loop writes the source form of the bytes |
| `QuotedString.Lexer.LexString` | src/frontend/lexer.cpp:318-459 | the lexer loop reads a literal up to its closing quote, counting lines, or reports the first error |
| `QuotedString.ByteRoundTrip` | src/frontend/lexer.cpp:352-452 | the source form of one byte, wherever it stands, is one round of the lexer that gives the byte |
| `QuotedString.BodyRoundTrip` | src/lib/lstrlib.cpp:138-160 | lexing the quoted form yields the string, its exact extent and its line count, whatever surrounds it |
| `QuotedString.QuoteThenLex` | src/frontend/lexer.cpp:318-459 | for every byte string, lexing what %q wrote consumes it exactly and gives the string back |
| `LiteralMeaning.EscapeIs` | src/frontend/lexer.cpp:352-452 | every accepted escape yields the text it spells: the named characters, two hexadecimal digits, up to three decimal digits, a code point in UTF-8, the blanks skipped by `z`, a line break; and counts the line breaks in it |
| `LiteralMeaning.RefusedSpellsNothing` | src/frontend/lexer.cpp:352-452 | the lexer refuses only escapes that spell nothing |
| `LiteralMeaning.RefusedBecause` | src/frontend/lexer.cpp:335-448 | the complaint for each kind of malformed escape and unfinished literal |
| `LiteralMeaning.Utf8Decodes` | src/frontend/lexer.cpp:400-415 | every code point is written as the shortest UTF-8 sequence that decodes to it |
| `LiteralMeaning.TokenReads` | src/frontend/lexer.cpp:318-459 | the text of an accepted literal is spelled, character by character and escape by escape, between its quotes |
| `LiteralMeaning.QuotedForm` | src/lib/lstrlib.cpp:138-160 | the form %q gives each byte |

## Left out

- Incremental collection between mutator steps, write barriers, debt and thresholds: collections start in Pause and run to the end.
- Whether the `__gc` field of a queued object is still a function when its turn comes, and what it does, is user code: the heap that Collector.GC.FullGc describes is the one the finalizers start from. Names of freed objects are not used again.
- Per-thread state the collector does not trace (open-upvalue lists of suspended threads, pending yield values), and the removal of freed strings from the intern table during a sweep.
- Collector.GC.FullGc: asks that open upvalues point below the live limit of their thread's stack and that no reference is stray to begin with; both are restored by every collection of a heap that satisfies the condition of GcSafety.NoDanglingIff.
- GcSafety.NoDanglingIff: its condition speaks of the surviving objects; GcSafety.PlainTablesNeverDangle is the form that needs no reachability.
- Lowering of table constructors, calls, functions, upvalues, indexing, `for`, `repeat`, `break`, `goto` and `return`; metamethods inside opcodes are part of uninterpreted total-or-error operators.
- LoweringLists.ListFitsIff: lists whose code is below 32768 instructions, the range of jumps.
- LoweringChunk.ChunkHalts: what lies past a frame, eight spare slots and other frames or nothing at all, is not described; a run that names such a register has no outcome.
- LoweringLimits.LeftKeptIff: speaks of the instructions of the other operand, which a short circuit may skip.
- LoweringProof.LowerCorrect: code below 32768 instructions, at most 65536 constants, no limit error, and operators that negate numbers as 64-bit integers and as doubles.
- Instruction line information, local-variable debug records, the structure version counter of tables, and the write barriers of assignments.
- How `__mode` sets the weak mode of a table; the length operator; tables with metamethods in `next` and sort.
- Doubles are known by whether they are integral, NaN or other; 2^63 as a key, whose conversion C++ leaves undefined, counts as other.
- Character classes (`match_class` with `isalpha` and the like, which depend on the locale) are a given test on two characters, and every result holds for every such test; `string.find` with the plain flag, `gmatch`, `string.format` beyond %q.
- Replacement functions and tables of `gsub` are functions of the match: they cannot change the subject or raise anything but their stated errors.
- Sort.Sorter.AuxSort: the comparison may answer anything on each call, but it neither changes the list nor raises an error.
- 32-bit index arithmetic in sort, which the INT_MAX limit keeps from overflowing, and the clock that reseeds the pivot, which is an arbitrary number.
- Conversion of pack arguments (numeric strings, integral floats): arguments have the type their option asks for, any other is an argument error; the single-precision conversion is a given pair of functions.
- PackFormat.Pad and PackFormat.ToAlign: written with remainders where the code masks bits; alignments are powers of two there.
- UpvalueRuns.RunOp: operations on upvalues, threads or registers that do not exist do nothing, where the code relies on its callers.
- Values passed by resume and yield, protected calls inside coroutines, and the 16-bit wrap-around of the nesting count.
- StringTable.Interner: chains are sequences of string names, not pointer cells; allocation failure.
- Near-token text of lexer errors, column numbers, long strings, comments and numbers.
