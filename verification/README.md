# Verification of the executor

A Dafny model of the parts of the executor that change code, order transactions and share memory, with proofs about
them. `dafny verify dfyconfig.toml` checks everything.

- **Metering** (`Metric`, `Opcodes`, `Wasm`, `GasInjector`, `Renumbering`, `Metering`, `Validation`): the pass that puts
  gas charges into WebAssembly code. `Wasm` has the core instructions (WebAssembly Core Specification 1.0, sections 3.3 and
  4.4) and an interpreter; a run is cut after a number of parsed instructions, so that every statement about every
  length of run is a statement about every point of every run. Inserted instructions have no place in the parsed code
  and cost nothing. The result: meaning and type are preserved, the table cost is charged exactly and in advance, and
  metered code always stops.
- **Parallel EVM transactions** (`Serial`, `Dag`, `DagRun`): the graph from latest users of critical fields, and any
  number of workers that pop, execute and consume, one atomic step at a time. `Serial` says what a task graph is good
  for; `Dag` has the classes; `DagRun` has the workers' steps and shows that every run is as good as executing in order.
- **Parallel WASM transactions** (`WasmConflicts`, `FlowRun`, `ConflictFields`): the loop that builds the conflict
  graph, the messages by which tasks start, and the keys cut out of encoded arguments.
- **SCALE lengths** (`Scale`, `ScaleLength`, `ScaleValues`, `DataReads`): compact integers and encoded lengths (Polkadot
  Protocol Specification, appendix A.2.2), with the widths and wrap-arounds of the code, and what is read of the data.
- **Clock cache** (`CacheSpec`, `CacheShard`, `CacheRace`, `CacheSolo`): one shard used by one thread, as a class whose
  methods do what the functions of `CacheSpec` say; the same operations as atomic steps of any number of threads; and
  that a thread alone does by these steps what the methods do. A pointer to an item is its position in the list, which
  only grows at its end.
- **Transfers** (`DagTransfer`): the precompiled contract whose calls are run in parallel. All calls of a block address
  the same contract, so the address that the executor appends to every tag is left off. The balance of a row is the
  number that its decimal string stands for. The negative return codes are given as such; the caller sees them modulo
  2^256.
- **Pending blocks** (`StateChain`): the chain of storages of blocks not yet committed, over cache and backend.
- **Directory tree** (`DirectoryTree`): the tables of the block file system, building a path of directories and
  splitting paths.

What the proofs show about the code besides what it promises:

- The index of `outOfGas` among all imports, and the number of all imports, are used as function indices
  (src/vm/gas_meter/GasInjector.cpp:415-425, 470, 484). With imports that are not functions this misdirects charges,
  calls and element entries; `CallsKept`, `ElemKept`, `ChargesCallOutOfGas` and `TargetsKeptIff` say exactly when it
  does not. The results about metered runs are about all modules for which it does not and that import no globals.
- The type of an `outOfGas` that is imported already is not checked; with another type than none to none every charge
  is invalid: `ChargeValidIff`.
- The start function and exported globals are not renumbered, and exported imported functions are renumbered although
  they do not move: `StartKept`, `ExportKept`.
- `unreachable` does not close a segment. A run that stops inside a segment, by a trap or otherwise, has paid for what
  stands behind that point in the segment as well, so it has paid for exactly what it executed iff nothing with a price
  stands there: `ExactCharge`, `PaysForExecutedIff`, with `TrapAlone` and `TrapThenDrop` for either case.
- The price of `else` is charged whichever branch runs; the comment in front of the check speaks of gas below 0, but the
  check is for gas not above 0. The interpreter's prices follow the code.
- Instructions that truncate a float, and loads and stores of floats, are let through although all other float
  instructions are refused: `TruncationsPass`, `FloatMemoryPasses`.
- A transfer to oneself is tagged with its row although it depends on none: `TagsDecide`.
- `addEdge` tests its two ids with `&&` (src/dag/DAG.cpp:43): with just one id out of range the vertices are indexed out
  of bounds. No caller in the modelled code does that.
- A transaction that takes a whole slot behind a key in it gets an edge to itself. It is never executed, and no
  transaction behind it in the graph is; `wait_for_all` returns all the same: `OrderedIff`, `FinishedIff`,
  `AllFinishedIff`, `StuckNeverRuns`.
- The list of a key is started afresh when the key is used twice by one transaction
  (src/executor/TransactionExecutor.cpp:576-579). Earlier users lose their place on it, but not their path.
- The length of a dynamic array with 2^32 elements or more is wrong even when its encoding is short: `SliceExactIff`.
- A failed insert has evicted every unreferenced entry: `EvictFromCache`.
- Reads behind the end of the data are not guarded, because sizes are subtracted from positions that may be larger
  (src/dag/ScaleUtils.cpp:34, 57, 76, 98). They have an outcome of their own (`OutOfBounds`); `NoDataOverrun` has an
  input, and `WidthFound`, `CountedReads` and `FirstCountReads` say where it comes from.
- A row that is written to the oldest block between prepare and commit goes to the cache and not to the backend. That
  takes a block that is the only one pending, since only the newest is written: `PreparedIff`, `Commit`, `SetRow`.
- A path that ends in two slashes makes a directory with the empty name: `TrailingSlashes`. Paths that were checked do
  not: `ValidSplits`.

## Model

| member | source | states |
|---|---|---|
| GasInjector.InjectMeterExprList | src/vm/gas_meter/GasInjector.cpp:45-379 | The in-place loop over `insertPoint` and `gasCost` leaves exactly the functional form of the pass (each segment of positive cost behind its charge, nested bodies likewise, inserted code never visited again), and stops without a result exactly on forbidden code |
| GasInjector.Visit | src/vm/gas_meter/GasInjector.cpp:100-374 | One turn of the loop moves one instruction from what is left to what is pending or done, and keeps the invariant that ties the list, the insert point and the gas counted so far to the functional form |
| GasInjector.CloseSegment | src/vm/gas_meter/GasInjector.cpp:120-161 | Block, loop, if, branch, call and return put the charge for the segment at the insert point and start the next segment behind themselves |
| GasInjector.InsertUseGasLogic | src/vm/gas_meter/GasInjector.cpp:49-84 | The charge (or nothing, for cost 0) goes in at the given place, the rest of the list is untouched, and the returned position is the one behind the current instruction |
| GasInjector.RewriteExpr | src/vm/gas_meter/GasInjector.cpp:102-373 | An instruction is refused exactly when it or a nested one is a float instruction or unsupported; otherwise calls and globals are renumbered and bodies metered; `AllowedIff` says which these are by their types |
| GasInjector.InjectMeter | src/vm/gas_meter/GasInjector.cpp:412-559 | The pass succeeds exactly when every body is allowed, and the module it returns is the metered one with all sections renumbered |
| Opcodes.MeterModule | src/vm/gas_meter/GasInjector.cpp:412-559 | The pass succeeds exactly when no function has, at any depth, an unsupported instruction, a float constant, or a numeric instruction that takes or gives a float by its type in the specification, other than a truncation |
| Opcodes.AllowedIff | src/vm/gas_meter/GasInjector.cpp:85-117 | The same for the body of one function, blocks, loops and both branches included |
| Opcodes.RefusedIff | src/vm/gas_meter/GasInjector.cpp:85-99 | A numeric opcode is refused iff its type has a float and it is no truncation |
| Opcodes.TruncationsPass | src/vm/gas_meter/GasInjector.cpp:85-99 | The eight truncations take a float and are let through |
| Opcodes.FloatMemoryPasses | src/vm/gas_meter/GasInjector.cpp:85-117 | Loads and stores of floats count as floating point but are let through |
| Opcodes.TypesAreStandard | src/vm/gas_meter/GasInjector.cpp:49-84 | The types of the specification are those that the validation of charges asks for |
| Opcodes.IntegerPrices | src/vm/gas_meter/Metric.cpp:99-150 | The price of every integer operator by what it does, for both widths: divisions and remainders, multiplications, counts, shifts and the rest |
| Opcodes.NumericPrices | src/vm/gas_meter/Metric.cpp:119-166 | The prices of the other numeric instructions by their type; truncations and sign extensions have none of their own |
| Opcodes.JumpPrices | src/vm/gas_meter/Metric.cpp:84-91 | The prices of jumps, calls and returns |
| Opcodes.BlockPrices | src/vm/gas_meter/Metric.cpp:71-77 | Blocks cost nothing, but for an else branch |
| Opcodes.MovePrices | src/vm/gas_meter/Metric.cpp:39-242 | Constants are free; access to a variable, drop, select and memory.size have one price |
| Opcodes.MemoryPrices | src/vm/gas_meter/Metric.cpp:46-66 | Integer loads and stores have that price too |
| GasInjector.ShiftReferences | src/vm/gas_meter/GasInjector.cpp:426-505 | Exports and element entries get their new indices, and nothing else in the module changes |
| GasInjector.StripInject | src/vm/gas_meter/GasInjector.cpp:100-379 | Erasing what was inserted gives back the input, up to the shift of function and global indices |
| Metering.ExactCharge | src/vm/gas_meter/GasInjector.cpp:45-379 | However a call ends, and at whatever point it is cut, the metered call ends in the same way, with the table cost of what was executed taken from the gas and that of what was left undone in the segment where it stopped, iff it starts with more than that; otherwise it is out of gas |
| Metering.PaysForExecutedIff | src/vm/gas_meter/GasInjector.cpp:330-334 | A metered run, trapping or not, has paid for exactly what it executed iff nothing with a price is left undone in the segment where it stopped |
| Metering.BehindSeq | src/vm/gas_meter/GasInjector.cpp:45-379 | What a run leaves undone in its innermost open segment, through blocks, loops, ifs and calls, is nothing when it falls through, jumps or returns |
| Metering.SegmentSpends | src/vm/gas_meter/GasInjector.cpp:49-84 | Every run has executed all of its first segment, but for what it left undone there |
| Metering.TrapAlone | src/vm/gas_meter/GasInjector.cpp:330-334 | A trap with nothing behind it has left nothing undone |
| Metering.TrapThenDrop | src/vm/gas_meter/GasInjector.cpp:330-334 | A trap with a `drop` behind it leaves the 3 units of that, which were paid for |
| Metering.SameRun | src/vm/gas_meter/GasInjector.cpp:45-379 | Every metered run, trapping or not and at every length, is the plain run of the same code or is out of gas |
| Metering.PaysFirst | src/vm/gas_meter/GasInjector.cpp:49-84 | At every point of every metered run the table cost of the instructions executed is at most the gas already taken, and gas is positive unless the run is over for want of it |
| Metering.MeteredRunsStop | src/vm/gas_meter/GasInjector.cpp:127-161 | A metered call stops within n * (gas + 1) instructions, n being larger than any body, also where the plain code loops or recurses for ever |
| Metering.PlainLoopNeverStops | src/vm/gas_meter/GasInjector.cpp:263-269 | Without metering a loop that jumps back is cut at every length: the bound comes from the charges |
| Metering.JumpsCost | src/vm/gas_meter/Metric.cpp:84-91 | Every branch, call and return has a price of at least 2 |
| Metering.JumpCharged | src/vm/gas_meter/GasInjector.cpp:127-161 | The segment that ends in a branch, a call or a return has a charge in front of it, which includes the price of that |
| Metering.ChargeExec | src/vm/gas_meter/GasInjector.cpp:49-84 | Executing an inserted charge takes the cost from gas and goes on iff gas is still positive, and leaves stack, locals and memory alone; the subtraction does not wrap |
| Metering.SeqAgrees | src/vm/gas_meter/GasInjector.cpp:45-379 | The simulation between a plain and a metered sequence, over segments, nested bodies, loops and calls |
| Metering.LoopAgrees | src/vm/gas_meter/GasInjector.cpp:263-269 | The simulation for loops, through every iteration |
| Metering.IfAgrees | src/vm/gas_meter/GasInjector.cpp:230-241 | The simulation for both branches of an if, whose `else` price is charged whichever runs |
| Metering.CallAgrees | src/vm/gas_meter/GasInjector.cpp:145-162 | The simulation for calls of imported and defined functions |
| Metering.StepsBounded | src/vm/gas_meter/GasInjector.cpp:45-379 | A plain run takes at most n instructions for each unit of price it spends, and n more |
| Metering.ShortCodeIsReady | src/vm/gas_meter/GasInjector.cpp:45-84 | Code of fewer than 2^31 instructions never has a segment cost that 64 bits cannot hold |
| Validation.SeqSameType | src/vm/gas_meter/GasInjector.cpp:45-379 | Validation gives metered code the result it gives the plain code, from every operand stack: the same type if valid, and refused if not, as long as the locals are in range |
| Validation.ChargeValidIff | src/vm/gas_meter/GasInjector.cpp:49-84 | A charge is valid, and then takes and leaves no operands, iff `outOfGas` has no parameters and no results; an `outOfGas` imported before is not checked for that |
| Validation.ModuleSameType | src/vm/gas_meter/GasInjector.cpp:412-559 | The functions of the metered module are valid, with the gas global in front, and had their locals in range, iff the functions of the module are valid |
| Validation.ExprSameType | src/vm/gas_meter/GasInjector.cpp:100-374 | Each renumbered or nested instruction has the type that it had |
| Validation.ValidLocals | src/vm/gas_meter/GasInjector.cpp:45-379 | Valid code, also behind a branch and in nested bodies, uses only the locals there are, so it is what ExactCharge and SameRun ask for when it is short enough |
| Validation.TypeKept | src/vm/gas_meter/GasInjector.cpp:145-156 | The function under a renumbered index has the type of the function before |
| Validation.ValidModuleIsReady | src/vm/gas_meter/GasInjector.cpp:412-559 | A module that is valid, with bodies of at most 2^31 parsed instructions and imports that keep the indices, is all that the results about metered runs ask for |
| Renumbering.CallsKept | src/vm/gas_meter/GasInjector.cpp:145-156 | All calls keep their targets iff `outOfGas` was imported already, or every import is a function, or no function is defined |
| Renumbering.ElemKept | src/vm/gas_meter/GasInjector.cpp:480-489 | An element entry keeps its function iff `outOfGas` was imported already, or the function is imported, or its index is not below the number of all imports |
| Renumbering.ChargesCallOutOfGas | src/vm/gas_meter/GasInjector.cpp:412-425 | The charges call `outOfGas` iff the imports in front of it are all functions: the index of the import among all imports is used as a function index |
| Renumbering.TargetsKeptIff | src/vm/gas_meter/GasInjector.cpp:145-156 | Every function index keeps its target, and the charges reach `outOfGas`, iff the imports in front of `outOfGas`, or all of them if it is not imported, are functions |
| Renumbering.MemoryBehindGasIsReady | src/vm/gas_meter/GasInjector.cpp:412-425 | An import of a memory behind that of `outOfGas` does no harm |
| Renumbering.GlobalsKept | src/vm/gas_meter/GasInjector.cpp:214-229 | Global accesses keep their globals, and the charges use the gas global, iff no global but gas itself is imported |
| Renumbering.ExportKept | src/vm/gas_meter/GasInjector.cpp:471-479 | An exported function is kept iff `outOfGas` was imported already or the function is a defined one; an exported global only if it is an imported one |
| Renumbering.StartKept | src/vm/gas_meter/GasInjector.cpp:426-490 | The start function is not renumbered: it is kept iff there is none, it is imported, or `outOfGas` was imported already |
| Renumbering.AllReferencesKept | src/vm/gas_meter/GasInjector.cpp:412-505 | Where only functions are imported in front of `outOfGas` and no globals at all, as when all imports are functions, and all exported functions are defined ones, and there is no start function, every call, export, element entry and global denotes what it did |
| Renumbering.SpacesAfter | src/vm/gas_meter/GasInjector.cpp:456-505 | The function and global index spaces after the pass: one function and one global in front of the defined ones |
| Serial.Serialisable | src/dag/TxDAG.cpp:84-109 | Any interleaving, row access by row access, of transactions that start only after their predecessors have finished ends with the in-order store, if the graph joins every two that share a row |
| Serial.NextInv | src/dag/TxDAG.cpp:84-109 | Every start, access and finish keeps running transactions, and rows between transactions, where the in-order run has them |
| Serial.InFlightDisjoint | src/dag/DAG.cpp:98-133 | Two transactions in flight never share a row |
| Serial.FinishedInOrder | src/dag/TxDAG.cpp:84-109 | Once all have finished, the invariant pins the store to the in-order one |
| Dag.CriticalField.Get | src/dag/TxDAG.h:109-119 | The latest user of a field, the user of all fields failing that, or none |
| Dag.CriticalField.Update | src/dag/TxDAG.h:121-121 | The field's latest user changes, no other's does |
| Dag.DAG.Init | src/dag/DAG.cpp:32-39 | As many vertices as asked for, without edges, nothing consumed |
| Dag.DAG.AddEdge | src/dag/DAG.cpp:41-49 | With both ids in range the edge joins the graph and its target's counter goes up; with none in range nothing happens; with just one the vertices are indexed out of bounds, which the range test lets pass |
| Dag.DAG.Generate | src/dag/DAG.cpp:51-63 | The queue gets exactly the vertices that nothing points to, in order |
| Dag.DAG.TryPop | src/dag/DAG.cpp:65-96 | The oldest queued vertex, or none |
| Dag.DAG.Visit | src/dag/DAG.cpp:103-122 | A successor's counter goes down by one; at zero it is the one to return if it is the first, and queued otherwise |
| Dag.DAG.Consume | src/dag/DAG.cpp:98-133 | All successors are visited in order, the first freed is returned and the others are queued |
| Dag.TxDAG.Init | src/dag/TxDAG.cpp:33-76 | The vertices, counters and queue show the graph in which each transaction has edges from the latest users of its critical fields |
| Dag.GraphEdges | src/dag/TxDAG.cpp:41-62 | There is an edge from x to y iff x is the latest transaction before y that names one of y's fields |
| Dag.GraphOrdered | src/dag/TxDAG.cpp:41-62 | All edges go from lower to higher ids |
| Dag.SharedFieldPath | src/dag/TxDAG.cpp:41-62 | Two transactions with a common critical field are joined by a path, in input order |
| Dag.LatestIs | src/dag/TxDAG.h:109-121 | The latest user of a field names it and nobody in between does |
| Dag.TopLevelIs | src/dag/DAG.cpp:51-57 | The queue after generate has the vertices of degree zero and no others, increasing |
| DagRun.StepCInv | src/dag/DAG.cpp:65-133 | Every step of every worker keeps: counters match the edges not yet counted down, and each vertex is in one place only (waiting, queued, handed over, in a worker's hands, consumed) |
| DagRun.StepRefines | src/dag/TxDAG.cpp:84-109 | Every step of the workers is a step of the abstract machine, so a vertex is executed only after its predecessors were consumed |
| DagRun.ReadyVertex | src/dag/DAG.cpp:103-122 | A vertex in the queue or handed over has no unconsumed predecessor |
| DagRun.EdgeStepsAreVisit | src/dag/DAG.cpp:103-122 | The atomic steps of a worker on one edge amount to one turn of the loop of `consume` |
| DagRun.SomeoneCanGoOn | src/dag/DAG.cpp:65-96 | While a vertex is not consumed, one is queued or in a worker's hands |
| DagRun.WorkerCanStep | src/dag/TxDAG.cpp:84-109 | A worker that is not waiting can always take its next step |
| DagRun.FinishedMeansAll | src/dag/TxDAG.h:79-79 | `hasFinished` holds, without `stop`, only when every transaction was executed and consumed |
| DagRun.ReachableInv | src/dag/TxDAG.cpp:84-109 | The invariants hold in every reachable state |
| DagRun.ParallelEqualsInOrder | src/dag/TxDAG.cpp:33-109 | Whatever the number of workers and the interleaving, once `hasFinished` holds the store is the one that executing ids 0 to n-1 in order gives |
| DagRun.NoSharedFieldInFlight | src/dag/TxDAG.cpp:33-109 | Two transactions being executed at the same time use no common critical field |
| DagRun.BusyBound | src/dag/TxDAG.cpp:84-109 | Whatever the workers and the interleaving, the steps that get a transaction on are at most the steps of all transactions, one for each edge, and five for each vertex |
| DagRun.StepCosts | src/dag/DAG.cpp:98-133 | Each such step leaves less to do, and coming, finding the queue empty and going leave as much |
| WasmConflicts.BuildGraph | src/executor/TransactionExecutor.cpp:505-614 | The loop gives a graph in which every two conflicting transactions are joined by a path, every edge between two stands for a conflict, a transaction has an edge to itself iff it takes a whole slot behind a key in it, and the start node feeds exactly those that no edge leads to |
| WasmConflicts.AddTask | src/executor/TransactionExecutor.cpp:541-614 | One transaction's fields keep the invariant, all new edges lead to it, and `noDeps` stays set iff there is none |
| WasmConflicts.AddField | src/executor/TransactionExecutor.cpp:547-605 | One conflict field keeps the invariant, and there are new edges iff `noDeps` is cleared |
| WasmConflicts.LinkKeys | src/executor/TransactionExecutor.cpp:581-602 | A whole-slot field gets an edge from each task on the lists of the slot's keys, and from nothing else |
| WasmConflicts.MakeEdge | src/executor/TransactionExecutor.cpp:555-555 | The edge is added, nothing else changes |
| WasmConflicts.KeysGrow | src/executor/TransactionExecutor.cpp:563-579 | `dependencies` keeps, for each key, its last user, and every earlier user has a path to one on the list, also when the list is started afresh |
| WasmConflicts.SlotsGrow | src/executor/TransactionExecutor.cpp:551-603 | `slotUsage` keeps the last transaction that takes the whole slot |
| WasmConflicts.WholeAfterKeyGrows | src/executor/TransactionExecutor.cpp:581-603 | One more field makes a transaction take a whole slot behind a key iff it is such a field and a key of the slot came before |
| WasmConflicts.OrderedIff | src/executor/TransactionExecutor.cpp:587-602 | All edges go from lower to higher task index iff no transaction takes a whole slot behind a key in it |
| WasmConflicts.FieldsCover | src/executor/TransactionExecutor.cpp:508-614 | Transactions that share a row and so have conflicting fields are joined by a path |
| FlowRun.FlowRefines | src/executor/TransactionExecutor.cpp:499-617 | A task that starts when it has a message for each edge starts only after all that lead to it are done: every step is one of the abstract machine |
| FlowRun.FlowNextInv | src/executor/TransactionExecutor.cpp:499-617 | Messages got, under way and used up always add up to those sent |
| FlowRun.StartsOnce | src/executor/TransactionExecutor.cpp:499-617 | No task starts twice in any run |
| FlowRun.StartFeeds | src/executor/TransactionExecutor.cpp:607-614 | Every task has an edge from another task or from the start node |
| FlowRun.FlowEqualsInOrder | src/executor/TransactionExecutor.cpp:499-617 | If no transaction takes a whole slot behind a key in it, a run that is at rest, where `wait_for_all` returns, has finished all of them, with the in-order store |
| FlowRun.AllFinishedIff | src/executor/TransactionExecutor.cpp:499-617 | A run at rest has finished every transaction iff none takes a whole slot behind a key in it |
| FlowRun.FinishedIff | src/executor/TransactionExecutor.cpp:499-617 | A run at rest has finished a transaction iff it takes no whole slot behind a key in it, and none that does leads to it by a path |
| FlowRun.StuckNeverRuns | src/executor/TransactionExecutor.cpp:587-602 | A transaction that takes a whole slot behind a key in it, and each one that a path leads to from it, is never executed, at any point of any run |
| FlowRun.RestMeansFinished | src/executor/TransactionExecutor.cpp:616-617 | When nothing is left to do, every other transaction is finished |
| FlowRun.EnabledGoesOn | src/executor/TransactionExecutor.cpp:616-617 | A message under way, a running task, or a task with all its messages means that the run is not at rest |
| FlowRun.FlowRunLength | src/executor/TransactionExecutor.cpp:616-617 | Every step is one step less to go: the steps taken and the cost of what is left always add up to the same number, so that every run comes to rest |
| FlowRun.FlowRunBound | src/executor/TransactionExecutor.cpp:616-617 | A run has at most one step for each message and each step of a transaction, and two for each transaction |
| ConflictFields.DecodeConflictFields | src/executor/TransactionExecutor.cpp:1158-1308 | Every field's slot and key: empty for a whole slot or its length, the item named for each of the five kinds of environment, and the encoding of the argument named for whatever arguments stand behind the selector; an answer whenever the kinds are known and the paths lead to arguments, and no parallel execution iff there are no fields or the first that fails has no key |
| ConflictFields.VarFieldExact | src/executor/TransactionExecutor.cpp:1258-1299 | In the data of a call, a selector of four bytes and the encoded arguments, a field that names an argument has the encoding of that argument as its key |
| ConflictFields.SharedKeyIff | src/executor/TransactionExecutor.cpp:1158-1308 | Two calls, of one function or of two, with whatever selectors, get the same key for arguments of one type iff these are the same |
| ConflictFields.AnswerableHasKey | src/executor/TransactionExecutor.cpp:1180-1304 | A field of a known kind that leads to an argument of the call has a key |
| ConflictFields.VarKey | src/executor/TransactionExecutor.cpp:1258-1300 | The loops over the access path find the argument that the recursive description finds |
| ConflictFields.ArgumentKeyExact | src/executor/TransactionExecutor.cpp:1258-1299 | Through plain tuples, the key is exactly the SCALE encoding of the value at the access path |
| ConflictFields.KeysEqualIff | src/executor/TransactionExecutor.cpp:1258-1299 | Two calls get the same key for a path iff the values at the path are the same |
| ConflictFields.SkipExact | src/executor/TransactionExecutor.cpp:1273-1281 | Skipping parameters whose encodings stand one behind the other leads to where the addressed one stands |
| Scale.DecodeCompactInteger | src/dag/ScaleUtils.cpp:32-117 | Each mode gives the little-endian number of its bytes, the big one in 32 bits, too few bytes give nothing, and the data is read out of bounds iff the position is behind its end |
| Scale.AddThreeBytes | src/dag/ScaleUtils.cpp:63-82 | Four-byte mode adds up the number of the four bytes without wrapping |
| Scale.AddBigBytes | src/dag/ScaleUtils.cpp:84-111 | Big-integer mode adds up the number of all bytes modulo 2^32, with a multiplier that wraps |
| Scale.CompactRoundTrip | src/dag/ScaleUtils.cpp:32-117 | Decoding the encoding of any n below 2^536, wherever it stands, gives n modulo 2^32 |
| Scale.CompactPrefix | src/dag/ScaleUtils.cpp:34-98 | No proper prefix of an encoding, at the end of the data, is taken for one |
| Scale.EncodeCompact | src/dag/ScaleUtils.cpp:43-88 | The encoding has the length that the length decoder adds for the count |
| ScaleLength.ScaleEncodingLength | src/dag/ScaleUtils.cpp:119-268 | The loops over elements and components, with 32-bit lengths, find what the recursive description finds |
| ScaleLength.ArrayLength | src/dag/ScaleUtils.cpp:123-185 | The case of arrays: the dimension from the name or the count from the data, then the elements |
| ScaleLength.AddElements | src/dag/ScaleUtils.cpp:167-184 | The lengths of the elements, one behind the other, in 32 bits |
| ScaleLength.TupleLength | src/dag/ScaleUtils.cpp:242-263 | The lengths of the components, one behind the other, in 32 bits |
| ScaleLength.NamedLength | src/dag/ScaleUtils.cpp:187-267 | The cases of numbers, strings, bytes, booleans and tuples, in the order in which the names are tested |
| ScaleValues.LengthExact | src/dag/ScaleUtils.cpp:119-268 | For every type of intN, uintN, bool, byte, bytesN, bytes, string, tuples, T[] and T[n], every value encoded in fewer than 2^32 bytes whose dynamic arrays have fewer than 2^32 elements, and any surrounding bytes, the length found is that of the encoding |
| ScaleValues.SliceExactIff | src/dag/ScaleUtils.cpp:135-142 | The length of a dynamic array is found iff it has fewer than 2^32 elements; longer ones of a small total length are those whose elements take no bytes |
| ScaleValues.Unique | src/executor/TransactionExecutor.cpp:1290-1293 | Two values of a type whose encodings stand at the same place are the same value |
| ScaleValues.StoulDec | src/dag/ScaleUtils.cpp:150-163 | The number in a type's name is read back from its decimal digits, whatever non-digit follows |
| ScaleValues.WordNames | src/dag/ScaleUtils.cpp:187-202 | The name of an integer type leads to its number of bits |
| ScaleValues.FixedNames | src/dag/ScaleUtils.cpp:225-239 | The name of a bytesN type leads to its size |
| ScaleValues.ArrayNames | src/dag/ScaleUtils.cpp:123-163 | The name of an array type leads to its element type and dimension, also when the element is an array |
| ScaleValues.EmptyLength | src/dag/ScaleUtils.cpp:119-268 | Types whose values take no bytes have length 0 everywhere |
| DataReads.WidthFound | src/dag/ScaleUtils.cpp:119-268 | The length of a type without strings, bytes and dynamic arrays is found without a look at the data, at every position |
| DataReads.CountedReads | src/dag/ScaleUtils.cpp:132-142 | A string, bytes, or a dynamic array of such elements is read out of bounds iff it begins behind the end of the data |
| DataReads.SkipFixed | src/executor/TransactionExecutor.cpp:1273-1281 | Parameters without counts are passed without a look at the data |
| DataReads.FirstCountReads | src/executor/TransactionExecutor.cpp:1273-1293 | Up to the first parameter with a count, an argument is read out of bounds iff that parameter begins behind the end of the data, and its place is known from the types in front |
| DataReads.NoDataOverrun | src/executor/TransactionExecutor.cpp:1273-1293 | A call without data reads a string behind a `bytes32` out of bounds |
| CacheShard.CacheShard.Insert | src/dag/ClockCache.cpp:33-71 | Succeeds iff fewer items are referenced than the capacity; then the hash finds the new item, usage is at most the capacity, the list outgrows the capacity only if it did before, every other item is as the sweep and the displacement may leave it, and the head moves exactly as in an eviction |
| CacheShard.CacheShard.Lookup | src/dag/ClockCache.cpp:73-100 | A hit is exactly an entry with the whole hash, its value is the one last inserted for that hash, and it holds one reference more; a miss changes nothing |
| CacheShard.CacheShard.Ref | src/dag/ClockCache.cpp:102-117 | Adds a reference iff the item is in the cache |
| CacheShard.CacheShard.Unref | src/dag/ClockCache.cpp:119-140 | Drops a reference; the value is deleted and the slot recycled iff it was the last one and the item is out of the cache |
| CacheShard.CacheShard.UnsetInCache | src/dag/ClockCache.cpp:142-155 | The in-cache bit goes, and the value with it iff the item was unreferenced |
| CacheShard.CacheShard.EvictFromCache | src/dag/ClockCache.cpp:157-195 | The sweep ends; it succeeds iff fewer items are referenced than the capacity, then evicts no more than needed; otherwise it has evicted all that is unreferenced and leaves the head; with room nothing changes; when it makes room, exactly the items from the old head to the new one are tried, the one behind the new head goes last, and no evictable item in between is passed over; an item with its usage bit set goes only after all unreferenced ones without it |
| CacheShard.CacheShard.TryEvict | src/dag/ClockCache.cpp:197-211 | Evicts exactly an item in the cache without usage bit and references, erasing its table entry; otherwise takes the usage bit |
| CacheShard.CacheShard.RecycleItem | src/dag/ClockCache.cpp:213-221 | The value goes to the deleter, the slot to the recycle list, the usage down by one |
| CacheShard.CacheShard.SetCapacity | src/dag/ClockCache.cpp:223-229 | Afterwards the usage is at most the capacity or the number of referenced items |
| CacheShard.CacheShard.Destroy | src/dag/ClockCache.cpp:231-241 | What is in use is deleted, and as many values as were accepted have been deleted in all |
| CacheShard.CacheShard.TakeSlot | src/dag/ClockCache.cpp:42-58 | A recycled slot or a new one at the end, filled in; no other item changes |
| CacheShard.CacheShard.Displace | src/dag/ClockCache.cpp:59-65 | An entry with the same table key leaves the table and the cache, and the value with it iff unreferenced |
| CacheShard.CacheShard.Enter | src/dag/ClockCache.cpp:67-69 | The hash finds the new item from now on |
| CacheShard.CacheShard.ReferencedSize | src/dag/ClockCache.cpp:157-195 | Referenced items never outnumber the usage, and make it up when nothing else is in use |
| CacheSpec.SweepGoes | src/dag/ClockCache.cpp:169-195 | A sweep tries each item as often as it passes it, and leaves the head behind the item that it evicts last |
| CacheSpec.EvictGoes | src/dag/ClockCache.cpp:157-195 | An eviction with room changes nothing; one that makes room sweeps from the old head to the new, one that fails leaves the head |
| CacheSpec.SweepStep | src/dag/ClockCache.cpp:170-192 | One try of the sweep: the first round clears usage bits and evicts what had none, the second leaves only what is kept |
| CacheSpec.SweptResult | src/dag/ClockCache.cpp:157-195 | A sweep changes no reference count and gives used items a second chance |
| CacheShard.CacheHandle.Release | src/dag/ClockCache.h:227-237 | The handle's reference is given back with the usage bit set, and the handle is empty |
| CacheShard.CacheHandle.Assign | src/dag/ClockCache.h:201-215 | What the handle held is released, the reference of the other passes to it and the other is empty; assigning a handle to itself changes nothing |
| CacheRace.NextInv | src/dag/ClockCache.cpp:33-221 | Every atomic step of every thread keeps: reference counts equal the threads counted on the slot, unused slots are in the recycle list or with one thread, in-cache items are in the table, usage matches the lists and is below the capacity while an entry is put in, and every value is with its slot or was deleted once |
| CacheRace.ReachableInv | src/dag/ClockCache.cpp:33-221 | This holds in every reachable state |
| CacheRace.HandleSafe | src/dag/ClockCache.cpp:73-100 | While a thread has a handle, its value is that of an accepted insert for the hash asked for, and has not been deleted |
| CacheRace.HandleKeepsValue | src/dag/ClockCache.cpp:73-100 | Whatever the other threads do, the value under a handle stays the same |
| CacheRace.AssertionsHold | src/dag/ClockCache.cpp:119-221 | What the code asserts holds whenever it is reached: references to drop, slots fit to recycle, evicted entries that are in the table |
| CacheRace.DeletedOnce | src/dag/ClockCache.cpp:231-241 | When all threads are done and the shard is destroyed, each accepted value has been deleted exactly once |
| CacheRace.QuietState | src/dag/ClockCache.cpp:33-221 | When all threads are done no reference is left over, and items are in the table or free |
| CacheRace.LogGrows | src/dag/ClockCache.cpp:213-221 | Deletions are never taken back, and the hash and value of an accepted insert never change |
| CacheRace.LockFreeInv | src/dag/ClockCache.cpp:73-140 | The steps of lookup, ref and unref outside the mutex keep the invariant |
| CacheRace.SweepInv | src/dag/ClockCache.cpp:157-211 | The steps of the sweep, and of recycling under the mutex, keep it |
| CacheRace.InsertInv | src/dag/ClockCache.cpp:33-71 | The steps of insert keep it |
| CacheRace.RoomToInsert | src/dag/ClockCache.cpp:36-69 | Under every interleaving, the usage is below the capacity from the end of an insert's sweep until its entry is counted |
| CacheRace.EnterWithinCapacity | src/dag/ClockCache.cpp:67-69 | No insert leaves the usage over the capacity |
| CacheSolo.StepSame | src/dag/ClockCache.cpp:33-221 | What a thread alone will end with is the same before and after each of its atomic steps |
| CacheSolo.InsertAlone | src/dag/ClockCache.cpp:33-71 | An insert by a thread alone ends with the list, flags, table, recycle list, head, usage and deleted values that `Insert` leaves, and with its handle |
| CacheSolo.LookupAlone | src/dag/ClockCache.cpp:73-100 | A lookup by a thread alone ends as `Lookup` does, and is a hit iff an item in the cache has the whole hash |
| CacheSolo.HitIff | src/dag/ClockCache.cpp:73-100 | With nobody in the mutex, `Lookup` finds an item iff one in the cache has the whole hash, and then such a one |
| CacheSolo.RefAlone | src/dag/ClockCache.cpp:102-117 | Another reference taken by a thread alone ends as `Ref` does |
| CacheSolo.UnrefAlone | src/dag/ClockCache.cpp:119-140 | A reference given back by a thread alone ends as `Unref` does |
| CacheSolo.ResizeAlone | src/dag/ClockCache.cpp:223-229 | A change of the capacity by a thread alone ends as `SetCapacity` does |
| CacheSolo.CallGoesOn | src/dag/ClockCache.cpp:33-221 | A thread in the middle of a call always has a next step, which brings it nearer to the end, unless another one is in the mutex |
| CacheSolo.CallEnds | src/dag/ClockCache.cpp:33-221 | Whatever call a thread begins while nobody else is in the mutex, it can finish it alone, also a sweep that finds nothing to evict |
| DagTransfer.UserAddCall | src/precompiled/extension/DagTransferPrecompiled.cpp:202-250 | The return code and the rows behind, in every case |
| DagTransfer.UserSaveCall | src/precompiled/extension/DagTransferPrecompiled.cpp:252-327 | The return code and the rows behind, in every case; the wrap-around test is the test for a sum over 2^256 - 1 |
| DagTransfer.UserDrawCall | src/precompiled/extension/DagTransferPrecompiled.cpp:329-394 | The return code and the rows behind, in every case |
| DagTransfer.UserBalanceCall | src/precompiled/extension/DagTransferPrecompiled.cpp:396-444 | The return code and the balance; no row changes |
| DagTransfer.UserTransferCall | src/precompiled/extension/DagTransferPrecompiled.cpp:446-550 | The return code and the rows behind, in every case; no row is left behind by a transfer that fails |
| DagTransfer.OverflowIff | src/precompiled/extension/DagTransferPrecompiled.cpp:520-526 | The sum of two balances wraps around iff it is over 2^256 - 1 |
| DagTransfer.TotalChange | src/precompiled/extension/DagTransferPrecompiled.cpp:202-550 | Transfers keep the total of all balances, saving, adding and drawing change it by exactly the amount, and a call that fails changes nothing |
| DagTransfer.ChangeHasTags | src/precompiled/extension/DagTransferPrecompiled.cpp:67-129 | A call that changes a row has tags, so sending back the calls without tags loses nothing |
| DagTransfer.TagsDecide | src/precompiled/extension/DagTransferPrecompiled.cpp:67-129 | For every call with tags that is not a transfer to oneself, the tags are exactly the rows that its return code depends on for some amount and rows; transfers to oneself depend on no row |
| DagTransfer.AccessConfined | src/precompiled/extension/DagTransferPrecompiled.cpp:67-129 | A call with tags reads and writes only the rows its tags name |
| DagTransfer.AccessesExecute | src/precompiled/extension/DagTransferPrecompiled.cpp:202-550 | The single accesses of a call to the table, one after the other, amount to the call |
| DagTransfer.TagsNameRows | src/precompiled/extension/DagTransferPrecompiled.cpp:67-129 | The tags satisfy what the parallel executor needs of critical fields |
| DagTransfer.ParallelBlock | src/executor/TransactionExecutor.cpp:271-346 | A block of calls run in parallel by any number of workers leaves the balances of all its calls executed in order, those without tags included |
| DagTransfer.ParallelTransfersKeepTotal | src/executor/TransactionExecutor.cpp:271-346 | However a block of transfers is run in parallel, the total of all balances is what it was |
| StateChain.Executor.NextBlockHeader | src/executor/TransactionExecutor.cpp:117-173 | A block whose number does not follow is refused; otherwise its storage is the only writable one, and no view changes |
| StateChain.Executor.SetRow | src/executor/TransactionExecutor.cpp:151-156 | Writing a row of the newest block changes that block's view of that row only, and no other block's rows |
| StateChain.Executor.Prepare | src/executor/TransactionExecutor.cpp:799-845 | Only the oldest block is prepared, with its rows |
| StateChain.Executor.Commit | src/executor/TransactionExecutor.cpp:848-898 | The prepared rows of the oldest block go to the backend, its rows to the cache, and the others keep their numbers; reads through every remaining block are unchanged, over the cache and over the backend, if the block reads as it was prepared, and the backend then reads as the block did iff it does |
| StateChain.PreparedIff | src/executor/TransactionExecutor.cpp:848-898 | After commit the backend reads as the block did, and the cache agrees with it, iff the block reads as it was prepared |
| StateChain.WrittenAfterPrepare | src/executor/TransactionExecutor.cpp:848-898 | A row written again between prepare and commit is read differently from what was prepared |
| StateChain.Executor.RemoveCommittedState | src/executor/TransactionExecutor.cpp:1513-1564 | The oldest storage is merged into the cache, if there is one, and leaves the chain; the next one is put on the base |
| StateChain.Executor.Merge | src/storage/LRUStorage.cpp:79-97 | The cache has the rows of the merged storage over its own |
| StateChain.Executor.Purge | src/storage/LRUStorage.cpp:150-156 | Dropping a row of the cache changes no view |
| StateChain.Executor.Used | src/storage/LRUStorage.cpp:131-164 | The used key is the newest; within the capacity no row goes; over it the oldest keys go, one by one, until at most two thirds of the capacity are left or none is listed, and none more than that takes; no view changes |
| StateChain.RelocatedIs | src/storage/LRUStorage.cpp:131-136 | The used key goes to the end, from where it was or as a new one, and all others keep their order |
| StateChain.RelocatedDistinct | src/storage/LRUStorage.cpp:131-136 | A list that names each key once goes on to, with the used key and those it had |
| StateChain.Executor.Clean | src/storage/LRUStorage.cpp:143-160 | The loop of the cleaner stops at two thirds of the capacity and not before, unless no key is listed |
| StateChain.ViewKept | src/executor/TransactionExecutor.cpp:848-898 | Committing the oldest block leaves what is read through each other block as it was, for any chain |
| StateChain.CoherentView | src/storage/LRUStorage.cpp:118-172 | Two caches that agree with the backend give the same views |
| DirectoryTree.Storage.RecursiveBuildDir | src/precompiled/Utilities.cpp:604-704 | For every path and all tables, what the recursive description of the walk gives: the outcome, with the path `/` out of range, and the tables; `BuildMeans`, `LeadingSlashes` and `TrailingSlashes` say what that is |
| DirectoryTree.Storage.BuildDirs | src/precompiled/Utilities.cpp:625-703 | The loop over the directories does what the recursive description does, for all tables and all names |
| DirectoryTree.BuildMeans | src/precompiled/Utilities.cpp:604-704 | In a well-formed tree, a path of plain names is built iff nothing but directories is on its way; then the tree is well-formed, every prefix is a directory listed in its parent, and nothing else is new; otherwise nothing changes |
| DirectoryTree.WalkMeans | src/precompiled/Utilities.cpp:625-703 | The same from every place on the way: once a directory was created nothing can be in the way below it |
| DirectoryTree.InnerNamesPlain | src/precompiled/Utilities.cpp:623-623 | Of the names of a path, at most the first and the last are empty |
| DirectoryTree.LeadingSlashes | src/precompiled/Utilities.cpp:613-644 | An empty name in front is passed over |
| DirectoryTree.TrailingSlashes | src/precompiled/Utilities.cpp:617-693 | An empty name at the end makes a directory of its own, listed under the empty name, unless its path is taken |
| DirectoryTree.WithDirWellFormed | src/precompiled/Utilities.cpp:672-693 | Creating a directory and listing it in its parent keeps the tree well-formed, and nothing is below the new one |
| DirectoryTree.NothingBelow | src/precompiled/Utilities.cpp:640-668 | In a well-formed tree nothing is below a path that does not exist |
| DirectoryTree.GrownAgain | src/precompiled/Utilities.cpp:644-651 | Building a path that is there changes nothing |
| DirectoryTree.ComponentsOfPath | src/precompiled/Utilities.cpp:613-623 | Splitting an absolute path gives back the names that it was made of |
| DirectoryTree.SlashesStripped | src/precompiled/Utilities.cpp:613-623 | One slash in front and one at the end make no difference to the names |
| DirectoryTree.WrittenSplits | src/precompiled/Utilities.cpp:613-623 | With or without these slashes a path splits into the names that it was made of |
| DirectoryTree.AcceptedIff | src/precompiled/Utilities.cpp:519-579 | A path made of plain names, with or without these slashes, is accepted iff it is at most 56 characters long and has at most six names, which are all valid |
| DirectoryTree.ParentOfPath | src/precompiled/Utilities.cpp:581-602 | Parent and base name of a path are the path without its last name, and that name |
| DirectoryTree.ValidSplits | src/precompiled/Utilities.cpp:519-579 | A path that is accepted, other than the root, splits into at most six plain names, and its parent and base name put together split into the same names |
| DirectoryTree.ChildInjective | src/precompiled/Utilities.cpp:637-641 | A path has one parent and one base name |

## Left out

- Parsing and writing of WebAssembly, the validation of sections other than the code, memory limits, and the disabled pricing of memory growth. The types of numeric and memory instructions are given, but for those in charges.
- Expression nodes are values of the list, so sharing of nodes between lists is not modelled; the list itself is changed in place.
- Host functions are given functions that do not touch the gas global; `outOfGas` does not return.
- Modules that the pass misnumbers are in `Renumbering` only; no run of their metered form is described.
- Traps inside binary operations are a parameter of the interpreter; floating point instructions are only recognised and refused. Opcodes with a prefix are not modelled.
- The timed wait of `waitPop` is a step that returns nothing; `stop`, exceptions of transactions and the 30 s warning are not modelled.
- Serial.Serialisable: takes it from its caller that transactions touch only rows named by their fields; DagTransfer shows it for one contract.
- The task scheduler of TBB: a task starts when it has a message for each edge, messages arrive in any order.
- Hashing, the decoding of ABI descriptions and of call parameters: hashes, parameters and access paths are given.
- codec::scale::compactLen is not part of this model; its length is that of appendix A.2.2.
- Capacity of the LRU cache counts rows, not bytes; the thread that runs the cleaner and its queue are not modelled.
- The merge of a committed block into the cache, the erasing of its storage and the purging of rows are whole calls, not interleaved with each other.
- bcos::storage::StateStorage and the backend's transactions are not part of this model: a storage is its own rows over what is below, and commit writes the prepared rows. Storages are values in a list; the pointer to the storage below is kept as the number of its block.
- The flag word of the cache is kept as its three parts; the reference count, 30 bits in the code, is unbounded.
- Atomics are sequentially consistent; the sweep's test for success is proved for one thread, since references come and go during a concurrent sweep.
- CacheHandle's default constructor leaves its pointers uninitialised; the model starts with empty ones. Choosing a shard by the low bits of the hash is not modelled.
- The rows of access control and extra data of a directory, and the listing of directories; a directory's listing is a map, not its encoding, and a table with a type has a listing.
- Rollback, getHash, read-only calls, message bookkeeping, the EVM and its host interface, and all other precompiled contracts.
