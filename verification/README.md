# Verified models of the Sawtooth validator's core and its tools

This project models the parts of a Sawtooth node where the logic is hardest, in
Dafny, and proves what they promise. Each component comes as specification
values and functions, as the objects and loops that compute them where the
program works by changing state, and as theorems over every input, every graph,
every interleaving or every run.

- **Transaction execution contexts.** A transaction reads and writes through an
  overlay of address futures on base contexts on a Merkle root. Reading searches
  the bases breadth first; squash walks the same graph and collapses it into one
  update; two threads deliver prefetched values. Proved: squash is sequential
  replay; on every base graph, exactly when it is replay in topological order;
  over every run and on every base graph, exactly which steps make a read disagree
  with squash, and at exactly which addresses; no prefetch is lost, and exactly
  which deletes lose one; what every operation answers and refuses, and what squash
  leaves alone.
  (`Futures`, `ContextGraph`, `Squash`, `DagSquash`, `GraphSquash`, `Contexts`,
  `ManagerSpec`, `ContextManager`, `ManagerRuns`, `DirectWrites`,
  `Permissions`, `ManagerAnswers`, `FrozenRuns`, `ThreadRounds`, `PrefetchRuns`,
  `ReadCoherence`, `LateWrites`, `CoherentRuns`, `ReadRuns`, `GraphReads`,
  `GraphCoherence`, `NewContextWalk`, `GraphRuns`, `GraphChains`, `SquashRuns`,
  `ContextExamples`, `GraphExamples`)
- **Chain comparison.** Block streams of several peers are aligned and walked back
  to their highest common block, recorded in a graph that is walked level by
  level. (`ForkGraph`, `ForkWalk`, `ChainNetwork`, `ChainCompare`)
- **Block store.** A table of blocks with three indexes, and the prune, import,
  backup, restore and statistics commands. (`Indexes`, `ByteOrder`, `Blockstore`,
  `ChainStores`, `BlockstoreCommands`, `BlockBackup`, `BlockStats`,
  `StoreClimbs`)
- **Indexed database.** A generic table with named indexes, indexed reads and
  cursors. (`IndexedDatabase`, `IndexedCursors`)
- **Processor allocation.** Round-robin dispatch with bounded occupancy, retries,
  and processors that leave at any moment. (`RoundRobin`, `ProcessorSpec`,
  `Processors`, `Executor`, `ExecutorRuns`, `ExecutorThread`, `ExecutorExamples`,
  `DispatchRuns`, `DispatchExamples`)
- **Battleship boards.** Placement, saving and random generation of layouts.
  (`Battleship`, `BoardLayout`)
- **Integer-key workload.** Generated payloads replayed through the Python and the
  Rust transaction handler. (`IntKeyWorkload`)

`dafny verify dfyconfig.toml` checks everything.

Several properties one might expect are false of the code. The model keeps the
code as it is, shows an input where the property fails, and proves exactly when
it holds:

- A read of an address deleted in the same context returns the old value
  (`ContextExamples.StaleReadRun`, `ReadCoherence.GetAgreesExactly`).
- Writing a base after a context took its value over makes reads disagree with
  squash (`ContextExamples.LateBaseWriteBreaksReads`,
  `ReadRuns.RunReadsExactly`, `CoherentRuns.RunKeepsCoherentExactly`).
- On several bases a read takes the value of a base that only read it over one that
  set it, and so does a new context (`GraphExamples.SiblingsRunDisagrees`,
  `GraphExamples.SiblingsRunSpoils`, `GraphReads.GraphReadsExactly`,
  `GraphRuns.RunAllReadsExactly`).
- A delete after a set that overtook the tree's answer leaves a future waiting
  with nothing under way for it (`ContextExamples.StrandingRunBlocks`,
  `PrefetchRuns.RunLosesExactly`).
- A context that was squashed still takes a set of a new address
  (`FrozenRuns.LateSetIsTaken`, `FrozenRuns.SetWritesExactly`,
  `FrozenRuns.SquashFreezesExactly`).
- Breadth-first squash can let an ancestor override its descendant
  (`GraphExamples.DiamondRunDisagrees`, `GraphSquash.ManagerSquashExactly`).
- Import checks only the parent (`BlockstoreCommands.ImportOfOrphan`,
  `BlockstoreCommands.ImportExtends`).
- Cursors take a value that packs to nothing for a missing one
  (`IndexedCursors.EmptyValueStopsCursor`, `IndexedCursors.CursorIsExact`).
- A refused append leaves the ship in the layout if its column has no letter, or if
  it leaves the board before it comes to a marked cell
  (`Battleship.UnletteredColumnKeepsShip`, `Battleship.OverhangingShipStays`,
  `Battleship.AppendExactly`).
- The requests of a broken connection are never retried
  (`ExecutorThreads.TransactionExecutorThread.RemoveBrokenConnection`).
- A processor that leaves while busy loses its answers
  (`ExecutorExamples.BusyRemovalLosesAnswer`,
  `Executor.ResponsesAreServedExactly`), and one that returns before they arrive
  ends up with a negative occupancy (`ExecutorExamples.ReturnBreaksOccupancy`,
  `Executor.OccupancyIsConservedExactly`).
- A transaction that has waited for a vacancy passes over the processor whose turn
  it is (`DispatchExamples.WaitingPassesOver`, `DispatchRuns.DispatchInTurnExactly`,
  `DispatchRuns.ExecutorIsFair`).
- The Python integer-key handler accepts values of more than 32 bits
  (`IntKeyWorkload.OversizedSetIsAccepted`,
  `IntKeyWorkload.HandlerStaysInRangeExactly`).
- The Rust integer-key handler refuses valid payloads of the workload once a name
  is drawn again (`IntKeyWorkload.RepeatedNameIsRefused`,
  `IntKeyWorkload.ReplayIsAcceptedExactly`).

## Model

| member | source | states |
|---|---|---|
| `Futures.ContextFuture.MakeReadOnly` | validator/sawtooth_validator/execution/execution_context.py:425-431 | Freezing only raises the read-only flag; its precondition is the condition the source waits for |
| `Futures.ContextFuture.Result` | validator/sawtooth_validator/execution/execution_context.py:441-455 | The result is returned as soon as the future is frozen or no longer waits for the tree |
| `Futures.ContextFuture.SetDeleted` | validator/sawtooth_validator/execution/execution_context.py:457-459 | A delete clears the set flag, keeps the old result and ignores the read-only flag |
| `Futures.ContextFuture.SetDirect` | validator/sawtooth_validator/execution/execution_context.py:461-500 | A direct set on a future that is not frozen stores the value, marks it set and takes back a delete |
| `Futures.ContextFuture.SetFromTree` | validator/sawtooth_validator/execution/execution_context.py:461-500 | A tree delivery is dropped when the future is frozen or already set, and only then does not raise the tree flag |
| `Futures.ObservedIsLastDirect` | validator/sawtooth_validator/execution/execution_context.py:198-228 | For every interleaving of sets, deletes, freezing and tree deliveries, what squash sees is the last direct operation that counts, and set and deleted never hold together |
| `Futures.LastDirectIgnoresTree` | validator/sawtooth_validator/execution/execution_context.py:461-500 | Removing all tree deliveries from an interleaving does not change the last direct operation that counts |
| `Futures.InterleavingIndependence` | validator/sawtooth_validator/execution/execution_context.py:461-500 | Two interleavings with the same direct operations are observed alike by squash, wherever the tree deliveries fall and whether or not the futures were waiting |
| `ContextGraph.NewBases` | validator/sawtooth_validator/execution/context_manager.py:209-212 | The bases enqueued are exactly the ones not searched yet, each once |
| `ContextGraph.WalkShrinks` | validator/sawtooth_validator/execution/context_manager.py:167-212 | Every visit uses up as many unseen ids as it enqueues, so the walk ends on any finite base graph, cyclic or not |
| `ContextGraph.WalkIsSound` | validator/sawtooth_validator/execution/context_manager.py:376-401 | The walk visits only reachable contexts and stops early only at a reachable unregistered one |
| `ContextGraph.WalkIsComplete` | validator/sawtooth_validator/execution/context_manager.py:376-401 | A walk that completes has visited everything it ever enqueued, and all bases of what it visited |
| `ContextGraph.WalkVisitsReachable` | validator/sawtooth_validator/execution/context_manager.py:376-401 | The walk completes if and only if every reachable context is registered, and then visits exactly the reachable ones |
| `ContextGraph.WalkVisitsOnce` | validator/sawtooth_validator/execution/context_manager.py:376-401 | From distinct ids no context is visited twice |
| `Squash.Absorb` | validator/sawtooth_validator/execution/context_manager.py:382-396 | Merging an older context keeps updates and deletes disjoint and covers exactly the addresses of both |
| `Squash.AbsorbIsApply` | validator/sawtooth_validator/execution/context_manager.py:382-396 | Merging an older context under newer changes equals applying its writes to the tree first |
| `Squash.FilterIsUpdate` | validator/sawtooth_validator/execution/context_manager.py:405-412 | Cutting the deletes down to addresses present in the tree does not change the update |
| `Squash.CollectIsReplay` | validator/sawtooth_validator/execution/context_manager.py:376-401 | Collected changes are disjoint, and applying them equals replaying the visited contexts, last visited first |
| `Squash.SquashIsReplay` | validator/sawtooth_validator/execution/context_manager.py:366-416 | The whole squash, including the filter of deletes, equals sequential replay in reverse visit order |
| `Squash.ReplayAt` | validator/sawtooth_validator/execution/context_manager.py:382-396 | After a replay an address holds what its last writer left there |
| `Squash.SquashFrame` | validator/sawtooth_validator/execution/context_manager.py:382-412 | An address no visited context writes keeps its value |
| `DagSquash.LastWriterIsFixed` | validator/sawtooth_validator/execution/context_manager.py:376-401 | If contexts that share an address are related, its last writer is the same in every topological order |
| `DagSquash.ReplayIsOrderIndependent` | validator/sawtooth_validator/execution/context_manager.py:376-401 | Replay gives the same tree in every topological order |
| `DagSquash.SquashIsTopologicalReplay` | validator/sawtooth_validator/execution/context_manager.py:376-401 | If every context is visited before its ancestors, squash equals replay in any topological order |
| `DagSquash.EarlyAncestorWins` | validator/sawtooth_validator/execution/context_manager.py:376-401 | If some ancestor is visited before its descendant, some writes make squash differ from replay |
| `DagSquash.SquashAgreesExactly` | validator/sawtooth_validator/execution/context_manager.py:376-401 | Squash agrees with topological replay for all writes if and only if the walk visits every context before its ancestors |
| `DagSquash.UnevenDiamondWalk` | validator/sawtooth_validator/execution/context_manager.py:376-401 | On a concrete graph the breadth-first walk visits an ancestor first |
| `GraphSquash.ManagerSquashExactly` | validator/sawtooth_validator/execution/context_manager.py:366-416 | For the base graph of any set of contexts, squash agrees with topological replay whatever is written if and only if the manager's own walk visits every context before its ancestors |
| `GraphSquash.ManagerSquashIsTopological` | validator/sawtooth_validator/execution/context_manager.py:366-416 | Where it does and contexts that share an address are related, squash is topological replay |
| `GraphSquash.EvenVisitsBeforeAncestors` | validator/sawtooth_validator/execution/context_manager.py:376-401 | On a graph in even levels the walk visits every context before its ancestors |
| `GraphExamples.DiamondRunDisagrees` | validator/sawtooth_validator/execution/context_manager.py:89-416 | A concrete run of the manager whose contexts form that graph: squash keeps the ancestor's value, topological replay its descendant's |
| `DagSquash.UnevenDiamondDisagrees` | validator/sawtooth_validator/execution/context_manager.py:376-401 | On that graph squash can keep an ancestor's value over its descendant's |
| `Contexts.ExecutionContext.SetDirect` | validator/sawtooth_validator/execution/execution_context.py:293-336 | Addresses are set in order up to the first unauthorised one; it succeeds if and only if all are authorised, and the earlier ones stay set |
| `Contexts.ExecutionContext.DeleteDirect` | validator/sawtooth_validator/execution/execution_context.py:271-291 | Addresses are deleted in order up to the first unauthorised one; it succeeds if and only if all are authorised |
| `Contexts.ExecutionContext.CreatePrefetch` | validator/sawtooth_validator/execution/execution_context.py:230-242 | Each address gets a fresh future that waits for the tree; others are unchanged |
| `Contexts.ExecutionContext.CreateInitial` | validator/sawtooth_validator/execution/execution_context.py:244-255 | Each address gets a fresh future with its value, not waiting; others are unchanged |
| `Contexts.ExecutionContext.SetFromTree` | validator/sawtooth_validator/execution/execution_context.py:257-269 | Tree values reach exactly the futures present |
| `Contexts.ExecutionContext.MakeReadOnly` | validator/sawtooth_validator/execution/execution_context.py:119-124 | Every future is frozen, once |
| `Contexts.ExecutionContext.GetIfDeleted` | validator/sawtooth_validator/execution/execution_context.py:163-178 | The loop finds exactly the asked addresses deleted in this context |
| `Contexts.ExecutionContext.GetIfSet` | validator/sawtooth_validator/execution/execution_context.py:145-161 | The loop finds exactly the asked addresses set in this context, with their values |
| `Contexts.ExecutionContext.GetIfNotSet` | validator/sawtooth_validator/execution/execution_context.py:180-196 | The loop finds the held value of every asked address that is present and not set here |
| `Contexts.ExecutionContext.Search` | validator/sawtooth_validator/execution/context_manager.py:175-207 | One context answers exactly the asked addresses it holds: nothing for deleted ones, else the held value |
| `Contexts.ExecutionContext.GetAllIfSet` | validator/sawtooth_validator/execution/execution_context.py:198-212 | Exactly the set addresses with their values |
| `Contexts.ExecutionContext.GetAllIfDeleted` | validator/sawtooth_validator/execution/execution_context.py:214-228 | Exactly the deleted addresses |
| `ContextManagers.ContextManager.FindAddressValuesInChain` | validator/sawtooth_validator/execution/context_manager.py:143-214 | The loop computes the breadth-first search over base contexts, with the missing-context error |
| `ContextManagers.ContextManager.CreateContext` | validator/sawtooth_validator/execution/context_manager.py:89-141 | A new context holds what the search found and waits for the rest, which is queued for the reader; invalid namespaces and missing bases leave everything unchanged |
| `ContextManagers.ContextManager.AddContext` | validator/sawtooth_validator/execution/context_manager.py:119-141 | Registering a context queues exactly its missing addresses |
| `ContextManagers.ContextManager.DeleteContexts` | validator/sawtooth_validator/execution/context_manager.py:216-228 | Exactly the named contexts are removed; unknown names are skipped |
| `ContextManagers.ContextManager.Set` | validator/sawtooth_validator/execution/context_manager.py:331-363 | Sets through the context, or fails before any write if an address is malformed; a repeated address takes its last value |
| `ContextManagers.ContextManager.BuildDict` | validator/sawtooth_validator/execution/context_manager.py:356-361 | Collects the pairs in order, the last value of an address winning, or finds a malformed address |
| `ContextManagers.ContextManager.Delete` | validator/sawtooth_validator/execution/context_manager.py:230-262 | Deletes through the context, or fails before any delete if an address is malformed |
| `DirectWrites.AuthorizedIsLongest` | validator/sawtooth_validator/execution/execution_context.py:285-336 | A set or delete gets to the longest run of addresses that each start with an entry of the outputs |
| `DirectWrites.SetAt` | validator/sawtooth_validator/execution/execution_context.py:293-314 | A set gives every address it gets to its own value and leaves every other future alone |
| `DirectWrites.DeleteAt` | validator/sawtooth_validator/execution/execution_context.py:271-291 | A delete marks every address it gets to and leaves every other future alone |
| `DirectWrites.DictHoldsLast` | validator/sawtooth_validator/execution/context_manager.py:356-361 | The addresses set are exactly those named, each with the value of the last pair that names it |
| `DirectWrites.DictInOrder` | validator/sawtooth_validator/execution/context_manager.py:356-361 | They are set in the order in which they are first named |
| `DirectWrites.SetAnswersExactly` | validator/sawtooth_validator/execution/context_manager.py:331-363 | A set succeeds if and only if all addresses named are well formed and start with an output; without the context it answers false, otherwise it is refused |
| `DirectWrites.SetTakesEffect` | validator/sawtooth_validator/execution/context_manager.py:331-363 | After a set that succeeds on a context that is not frozen, every address named reads, where it may be read, and squashes as the last value given for it |
| `DirectWrites.SetLeavesRest` | validator/sawtooth_validator/execution/context_manager.py:331-363 | A set, also one refused part way, leaves other contexts and addresses not named as they were |
| `DirectWrites.DeleteAnswersExactly` | validator/sawtooth_validator/execution/context_manager.py:230-262 | A delete succeeds if and only if all addresses are well formed and start with an output; without the context it answers false |
| `DirectWrites.DeleteTakesEffect` | validator/sawtooth_validator/execution/context_manager.py:230-262 | After a delete that succeeds, squash keeps no value at any address named, while a read, where it may be read, still returns what the context held there before |
| `ContextManagers.ContextManager.Get` | validator/sawtooth_validator/execution/context_manager.py:264-329 | Values from the context, then from the search, then from the tree; authorisation and lost contexts as in the source |
| `Permissions.GetRefusesExactly` | validator/sawtooth_validator/execution/context_manager.py:283-301 | A read is refused if and only if it asks for an address that is malformed or starts with no entry of the read list, so no answer holds one |
| `Permissions.RunKeepsLists` | validator/sawtooth_validator/execution/context_manager.py:89-141 | After every run each context has the inputs and outputs it was created with |
| `Permissions.RunsAreAuthorized` | validator/sawtooth_validator/execution/context_manager.py:89-363 | In every reachable state a read is refused if and only if it asks for an address that is malformed or starts with none of the inputs its context was created with; and a set or delete likewise, with the outputs |
| `ManagerAnswers.FindFailsExactly` | validator/sawtooth_validator/execution/context_manager.py:143-214 | The search fails if and only if it comes to an unregistered context while no context before holds some address asked for |
| `ManagerAnswers.GetAnswersExactly` | validator/sawtooth_validator/execution/context_manager.py:264-329 | A read from an unregistered context is answered with nothing; an authorised one answers all addresses, or none at all if and only if the search fails for those the context does not hold |
| `ManagerAnswers.CreateAnswersExactly` | validator/sawtooth_validator/execution/context_manager.py:89-141 | A creation is refused for an invalid input or output, fails for an unregistered base or where the search for its full addresses fails, and otherwise succeeds |
| `ManagerAnswers.CreateAddsExactly` | validator/sawtooth_validator/execution/context_manager.py:89-141 | A refused creation changes nothing; a new context has the given root, bases, inputs and outputs and holds exactly the full addresses among its inputs |
| `ContextManagers.ContextManager.FreezeAndRead` | validator/sawtooth_validator/execution/context_manager.py:377-391 | A visited context is frozen and its own writes are read off, which freezing does not change |
| `ContextManagers.ContextManager.FreezeVisited` | validator/sawtooth_validator/execution/context_manager.py:367-401 | The loop freezes the contexts of the walk one by one and merges their writes, and stops at a missing context |
| `ContextManagers.ContextManager.CollectWrites` | validator/sawtooth_validator/execution/context_manager.py:367-401 | Exactly the contexts of the walk are frozen and their writes collected, also when it meets a missing context |
| `ContextManagers.ContextManager.Squash` | validator/sawtooth_validator/execution/context_manager.py:366-416 | The whole squash: new root, stored tree, frozen and removed contexts, and both errors |
| `ContextManagers.ContextManager.Finish` | validator/sawtooth_validator/execution/context_manager.py:403-416 | Only a real change makes a new root; the tree is stored only if asked to persist; clean-up removes the visited contexts |
| `ContextManagers.Merge` | validator/sawtooth_validator/execution/context_manager.py:382-396 | The two merge loops compute the merge that keeps newer changes |
| `ContextManagers.ContextManager.ReadOne` | validator/sawtooth_validator/execution/context_manager.py:487-502 | One round of the reader thread answers its request from the tree of the request's root |
| `ContextManagers.ContextManager.WriteOne` | validator/sawtooth_validator/execution/context_manager.py:523-532 | One round of the writer thread delivers to its context if that is still registered |
| `ManagerRuns.SetAllKeepsOk` | validator/sawtooth_validator/execution/execution_context.py:293-336 | A set, also one refused part way, leaves every written address covered by the outputs |
| `ManagerRuns.DeleteAllKeepsOk` | validator/sawtooth_validator/execution/execution_context.py:271-291 | So does a delete |
| `ManagerRuns.StepKeepsWf` | validator/sawtooth_validator/execution/context_manager.py:89-416 | Every step of clients and threads keeps: bases older than their contexts, known roots, sound futures, covered writes, queued requests with known roots |
| `ManagerRuns.RunKeepsWf` | validator/sawtooth_validator/execution/context_manager.py:89-416 | So does every run |
| `PrefetchRuns.StepLosesExactly` | validator/sawtooth_validator/execution/execution_context.py:457-500 | From a state where every waiting future has its delivery under way, a step breaks that if and only if it deletes a set address whose tree answer was dropped |
| `PrefetchRuns.RunLosesExactly` | validator/sawtooth_validator/execution/context_manager.py:487-532 | In every run, every waiting future has its delivery under way at every moment if and only if no delete of the run does that |
| `PrefetchRuns.NeverDeletesSetNeverOrphans` | validator/sawtooth_validator/execution/execution_context.py:457-500 | A run that never deletes an address already set is such a run |
| `PrefetchRuns.ThreadStepShrinks` | validator/sawtooth_validator/execution/context_manager.py:487-532 | Every thread step shrinks the work under way |
| `PrefetchRuns.ThreadCanMove` | validator/sawtooth_validator/execution/context_manager.py:487-532 | While something is under way some thread can move |
| `PrefetchRuns.IdleMeansNobodyWaits` | validator/sawtooth_validator/execution/execution_context.py:425-455 | When nothing is under way no read and no freeze waits |
| `PrefetchRuns.DrainingUnblocks` | validator/sawtooth_validator/execution/context_manager.py:487-532 | The threads alone always drain both queues, and then no future blocks a reader or squash |
| `ThreadRounds.ReaderRoundIsSteps` | validator/sawtooth_validator/execution/context_manager.py:487-502 | A round of the reader is its two steps |
| `ThreadRounds.DeliveriesDeliver` | validator/sawtooth_validator/execution/context_manager.py:523-532 | Delivering an answer one address at a time, in any order, delivers it whole |
| `ThreadRounds.WriterRoundIsSteps` | validator/sawtooth_validator/execution/context_manager.py:523-532 | A round of the writer is its steps, in any order of addresses; the answer of a lost context is dropped |
| `ReadCoherence.WalkFollowsChain` | validator/sawtooth_validator/execution/context_manager.py:376-401 | On single-base chains the walk goes from the newest context to the oldest |
| `ReadCoherence.SquashOfChain` | validator/sawtooth_validator/execution/context_manager.py:366-416 | Squashing a chain equals applying its contexts oldest to newest |
| `ReadCoherence.FindOnChain` | validator/sawtooth_validator/execution/context_manager.py:143-214 | The search along a chain finds exactly the values of the squashed chain, and what it misses is unchanged from the tree |
| `ReadCoherence.GetAssembles` | validator/sawtooth_validator/execution/context_manager.py:290-329 | A read without errors puts together direct, found and stored values |
| `ReadCoherence.GetAgreesExactly` | validator/sawtooth_validator/execution/context_manager.py:264-329 | A read agrees with the squashed tree at an address if and only if the context has not deleted that address while its future still holds a value |
| `CoherentRuns.NewContextFinds` | validator/sawtooth_validator/execution/context_manager.py:113-141 | What a new context takes over or waits for is what its bases show |
| `LateWrites.ThroughIsBelow` | validator/sawtooth_validator/execution/context_manager.py:143-214 | At an address a context sees through its bases, its base view is that of the context it sees |
| `LateWrites.BaseKept` | validator/sawtooth_validator/execution/context_manager.py:143-214 | Writing a context leaves the base view of others alone at addresses they do not see through to it |
| `LateWrites.BaseShown` | validator/sawtooth_validator/execution/context_manager.py:143-214 | At the addresses they see through to it, others now have what the written context shows |
| `LateWrites.NotOvertakenStaysFaithful` | validator/sawtooth_validator/execution/context_manager.py:331-363 | A write that overtakes no value taken over from its context keeps all futures faithful |
| `LateWrites.OvertakenIsUnfaithful` | validator/sawtooth_validator/execution/context_manager.py:331-363 | A write that overtakes one does not |
| `LateWrites.OvertakenReadDisagrees` | validator/sawtooth_validator/execution/context_manager.py:264-329 | In a state where untouched futures are readable, a read of an overtaken value that need not wait is authorised and returns what was taken over, which is not what squash then keeps |
| `CoherentRuns.WriteKeepsCoherentExactly` | validator/sawtooth_validator/execution/context_manager.py:230-363 | A set or delete keeps coherence if and only if it overtakes no value taken over by a context built on its own |
| `CoherentRuns.StepKeepsCoherentExactly` | validator/sawtooth_validator/execution/context_manager.py:89-416 | Of all steps of clients and threads exactly those writes break coherence |
| `CoherentRuns.RunKeepsCoherentExactly` | validator/sawtooth_validator/execution/context_manager.py:89-416 | Over every run all futures and queued items are faithful at every moment if and only if no such write happens |
| `CoherentRuns.BasesAloneNeverLate` | validator/sawtooth_validator/execution/context_manager.py:89-416 | A run that writes to no base of another context has no such write |
| `CoherentRuns.ReadsAgreeWithSquash` | validator/sawtooth_validator/execution/context_manager.py:264-416 | In every run without such a write, a read of authorised addresses answers all of them, and agrees with squashing the reading context onto its root exactly where the address is not stale |
| `ReadRuns.StepKeepsReadable` | validator/sawtooth_validator/execution/context_manager.py:89-416 | Every step keeps: what a context has taken over or waits for is of addresses it may read |
| `ReadRuns.ReadsAgreeExactly` | validator/sawtooth_validator/execution/context_manager.py:264-329 | All authorised reads that need not wait agree with squash at addresses that are not stale if and only if every readable untouched future shows what its base shows |
| `ReadRuns.StepShownExactly` | validator/sawtooth_validator/execution/context_manager.py:89-416 | A step breaks this if and only if it is a write that overtakes a readable value or a delivery of a value the base no longer shows |
| `ReadRuns.RunReadsExactly` | validator/sawtooth_validator/execution/context_manager.py:89-416 | Over every run from the start all such reads agree at every moment if and only if no step is one of these |
| `ReadRuns.WriteReadsExactly` | validator/sawtooth_validator/execution/context_manager.py:331-363 | Where all futures are faithful and nobody waits, a write makes some read disagree if and only if it overtakes a value taken over |
| `ReadRuns.NeverLateNeverSpoils` | validator/sawtooth_validator/execution/context_manager.py:331-363 | A run without writes that overtake a value has no such step |
| `GraphReads.SquashTakesWriter` | validator/sawtooth_validator/execution/context_manager.py:366-416 | On any base graph squash keeps what the first writer of the walk left |
| `GraphReads.GetTakesHolders` | validator/sawtooth_validator/execution/context_manager.py:264-329 | On any base graph a read takes every address from the first context of the walk that holds it, even one that only read it |
| `GraphReads.GraphReadsExactly` | validator/sawtooth_validator/execution/context_manager.py:143-329 | On any base graph a read agrees with squash at an address if and only if its first holder wrote it or took it over with the value the first writer left |
| `GraphCoherence.VisitedIsWhole` | validator/sawtooth_validator/execution/context_manager.py:376-401 | Whatever a walk that completes has visited can itself be squashed |
| `GraphCoherence.ReadAgreesAt` | validator/sawtooth_validator/execution/context_manager.py:143-329 | On any base graph where everything held is right, a read agrees with squash at an address if and only if the address is not stale and the first holder does not show another value by its own walk than the reader |
| `GraphCoherence.SameWriterIsNotAcross` | validator/sawtooth_validator/execution/context_manager.py:143-329 | Reader and holder agree if their walks have the same first writer of the address and one root |
| `GraphCoherence.AllReadsAgreeExactly` | validator/sawtooth_validator/execution/context_manager.py:143-329 | On any base graphs all authorised reads that need not wait agree with squash, except at stale addresses, if and only if every readable future that was only read holds what squashing its own context keeps, and nobody reads past a holder whose walk shows another value |
| `NewContextWalk.WalkRepeats` | validator/sawtooth_validator/execution/context_manager.py:376-401 | A walk from repeated ids completes exactly if the walk from each once does, and visits the same contexts, leaving out repetitions |
| `NewContextWalk.NewOrder` | validator/sawtooth_validator/execution/context_manager.py:376-401 | The walk of a new context is itself, then the walk from its bases without repetition |
| `NewContextWalk.NewKept` | validator/sawtooth_validator/execution/context_manager.py:376-401 | Squashing a new context keeps what the first writer behind its bases left, or the tree |
| `GraphRuns.CreateRightExactly` | validator/sawtooth_validator/execution/context_manager.py:89-141 | A creation keeps everything held right if and only if the new context takes over no address from a base that has only read it and whose own walk shows another value there |
| `GraphRuns.WriteRightExactly` | validator/sawtooth_validator/execution/context_manager.py:230-363 | A set or delete keeps everything held right if and only if it leaves what squashing any other context keeps as it was at every readable address that context has only read |
| `GraphRuns.DeliveryRightExactly` | validator/sawtooth_validator/execution/execution_context.py:461-500 | A delivery keeps everything held right if and only if it does not bring a value to an unfrozen, only read future that squashing its context would not keep |
| `GraphRuns.StepRightExactly` | validator/sawtooth_validator/execution/context_manager.py:89-416 | Of all client and thread steps exactly these break it, whatever the base graph |
| `GraphRuns.RunAllReadsExactly` | validator/sawtooth_validator/execution/context_manager.py:89-416 | Over every run from the start, with any number of bases, all such reads agree at every moment if and only if no step is one of these and nobody ever reads past a holder whose walk shows another value |
| `GraphChains.ChainIsNotAcross` | validator/sawtooth_validator/execution/context_manager.py:143-214 | On a chain of single bases no holder shows another value than the reader |
| `GraphChains.ChainTakesNothing` | validator/sawtooth_validator/execution/context_manager.py:89-141 | A context created on a chain and its root takes over nothing that shows another value |
| `GraphChains.ChainReadsAreAll` | validator/sawtooth_validator/execution/context_manager.py:143-329 | Where all contexts form chains the condition on graphs is the condition on chains |
| `GraphChains.LeafWriteSpoilsNothing` | validator/sawtooth_validator/execution/context_manager.py:230-363 | A write to a context that nobody is based on spoils nothing on any base graph |
| `GraphExamples.SiblingsRunDisagrees` | validator/sawtooth_validator/execution/context_manager.py:143-214 | A concrete run: on two bases a read returns the tree's value, which the first base had read, while squash keeps what the second had set; the reader sees across exactly if the two values differ |
| `GraphExamples.SiblingsRunSpoils` | validator/sawtooth_validator/execution/context_manager.py:89-141 | After the same run, creating a context on both bases that asks for the address spoils what is held if and only if the tree has another value |
| `SquashRuns.SquashReturnsReplay` | validator/sawtooth_validator/execution/context_manager.py:366-416 | The returned root names the replayed tree; it is the old root only if the replay changes nothing |
| `ManagerAnswers.SquashFailsExactly` | validator/sawtooth_validator/execution/context_manager.py:366-416 | Squash fails for a missing context exactly if one is reachable, else for an unknown root, and else succeeds |
| `ManagerAnswers.SquashTouchesExactly` | validator/sawtooth_validator/execution/context_manager.py:366-416 | Squash freezes exactly the contexts it visits, also when it fails, keeps what they have written, drops them only in a clean-up that succeeds, and leaves all others and the queues alone |
| `ManagerAnswers.CollectsFirst` | validator/sawtooth_validator/execution/context_manager.py:376-397 | At every address squash collects what the first context of the walk that writes it did |
| `ManagerAnswers.SquashReturnsExactly` | validator/sawtooth_validator/execution/context_manager.py:403-416 | A squash that succeeds returns the given root if nobody writes and nobody deletes an address of the tree; otherwise the root of the squashed tree, stored on request |
| `FrozenRuns.SquashFreezesExactly` | validator/sawtooth_validator/execution/execution_context.py:116-124 | After squash an address held by a visited context is frozen if and only if the context was not frozen before or the address already was |
| `FrozenRuns.SquashedStaysWritten` | validator/sawtooth_validator/execution/execution_context.py:457-500 | What a squash has collected from a context that was not frozen before, no step of any later run changes but a delete of that address |
| `FrozenRuns.SetWritesExactly` | validator/sawtooth_validator/execution/execution_context.py:293-314 | A set changes what a context has written if and only if it gets to an address that is neither frozen there nor set there to the same value |
| `FrozenRuns.LateSetIsTaken` | validator/sawtooth_validator/execution/execution_context.py:293-314 | A concrete run: a squashed context takes a set of a new address |
| `SquashRuns.CleanUpRemovesReachable` | validator/sawtooth_validator/execution/context_manager.py:398-416 | Squash misses a context if and only if a reachable one is unregistered; clean-up removes exactly the reachable contexts |
| `SquashRuns.CoveredSquashFrame` | validator/sawtooth_validator/execution/context_manager.py:382-412 | If writes are covered by outputs, squash changes no address outside the outputs of visited contexts |
| `SquashRuns.SquashFrameInRuns` | validator/sawtooth_validator/execution/execution_context.py:271-336 | This holds in every reachable state, also after a set refused part way |
| `ContextExamples.StrandingRunBlocks` | validator/sawtooth_validator/execution/execution_context.py:457-500 | A concrete run: set before the tree answers, delete after; the future then waits while nothing is under way for it |
| `ContextExamples.StaleReadRun` | validator/sawtooth_validator/execution/execution_context.py:457-459 | A concrete run: set, then delete; the context still reads the value, squash does not keep it |
| `ContextExamples.LateBaseWriteBreaksReads` | validator/sawtooth_validator/execution/context_manager.py:89-141 | A concrete run from the start: a base is written after a context was built on it, and a read then disagrees with squash |
| `ForkGraphs.ForkGraphNode.AddSibling` | cli/sawtooth_cli/network_command/fork_graph.py:47-52 | Lists the peer under the block, or fails and changes nothing where the source asserts |
| `ForkGraphs.ForkGraph.NodeFor` | cli/sawtooth_cli/network_command/fork_graph.py:72-76 | The node under a parent id, created if absent |
| `ForkGraphs.ForkGraph.AddBlock` | cli/sawtooth_cli/network_command/fork_graph.py:72-80 | Adds the peer to the block's entry if number and parent fit; the root moves only to a lower block |
| `ForkGraphs.AddLists` | cli/sawtooth_cli/network_command/fork_graph.py:72-80 | Adding lists exactly one more pair of peer and block |
| `ForkGraphs.AddKeepsTidy` | cli/sawtooth_cli/network_command/fork_graph.py:47-52 | Adding an unlisted pair keeps every peer listed once per block |
| `ForkWalk.WalkStep` | cli/sawtooth_cli/network_command/fork_graph.py:90-97 | Yielding the queue's head and queueing its children keeps: no repetition, level order, children after parents |
| `ForkWalk.WalkReachesExactly` | cli/sawtooth_cli/network_command/fork_graph.py:90-97 | When the queue is empty exactly the nodes above the start have been yielded |
| `ForkWalk.AllDescend` | cli/sawtooth_cli/network_command/fork_graph.py:82-97 | Every node of a tree in levels is above its root |
| `ForkWalk.Walk` | cli/sawtooth_cli/network_command/fork_graph.py:82-97 | On a levelled graph the walk from the root or a given node ends and yields exactly the nodes above it, once each, in nondecreasing number; an empty graph has no start |
| `ForkWalk.LevelsAreContiguous` | cli/sawtooth_cli/network_command/compare.py:271-285 | All nodes of one number are yielded one after another |
| `ChainNetwork.SameParentSameHeight` | cli/sawtooth_cli/network_command/fork_graph.py:47-52 | On linked chains that agree on ids, blocks with one parent have one height, so the assertion cannot fail |
| `ChainNetwork.RecordNext` | cli/sawtooth_cli/network_command/fork_graph.py:72-80 | Storing the next block down a chain always fits and records exactly that block for that peer |
| `ChainNetwork.RecordedIsLevelled` | cli/sawtooth_cli/network_command/fork_graph.py:55-97 | A graph of all blocks down to a common one is a tree in levels, as the walk needs |
| `ChainNetwork.FirstSameIsCommonAncestor` | cli/sawtooth_cli/network_command/compare.py:602-623 | The first height, going down, where all chains have the same block is that of the highest block common to all |
| `ChainCompare.ExtendTail` | cli/sawtooth_cli/network_command/compare.py:558-569 | A stream is read back to its first block that is low enough, or to its end |
| `ChainCompare.FirstBlocks` | cli/sawtooth_cli/network_command/compare.py:546-553 | The first block of every stream that has one; the others are bad |
| `ChainCompare.MinNum` | cli/sawtooth_cli/network_command/compare.py:555-556 | The least block number among the heads |
| `ChainCompare.GetTails` | cli/sawtooth_cli/network_command/compare.py:528-571 | For any streams: every tail is read down to the least number of a first block, and exactly the streams that are dry before are bad; there is no result if all are dry |
| `ChainCompare.TailsOfChains` | cli/sawtooth_cli/network_command/compare.py:528-571 | Of whole chains none is bad, and all tails start at the height of the shortest chain |
| `ChainCompare.AddTails` | cli/sawtooth_cli/network_command/compare.py:597-600 | All tails are recorded and the first chain's lowest block is the root |
| `ChainCompare.AddHeads` | cli/sawtooth_cli/network_command/compare.py:620-621 | One more level of every chain is recorded |
| `ChainCompare.CompareAcross` | cli/sawtooth_cli/network_command/compare.py:574-580 | True if and only if all keys are equal |
| `ChainCompare.AllSame` | cli/sawtooth_cli/network_command/compare.py:602-606 | Equal ids at one height mean the same block in all chains |
| `ChainCompare.ReadRound` | cli/sawtooth_cli/network_command/compare.py:611-618 | One block of every stream; if all are dry everyone is bad, and without an earlier block there is none to stand in |
| `ChainCompare.SameBelow` | cli/sawtooth_cli/network_command/compare.py:608-623 | Chains that share a block share all blocks below it |
| `ChainCompare.StepBack` | cli/sawtooth_cli/network_command/compare.py:610-623 | One round reads and stores one block of every chain and tells whether they agree, or all chains end together |
| `ChainCompare.WalkBack` | cli/sawtooth_cli/network_command/compare.py:608-623 | The loop ends at the first height where all chains agree; chains that share no genesis block are all bad, or the search fails if the shortest is a genesis block alone |
| `ChainCompare.BuildForkGraph` | cli/sawtooth_cli/network_command/compare.py:583-627 | No chain is bad if and only if all share their genesis block; then the root is the highest block common to all, and every block from there up lists exactly the peers that have it, once each |
| `ChainCompare.CompareChains` | cli/sawtooth_cli/network_command/compare.py:528-627 | Tails, graph and walk together succeed if and only if all chains share their genesis block: the walk then shows exactly the pairs of peer and block from the common ancestor up, in nondecreasing number |
| `ByteOrder.Last` | adm/src/blockstore.rs:187-196 | The last key of a cursor in byte order |
| `ByteOrder.PaddedIsDigits` | adm/src/blockstore.rs:50 | Zero-padded lowercase hexadecimal is the fixed-width digit string |
| `ByteOrder.KeysPreserveOrder` | adm/src/blockstore.rs:128 | The key of a block number is injective and byte order on keys is number order, for all 64-bit numbers |
| `Indexes.PutKeepsExact` | adm/src/blockstore.rs:115-155 | Storing a value keeps an index exact if and only if its keys are free and none of an overwritten value is left behind |
| `Indexes.DeleteKeepsExact` | adm/src/blockstore.rs:157-184 | Removing a value with its index keys keeps an index exact |
| `Indexes.ExactIsUnique` | adm/src/blockstore.rs:115-184 | An exact index is determined by its table |
| `Indexes.ExactIsFree` | adm/src/blockstore.rs:115-155 | Under an exact index no two values share a key |
| `Indexes.PutAddsEntries` | adm/src/blockstore.rs:199-212 | Storing a new value adds one index entry for each of its keys |
| `Blockstores.PutKeepsStore` | adm/src/blockstore.rs:115-155 | A put keeps all three indexes exact if and only if the block shares no height, batch or transaction with another and drops none of its own |
| `Blockstores.DropEachExactly` | adm/src/blockstore.rs:168-182 | Index deletes succeed if and only if the keys are distinct and present, and then remove exactly them |
| `Blockstores.DeleteKeepsStore` | adm/src/blockstore.rs:157-184 | From an exact store a delete succeeds exactly for stored blocks without repeated ids, and the store stays exact either way |
| `Blockstores.RunKeepsStore` | adm/src/blockstore.rs:115-184 | Over every run of puts and deletes the indexes are exact throughout if and only if every put fits |
| `Blockstores.ViaExact` | adm/src/blockstore.rs:48-113 | From an exact store a lookup finds exactly the block with the key and never reports corruption |
| `Blockstores.LastKeyIsHead` | adm/src/blockstore.rs:187-196 | The last entry of the number index is the block with the greatest number |
| `Blockstores.Blockstore.Put` | adm/src/blockstore.rs:115-155 | The loops store the block and refer its height, transactions and batches to it |
| `Blockstores.Blockstore.Delete` | adm/src/blockstore.rs:157-184 | The loops remove the block and its index entries, or fail and change nothing |
| `Blockstores.Blockstore.GetByHeight` | adm/src/blockstore.rs:48-68 | From an exact store, the block of that height or that there is none |
| `Blockstores.Blockstore.GetByBatch` | adm/src/blockstore.rs:70-89 | From an exact store, the block with that batch or that there is none |
| `Blockstores.Blockstore.GetByTransaction` | adm/src/blockstore.rs:91-113 | From an exact store, the block with that transaction or that there is none |
| `Blockstores.Blockstore.GetChainHead` | adm/src/blockstore.rs:187-196 | From an exact store, the block with the greatest number, or none exactly if the store is empty |
| `ChainStores.DeleteUndoesPut` | adm/src/blockstore.rs:115-184 | Deleting a new block gives back the store before it was put, indexes included |
| `ChainStores.PutUndoesDelete` | adm/src/blockstore.rs:115-184 | Putting back a deleted block gives back the store before the delete |
| `ChainStores.StorableIsExact` | adm/src/blockstore.rs:115-155 | A chain put block by block gives exact indexes, and its last block has the greatest number |
| `ChainStores.StoredIsStorable` | adm/src/blockstore.rs:115-155 | A store holds exactly one chain with exact indexes if and only if it is the one built block by block |
| `ChainStores.HeadIsNewest` | adm/src/blockstore.rs:187-196 | The chain head of such a store is its newest block |
| `BlockstoreCommands.Prune` | adm/src/commands/blockstore.rs:214-250 | The loop deletes from the chain head downward until the named block is gone; missing blocks are errors |
| `BlockstoreCommands.PruneFromNewest` | adm/src/commands/blockstore.rs:231-249 | From the newest block the loop ends with exactly the proper ancestors of the named block |
| `BlockstoreCommands.PruneLeavesAncestors` | adm/src/commands/blockstore.rs:214-250 | Pruning a block of a stored chain leaves exactly its proper ancestors with exact indexes; an unknown block changes nothing |
| `BlockstoreCommands.Import` | adm/src/commands/blockstore.rs:302-322 | A block is stored only if the store is empty or its parent is the chain head |
| `BlockstoreCommands.ImportExtends` | adm/src/commands/blockstore.rs:302-322 | Exactly children of the newest block are accepted; an accepted one extends the stored chain if and only if it meets the conditions the command leaves unchecked |
| `ChainStores.StorableEnds` | adm/src/commands/blockstore.rs:73-82 | In a stored chain every climb from parent to parent ends |
| `BlockstoreCommands.ImportOfOrphan` | adm/src/commands/blockstore.rs:302-322 | An empty store accepts a block whose parent is not the start of a chain, and then holds no chain at all |
| `BlockBackup.WriteFrom` | adm/src/commands/blockstore.rs:73-82 | The loop writes blocks from a block to the start of its chain, or up to the first missing one |
| `BlockBackup.Backup` | adm/src/commands/blockstore.rs:56-83 | Starts at the given block or the chain head; an empty store is an error |
| `BlockBackup.StorableBackupEnds` | adm/src/commands/blockstore.rs:73-82 | On every chain that was stored block by block the climb of a backup ends, wherever it starts |
| `BlockBackup.Restore` | adm/src/commands/blockstore.rs:97-102 | Puts the blocks of the file in their order |
| `BlockBackup.BackupWritesChain` | adm/src/commands/blockstore.rs:73-82 | From any block of a stored chain the file is the chain up to it, newest first |
| `BlockBackup.PutCommutes` | adm/src/blockstore.rs:115-155 | Blocks without a common id, height, batch or transaction can be put in either order |
| `BlockBackup.RestoreReversed` | adm/src/commands/blockstore.rs:97-102 | Putting a chain newest first gives the same store as oldest first |
| `BlockBackup.BackupRestores` | adm/src/commands/blockstore.rs:56-103 | Restoring a backup into an empty store reproduces the table and all three indexes; from an older block, those of the chain up to it |
| `BlockBackup.UnknownBackupFails` | adm/src/commands/blockstore.rs:73-82 | A backup from a block that is not stored writes nothing and fails |
| `StoreClimbs.BackupIsClimb` | adm/src/commands/blockstore.rs:73-82 | On any store the file is the climb from parent to parent, and the backup fails if and only if a parent is missing |
| `StoreClimbs.StatsCountBackup` | adm/src/commands/blockstore.rs:348-366 | On any store the report counts the families of exactly the blocks of that climb, and fails where it does |
| `StoreClimbs.PruneIsPath` | adm/src/commands/blockstore.rs:214-250 | On any store pruning deletes exactly the blocks of a path of parents from the head, and succeeds if and only if that ends with the named block |
| `StoreClimbs.DeleteFailsExactly` | adm/src/blockstore.rs:157-184 | A delete fails, with no effect, if and only if the block is not stored, repeats an id, or an index lacks one of its keys |
| `StoreClimbs.GoneIsCorrupt` | adm/src/blockstore.rs:48-113 | With a block gone from the table alone, a lookup meets corruption for exactly its keys, and not found for exactly the keys of no block |
| `BlockStats.CountAllCounts` | adm/src/commands/blockstore.rs:349-357 | Counting one by one gives every name its number of occurrences, and the counts add up to the number of names |
| `BlockStats.CountBatches` | adm/src/commands/blockstore.rs:349-357 | The nested loops count the families of all transactions of a block |
| `BlockStats.CountFamilies` | adm/src/commands/blockstore.rs:348-366 | The loop counts over all blocks from one to the start of its chain |
| `BlockStats.Stats` | adm/src/commands/blockstore.rs:326-381 | The report of counts, with families only if asked for |
| `BlockStats.StorableReportEnds` | adm/src/commands/blockstore.rs:348-366 | On every chain that was stored block by block the climb of the report ends |
| `BlockStats.TxnIndexSize` | adm/src/blockstore.rs:204-207 | The transaction index of a chain has one entry for each transaction |
| `BlockStats.BatchIndexSize` | adm/src/blockstore.rs:209-212 | The batch index of a chain has one entry for each batch |
| `BlockStats.ReportIsExact` | adm/src/commands/blockstore.rs:326-381 | For a stored chain all counts are exact and the family counts add up to the transaction count |
| `IndexedDatabases.DropAllKeepsExact` | validator/sawtooth_validator/database/indexed_database.py:191-206 | Deletes, also repeated or of missing keys, remove exactly the named entries and keep every index exact |
| `IndexedDatabases.StoreKeepsExact` | validator/sawtooth_validator/database/indexed_database.py:208-218 | One put keeps every index exact if and only if its index keys are free and cover those of a value it overwrites |
| `IndexedDatabases.StoreAllKeepsExact` | validator/sawtooth_validator/database/indexed_database.py:208-218 | Puts under distinct new keys keep every index exact when no index key is shared in the end |
| `IndexedDatabases.PutAllIsStored` | validator/sawtooth_validator/database/indexed_database.py:208-218 | Deriving index keys from the values put is deriving them from the packed values if packing keeps them |
| `IndexedDatabases.UpdateKeepsExact` | validator/sawtooth_validator/database/indexed_database.py:182-220 | If packing keeps the index keys of the values put, an update with distinct put keys that are not stored after the deletes keeps every index exact if and only if no index key is shared in the end, also when puts reuse index keys of deleted values |
| `IndexedDatabases.UpdateStores` | validator/sawtooth_validator/database/indexed_database.py:182-220 | After an update each key put has the value of its last put, which can be read back, and every other entry is gone if it was deleted, else unchanged |
| `IndexedDatabases.FetchIsExact` | validator/sawtooth_validator/database/indexed_database.py:134-169 | Through an exact index a read returns exactly the values listing each key, in order, and never reports it out of sync |
| `IndexedDatabases.FetchesPresent` | validator/sawtooth_validator/database/indexed_database.py:147-163 | Without an index a read never fails and finds exactly the stored keys, in order |
| `IndexedDatabases.FetchesTargets` | validator/sawtooth_validator/database/indexed_database.py:147-167 | Through any index a read is out of sync if and only if a key refers to a missing entry, and otherwise finds what the keys refer to, in order |
| `IndexedDatabases.PutsReadBack` | validator/sawtooth_validator/database/indexed_database.py:134-220 | Reading the distinct keys just put returns exactly the puts |
| `IndexedDatabases.IndexedDatabase.DropFromIndexes` | validator/sawtooth_validator/database/indexed_database.py:201-206 | The loops remove the value's keys that are present from every index |
| `IndexedDatabases.IndexedDatabase.AddToIndexes` | validator/sawtooth_validator/database/indexed_database.py:214-218 | The loops refer the value's keys in every index to its primary key |
| `IndexedDatabases.IndexedDatabase.Update` | validator/sawtooth_validator/database/indexed_database.py:182-220 | The loops apply all deletes, then all puts |
| `IndexedDatabases.IndexedDatabase.GetMulti` | validator/sawtooth_validator/database/indexed_database.py:134-169 | The loop returns the stored keys, or the entries an index refers the keys to, in order with their values; it is out of sync if and only if a reference dangles, and an unknown index is an error |
| `IndexedCursors.OrderedIsAscending` | validator/sawtooth_validator/database/indexed_database.py:282-292 | The keys a cursor visits are all keys of the table, in byte order |
| `IndexedCursors.VisitedInOrder` | validator/sawtooth_validator/database/indexed_database.py:282-292 | Forward each key is less than the next, in reverse greater, and all keys are visited |
| `IndexedCursors.Read` | validator/sawtooth_validator/database/indexed_database.py:338-348 | Follows a key along the chain of tables; a missing or empty value is out of sync |
| `IndexedCursors.Iterate` | validator/sawtooth_validator/database/indexed_database.py:320-335 | Yields the values reached, key by key, up to the first error |
| `IndexedCursors.CursorIter` | validator/sawtooth_validator/database/indexed_database.py:282-292 | Iterates over the main table or an index, forward or in reverse |
| `IndexedCursors.CursorFollowsKeys` | validator/sawtooth_validator/database/indexed_database.py:282-348 | Over any index a cursor goes through all keys in byte order, or the reverse, yields the value each leads to, and stops, out of sync, at the first that leads to no value or an empty one |
| `IndexedCursors.CursorIsExact` | validator/sawtooth_validator/database/indexed_database.py:282-348 | From an exact database each value yielded lists its key, and the cursor completes if and only if no value reached packs to nothing |
| `IndexedCursors.MainCursorIsExact` | validator/sawtooth_validator/database/indexed_database.py:282-348 | A cursor over the main table yields all its values in the order of their keys, or the reverse |
| `IndexedCursors.EmptyValueStopsCursor` | validator/sawtooth_validator/database/indexed_database.py:338-348 | A concrete exact database whose cursor reports an index out of sync, because a value packs to nothing |
| `RoundRobins.SelectIsNearest` | validator/sawtooth_validator/execution/processor_manager.py:291-297 | A call fails if and only if nobody has vacancy, and otherwise selects the first vacant processor ahead |
| `RoundRobins.Fair` | validator/sawtooth_validator/execution/processor_manager.py:291-310 | On a fixed list, between two selections of one processor every other one that was vacant at all calls in between is selected |
| `RoundRobins.NobodyStarves` | validator/sawtooth_validator/execution/processor_manager.py:291-310 | Of n processors, one that is vacant at n calls in a row is selected by one of them |
| `DispatchRuns.CallsAreRoundRobin` | validator/sawtooth_validator/execution/processor_manager.py:291-297 | The positions and choices of any run of calls of the iterator, on a fixed list with any occupancies, are those of the round robin |
| `DispatchRuns.IteratorIsFair` | validator/sawtooth_validator/execution/processor_manager.py:291-297 | Between two calls of the iterator that choose one processor, every other one that had vacancy at all calls since is chosen |
| `DispatchRuns.IteratorStarvesNobody` | validator/sawtooth_validator/execution/processor_manager.py:291-297 | Of n processors, one with vacancy at n calls of the iterator in a row is chosen by one of them |
| `DispatchRuns.RestartsAtFirst` | validator/sawtooth_validator/execution/processor_manager.py:307-321 | After a processor joins or leaves, the next call chooses the first of the list that has vacancy |
| `DispatchRuns.SecondCallExactly` | validator/sawtooth_validator/execution/processor_manager.py:158-184 | A second call of the iterator chooses the same processor if and only if no other has vacancy |
| `Processors.Processor.IncOccupancy` | validator/sawtooth_validator/execution/processor_manager.py:211-213 | One more request |
| `Processors.Processor.DecOccupancy` | validator/sawtooth_validator/execution/processor_manager.py:215-217 | One request less |
| `Processors.RoundRobinProcessorIterator.NextProcessor` | validator/sawtooth_validator/execution/processor_manager.py:291-297 | The loop tries each processor at most once and moves on behind the one it returns, or ends where it began |
| `Processors.RoundRobinProcessorIterator.AddProcessor` | validator/sawtooth_validator/execution/processor_manager.py:307-310 | Appends and starts over from the first processor |
| `Processors.RoundRobinProcessorIterator.FindProcessor` | validator/sawtooth_validator/execution/processor_manager.py:312-315 | The first processor of a connection, if any |
| `Processors.RoundRobinProcessorIterator.RemoveProcessor` | validator/sawtooth_validator/execution/processor_manager.py:317-321 | Removes the connection's first processor and starts over, or fails and changes nothing |
| `Processors.ProcessorManager.Register` | validator/sawtooth_validator/execution/processor_manager.py:86-106 | Adds the processor to its type's ring and the type to its connection's list |
| `Processors.ProcessorManager.Remove` | validator/sawtooth_validator/execution/processor_manager.py:108-133 | Takes the connection out of the rings of its types, dropping empty rings, up to the first ring that does not have it |
| `Processors.ProcessorManager.GetNextOfType` | validator/sawtooth_validator/execution/processor_manager.py:59-78 | Occupies the next vacant processor; without the type, or without vacancy, nothing changes and the caller waits |
| `Processors.ProcessorManager.WaitForVacancy` | validator/sawtooth_validator/execution/processor_manager.py:158-184 | On waking, the vacancy test moves the ring once before the processor is chosen; a type that is gone is an error |
| `ProcessorSpec.RegisterKeepsListed` | validator/sawtooth_validator/execution/processor_manager.py:86-106 | A connection is listed for every processor it has |
| `ProcessorSpec.RemovalCounts` | validator/sawtooth_validator/execution/processor_manager.py:108-133 | A removal that does not fail takes one processor of the connection out of a type for each time the type is listed |
| `ProcessorSpec.RemovalClears` | validator/sawtooth_validator/execution/processor_manager.py:108-133 | So after it no type has a processor of the connection |
| `Processors.ProcessorManager.Release` | validator/sawtooth_validator/execution/executor.py:113-115 | Frees the connection's processor, if it is still registered |
| `ExecutorThreads.TransactionExecutorThread.Schedule` | validator/sawtooth_validator/execution/executor.py:182-306 | A transaction taken from the scheduler is failed at once or waits for a processor |
| `ExecutorThreads.TransactionExecutorThread.NextProcessor` | validator/sawtooth_validator/execution/processor_manager.py:59-78 | The processor handed out, by the first call or on waking from a wait for vacancy |
| `ExecutorThreads.AttemptIsTheStep` | validator/sawtooth_validator/execution/executor.py:310-318 | Of sending, starting to wait for a vacancy and giving up, the call makes the one the state allows |
| `ExecutorThreads.TransactionExecutorThread.Execute` | validator/sawtooth_validator/execution/executor.py:310-351 | Sends the transaction to the processor handed out, waits, or ends by an exception if its type is gone while it waits for vacancy |
| `ExecutorThreads.TransactionExecutorThread.FutureDoneCallback` | validator/sawtooth_validator/execution/executor.py:98-173 | Frees the processor, then reports, retries or gives up; raises and changes nothing if the processor is not found |
| `ExecutorThreads.TransactionExecutorThread.Receive` | validator/sawtooth_validator/execution/executor.py:98-173 | A response removes the request; if the callback raises its answer is lost |
| `ExecutorThreads.TransactionExecutorThread.RemoveBrokenConnection` | validator/sawtooth_validator/execution/executor.py:353-371 | The loop that should retry the requests of a broken connection retries none: its first callback finds no processor, whatever the open requests |
| `Executor.StepKeepsPool` | validator/sawtooth_validator/execution/processor_manager.py:86-133 | Every step keeps the rings in shape and every processor listed |
| `Executor.RemovalUnserves` | validator/sawtooth_validator/execution/executor.py:353-371 | After every run, removing a connection without an error leaves no processor that a response to one of its requests could find |
| `Executor.SendKeepsBalanced` | validator/sawtooth_validator/execution/executor.py:310-351 | A dispatch keeps every occupancy equal to the requests in flight and within its bound |
| `Executor.AnswerKeepsBalanced` | validator/sawtooth_validator/execution/executor.py:98-173 | So does every kind of response, also one whose processor is gone |
| `Executor.UnregisterKeepsBalanced` | validator/sawtooth_validator/execution/processor_manager.py:108-133 | So does removing a connection, busy or idle, and also a removal that fails part way |
| `Executor.RegisterBalancesExactly` | validator/sawtooth_validator/execution/processor_manager.py:86-106 | Registering does so if and only if the connection has no processor of the type and no request of it in flight |
| `Executor.OccupancyIsConservedExactly` | validator/sawtooth_validator/execution/executor.py:98-351 | Throughout a run each occupancy is the number of requests in flight, between zero and the maximum, if and only if every registration is such |
| `Executor.UnregisterServesExactly` | validator/sawtooth_validator/execution/processor_manager.py:108-133 | A removal takes the processor from exactly the requests of the connection whose types it gets to |
| `Executor.StepServesExactly` | validator/sawtooth_validator/execution/executor.py:98-173 | While balanced, all requests in flight keep their processors exactly when no removal takes one of theirs |
| `Executor.ResponsesAreServedExactly` | validator/sawtooth_validator/execution/executor.py:98-173 | So throughout every run with such registrations |
| `DispatchRuns.DispatchInTurnExactly` | validator/sawtooth_validator/execution/processor_manager.py:59-184 | A dispatch chooses the vacant processor whose turn it is if and only if it has not waited for a vacancy or there is only one; the iterator then moves on by one call |
| `DispatchRuns.ExecutorIsFair` | validator/sawtooth_validator/execution/processor_manager.py:59-184 | After every run with fresh registrations, while the processors of a type stay the same and dispatches are in turn: between two transactions sent to one connection, every other one with vacancy at all dispatches since is sent one |
| `DispatchRuns.ExecutorStarvesNobody` | validator/sawtooth_validator/execution/processor_manager.py:59-184 | And one with vacancy at as many dispatches in a row as there are processors is sent one |
| `DispatchRuns.KnownTypesHaveProcessors` | validator/sawtooth_validator/execution/processor_manager.py:86-133 | In every run a type is known only while it has a processor |
| `DispatchRuns.CanSendExactly` | validator/sawtooth_validator/execution/processor_manager.py:59-78 | After every run with fresh registrations a transaction can be sent if and only if its type has a processor with fewer requests in flight than its maximum |
| `DispatchExamples.WaitingPassesOver` | validator/sawtooth_validator/execution/processor_manager.py:158-184 | A concrete run: two idle processors, the first in turn, and the transaction that waited is sent to the second, which was sent the last one |
| `ExecutorRuns.StepKeepsAccounted` | validator/sawtooth_validator/execution/executor.py:98-351 | Every step keeps each transaction taken in exactly one place: waiting, sent, dropped or reported |
| `ExecutorRuns.AtMostOneResult` | validator/sawtooth_validator/execution/executor.py:98-351 | In every run each transaction is reported at most once, and never while it waits or is sent or after it was dropped |
| `ExecutorRuns.RunReportsExactly` | validator/sawtooth_validator/execution/executor.py:98-318 | Every run reports exactly, in order, the transactions failed at once and the answers that find their processor and are no internal error, and drops exactly the waits ended by an exception, the answers that find none and the internal errors no longer scheduled |
| `ExecutorRuns.AnswersAreReported` | validator/sawtooth_validator/execution/executor.py:124-173 | With fresh registrations and harmless removals every answer of a run but an internal error is among the reports at its end, valid if and only if the answer was |
| `ExecutorRuns.RetriesExactly` | validator/sawtooth_validator/execution/executor.py:150-163 | In every run a waiting transaction is a retry if and only if it was answered by an internal error while scheduled |
| `ExecutorRuns.HaltsExactly` | validator/sawtooth_validator/execution/executor.py:175-180 | The scheduling thread has ended if and only if a transaction that was no retry was given up |
| `ExecutorExamples.BusyRemovalLosesAnswer` | validator/sawtooth_validator/execution/executor.py:113-115 | A concrete run: a processor unregisters before it answers, and its valid answer is dropped |
| `ExecutorExamples.ReturnBreaksOccupancy` | validator/sawtooth_validator/execution/executor.py:113-115 | A concrete run: it registers again before the answer, and its occupancy falls below zero |
| `ExecutorExamples.LeavingHaltsExecutor` | validator/sawtooth_validator/execution/processor_manager.py:158-184 | A concrete run: the only processor of a type leaves while a transaction waits for it, which is dropped and ends the scheduling thread |
| `Battleship.DrawsIfRoom` | families/battleship/sawtooth_battleship/battleship_board.py:54-93 | Drawing a ship succeeds if and only if all its cells, around the edge for negative indexes, are on the board and show a dash when it comes to them |
| `Battleship.DrawAddsShip` | families/battleship/sawtooth_battleship/battleship_board.py:54-93 | A drawn ship adds exactly its own marks |
| `Battleship.BoardShowsShips` | families/battleship/sawtooth_battleship/battleship_board.py:54-93 | A drawn board shows exactly the ships' marks, as many as the ships have together |
| `Battleship.BoardShowsExactly` | families/battleship/sawtooth_battleship/battleship_board.py:54-93 | A drawn board shows a character at a cell if and only if a ship has it there: along its row, or down its column |
| `Battleship.DashlessMarks` | families/battleship/sawtooth_battleship/battleship_board.py:54-93 | A text without dashes marks one cell for each character |
| `Battleship.OccupiedCells` | families/battleship/sawtooth_battleship/battleship_board.py:54-93 | On a drawn board of ships without dashes as many cells are occupied as the ships are long together |
| `Battleship.OccupiedExactly` | families/battleship/sawtooth_battleship/battleship_board.py:64-91 | Drawing fails with an occupied cell if and only if the ship has a lettered column and comes to a marked cell before it leaves the board |
| `Battleship.AppendExactly` | families/battleship/sawtooth_battleship/battleship_board.py:34-52 | On a layout that draws an append succeeds if and only if the ship is on the board and off all ships, itself included; every refused ship is taken back if and only if its column has a letter and it comes to a marked cell before it leaves the board, and stays in the layout otherwise |
| `Battleship.BrokenRefusesAll` | families/battleship/sawtooth_battleship/battleship_board.py:34-52 | A layout that does not draw refuses every further ship with the same error |
| `Battleship.OverhangingShipStays` | families/battleship/sawtooth_battleship/battleship_board.py:34-79 | A concrete ship over the edge that is refused and stays in the layout |
| `Battleship.OverhangingShipIsTakenBack` | families/battleship/sawtooth_battleship/battleship_board.py:34-79 | The same ship is taken back where its first cell is occupied |
| `Battleship.ShortShipsAreApart` | families/battleship/sawtooth_battleship/battleship_board.py:64-91 | A ship on the board meets itself only if it is longer than the board is wide |
| `Battleship.NegativeColumnWraps` | families/battleship/sawtooth_battleship/battleship_board.py:64-76 | A concrete ship before the first column draws, in the last and the first one |
| `Battleship.UnletteredColumnKeepsShip` | families/battleship/sawtooth_battleship/battleship_board.py:34-79 | A concrete refused ship that stays in the layout |
| `Battleship.LoadUndoesSave` | families/battleship/sawtooth_battleship/battleship_board.py:106-119 | Loading a saved layout gives it back if and only if the layout draws |
| `BoardLayouts.DrawShip` | families/battleship/sawtooth_battleship/battleship_board.py:64-91 | The loop fills the cells of one ship in the array, or finds the error |
| `BoardLayouts.BoardLayout.Render` | families/battleship/sawtooth_battleship/battleship_board.py:54-93 | The array shows the drawn layout, or the first error |
| `BoardLayouts.BoardLayout.Append` | families/battleship/sawtooth_battleship/battleship_board.py:34-52 | Appends, and takes the ship back only for an occupied cell |
| `BoardLayouts.BoardLayout.Save` | families/battleship/sawtooth_battleship/battleship_board.py:106-112 | Size and positions in order |
| `BoardLayouts.BoardLayout.Load` | families/battleship/sawtooth_battleship/battleship_board.py:114-119 | Appends the positions in order, stopping at the first error |
| `BoardLayouts.PlaceOf` | families/battleship/sawtooth_battleship/battleship_board.py:136-146 | The place drawn for a ship that is not too long has the drawn orientation and all its cells on the board |
| `BoardLayouts.TriedExactly` | families/battleship/sawtooth_battleship/battleship_board.py:148-152 | A drawn place is taken if and only if it is free, and tried again if and only if its column has a letter and it is blocked |
| `BoardLayouts.PlacesFirstFree` | families/battleship/sawtooth_battleship/battleship_board.py:130-157 | A ship is placed by the first of its draws whose place is free, among one more than the maximum of attempts; the layout is given up if and only if all of these are taken |
| `BoardLayouts.GeneratesAll` | families/battleship/sawtooth_battleship/battleship_board.py:121-159 | A generated layout draws and holds exactly the given ships in order, across any number of restarts |
| `BoardLayouts.PlaceShip` | families/battleship/sawtooth_battleship/battleship_board.py:130-157 | The loop draws places for one ship |
| `BoardLayouts.BoardLayout.TryPlace` | families/battleship/sawtooth_battleship/battleship_board.py:136-152 | A random place is always on the board; it is taken or the layout is unchanged |
| `BoardLayouts.Generate` | families/battleship/sawtooth_battleship/battleship_board.py:121-159 | The loop generates that layout; one that is returned draws and holds exactly the given ships in order, across any number of restarts |
| `IntKeyWorkload.IntKeyIterator.Next` | perf/intkey_workload/src/intkey_iterator.rs:105-146 | The next payload and the counts kept per name, or a panic where there is no name to pick |
| `IntKeyWorkload.PanicsExactly` | perf/intkey_workload/src/intkey_iterator.rs:117-123 | That is exactly where no names are to be kept in use and none are |
| `IntKeyWorkload.HandlersDifferExactly` | sdk/examples/intkey_python/sawtooth_intkey/processor/handler.py:103-244 | The handlers do the same, except that the Rust one refuses a long name, an operand of more than 32 bits, a set of a known name and every multiplication |
| `IntKeyWorkload.HandlerChangesOne` | sdk/examples/intkey_python/sawtooth_intkey/processor/handler.py:150-244 | An accepted payload changes the named value alone, as its verb says |
| `IntKeyWorkload.HandlerStaysInRangeExactly` | sdk/examples/intkey_python/sawtooth_intkey/processor/handler.py:103-244 | Values stay within 32 bits, except where the Python handler sets or multiplies to more |
| `IntKeyWorkload.OversizedSetIsAccepted` | sdk/examples/intkey_python/sawtooth_intkey/processor/handler.py:116-178 | A concrete payload: the Python handler sets a value of more than 32 bits |
| `IntKeyWorkload.StepIsAccepted` | sdk/examples/intkey_rust/src/handler.rs:302-351 | While values are tracked, a handler accepts exactly the payloads generated as valid, but for a set of a known name, which the Rust handler refuses |
| `IntKeyWorkload.StepStaysTracked` | perf/intkey_workload/src/intkey_iterator.rs:105-146 | Every value stays as near the middle as its count says, unless the refusing handler meets such a set |
| `IntKeyWorkload.RunStaysTracked` | perf/intkey_workload/src/intkey_iterator.rs:105-146 | So over every run |
| `IntKeyWorkload.ReplayIsAcceptedExactly` | sdk/examples/intkey_python/sawtooth_intkey/processor/handler.py:150-222 | From nothing, the overwriting Python handler accepts every valid payload of every run; the refusing Rust handler does so if and only if the run never sets a known name |
| `IntKeyWorkload.ReplayStaysInRange` | perf/intkey_workload/src/intkey_iterator.rs:22-24 | In those runs all replayed values stay within 1,800,009 of the middle, and whether the next payload is accepted is known beforehand |
| `IntKeyWorkload.RepeatedNameIsRefused` | sdk/examples/intkey_rust/src/handler.rs:303-315 | A concrete run of two draws of one name: the second set is valid and refused |
| `IntKeyWorkload.RefusedSetsDrift` | sdk/examples/intkey_rust/src/handler.rs:303-334 | After refused sets a value can drift as far from the middle as 32 bits allow |
| `IntKeyWorkload.DriftIsRefused` | sdk/examples/intkey_rust/src/handler.rs:316-334 | Concrete runs of the refusing handler that leave the range, and in which a valid increment is refused |

## Left out

- The Merkle trie is an abstract map per root, and the hash that names a tree is a
  parameter; runs assume that a new root does not collide with a known one.
- Context ids are numbers handed out in order instead of random ids; the lists and
  orders in which values and addresses are returned become maps and sets.
- Contexts.ExecutionContext: holds its futures by value, because each future
  belongs to one address of one context; the future object itself is proved apart
  in `Futures`. Execution data and events are not modelled.
- Waiting is a precondition of methods and an enabling condition of steps; client
  calls are single steps, thread rounds are not. The writer looks its context up
  and fetches it in one step. Shutdown of the threads is not modelled.
- ChainCompare.BuildForkGraph: requires whole linked chains that agree on what an id
  names; block streams are values that are read from the front. What the stand-in
  blocks of dry streams add to the graph, pruning of failed peers, and the limited
  requests behind a stream are not modelled.
- ChainCompare.CompareChains: requires the same; printing is not modelled.
- ForkWalk.Walk: requires a graph in levels, which the comparison builds; on a
  cycle the source would not end. It leaves the order of siblings in a dictionary
  open.
- Storage, packing and parsing errors of the block store, and listing, showing and
  exporting blocks, are not modelled; a write transaction is one step.
- BlockBackup.Backup: requires that climbing from parent to parent ends, because on
  a cycle of parents the source would not; every stored chain meets this. The file
  is the sequence of blocks in it.
- BlockBackup.WriteFrom: requires the same.
- BlockStats.Stats: requires the same where families are asked for.
- BlockStats.CountFamilies: requires the same.
- IndexedDatabases.IndexedDatabase.Update: keys and packed values are strings of
  bytes; invalid key sizes, seeking and counting are not modelled.
- IndexedCursors.CursorIter: keys are in byte order; the option for indexes in the
  order of machine integers is not modelled.
- `DictDatabase` is not part of this model.
- Processors.ProcessorManager: holds each type's iterator by value, because the
  iterator object is proved apart; cancelling a wait is a step of the executor.
- ExecutorThreads.TransactionExecutorThread.RemoveBrokenConnection: the table of open
  futures is a parameter. Pings, receipts, metrics and the context operations of the
  callback are not modelled, nor that one scheduling thread has at most one
  transaction waiting.
- BoardLayouts.Generate: random choices are given draws, so generation may run out
  of them, and nothing is said about how likely it is to end.
- Hashed boards and nonces are not modelled.
- IntKeyWorkload.IntKeyIterator.Next: random choices are given draws; payload
  encoding and the shared addresses of names are not modelled.
- The schedulers, the REST interface, consensus, configuration and the other
  transaction families are not modelled.
