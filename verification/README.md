# NLang, modelled and proved in Dafny

Models of the hard parts of the NLang compiler, virtual machine and load-time linker, with proofs of
what they are for. `dafny verify dfyconfig.toml` checks everything.

How the files fit together:

- **GC rendezvous.** `WorldStop` is the registry and rendezvous object, each method one step under the
  leaf mutex, proved equal to a function of the old state. `WorldStopRuns` lets any number of threads
  interleave those steps and proves what every run keeps. The two condition-variable waits are step
  guards; thread-locals are per-thread state. Begin is taken only by a thread that is not executing,
  which the code asks of its callers and does not check. `WorldStopReference` is the protocol without
  its bookkeeping, sets of threads instead of slots, stamps and counters, and shows that every run of
  the object is a run of it.
- **Sync primitives.** `WaitQueue` is the waiter list and its decisions, `SyncSlots` the four side-table
  slots with their sections as methods. `Handshake` is the two-phase park between sections and the
  scheduler: a section and the wake it owes are separate steps, and the scheduler's wake acts on a
  context whatever that context is doing, so a misdirected wake would do real harm; `HandshakeRuns` has
  what every run keeps. The queues and
  stamps are left open, so its results hold for all primitives at once. `Calls` is one queue's view of
  it, and `LockRuns`, `SemaphoreRuns` and `ChannelRuns` put a lock, a semaphore and a channel on top,
  with every other context, primitive and scheduler step free to interleave. Each ends with what every
  call does to a program that is running, in terms of holders, permits, values and who stands in line.
- **Contract checks.** `Hierarchy` is the class tree, name-based dispatch, and the theorem that says what
  the checks buy; `Marking` is implicit virtual propagation, which runs before them, `MarkedHierarchy`
  says exactly what it marks and when that is enough, and `HiddenVirtual` is a tree on which it is not;
  `ContractChecks` is the checks themselves, from signature comparison to the topmost-first driver.
- **Linker and image.** `Bytecode`, `OperandShapes` and `Remap` are the instruction extents, the documented
  operands, the in-place operand remap and the line map; `InterfaceMerge` the interface-table merge;
  `Wire`, `TypeDescs` and `Image` the record tables of a module image, written and read; `ImageBounds`
  and `ImageLoads` which written images load, with every limit as a number; `ImageLayout` the bytes of
  one record of each kind; `ImageStreams` the class table as the statements and loops that write and
  read it; `SuperChains` the superclass walk.
- **Text.** `Utf8` (RFC 3629, sections 3, 4 and 7), `InputLines`, `SplitReplace`.
- **Graphs and trees.** `Cycles`, `Spelling`. **Debugger.** `FreezeQueue`.

Where a promise turned out not to hold of the code as it stands, the code is modelled as it is, a lemma
gives the input, and another gives the exact condition:

- A registration query, and the tripwire on registering, look at a thread's index and not at its
  generation, so after a reset a stale thread whose index was issued again is reported as registered.
- A reset that overlaps a sleeping begin strands the next stop.
- Marking and silent contract checks do not exclude a misdispatch. The marking looks at one member of
  the name per ancestor, so a static declared before a virtual method hides it; two unmarked overloads
  below then match the virtual method and an interface's method, and only one of them can win.
- The operand remap has no arm for `OP_AllocArrayDyn`, whose second operand the instruction set
  documents as a type index.
- The line map keeps 16 bits of a place.
- A unit that brings a placeholder row and then the content of the same name has that row in its push
  list twice.
- An empty leaf spelling collides with an empty argument list.
- A nested freeze of a context with others queued behind it hands the token on while a window is open.

Integers the code counts with (epochs, generations, permits, hold counts) are unbounded here; wire words,
bytecode operands, line-map places and UTF-8 arithmetic have their widths.

## Model

| member | source | states |
|---|---|---|
| WorldStop.GcWorldStop.RegisterThread | src/vm/GcWorldStop.cpp:25-49 | registration takes the last freed index or a new one, stamps it with a fresh generation, and changes nothing when the thread is registered |
| WorldStop.GcWorldStop.UnregisterThread | src/vm/GcWorldStop.cpp:51-66 | the thread's own entry goes dead and its index becomes free; refused while executing, a no-op for a stale handle |
| WorldStop.GcWorldStop.BeginExecuting | src/vm/GcWorldStop.cpp:85-103 | a begin waits exactly when a stop is active and the entry is current; a stale one flips its bit without touching any count |
| WorldStop.GcWorldStop.ResumeBegin | src/vm/GcWorldStop.cpp:95-102 | a begin released from its wait flips its bit under the index it slept with |
| WorldStop.GcWorldStop.EndExecuting | src/vm/GcWorldStop.cpp:105-123 | an end under a stop is an arrival, and says whether it was the last |
| WorldStop.GcWorldStop.InitiateAndArrive | src/vm/GcWorldStop.cpp:125-150 | the first requester opens an epoch and fixes how many must arrive; later ones only arrive; the answer is whether everyone now has |
| WorldStop.GcWorldStop.Complete | src/vm/GcWorldStop.cpp:174-184 | completion closes the epoch and the stop |
| WorldStop.GcWorldStop.Reset | src/vm/GcWorldStop.cpp:186-206 | every registration is retired, all indices are free in descending order, the counts and the epochs are zero, and the generations go on |
| WorldStop.GcWorldStop.RegisteredStacks | src/vm/GcWorldStop.cpp:208-217 | exactly the live stacks, in registry order |
| WorldStopRuns.RunInv | src/vm/GcWorldStop.cpp:25-206 | every run keeps the registry partition, the unique stamps, the counts, the sleepers' standing and the single election |
| WorldStopRuns.RendezvousAddsUp | src/vm/GcWorldStop.cpp:85-150 | in every run: arrived plus executing is expected while a stop is in flight, requested epochs exceed completed ones by exactly that stop, and each epoch elects at most once |
| WorldStopRuns.QuiescentUntilComplete | src/vm/GcWorldStop.cpp:125-184 | from an election until completion no current thread executes, whatever the others do, so the arrival assertion cannot trip for the elected collector |
| WorldStopRuns.NobodyExecutes | src/vm/GcWorldStop.cpp:166-172 | a zero count means no registered thread executes |
| WorldStopRuns.StopOnlyDrains | src/vm/GcWorldStop.cpp:85-123 | while a stop is in flight the number of executing threads never grows |
| WorldStopRuns.StopCanFinish | src/vm/GcWorldStop.cpp:105-184 | a stop in flight always has an executing thread still to arrive or an elected collector, and some continuation completes it and releases every waiter |
| WorldStopRuns.WaiterHeldUntilCompletion | src/vm/GcWorldStop.cpp:152-157 | a waiter sleeps until its own epoch has completed and is free from then on |
| WorldStopRuns.ZombieStaysOut | src/vm/GcWorldStop.h:184-192 | a thread that is not current stays so until it registers anew, and nothing it calls meanwhile changes a count or an entry |
| WorldStopRuns.MembershipExact | src/vm/GcWorldStop.cpp:68-83 | the registration query is right exactly when the thread holds no handle to an index that was issued again |
| WorldStopRuns.MembershipWithoutReset | src/vm/GcWorldStop.cpp:68-83 | without a reset, registration queries are always right |
| WorldStopRuns.MembershipMisreported | src/vm/GcWorldStop.cpp:68-83 | a run with a reset in which an unregistered thread is reported as registered: the query looks at the index and not at the generation |
| WorldStopRuns.ResetExact | src/vm/GcWorldStop.cpp:186-206 | a reset keeps the protocol's invariant if and only if nobody is asleep in a begin or a wait |
| WorldStopRuns.ResetUnderSleeperStrandsStop | src/vm/GcWorldStop.cpp:186-206 | a run after which a reset under a sleeping begin leaves the next stop without its last arrival: it goes on in every continuation in which nobody cancels it or resets the world again |
| WorldStopReference.RunsRefine | src/vm/GcWorldStop.cpp:25-206 | every run of the object is, step for step, a run of a machine that knows only who is registered under which handle, who executes and whom the stop in flight summoned: registering takes the last freed index or a new one, unregistering with the live handle ends the membership and frees its index, and the collector is the thread whose arrival leaves nobody executing |
| WorldStopReference.RunsFromStart | src/vm/GcWorldStop.cpp:25-206 | the same for the runs of a new object: the current threads are those that registered and have neither unregistered nor been reset since |
| WorldStopReference.StepRefines | src/vm/GcWorldStop.cpp:25-206 | each section does to the object what the reference step does, for all ten kinds of step |
| WorldStopReference.UnregisterRefines | src/vm/GcWorldStop.cpp:51-66 | a live handle is the handle of a membership; after its unregistration the thread is no member, its index is free and next to be issued, and no other membership changed |
| WorldStopReference.UnregisterDoes | src/vm/GcWorldStop.cpp:51-66 | after an unregistration with a live handle the handle is dead, the thread is neither current nor reported registered, its index is free, and no other entry or standing changed; with a stale one nothing changed |
| WorldStopReference.NextRegistrationReuses | src/vm/GcWorldStop.cpp:30-66 | the next registration, whoever makes it, takes the index just freed, under a new generation |
| WorldStopReference.InitiateRefines | src/vm/GcWorldStop.cpp:125-150 | the arrivals to wait for are the threads executing at the first request, and an arrival is the last one exactly when it leaves nobody executing |
| WorldStopReference.GateMeansNobodyBusy | src/vm/GcWorldStop.cpp:166-172 | the quiescence gate passes exactly when a stop is in flight and nobody executes |
| WorldStopReference.HandleIsMembership | src/vm/GcWorldStop.cpp:25-49 | a registration answers with the handle the thread is a member under, stamped with a generation not issued before |
| WorldStopReference.TripwiresChangeNothing | src/vm/GcWorldStop.cpp:25-150 | registering while registered, arriving while not executing and unregistering while executing trip and change nothing |
| WorldStopReference.RetiresOnlyItsEntry | src/vm/GcWorldStop.cpp:51-66 | a live handle in another thread's hands retires its entry and leaves the caller's own pointer alone |
| WorldStopReference.RootsAreMembers | src/vm/GcWorldStop.cpp:208-217 | the roots reported are the members' stacks, one for each member, by ascending index |
| WorldStopReference.LiveStacksPick | src/vm/GcWorldStop.cpp:208-217 | the stacks of exactly the live entries, in index order |
| SyncSlots.ConsumeSyncWaiterStamp | src/vm/IntrinsicsMutex.cpp:94-110 | the recheck commits a pending entry, takes a stamped one out, or finds none |
| SyncSlots.HandOff | src/vm/IntrinsicsMutex.cpp:161-179 | the handoff loop decides the first live entry and says whom it must wake |
| SyncSlots.MutexSlot.TakeOrQueue | src/vm/IntrinsicsMutex.cpp:43-72 | a free lock is taken, a held one queues the caller or, in a nested window, refuses before any change |
| SyncSlots.MutexSlot.TryTake | src/vm/IntrinsicsMutex.cpp:113-131 | takes a free lock, never waits |
| SyncSlots.MutexSlot.Unlock | src/vm/IntrinsicsMutex.cpp:147-186 | only the owner unlocks; the first live waiter becomes the owner, else the lock is free |
| SyncSlots.MutexSlot.Recheck | src/vm/IntrinsicsMutex.cpp:77-86 | the recheck section of a parked lock |
| SyncSlots.RMutexSlot.TakeOrQueue | src/vm/IntrinsicsMutex.cpp:258-293 | re-entry counts up and never waits; otherwise as the Mutex |
| SyncSlots.RMutexSlot.TryTake | src/vm/IntrinsicsMutex.cpp:307-333 | re-entry counts up, a free lock is taken |
| SyncSlots.RMutexSlot.Unlock | src/vm/IntrinsicsMutex.cpp:335-384 | a balanced unlock only counts down; the last one hands over with a fresh count of 1 or frees the lock, which keeps the count zero exactly when free |
| SyncSlots.RMutexSlot.Recheck | src/vm/IntrinsicsMutex.cpp:296-305 | the recheck section of a parked lock |
| SyncSlots.SemaphoreSlot.Acquire | src/vm/IntrinsicsSemaphore.cpp:73-99 | a permit is taken from the counter, or the caller queues or is refused unchanged |
| SyncSlots.SemaphoreSlot.Release | src/vm/IntrinsicsSemaphore.cpp:116-149 | the permit goes to the first live waiter and never through the counter, or is banked |
| SyncSlots.SemaphoreSlot.TryAcquire | src/vm/IntrinsicsSemaphore.cpp:154-174 | takes a permit when there is one |
| SyncSlots.ChannelSlot.HandoffToLiveWaiter | src/vm/IntrinsicsChannel.cpp:353-371 | the first live receiver gets the value through its saved destination |
| SyncSlots.ChannelSlot.Send | src/vm/IntrinsicsChannel.cpp:82-125 | closed, handed off, parked or buffered, in that order of checks |
| SyncSlots.ChannelSlot.StagePendingSend | src/vm/IntrinsicsChannel.cpp:378-394 | the freed slot takes the first live sender's value, at the end of the buffer |
| SyncSlots.ChannelSlot.Recv | src/vm/IntrinsicsChannel.cpp:135-184 | the buffer's head first, then closed, then the wait |
| SyncSlots.ChannelSlot.CollectClosedRecvOutcomes | src/vm/IntrinsicsChannel.cpp:215-245 | live receivers take buffered values in order and the rest are told the channel is closed |
| SyncSlots.ChannelSlot.CollectClosedSenders | src/vm/IntrinsicsChannel.cpp:249-262 | parked senders are told the channel is closed, in order |
| SyncSlots.ChannelSlot.Close | src/vm/IntrinsicsChannel.cpp:186-210 | close happens once, and drains receivers before senders |
| SyncSlots.ChannelSlot.CommitOrAbortRecv | src/vm/IntrinsicsChannel.cpp:270-308 | the recheck section of a parked receive |
| SyncSlots.ChannelSlot.CommitOrAbortSend | src/vm/IntrinsicsChannel.cpp:310-345 | the recheck section of a parked send |
| Handshake.RunInv | src/vm/IntrinsicsChannel.cpp:6-20 | every interleaving of sections, wakes, landings and dispatches keeps entries, owed wakes and the run queue consistent with where each context is |
| HandshakeRuns.NoLostWakeup | src/vm/IntrinsicsMutex.cpp:32-72 | a sleeping context is either committed in the queue it sleeps on or owed a wake for that park, never both and never neither |
| HandshakeRuns.NoMisdirectedWake | src/vm/IntrinsicsMutex.cpp:133-185 | a wake always finds its target asleep in the park it was promised for, ends that sleep, and queues the context exactly once |
| HandshakeRuns.OneEntryAnywhere | src/vm/VmExecutor.h:2353-2375 | a context has at most one entry in all queues together |
| HandshakeRuns.EntryNeverVanishes | src/vm/IntrinsicsChannel.cpp:297-299 | the "entry vanished" tripwires are unreachable |
| HandshakeRuns.QueuedOnce | src/vm/VmScheduler.cpp:276-304 | the run queue holds exactly the contexts waiting for a carrier, once each; the closed exception is armed exactly for calls decided closed |
| HandshakeRuns.QuietSleepersAreReachable | src/vm/VmSchedulerSync.cpp:27-36 | once no wake is owed, every sleeper is still live in its queue |
| Calls.SettleView | src/vm/IntrinsicsMutex.cpp:161-179 | a decision takes the oldest waiting call of its queue and no other |
| Calls.OffView | src/vm/IntrinsicsChannel.cpp:270-345 | any step elsewhere leaves a queue's waiting calls alone and returns at most a decided call |
| LockRuns.MutualExclusion | src/vm/IntrinsicsMutex.cpp:43-186 | in every run at most one context holds the lock, and it is the owner |
| LockRuns.CountIsUnmatchedLocks | src/vm/IntrinsicsMutex.cpp:258-384 | the hold count is the owner's unmatched locks plus a grant on its way, and zero exactly when the lock is free |
| LockRuns.FreeMeansNobodyWaits | src/vm/IntrinsicsMutex.cpp:147-186 | a free lock has no live waiter; at most one stamp exists and it names the owner |
| LockRuns.GrantsAreFifo | src/vm/IntrinsicsMutex.cpp:147-186 | grants follow registration order |
| LockRuns.ResumedOwnsTheLock | src/vm/IntrinsicsMutex.cpp:68-72 | a parked lock call returns only as the owner, holding once |
| LockRuns.SelfLockIsForever | src/vm/IntrinsicsMutex.cpp:32-42 | a context that locks a Mutex it holds never gets it, in any continuation |
| LockRuns.StepsAreSections | src/vm/IntrinsicsMutex.cpp:43-185 | the runs' lock and unlock steps are the slot's sections and owe exactly their wakes |
| LockRuns.LockDoes | src/vm/IntrinsicsMutex.cpp:43-72 | a lock call that finds the lock free, or its own and reentrant, returns holding it once more; otherwise it stands last in line and goes to park, or where it must not suspend is refused with nothing changed |
| LockRuns.TryLockDoes | src/vm/IntrinsicsMutex.cpp:113-131 | a tryLock succeeds exactly where a lock call would not have waited, and otherwise changes nothing |
| LockRuns.UnlockDoes | src/vm/IntrinsicsMutex.cpp:147-186 | an unlock by another context changes nothing; the owner's counts down; its last one hands the lock to the longest waiter, waking it if it sleeps, or frees it |
| SemaphoreRuns.PermitsConserved | src/vm/IntrinsicsSemaphore.cpp:73-174 | initial plus released permits are in the counter, acquired, or on their way to one acquirer each |
| SemaphoreRuns.WaitersMeanNoPermits | src/vm/VmExecutor.h:2406-2414 | a live waiter implies a zero counter |
| SemaphoreRuns.GrantsAreFifo | src/vm/IntrinsicsSemaphore.cpp:116-149 | handed-off permits follow registration order |
| SemaphoreRuns.ResumedHasPermit | src/vm/IntrinsicsSemaphore.cpp:96-99 | a parked acquire returns only on a permit handed to it |
| SemaphoreRuns.StepsAreSections | src/vm/IntrinsicsSemaphore.cpp:73-174 | the runs' steps are the slot's sections and owe exactly their wakes |
| SemaphoreRuns.AcquireDoes | src/vm/IntrinsicsSemaphore.cpp:73-99 | an acquire takes a permit exactly when there is one; otherwise it stands last in line and goes to park, or is refused with nothing changed |
| SemaphoreRuns.TryAcquireDoes | src/vm/IntrinsicsSemaphore.cpp:154-174 | a tryAcquire takes a permit exactly when there is one |
| SemaphoreRuns.ReleaseDoes | src/vm/IntrinsicsSemaphore.cpp:116-149 | a release hands its permit to the longest waiter, waking it if it sleeps, and banks it when nobody waits |
| ChannelRuns.ChannelIsFifo | src/vm/IntrinsicsChannel.cpp:82-262 | everything offered, in order, is delivered ++ buffered ++ parked (or, once closed, lost) |
| ChannelRuns.WaitersMeanEmptyOrFull | src/vm/VmExecutor.h:2419-2427 | live receivers imply an empty open channel, live senders a full bounded open one |
| ChannelRuns.SendReportsItsValue | src/vm/IntrinsicsChannel.cpp:310-345 | a parked send returns success exactly when its value is in the accepted order and closed exactly when it is not |
| ChannelRuns.ClosedOrderIsFinal | src/vm/IntrinsicsChannel.cpp:186-262 | after close nothing is accepted, so a send that reported closed is never delivered |
| ChannelRuns.RecvReportsItsValue | src/vm/IntrinsicsChannel.cpp:270-308 | a parked receive returns the value delivered to it, or closed on a drained channel only |
| ChannelRuns.CloseDrainsNothing | src/vm/IntrinsicsChannel.cpp:215-262 | close's value-delivery branches never fire in any run; close is the slot's close and owes exactly its wakes |
| ChannelRuns.StepsAreSections | src/vm/IntrinsicsChannel.cpp:82-184 | the runs' send and receive steps are the slot's sections and owe exactly their wakes |
| ChannelRuns.SendDoes | src/vm/IntrinsicsChannel.cpp:82-125 | a send on an open channel goes to the longest waiting receiver, else into the buffer if there is room, else stands last in line with its value or is refused unchanged; on a closed one it changes nothing |
| ChannelRuns.RecvDoes | src/vm/IntrinsicsChannel.cpp:135-184 | a receive delivers the front of the buffer whenever there is one, closed or not, and the oldest parked sender's value takes the free place; on an empty channel it reports closed, stands in line, or is refused unchanged |
| ChannelRuns.ClosedDeliversEverything | src/vm/IntrinsicsChannel.cpp:149-157 | in every continuation after a close the receives, whoever calls them, get exactly what was buffered, in order |
| ChannelRuns.CloseDoes | src/vm/IntrinsicsChannel.cpp:186-262 | a close tells every waiting receiver and parked sender, keeps the buffer, and drops what parked senders hold; a second one changes nothing |
| SyncSlots.DrainServesFront | src/vm/IntrinsicsChannel.cpp:215-245 | a drain decides a front part of the queue with the buffered values in order, for as long as there are values, and everybody behind with closed |
| SyncSlots.EachGivenItsOwn | src/vm/IntrinsicsChannel.cpp:222-234 | each drained receiver finds its own value at its saved destination, and no other destination is written |
| ContractChecks.SignaturesIdentical | src/compiler/ModuleBuilderMethodContracts.cpp:57-81 | full signature identity |
| ContractChecks.ParamListsConflict | src/compiler/SnData.cpp:191-215 | same parameter list as far as types are resolved |
| Hierarchy.ConflictMeansCommonTypes | src/compiler/SnData.cpp:191-215 | two parameter lists conflict if and only if some resolution of their unresolved types makes the type lists equal |
| Hierarchy.ResolvedConflictIsSameTypes | src/compiler/SnData.cpp:191-215 | with all types resolved, a conflict is equality of the two type lists |
| Hierarchy.StaticBelowVirtualAccepted | src/compiler/ModuleBuilderStaticNamespace.cpp:45-86 | a static n(u) below a virtual n(t) passes every check if and only if t and u differ |
| Hierarchy.WalkIsSuperclassChain | src/compiler/ModuleBuilderMethodContracts.cpp:95-169 | a walk follows the superclass links, each class once, and ends only at no superclass, a builtin class or one it has seen |
| Hierarchy.IfacesListedOnce | src/compiler/ModuleBuilderMethodContracts.cpp:95-109 | the interfaces along a chain are listed once each |
| ContractChecks.CollectChainImplements | src/compiler/ModuleBuilderMethodContracts.cpp:95-109 | the interfaces along the chain, once each, on cyclic trees too |
| ContractChecks.FindDispatchWinner | src/compiler/ModuleBuilderMethodContracts.cpp:115-130 | the first instance method of the name in dispatch order |
| ContractChecks.CollectContractSet | src/compiler/ModuleBuilderMethodContracts.cpp:136-169 | ancestor virtual methods and required interface methods of the name |
| ContractChecks.DedupContractSignatures | src/compiler/ModuleBuilderMethodContracts.cpp:180-202 | the first declaration of each signature |
| ContractChecks.FirstsKeepSignatures | src/compiler/ModuleBuilderMethodContracts.cpp:172-201 | deduplication keeps every signature and leaves each once |
| ContractChecks.MatchOwnMethodsToContract | src/compiler/ModuleBuilderMethodContracts.cpp:210-254 | the greedy matching rejects exactly when own signatures repeat or leave the contract, and marks exactly the matched ones |
| ContractChecks.ReportUnmatchedContractSignatures | src/compiler/ModuleBuilderMethodContracts.cpp:259-278 | silent exactly when every signature was matched |
| ContractChecks.CheckVirtualNameUniformity | src/compiler/ModuleBuilderMethodContracts.cpp:288-327 | silent exactly when a name with a virtual method has one signature |
| ContractChecks.CheckInstanceNameContracts | src/compiler/ModuleBuilderMethodContracts.cpp:334-356 | silent exactly when own and deduplicated contract signatures are in bijection |
| ContractChecks.CheckStaticVirtualCollision | src/compiler/ModuleBuilderStaticNamespace.cpp:45-86 | silent exactly when no static takes an inherited virtual method's parameter list |
| ContractChecks.CheckOverrideSignatures | src/compiler/ModuleBuilderMethodContracts.cpp:385-402 | under any set of names rejected above: exactly the other declared names that are out of order are rejected, one diagnostic each |
| ContractChecks.CheckInterfaceContracts | src/compiler/ModuleBuilderMethodContracts.cpp:411-456 | under any rejected set: logs nothing exactly when every required method of another name is its name's dispatch winner |
| ContractChecks.ModuleBuilder.Process | src/compiler/ModuleBuilderMethodContracts.cpp:469-487 | keeps the order topmost first but for cycles, each class once, and the names rejected above passed down and skipped |
| ContractChecks.ModuleBuilder.CheckMethodContracts | src/compiler/ModuleBuilderMethodContracts.cpp:458-490 | every class of the unit is checked, topmost first but for cycles, under the names rejected above it; the pass logs nothing if and only if each passes its own checks |
| Hierarchy.SilentChecksMakeVirtualCallsSafe | src/compiler/ModuleBuilderMethodContracts.cpp:22-37 | on a tree where every class passes, name-based dispatch finds the bound signature everywhere if and only if no override declares its name twice |
| Hierarchy.MarkedOverridesAreSafe | src/compiler/ModuleBuilderMethodContracts.cpp:172-179 | with overrides marked virtual, passing checks are enough |
| Marking.StatementResolveAccessor.FindField | src/compiler/SnTypeDecls.cpp:355-362 | the class's own first member of the name, else its nearest ancestor's |
| Marking.StatementResolveAccessor.PropagateVirtualOverrides | src/compiler/builder/StatementResolverTypes.cpp:173-202 | the methods for which some ancestor's lookup of the name finds a virtual function with as many parameters are marked, in place, and nothing else changes |
| Marking.StatementResolveAccessor.Resolve | src/compiler/builder/StatementResolverTypes.cpp:239-246 | whatever the order of the classes, the marks come out the same: they follow from the declared marks alone |
| Marking.OverridesIsLed | src/compiler/builder/StatementResolverTypes.cpp:183-200 | a visit gets one answer whatever has been marked before: some ancestor's first member of the name is declared virtual, with as many parameters |
| Marking.LedLinkByLink | src/compiler/builder/StatementResolverTypes.cpp:183-200 | a method is led if and only if, up the superclass links, some class's first member of the name is a virtual function with as many parameters |
| Marking.LookupIsNearest | src/compiler/SnTypeDecls.cpp:355-362 | a lookup finds the first member of the name in the nearest class up the links that declares one, or none when no class does |
| MarkedHierarchy.MarkingExact | src/compiler/builder/StatementResolverTypes.cpp:170-202 | for every tree, class and name: overrides end up marked if and only if the declarations fulfil the stated condition |
| MarkedHierarchy.MarkedUnlessHidden | src/compiler/builder/StatementResolverTypes.cpp:170-202 | in a silent class an override is marked if and only if it is declared virtual or an ancestor's first member of the name is a virtual function of its parameter count |
| MarkedHierarchy.OverridesGetMarked | src/compiler/builder/StatementResolverTypes.cpp:170-202 | where no virtual method stands behind another member of its name, every override in a silent class is marked |
| MarkedHierarchy.MarkedAndSilentIsSafe | src/compiler/ModuleBuilderMethodContracts.cpp:172-179 | where nothing is hidden, marking and silent checks make every virtual call dispatch to its own signature |
| HiddenVirtual.HiddenVirtualMisdispatches | src/compiler/builder/StatementResolverTypes.cpp:183-200 | a tree with a static in front of a virtual method: the pass marks nothing, every check is silent, and a virtual call misdispatches |
| ContractChecks.SilentPassIsEnough | src/compiler/ModuleBuilderMethodContracts.cpp:22-37 | after the marking, a silent pass over clean imports where no virtual method is hidden: every call bound to a virtual or interface method finds its signature |
| Bytecode.SplitEncodes | src/vm/BytecodeOps.h:302-323 | a walk by strides loses no byte |
| Bytecode.EncodeSplits | src/vm/BytecodeOps.h:302-323 | encoding is the walk's inverse |
| Bytecode.OpcodeNumbers | src/vm/BytecodeOps.h:8-206 | 88 opcodes; the numbers of the first and last of each group |
| OperandShapes.ShapesFillStrides | src/vm/BytecodeOps.h:8-323 | the operand shapes documented opcode by opcode fill the extents of the stride table |
| Remap.FamiliesFollowShapes | src/vm/BytecodeOps.h:20-206 | the patch families name exactly the documented table operand of every instruction, but for OP_AllocArrayDyn and owners of an undocumented kind |
| Remap.FamiliesDisjoint | src/vm/NcuLinkerRemap.cpp:42-158 | no opcode is patched by two families and no patch touches a kind word |
| Remap.PatchOperand | src/vm/NcuLinkerRemap.cpp:18-32 | two little-endian bytes through one map; unmapped ones stay and are reported |
| Remap.FindOperand | src/vm/NcuLinkerRemap.cpp:42-145 | the place and channel of an instruction's one table operand |
| Remap.PatchInstruction | src/vm/NcuLinkerRemap.cpp:42-145 | one instruction in place, everything else untouched |
| Remap.NcuRemapBytecodeOperands | src/vm/NcuLinkerRemap.cpp:147-158 | in-place remap is decode, map each table operand, encode; unmapped operands reported once each in order; an unknown opcode stops the walk |
| Remap.OnlyTheOperandChanges | src/vm/NcuLinkerRemap.cpp:18-145 | opcode, operand place, channel and every other byte stay |
| Remap.MappedOperandBytes | src/vm/NcuLinkerRemap.cpp:18-32 | an index its map knows becomes its image below 65536, low byte first; an unknown one stays and is reported with its channel |
| Remap.ChannelsHaveTheirMaps | src/vm/NcuLinkerRemap.cpp:42-145 | each table's indices go through that table's own map |
| Remap.UnmappedInOrder | src/vm/NcuLinkerRemap.cpp:147-158 | the report is the instructions' reports in code order |
| Remap.RemapKeepsBoundaries | src/vm/NcuLinkerRemap.cpp:147-158 | length and instruction boundaries stay |
| Remap.RemapComposes | src/vm/NcuLinkerRemap.cpp:18-158 | remapping twice is remapping by the composition |
| Remap.RemappedUnlessAllocArrayDyn | src/vm/BytecodeOps.h:20-206 | every table operand the instruction set documents is remapped, whatever the maps, if and only if the opcode is not OP_AllocArrayDyn, which has no arm |
| Remap.BuildLinePcMap | src/vm/DisassemblerWalk.cpp:14-32 | the anchors of the whole instructions in order, with 16-bit places; code cut inside its last instruction adds nothing |
| Remap.AnchorsAscend | src/vm/DisassemblerWalk.cpp:14-32 | anchors ascend strictly |
| Remap.AnchorsExact | src/vm/DisassemblerWalk.cpp:14-32 | the anchors are exactly the DebugInfo instructions, each with its own line and the place where its bytes start |
| Remap.LongCodeWraps | src/vm/DisassemblerWalk.cpp:27 | an anchor behind 65536 one-byte instructions is listed at place 0 |
| Remap.LineMapExact | src/vm/DisassemblerWalk.cpp:27 | places are exact if and only if all lie below 65536 |
| Remap.RemapKeepsAnchors | src/vm/DisassemblerWalk.cpp:14-32 | remapping moves no anchor |
| InterfaceMerge.PickRepresents | src/vm/NcuLinkerInterfaces.cpp:27-42 | the kept row is the first with content, else the first |
| InterfaceMerge.RepresentativeIsUnique | src/vm/NcuLinkerInterfaces.cpp:27-42 | a name has one row that can represent it |
| InterfaceMerge.ContentReplacesPlaceholder | src/vm/NcuLinkerInterfaces.cpp:12-42 | a new row replaces the representative exactly when that one is nothing but a name and the new one is not |
| InterfaceMerge.Linker.MergeInterfaces | src/vm/NcuLinkerInterfaces.cpp:43-75 | names keep their indices, every unit row maps to the row of its name, rows and push lists stay right |
| InterfaceMerge.LinkAll | src/vm/NcuLinkerInterfaces.cpp:43-75 | over any units: right rows and maps always; each row pushed by exactly its supplier, once, if and only if no unit swaps its own placeholder, and else some row stands twice in one list |
| InterfaceMerge.DistinctUnitsAreClean | src/vm/NcuLinkerInterfaces.cpp:27-42 | units with distinct names never swap their own row |
| InterfaceMerge.SelfSwapPushesTwice | src/vm/NcuLinkerInterfaces.cpp:57-66 | a unit that brings a placeholder and then the content of the same name has the one merged row in its push list twice |
| Utf8.DecodedIsEncoded | src/compiler/Utf8.cpp:30-45 | what is decoded is a scalar value whose RFC 3629 encoding is those bytes |
| Utf8.EncodedIsDecoded | src/compiler/Utf8.cpp:52-76 | every scalar value's encoding decodes, whatever follows |
| Utf8.StuckMeansNoDecode | src/compiler/Utf8.cpp:52-76 | decoding fails exactly when no scalar value's encoding is there |
| Utf8.ReadingIsUnique | src/compiler/Utf8.cpp:52-76 | a text reads as scalars in one way |
| Utf8.RangesAndLengths | src/compiler/Utf8.cpp:19-45 | the scalar ranges and sequence lengths of RFC 3629, section 3 |
| Utf8.KnownEncodings | src/compiler/Utf8.cpp:30-45 | the example encodings of RFC 3629, section 7 |
| Utf8.MarksAreFeff | src/compiler/Utf8.cpp:93-112 | the byte-order marks are U+FEFF in UTF-8 and in either 16-bit byte order |
| Utf8.ValidMeansEncoded | src/compiler/Utf8.cpp:78-81 | valid means encoding of a scalar sequence |
| Utf8.SequenceLength | src/compiler/Utf8.cpp:19-26 | the width a lead byte announces |
| Utf8.DecodeCodePoint | src/compiler/Utf8.cpp:30-45 | the gathered code point |
| Utf8.Utf8FirstInvalid | src/compiler/Utf8.cpp:52-76 | the offset where scalar values stop, the length if they do not |
| Utf8.DecodeCodePointAt | src/vm/IntrinsicsString.cpp:102-132 | the second decoder accepts exactly the same sequences |
| Utf8.CharCount | src/vm/IntrinsicsString.cpp:393-410 | counts the encoded scalars, or raises at the validator's offset |
| Utf8.LineOfOffset | src/compiler/Utf8.cpp:84-91 | line feeds before the offset |
| Utf8.LineOfCountsFeeds | src/compiler/Utf8.cpp:84-91 | the line is one more than the number of line feeds |
| Utf8.Utf8ContentCheck | src/compiler/Utf8.cpp:93-131 | accepted exactly when, past one mark, the bytes encode scalars; UTF-16 named; the error line is the first ill-formed byte's |
| InputLines.RawLinesGiveBack | src/vm/InputLineSource.cpp:56-101 | the pieces hold no line feed and give the stream back |
| InputLines.UnlinesSplits | src/vm/InputLineSource.cpp:56-101 | pieces without line feeds are the lines of the text they make |
| InputLines.DropsOneCr | src/vm/InputLineSource.cpp:61-66 | a line loses exactly one carriage return at its end |
| InputLines.EitherEndingSameLines | src/vm/InputLineSource.cpp:56-101 | a text read with CR LF endings has the lines it has with LF endings |
| InputLines.InputLineSource.FillBuffer | src/vm/InputLineSource.cpp:26-54 | a read moves bytes into the buffer or latches the end; none is lost |
| InputLines.InputLineSource.HasMore | src/vm/InputLineSource.cpp:103-107 | a probe loses nothing and answers yes exactly when bytes are buffered or the platform sees some; it latches the end exactly when it runs into it |
| InputLines.InputLineSource.PullLine | src/vm/InputLineSource.cpp:56-101 | a pull takes exactly the next line; the cue fires once if nothing was buffered and the read may block, and otherwise not at all |
| InputLines.ReadStream | src/vm/InputLineSource.cpp:26-107 | for every chunking, probe behaviour and order of calls: the stream's lines in order, then end of file for ever |
| TypeDescs.ParseUndoes | src/vm/TypeDesc.cpp:18-177 | parsing gives back the descriptor and what followed it |
| TypeDescs.TypeDescUndo | src/vm/ModuleSaver.cpp:22-34 | a length-prefixed descriptor reads back |
| TypeDescs.DefaultUndo | src/vm/ModuleSaver.cpp:40-58 | a default-value record reads back |
| ImageBounds.AccessByte | src/vm/ModuleLoaderRecordsClasses.cpp:81-91 | an access byte reads if and only if it is 0 to 3, and a flag if and only if it is 0 or 1 |
| ImageBounds.ParseExact | src/vm/TypeDesc.cpp:84-177 | a written descriptor parses if and only if its kinds are known, its array ranks at most 64 and its nesting at most 8 |
| ImageBounds.TypeDescExact | src/vm/ModuleSaver.cpp:22-34 | and, behind its length, if and only if it also has at most 4096 bytes |
| ImageBounds.FieldsExact | src/vm/ModuleLoaderRecordsClasses.cpp:42-92 | a written field block reads back or throws, by its names, types and access |
| ImageBounds.MethodsExact | src/vm/ModuleLoaderRecordsClasses.cpp:94-136 | at most 4096 methods, each a function of the module, access 0 to 3, virtuality 0 or 1; anything else throws |
| ImageBounds.CtorsExact | src/vm/ModuleLoaderRecordsClasses.cpp:138-166 | at most 4096 constructors, each a function of the module, access 0 to 3; anything else throws |
| ImageBounds.StaticsExact | src/vm/ModuleLoaderRecordsClasses.cpp:168-206 | at most 4096 static fields; anything else throws |
| ImageBounds.ClassExact | src/vm/ModuleLoaderRecordsClasses.cpp:25-215 | a written class record reads back if it meets every limit, stated in numbers, and throws otherwise |
| ImageLoads.ImageLoadsIff | src/vm/ModuleLoader.cpp:146-387 | a written image whose values have room in their fields loads, to the same tables, if and only if it meets the loader's limits, stated in numbers; otherwise it is refused |
| ImageLoads.FitsMeansWithin | src/vm/ModuleLoader.cpp:146-387 | the tables of the round trips are exactly those with room for their values and within the limits |
| ImageLoads.ClassTableExact | src/vm/ModuleLoaderRecordsClasses.cpp:17-215 | the class table, up to 16777216 records |
| ImageLoads.EnumsExact | src/vm/ModuleLoader.cpp:163-222 | up to 16777216 enums and names in each, up to 1048576 methods in each |
| ImageLoads.SlotsExact | src/vm/ModuleLoader.cpp:228-285 | up to 1048576 slots, owner kind 0 to 2, flags 0 or 1 |
| ImageLoads.SectionExact | src/vm/ModuleLoader.cpp:293-350 | up to 16777216 imports a section, owner kind 0 to 2 |
| ImageLoads.RangeIsNamed | src/vm/TypeDesc.cpp:179-199 | the descriptor check is that every struct and class index anywhere in a field's type names something the module has |
| ImageLoads.ChainsEndMeansRanked | src/vm/ModuleLoaderRecordsClasses.cpp:217-233 | the chain check is that the classes can be ranked with each superclass below its subclasses |
| ImageLoads.WriterRefusesUnevenEnums | src/vm/ModuleSaver.cpp:60-80 | the writer emits exactly the modules whose enum tables are parallel |
| ImageLayout.WordBytes | src/vm/ModuleSaver.cpp:22-58 | words are little-endian |
| ImageLayout.DescBytes | src/vm/TypeDesc.cpp:18-82 | the bytes of a nested descriptor |
| ImageLayout.ClassBytes | src/vm/ModuleSaverRecordsClasses.cpp:25-146 | the bytes of a class record, field by field |
| ImageLayout.StaticBytes | src/vm/ModuleSaverRecordsClasses.cpp:113-140 | the bytes of a static field, slotted and folded |
| ImageLayout.DefaultBytes | src/vm/ModuleSaver.cpp:40-58 | the bytes of a default value |
| ImageLayout.EnumBytes | src/vm/ModuleSaverRecordsEnums.cpp:14-56 | the bytes of the three enum tables |
| ImageLayout.SmallRecordBytes | src/vm/ModuleSaver.cpp:331-427 | the bytes of an array type, a static slot, and imports with and without an owner |
| ImageLayout.TableBytes | src/vm/ModuleSaver.cpp:331-427 | the order of the tables |
| ImageLayout.ImportsBytes | src/vm/ModuleSaver.cpp:429-438 | the order of the import sections |
| Image.FieldsUndo | src/vm/ModuleSaverRecordsClasses.cpp:39-75 | the parallel field vectors read back |
| Image.MethodsUndo | src/vm/ModuleSaverRecordsClasses.cpp:77-94 | the method block reads back |
| Image.CtorsUndo | src/vm/ModuleSaverRecordsClasses.cpp:96-111 | the constructor block reads back |
| Image.StaticFieldUndo | src/vm/ModuleSaverRecordsClasses.cpp:113-140 | a static field reads back, folded or slotted |
| Image.ClassUndo | src/vm/ModuleLoaderRecordsClasses.cpp:25-215 | a class record reads back |
| Image.EnumsUndo | src/vm/ModuleSaverRecordsEnums.cpp:14-56 | the three parallel enum tables read back |
| Image.SlotUndoes | src/vm/ModuleSaver.cpp:349-377 | a static slot reads back |
| Image.ImportUndo | src/vm/ModuleSaver.cpp:389-427 | an import slot reads back, with and without its owner |
| Image.TablesUndo | src/vm/ModuleLoader.cpp:146-387 | all tables from the class table on read back, with every cap and cross-check, leaving exactly what followed |
| Image.ImageRoundTrips | src/vm/ModuleSaver.cpp:331-438 | a written image loads to the same tables with no bytes left |
| Image.TablesAreSteady | src/vm/ModuleLoader.cpp:146-387 | more bytes behind an image that loads change nothing |
| Image.NoPrefixLoads | src/vm/ModuleLoader.cpp:146-387 | no strict prefix of a written image loads, though most short reads are noticed only later |
| SuperChains.EndsInTableSize | src/vm/ModuleLoaderRecordsClasses.cpp:217-233 | a chain that reaches -1 does so within as many steps as there are classes |
| SuperChains.CheckSuperclassChains | src/vm/ModuleLoaderRecordsClasses.cpp:217-233 | the step-bounded walk accepts if and only if every chain reaches -1 |
| ImageStreams.ImageWriter.WriteEach | src/vm/ModuleSaverRecordsClasses.cpp:39-75 | a loop over records appends them in order |
| ImageStreams.ImageWriter.WriteFields | src/vm/ModuleSaverRecordsClasses.cpp:39-75 | the six field loops append the field block |
| ImageStreams.ImageWriter.WriteClass | src/vm/ModuleSaverRecordsClasses.cpp:25-146 | the writer's statements append the class record |
| ImageStreams.ImageWriter.WriteClassRecords | src/vm/ModuleSaverRecordsClasses.cpp:20-147 | the writer appends the class table |
| ImageStreams.ImageReader.ReadEach | src/vm/ModuleLoaderRecordsClasses.cpp:25-27 | a loop reads records until one throws |
| ImageStreams.ImageReader.ReadClassRecords | src/vm/ModuleLoaderRecordsClasses.cpp:17-234 | the reader reads the class table and then checks every superclass chain |
| Cycles.Search.Dfs | src/compiler/ModuleBuilderChecks.cpp:107-127 | a visit closes a cycle on its path or leaves everything as it was with the node finished |
| Cycles.CycleText | src/compiler/ModuleBuilderChecks.cpp:62-75 | the path from the first meeting with the repeated node |
| Cycles.CheckCircular | src/compiler/ModuleBuilderChecks.cpp:94-177 | a report if and only if a walk from the checked declarations comes back on itself, and it is a closed walk of real edges |
| Spelling.ArgReads | src/vm/GenericInstDescriptor.cpp:36-50 | a spelled argument reads in one way only |
| Spelling.SpellingIsInjective | src/vm/GenericInstDescriptor.cpp:20-50 | two instantiations spell the same if and only if they are the same tree, or one has no argument and the other a lone empty leaf |
| Spelling.MapOfIntToList | src/vm/GenericInstDescriptor.cpp:20-50 | Map<int,List<string>> is spelled so, and List without arguments List<> |
| Spelling.EmptyLeafCollides | src/vm/GenericInstDescriptor.cpp:20-34 | a lone empty leaf spells like no argument at all, though the trees differ |
| Spelling.InternPool.Intern | src/vm/GenericInstDescriptor.cpp:60-78 | the descriptor of the key, made once |
| Spelling.InternPool.InternTwice | src/vm/GenericInstDescriptor.cpp:60-78 | two internings share a descriptor exactly for the same tree, the lone empty leaf aside |
| SplitReplace.SplitJoins | src/vm/IntrinsicsString.cpp:256-280 | joining the parts with the separator restores the text |
| SplitReplace.PartsAreFree | src/vm/IntrinsicsString.cpp:256-280 | no part contains the separator |
| SplitReplace.SplitIsTheFirstCuts | src/vm/IntrinsicsString.cpp:256-280 | the parts are the only ones that join to the text with each cut at the first occurrence of the separator |
| SplitReplace.SplitString | src/vm/IntrinsicsString.cpp:256-280 | split ends, and gives those parts |
| SplitReplace.ReplaceString | src/vm/IntrinsicsString.cpp:301-330 | replace is split joined with the new text |
| FreezeQueue.DebugSessionController.Arrive | src/vm/DebugSessionController.cpp:387-391 | an arrival takes an idle token or joins the queue |
| FreezeQueue.DebugSessionController.OpenWindow | src/vm/DebugSessionController.cpp:392-397 | the window opens for the token's context |
| FreezeQueue.DebugSessionController.CloseWindow | src/vm/DebugSessionController.cpp:404-414 | a closed window hands the token to the head of the queue |
| FreezeQueue.OverlapExact | src/vm/DebugSessionController.cpp:382-416 | after any run without nested freezes, an arrival lets the windows of two contexts be open at once, with no arrival after it, if and only if its context is frozen already and another stands behind it |
| FreezeQueue.WindowsAreFifo | src/vm/DebugSessionController.cpp:382-416 | with no context frozen twice: one open window, named by the token; later freezers queue in arrival order; idle means empty |
| FreezeQueue.NestedFreezeOpensTwo | src/vm/DebugSessionController.cpp:387-393 | with a nested freeze of one context two contexts' windows are open at once |

## Left out

- The carriers, frame stealing, memory orderings and the domain locks: sections are atomic steps.
- Parks that are not sync primitives (join, timer, IO, static initialization, pumps) and contexts that end.
- A slot's reuse after the collector has freed its handle: a slot is followed from its making on.
- Receiver checks, uninitialized handles and exception objects in the intrinsics; `mayPark` stands for the nested-window check, which passes again when a registered call commits.
- Wording and order of diagnostics: the contract checks count rejections, and names are taken in any order.
- CheckGenericDeclContract, which the contract driver also calls.
- The image's header, string, function, struct and interface tables; the tables that are modelled refer to them by size. Descriptor checks on those tables go with them.
- Image.ReadTables: reads and writes on values, in the program's order; the statements and loops are modelled for the class table only, in ImageStreams.
- ImageLoads.ImageLoadsIff: speaks of tables whose counts, lengths and numbers have room in the fields they are written to; the writer truncates a longer count, and what the loader then makes of the bytes is not described.
- Wire.Take: a short read yields no bytes, where the stream would leave a partly filled buffer that no later check lets through.
- TypeDescs.PutDesc: does not model the exception on a container without its nested descriptor, which no canonical descriptor raises.
- InputLines.ReadStream: reads never return more than the chunk size and a probe says "gone" only when nothing is left; interrupted reads are retried before the model sees them.
- FreezeQueue.WindowsAreFifo: asks that no context freezes while it is frozen, because a nested freeze can break it (NestedFreezeOpensTwo; OverlapExact says which ones do).
- Heap layout, mark and sweep, disassembler printing, number formatting and parsing, native libraries, other debugger commands, and the linker's remaining tables.
- The member list's own lookup (`MemberList::find`) is not part of this model: Marking takes the first declared member of the name, and classes that extend themselves, on which the lookup and the marking would not end, are excluded there (`Acyclic`), as an earlier pass rejects them (src/compiler/builder/StaticInitSynthesis.cpp:51).
- Remap.NcuRemapBytecodeOperands: asks that the code does not end inside an instruction, where the patcher would write past its end.
- WorldStopRuns.ResetUnderSleeperStrandsStop: the continuations exclude another reset and a completion by a thread that was not elected, which is how a stop is cancelled.
