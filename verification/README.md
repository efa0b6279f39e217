# Verified model of the module tool and of two kernel interface layers

The repository holds a tool that draws module dependencies (`utils/build-depends.cpp`) and the open parts of
two NVIDIA kernel drivers: the `nvidia-drm` interface of release 410.93 and the kernel interface layer of
release 340.107. This project models the parts of that code which carry invariants of their own, and proves
them with Dafny. `dafny verify dfyconfig.toml` checks everything.

## How the model is built

Code that runs to completion under a lock, or on its own, is a method with the loops, fields and arrays of the
source, proved against a specification function or an outright property. Code whose parts interleave is a state
machine: a datatype `State`, a total function `Step` with one event for each atomic section, and an invariant
that every event keeps. `Runs.Exec` runs any sequence of events, and an event whose guard is false changes
nothing, so "after every sequence of events" means "in every reachable state". The methods of the same module are
proved to be steps of the machine. For the three protocols whose objects point at one another that is done in files
of their own, `CommitCalls`, `FlipCalls` and `PageCalls`, where a mirror predicate ties the objects to the machine;
`CommitInterleaved` and `FlipInterleaved` prove whole calls against any interference between their atomic sections.

A machine that does nothing keeps every invariant. So beside the invariants there are accounts of each machine in
terms of the events of a run alone: what has been begun and not ended, taken and not given back, asked for, sent or
freed (`CommitHistory`, `FlipHistory`, `PageHistory`, `Semaphore.EventsAreCounted`, `FenceTimeline.EventsDecide`,
`EventQueue.ActionsDecide`, `DeviceOpen.HandlesAreCounted`); and the methods also say in their own fields what they do.

| file | what it models |
|---|---|
| `Runs.dfy`, `Options.dfy` | runs of a state machine; values that may be absent |
| `ModuleGraph.dfy`, `TransitiveReduction.dfy`, `DependencyTable.dfy` | `utils/build-depends.cpp`: the recursive search, the reduction in place, and the tables the lines fill |
| `CommitProtocol.dfy`, `CommitHistory.dfy`, `CommitCalls.dfy`, `CommitInterleaved.dfy` | the commit path of `nvidia-drm` for kernels without the nonblocking helper |
| `FlipOwnership.dfy`, `FlipHistory.dfy`, `FlipCalls.dfy`, `FlipInterleaved.dfy` | flip objects and completion events in the build with the nonblocking helper |
| `FenceTimeline.dfy` | the fence context of `nvidia-drm` |
| `RequestedConfig.dfy` | change flags of the requested head configuration |
| `Semaphore.dfy` | the counting semaphore of `os-interface.c` |
| `PageLifetime.dfy`, `PageHistory.dfy`, `PageCalls.dfy`, `SystemPages.dfy` | reference counts, deferred frees and the system page allocator |
| `DmaMap.dfy` | scatterlist expansion, mapping and unmapping |
| `DeviceOpen.dfy`, `EventQueue.dfy` | open and close of a GPU, and the event queue of an open file |
| `AcpiExtract.dfy` | the recursive ACPI extractor |
| `CrayFormat.dfy` | the format scanner and word packer of `nv-cray.c` |
| `VersionScan.dfy` | the compiler version scanner |

## What the surroundings are taken to do

- The DRM core holds the locks of an update's CRTCs for the length of a commit call, installs a new state on a
  CRTC only after the previous commit's tail has run there, and checks each plane of an update once.
- The display engine reports at most one flip for each head and applied update, and only where one was marked.
- The resource manager maps only allocations it still holds and frees none while the API lock is held; a file is
  released only when no VMA of it is left and no callback of one is running.
- Stepping a 32-bit count over the end of its range wraps around, as kernels are compiled; there are fewer than 2^31
  threads.
- `kmalloc`, `pci_map_sg`, `request_irq` and the like are outcomes the caller passes in; every outcome is covered.

## Where the code differs from what one would expect

Each of these is a theorem, with the exact condition under which the expected property does hold.

- `DependsOn` does not come back from every graph: it does if and only if no cycle can be entered from the start, or
  a path leads to the target on which every list has only harmless entries in front. The order of a list can decide
  (`ModuleGraph.SearchTerminationIsExact`, `ModuleGraph.OrderDecides`).
- The free list of a file is pushed onto without a lock. Every safety property of the allocations survives that, but
  once all files are closed nothing has leaked if and only if no two pushes onto one list overlapped
  (`PageLifetime.NothingLeaksIffNoOverlap`); `PageLifetime.OverlapLeaks` is a run that leaks.
- A semaphore whose initial value has the top bit set starts out negative. While only holders release, it lets nobody
  through up to `initialValue - 2^31 + 1` acquires, and somebody after that, because the count has wrapped
  (`Semaphore.TopBitAdmitsIff`, `Semaphore.TopBitSecondPasses`). Releases by others can make the count wrap upwards
  (`Semaphore.ForeignReleaseOverflows`); the semaphore law holds as long as there is room for them.
- A head that was marked for a flip is never idle again if and only if programming raises no flip for it, and then no
  later commit reaches it (`CommitProtocol.NeverIdleIffSilent`, `CommitProtocol.LostFlipWedgesHead`); six steps after
  the start it can happen (`CommitProtocol.WedgeIsReachable`).
- A commit that the engine refuses leaves it behind the software state, unless the update asked for nothing new
  (`RequestedConfig.StepStaysInSync`, and `RequestedConfig.RefusedMoveIsLost` for an instance). What it missed is not
  sent again by itself, not even by repeating the update (`RequestedConfig.RepeatingDoesNotCure`);
  `RequestedConfig.InSyncAgainIff` says exactly when it has caught up.
- An open that fails past the lookup frees the stacks it finds, and in persistence mode one that fails at the adapter
  takes away a registration of the handler it finds (`DeviceOpen.FailedOpenIsHarmlessIff`). The mode keeps both over a
  close, so failed opens can strip a device of them, and the next open succeeds without
  (`DeviceOpen.TwoFailedOpensStrip`, `DeviceOpen.PersistenceCanLoseStacks`); switching the mode off in between loses
  four stacks and a registration (`DeviceOpen.SwitchingOffLeaks`). Exactly when a run stays clear of all that is
  `DeviceOpen.ConsistentThroughoutIff`.
- The format scanner accepts `*` for a width or precision, but takes no argument for it, so a format reads the arguments
  that the grammar assigns to its values if and only if it has no star (`CrayFormat.AssignedIffNoStar`,
  `CrayFormat.StarReadsTheWidth`).
- A signed `ll` directive reads an `int`, so its second word is always zero (`CrayFormat.LongLongIsWholeIff`), and
  a lone last word packs like a pair whose first word is zero (`CrayFormat.SameRegistersIff`).

## Model

| member | source | states |
|---|---|---|
| ModuleGraph.DependsOn | utils/build-depends.cpp:140-154 | wherever the search returns at all, and on no other graphs, the recursion terminates and answers true exactly when a path of at least one edge exists; the null module is never reached |
| ModuleGraph.HopShrinks | utils/build-depends.cpp:140-154 | away from cycles, each recursive call leaves strictly fewer modules reachable |
| ModuleGraph.SearchSound | utils/build-depends.cpp:140-154 | whenever the search returns within some stack depth, on any graph, its answer is reachability |
| ModuleGraph.SearchReturns | utils/build-depends.cpp:140-154 | a stack deeper than the number of reachable modules is enough where no cycle is reachable |
| ModuleGraph.SearchDiverges | utils/build-depends.cpp:140-154 | with a cycle below the start and no path to the target, no stack depth is enough |
| ModuleGraph.SearchTerminationIsExact | utils/build-depends.cpp:140-154 | for every graph, start and target the search returns if and only if no cycle can be entered from the start or a path leads to the target whose lists have in front only entries that differ from it, lead to no cycle and do not reach it; every answer is right |
| ModuleGraph.ClearPathFound | utils/build-depends.cpp:140-154 | along such a path the search finds its target within a stack of the path length plus the number of modules |
| ModuleGraph.FoundHasClearPath | utils/build-depends.cpp:140-154 | a search that answers true has gone along such a path |
| ModuleGraph.OrderDecides | utils/build-depends.cpp:140-154 | a module that depends on itself is searched for ever; with a second dependency the order of its list decides whether that one is found |
| TransitiveReduction.NullIfReached | utils/build-depends.cpp:254-267 | the inner loop, which skips nulled entries, nulls entry i exactly if some other entry of the original list reaches it, and touches nothing else |
| TransitiveReduction.SurvivorsSuffice | utils/build-depends.cpp:257-266 | comparing only with entries still there decides the same as comparing with the whole original list |
| TransitiveReduction.TopmostAbove | utils/build-depends.cpp:257-266 | above any listed dependency that reaches another there is a kept one that does |
| TransitiveReduction.ReduceList | utils/build-depends.cpp:254-272 | the pass in place keeps exactly the entries no other entry reaches, in order, whatever the list order and duplicates |
| TransitiveReduction.ReduceAll | utils/build-depends.cpp:251-272 | reducing every list against the full graph yields the transitive reduction |
| TransitiveReduction.ReducedStillReaches | utils/build-depends.cpp:251-272 | every pair reachable before is reachable along kept edges |
| TransitiveReduction.ReducedReachesNoMore | utils/build-depends.cpp:251-272 | no pair becomes reachable |
| TransitiveReduction.KeptEdgeIsForced | utils/build-depends.cpp:251-272 | every graph with the same reachability contains every kept edge |
| TransitiveReduction.ReducedIsTransitiveReduction | utils/build-depends.cpp:251-272 | for every acyclic graph the result has the same reachability, no edge to spare, and lies inside every graph with that reachability, so it is the unique reduction |
| DependencyTable.Table.GetModule | utils/build-depends.cpp:125-133 | interning: equal names get equal addresses, different names different ones, and an address keeps its name |
| DependencyTable.Table.PushBack | utils/build-depends.cpp:227-235 | appends one name to the list of the line's first module and changes no other list |
| DependencyTable.Table.AddLine | utils/build-depends.cpp:227-235 | a line of two keys or more appends all but the first to the first one's list |
| DependencyTable.Table.Load | utils/build-depends.cpp:227-235 | after all lines the table holds under every name exactly what the lines declare |
| DependencyTable.DeclaredIff | utils/build-depends.cpp:227-235 | a name is declared a dependency of another exactly if it stands behind it on some line that it heads |
| DependencyTable.AppendByName | utils/build-depends.cpp:227-235 | appending by address is appending by name |
| CommitProtocol.StepKeepsInv | nvidia-410.93/nvidia-drm/nvidia-drm-modeset.c:256-444 | every step of commits, tasks and flip handlers, in any order, keeps the invariant over locks, flags, installed states, flips and events |
| CommitProtocol.CommitSafety | nvidia-410.93/nvidia-drm/nvidia-drm-modeset.c:256-444 | in every run, timeouts included: one commit task and one flip outstanding per CRTC, tasks apply the state their own commit installed, a pending flip's state is still current, and each event goes to its own commit's flip, once |
| CommitProtocol.CallsApart | nvidia-410.93/nvidia-drm/nvidia-drm-modeset.c:310-424 | two calls in progress never share a CRTC |
| CommitProtocol.HoldersKept | nvidia-410.93/nvidia-drm/nvidia-drm-modeset.c:285-401 | has_pending_commit is up only where some commit has marked and not let go |
| CommitProtocol.BusyCommitChangesNothing | nvidia-410.93/nvidia-drm/nvidia-drm-modeset.c:348-384 | a commit that ends in -EBUSY changed no flag, state or event at any of its steps |
| CommitProtocol.WritingIsForGood | nvidia-410.93/nvidia-drm/nvidia-drm-modeset.c:386-424 | a commit that has written anything can no longer end in -EBUSY |
| CommitProtocol.SilentHeadIsWedged | nvidia-410.93/nvidia-drm/nvidia-drm-modeset.c:276-300 | a head marked for a flip that programming does not raise is stuck: flag up, no flip due, no commit on its way |
| CommitProtocol.DueFlipFreesHead | nvidia-410.93/nvidia-drm/nvidia-drm-modeset.c:426-444 | a flip that is due can be handled, and that lowers the flag |
| CommitProtocol.NeverIdleIffSilent | nvidia-410.93/nvidia-drm/nvidia-drm-modeset.c:276-300 | after programming, the flip flag of a marked head stays up in every continuation if and only if no flip was raised for it |
| CommitProtocol.WedgeIsReachable | nvidia-410.93/nvidia-drm/nvidia-drm-modeset.c:310-424 | a run of six steps and a silent programming from the initial state ends in such a head |
| CommitProtocol.LostFlipWedgesHead | nvidia-410.93/nvidia-drm/nvidia-drm-modeset.c:348-384 | a stuck head keeps its state object in every continuation |
| CommitProtocol.WedgedStep | nvidia-410.93/nvidia-drm/nvidia-drm-modeset.c:348-384 | no step frees a stuck head |
| CommitHistory.SwappedInAsProposed | nvidia-410.93/nvidia-drm/nvidia-drm-modeset.c:391-403 | in every run, a commit that is swapped in has a flip pending exactly on those of its CRTCs that are active in the replaced or in the proposed state, a commit pending on all of them, and leaves on each just what it proposed |
| CommitHistory.HandledFlipSendsItsEvent | nvidia-410.93/nvidia-drm/nvidia-drm-modeset.c:426-444 | in every run, handling a flip that is due sends the event its commit attached to that CRTC, if it did, and nothing else |
| CommitHistory.ProgrammedAsCommitted | nvidia-410.93/nvidia-drm/nvidia-drm-modeset.c:256-283 | in every run the states programmed are those of the commits whose task has come to that, on every CRTC of the commit |
| CommitCalls.AnyPending | nvidia-410.93/nvidia-drm/nvidia-drm-modeset.c:374-384 | the nonblocking check reports busy exactly if a CRTC of the update has a flag up |
| CommitCalls.SeenAll | nvidia-410.93/nvidia-drm/nvidia-drm-modeset.c:374-384 | reading all flags as down is a run of the machine that changes only what the commit has seen |
| CommitCalls.MarkAffected | nvidia-410.93/nvidia-drm/nvidia-drm-modeset.c:391-401 | the loop raises has_pending_commit on every CRTC of the update and has_pending_flip_event on those that are or will be active, leaves everything else as it was, and is the run of Mark steps in loop order |
| CommitCalls.MarkOne | nvidia-410.93/nvidia-drm/nvidia-drm-modeset.c:391-401 | one turn raises both flags, the second one unless the CRTC is off in both states |
| CommitCalls.MarksRun | nvidia-410.93/nvidia-drm/nvidia-drm-modeset.c:391-401 | each turn of the marking loop is possible; after any number of them exactly the CRTCs visited have a commit pending, and a flip if they are or will be active |
| CommitCalls.SwapState | nvidia-410.93/nvidia-drm/nvidia-drm-modeset.c:403-403 | installing the proposed states one CRTC at a time leaves on each CRTC of the update its owner, power state and event as proposed, touches no flag and no other CRTC, and amounts to the single Swap step |
| CommitCalls.CommitNonblocking | nvidia-410.93/nvidia-drm/nvidia-drm-modeset.c:348-424 | an undisturbed nonblocking commit is busy exactly if a flag of its CRTCs is up, then with nothing changed; otherwise its CRTCs end with a commit pending, a flip pending if they were or will be active, and the proposed state, and no other CRTC is touched |
| CommitCalls.BuildConfig | nvidia-410.93/nvidia-drm/nvidia-drm-modeset.c:98-135 | the configuration handed over is the current state of exactly the CRTCs of the update |
| CommitCalls.ConfigIsOwn | nvidia-410.93/nvidia-drm/nvidia-drm-modeset.c:98-135 | after every run, what the worker of a queued commit collects is for each of its CRTCs the state its commit proposed, with its owner, power state and event, and nothing for others |
| CommitCalls.ClearPending | nvidia-410.93/nvidia-drm/nvidia-drm-modeset.c:285-308 | the loop lowers has_pending_commit on the CRTCs of the update and changes nothing else, which is the run of Clear steps and the finish |
| CommitCalls.AllCleared | nvidia-410.93/nvidia-drm/nvidia-drm-modeset.c:285-308 | after it no commit is pending on any CRTC of the update |
| CommitCalls.HandleFlipEvent | nvidia-410.93/nvidia-drm/nvidia-drm-modeset.c:426-444 | the handler sends the current state's event, if any, clears it and lowers the flag, which is the two flip steps |
| CommitCalls.SendEvent | nvidia-410.93/nvidia-drm/nvidia-drm-modeset.c:434-439 | the event section returns the event of the current state and clears it, whatever comes before and after, which is the first flip step |
| CommitCalls.LowerFlipFlag | nvidia-410.93/nvidia-drm/nvidia-drm-modeset.c:441-443 | lowering the flag is the second flip step |
| CommitInterleaved.OthersKeep | nvidia-410.93/nvidia-drm/nvidia-drm-modeset.c:256-444 | steps of others keep the invariant and leave a commit's own record alone, and until it is swapped in also whether its CRTCs are on |
| CommitInterleaved.CheckAll | nvidia-410.93/nvidia-drm/nvidia-drm-modeset.c:343-384 | with others running before each read, both branches of the check end with every flag of the update seen down, or give up at the first that is up |
| CommitInterleaved.CommitInternal | nvidia-410.93/nvidia-drm/nvidia-drm-modeset.c:310-424 | whatever others do in between, the call ends without memory and without a step, refused, or with every CRTC of the update carrying the proposed state, a commit pending on it, and a flip pending exactly on those that were active when the call began or will be |
| CommitInterleaved.CommitTask | nvidia-410.93/nvidia-drm/nvidia-drm-modeset.c:256-308 | whatever others do before and meanwhile, the commit task hands over exactly the configuration its commit proposed and finishes with its own flags down |
| FlipOwnership.StepKeepsInv | nvidia-410.93/nvidia-drm/nvidia-drm-modeset.c:163-245 | duplicate, discard, install, tail and handler keep the invariant over owners, lists and events |
| FlipOwnership.TailKeepsInv | nvidia-410.93/nvidia-drm/nvidia-drm-modeset.c:181-199 | a turn of the commit tail moves the flip from its state to the list or frees it, and loses nothing |
| FlipOwnership.DestroyKeepsInv | nvidia-410.93/nvidia-drm/nvidia-drm-crtc.c:281-296 | destroying a state frees the flip it still owns and no other |
| FlipOwnership.DuplicateKeepsInv | nvidia-410.93/nvidia-drm/nvidia-drm-crtc.c:244-271 | a duplicated state owns a flip of its own |
| FlipOwnership.FlipSafety | nvidia-410.93/nvidia-drm/nvidia-drm-modeset.c:163-245 | in every run each flip is in exactly one place, freed at most once, every tail finds its flip, and each event is sent at most once with the flip made for the state it was attached to |
| FlipOwnership.PlacesAreExact | nvidia-410.93/nvidia-drm/nvidia-drm-modeset.c:181-245 | a flip is owned by a state, on a list, with the handler or freed, exactly one of these |
| FlipCalls.TailFindsFlip | nvidia-410.93/nvidia-drm/nvidia-drm-modeset.c:181-199 | in every reachable state the pointer the tail writes through leads to a flip nobody has freed |
| FlipCalls.TailLists | nvidia-410.93/nvidia-drm/nvidia-drm-modeset.c:193-198 | the turn for an active CRTC moves the event from the state to its flip, takes the flip off the state and puts it at the head of the list |
| FlipCalls.TailQuiet | nvidia-410.93/nvidia-drm/nvidia-drm-modeset.c:186-191 | the turn for a CRTC that is and stays off frees the flip once, takes it off the state and leaves the event there |
| FlipCalls.CommitTail | nvidia-410.93/nvidia-drm/nvidia-drm-modeset.c:163-211 | in every reachable state, the loop over the CRTCs of a commit whose tails are due is the run of those tails |
| FlipCalls.TailsRun | nvidia-410.93/nvidia-drm/nvidia-drm-modeset.c:181-199 | running some tails leaves the other tails of the commit due, with the old states they need |
| FlipCalls.AllTurnsReady | nvidia-410.93/nvidia-drm/nvidia-drm-modeset.c:181-199 | every turn of a due commit finds what it needs, whatever the turns before it did |
| FlipCalls.LoopIsRun | nvidia-410.93/nvidia-drm/nvidia-drm-modeset.c:181-199 | the states the loop goes through are those along the run of the tails |
| FlipCalls.HandleFlipEvent | nvidia-410.93/nvidia-drm/nvidia-drm-modeset.c:220-245 | an empty list is left alone; otherwise exactly the first flip leaves the list, its event is returned as sent, and it is freed, which are the machine's three steps |
| FlipInterleaved.TailStaysDue | nvidia-410.93/nvidia-drm/nvidia-drm-modeset.c:181-199 | no step but its own tail takes a due tail away or changes the state it replaces |
| FlipInterleaved.CommitTailAmongOthers | nvidia-410.93/nvidia-drm/nvidia-drm-modeset.c:163-211 | whatever others do before each turn, the loop is part of a run in which this commit runs the tails of its CRTCs, each once and in order |
| FlipInterleaved.HeldFlipStays | nvidia-410.93/nvidia-drm/nvidia-drm-modeset.c:220-245 | a flip taken off its list stays with its handler, event and all, whatever others do |
| FlipInterleaved.TakeFirst | nvidia-410.93/nvidia-drm/nvidia-drm-modeset.c:227-236 | the section under flip_lock takes exactly the first flip off the list, which is the machine's first handler step |
| FlipInterleaved.SendTaken | nvidia-410.93/nvidia-drm/nvidia-drm-modeset.c:238-242 | the section under event_lock sends the event of that flip, which is the second |
| FlipInterleaved.HandleFlipEventAmongOthers | nvidia-410.93/nvidia-drm/nvidia-drm-modeset.c:220-245 | with others between its sections, the handler sends the event the flip came with and frees it, in three steps of a run |
| FlipCalls.HandlerSequence | nvidia-410.93/nvidia-drm/nvidia-drm-modeset.c:220-245 | the three handler steps in a row take the first flip off its list, send its event and free it, and change nothing else |
| FlipCalls.DestroyState | nvidia-410.93/nvidia-drm/nvidia-drm-crtc.c:281-296 | in every reachable state the destroy hook, which frees the flip the state still has, is the machine step |
| FlipCalls.DestroyFreesOwnFlip | nvidia-410.93/nvidia-drm/nvidia-drm-crtc.c:281-296 | in every reachable state that flip is still the state's own |
| FlipCalls.DuplicateState | nvidia-410.93/nvidia-drm/nvidia-drm-crtc.c:244-271 | in every reachable state the new state has the power state of the current one, no event, and a new flip without one, which is the machine step; nothing remains if an allocation fails |
| FlipHistory.UpdateSendsItsEvent | nvidia-410.93/nvidia-drm/nvidia-drm-modeset.c:163-245 | in every reachable state, an update with an event, of a CRTC that is on before or after it, carried from the duplicate to the free, sends that event with its own flip, frees the flip, and leaves the CRTC with the state asked for and the list as it was |
| FlipHistory.QuietTailFreesFlip | nvidia-410.93/nvidia-drm/nvidia-drm-modeset.c:186-191 | in every reachable state, the tail of a CRTC that is and stays off frees its flip, sends nothing and leaves the event where it is |
| FlipHistory.DestroyDropsBoth | nvidia-410.93/nvidia-drm/nvidia-drm-crtc.c:281-296 | in every reachable state, destroying a state frees the flip it has and drops the event it has |
| FenceTimeline.StepKeepsInv | nvidia-410.93/nvidia-drm/nvidia-drm-prime-fence.c:128-192 | event, creation and destruction keep order, sortedness and the last sequence number |
| FenceTimeline.TimelineSafety | nvidia-410.93/nvidia-drm/nvidia-drm-prime-fence.c:298-378 | in every run, wraps included: created fences are the signalled ones followed by the pending ones in order, pending is sorted and ends at the last number, a dead context has none, and only a wrap or the destruction signals ahead of the threshold |
| FenceTimeline.DeadIsFinal | nvidia-410.93/nvidia-drm/nvidia-drm-prime-fence.c:334-378 | a dead context accepts nothing more |
| FenceTimeline.EventsDecide | nvidia-410.93/nvidia-drm/nvidia-drm-prime-fence.c:298-378 | in every run the context is dead if and only if it was destroyed, and then no fence is left unsignalled; the fences are those asked for until then, numbered in order |
| FenceTimeline.SmallerNumberSignals | nvidia-410.93/nvidia-drm/nvidia-drm-prime-fence.c:354-363 | in every run, a smaller sequence number asked for after a larger one leaves no fence up to that one unsignalled |
| FenceTimeline.ReadyAreThePrefix | nvidia-410.93/nvidia-drm/nvidia-drm-prime-fence.c:153-192 | in a sorted list the loop stops exactly where thresholds pass the value |
| FenceTimeline.EventSignalsAllReady | nvidia-410.93/nvidia-drm/nvidia-drm-prime-fence.c:153-192 | at a fixed value an event signals all fences at or below it, in order, and no other |
| FenceTimeline.FenceContext.ForceSignal | nvidia-410.93/nvidia-drm/nvidia-drm-prime-fence.c:136-151 | the loop empties the list and logs every fence that was on it, head first, and changes nothing else |
| FenceTimeline.FenceContext.HandleChannelEvent | nvidia-410.93/nvidia-drm/nvidia-drm-prime-fence.c:153-192 | fences leave the head of the list for the log, each at or below the value its turn reads, up to the first one above; a dead context is left alone |
| FenceTimeline.FenceContext.CreateFenceAt | nvidia-410.93/nvidia-drm/nvidia-drm-prime-fence.c:334-378 | the two error returns change nothing; otherwise the new fence ends the list, behind the others or, with a smaller number, alone, with all others signalled by the wrap |
| FenceTimeline.FenceContext.DestroyContext | nvidia-410.93/nvidia-drm/nvidia-drm-prime-fence.c:298-332 | destruction marks the context dead, empties the list and signals exactly the fences that were on it, in order |
| RequestedConfig.DisableKeepsDelta | nvidia-410.93/nvidia-drm/nvidia-drm-crtc.c:65-70 | after a disable the flags still tell the engine everything that changed |
| RequestedConfig.UpdateKeepsDelta | nvidia-410.93/nvidia-drm/nvidia-drm-crtc.c:72-131 | after an update they do if and only if the slot was found empty, or each group of fields differs from what was found or equals what the engine has |
| RequestedConfig.RepeatedCheckLosesChanges | nvidia-410.93/nvidia-drm/nvidia-drm-crtc.c:72-131 | why a plane may be checked only once in an update: an identical second check would lose changes unless source and destination did not change at all |
| RequestedConfig.PlaneChecksKeepDelta | nvidia-410.93/nvidia-drm/nvidia-drm-crtc.c:133-166 | checking each plane once, in any order, keeps the flags sufficient |
| RequestedConfig.CrtcCheckKeepsDelta | nvidia-410.93/nvidia-drm/nvidia-drm-crtc.c:343-389 | so does the CRTC check, when it succeeds |
| RequestedConfig.CheckedIsDelta | nvidia-410.93/nvidia-drm/nvidia-drm-crtc.c:213-234 | starting from a duplicate, whatever the update asks for, the flags tell the engine everything it changes |
| RequestedConfig.HeadAfterUpdate | nvidia-410.93/nvidia-drm/nvidia-drm-modeset.c:98-135 | after a commit an accepting engine has the head's full configuration |
| RequestedConfig.StepStaysInSync | nvidia-410.93/nvidia-drm/nvidia-drm-modeset.c:98-135 | an update keeps engine and software equal if and only if the engine accepts it, it is not committed or fails its check, or it asks of every head only what is stored there |
| RequestedConfig.CheckFailsIff | nvidia-410.93/nvidia-drm/nvidia-drm-crtc.c:322-389 | the check of a head fails if and only if its connectors changed and one of them has no display or they are more than fit; otherwise they are stored in order |
| RequestedConfig.HeadKeptIff | nvidia-410.93/nvidia-drm/nvidia-drm-crtc.c:133-166 | a check leaves a head configuration as it was if and only if every plane check and the CRTC update ask for what is stored |
| RequestedConfig.ShownIsStored | nvidia-410.93/nvidia-drm/nvidia-drm-crtc.c:83-98 | what an update stores for a plane that is shown is its framebuffer, the integral parts of its four source coordinates and the low 16 bits of its four destination ones, and nothing else fits that description |
| RequestedConfig.PlaneStoredAsAsked | nvidia-410.93/nvidia-drm/nvidia-drm-crtc.c:133-166 | after a successful check a plane of the update is stored as asked for on the CRTC it is on, and blank on the one it leaves |
| RequestedConfig.ModeStoredAsAsked | nvidia-410.93/nvidia-drm/nvidia-drm-crtc.c:343-389 | and so are mode and power state, each only if the DRM core calls it changed |
| RequestedConfig.CommitsIff | nvidia-410.93/nvidia-drm/nvidia-drm-modeset.c:98-135 | an update reaches its heads if and only if it goes on to be committed and all its changed connectors can be attached; otherwise it changes nothing on either side |
| RequestedConfig.FlaggedIffSent | nvidia-410.93/nvidia-drm/nvidia-drm-crtc.c:72-166 | the flags of a checked head are up for exactly the parts the update is said to send |
| RequestedConfig.AcceptedStepCures | nvidia-410.93/nvidia-drm/nvidia-drm-crtc.c:65-234 | an accepted update cures a part in which engine and software differ if and only if it sends it |
| RequestedConfig.InSyncAgainIff | nvidia-410.93/nvidia-drm/nvidia-drm-crtc.c:65-234 | after any refusals, a run of accepted updates ends in sync if and only if it has sent every part they left behind |
| RequestedConfig.RepeatingDoesNotCure | nvidia-410.93/nvidia-drm/nvidia-drm-crtc.c:72-131 | repeating a refused update does not send what it failed to move |
| RequestedConfig.RefusedMoveIsLost | nvidia-410.93/nvidia-drm/nvidia-drm-crtc.c:72-131 | from an in-sync state, a refused move of a plane leaves the engine behind, and the same move accepted afterwards is still not made |
| RequestedConfig.RunStaysInSync | nvidia-410.93/nvidia-drm/nvidia-drm-crtc.c:65-234 | over every run of checked, failed and committed updates none of which the engine refuses, it holds the full configuration |
| RequestedConfig.CrtcStateObject.UpdateSlot | nvidia-410.93/nvidia-drm/nvidia-drm-crtc.c:72-131 | the in-place update with its two early returns stores surface, source and destination of a plane that is shown, and clears only the surface of one that is not, with the specified flags |
| RequestedConfig.CrtcStateObject.AtomicCheck | nvidia-410.93/nvidia-drm/nvidia-drm-crtc.c:343-389 | the in-place CRTC check succeeds exactly when specified; mode and power state then are the update's where changed, exactly the flags of what changed are raised, and no plane is touched |
| RequestedConfig.PlaneAtomicCheck | nvidia-410.93/nvidia-drm/nvidia-drm-crtc.c:133-166 | the loop over CRTC states stores the plane as asked for on its CRTC, blanks it on the one it leaves, and leaves the others alone |
| Semaphore.StepKeepsInv | nvidia-geforce-340.107/os-interface.c:167-212 | acquire, wake, release and complete on the 32-bit count keep both counting equations, where a holder releases or the count has room |
| Semaphore.SemaphoreLaw | nvidia-geforce-340.107/os-interface.c:133-212 | in every interleaving in which only holders release, or initial value plus releases stays below 2^31: count is initial plus releases minus acquisitions minus waiters, waiters are max(0, -count) plus in-flight and posted completions, holders never exceed the initial value when only holders release, and a waiter with no wake-up pending means all permits are held |
| Semaphore.EventsAreCounted | nvidia-geforce-340.107/os-interface.c:133-212 | in every run, releases, acquires, sleepers, owed wake-ups and posted completions are the differences of how often each event has happened |
| Semaphore.AdmitsAsManyAsItCan | nvidia-geforce-340.107/os-interface.c:133-212 | in every interleaving in which only holders release, or initial value plus releases stays below 2^31, the acquires that have returned or are being woken are exactly min(acquires called, initial value plus releases) |
| Semaphore.CountIsTrueIff | nvidia-geforce-340.107/os-interface.c:133-212 | in any run at all the count is what is left of the permits if and only if that fits 32 bits |
| Semaphore.ForeignReleaseOverflows | nvidia-geforce-340.107/os-interface.c:191-212 | at the largest initial value one release by a non-holder makes the next acquire sleep for good |
| Semaphore.TopBitAdmitsIff | nvidia-geforce-340.107/os-interface.c:133-189 | for an initial value from 2^31 on, while only holders release, nobody has been let through if and only if at most initialValue - 2^31 + 1 acquires have been begun |
| Semaphore.TopBitSecondPasses | nvidia-geforce-340.107/os-interface.c:133-189 | at 2^31 the first acquire sleeps and the second passes |
| Semaphore.FirstAcquirePasses | nvidia-geforce-340.107/os-interface.c:167-189 | the first acquire goes through exactly for initial values from 1 to 2^31 - 1 |
| Semaphore.OsSemaphore.AcquireLocked | nvidia-geforce-340.107/os-interface.c:167-189 | for every count the section under the lock decrements it, says to sleep exactly if it was not positive, and is the machine's step |
| Semaphore.OsSemaphore.ReleaseLocked | nvidia-geforce-340.107/os-interface.c:191-212 | for every count the section increments it, says to complete exactly if it was negative, and is the machine's step |
| PageLifetime.StepKeepsInv | nvidia-geforce-340.107/nv-mmap.c:55-113 | every step of allocation, mmap, VMA copy and close, push, free and file close, with the read and the write of a list head as steps of their own, keeps the count exact and the lists chained |
| PageLifetime.PageSafety | nvidia-geforce-340.107/nv-mmap.c:317-362 | in every run, overlapping pushes included, the count is the RM's hold plus live VMAs plus an mmap under way plus a deferred reference; an allocation is on at most one list, freed once, and never while mapped or held |
| PageLifetime.NoFaultStep | nvidia-geforce-340.107/nv.c:2284-2322 | no step touches or frees a freed allocation |
| PageLifetime.NothingLeaksIffNoOverlap | nvidia-geforce-340.107/nv-mmap.c:106-110 | once every file is closed, each allocation is freed unless the RM holds it, if and only if no two pushes onto one file's list overlapped between reading and writing its head |
| PageLifetime.OverlapSetsApart | nvidia-geforce-340.107/nv-mmap.c:106-110 | an overlap leaves two entries neither of which leads to the other |
| PageLifetime.ApartLeaks | nvidia-geforce-340.107/nv.c:2002-2016 | of two such entries the drain frees at most one |
| PageLifetime.CountsPlacesIfNoOverlap | nvidia-geforce-340.107/nv-mmap.c:83-113 | without overlaps the deferred reference is that of a place on a free list or of a push under way |
| PageLifetime.OverlapLeaks | nvidia-geforce-340.107/nv-mmap.c:106-110 | a run from the start in which two processes push onto one list at once and an allocation is lost |
| PageHistory.LiveIfBegunAndNotClosed | nvidia-geforce-340.107/nv-mmap.c:55-113 | in every run a VMA maps an allocation exactly if its mmap or its copy has come since its last close |
| PageHistory.HeldIfAllocatedAndNotFreed | nvidia-geforce-340.107/nv.c:2284-2322 | and the RM holds it from its making to its free |
| PageHistory.CountIsTakenLessGiven | nvidia-geforce-340.107/nv-mmap.c:55-113 | in every run the count is the references taken by allocation, mmap, VMA copy and push less those given back, and all are given back when the allocation is freed |
| PageCalls.CopyVma | nvidia-geforce-340.107/nv-mmap.c:55-69 | copying a VMA takes one reference, and is the machine's step |
| PageCalls.DropVma | nvidia-geforce-340.107/nv-mmap.c:96-97 | the decrement takes one reference away, finds zero exactly when it was the last, and is the machine's step |
| PageCalls.LinkToHead | nvidia-geforce-340.107/nv-mmap.c:109-109 | the entry's next pointer becomes the head of the list, which is the machine's step |
| PageCalls.BecomeHead | nvidia-geforce-340.107/nv-mmap.c:110-110 | the head of the list becomes the entry, whatever it was by then, which is the machine's step |
| PageCalls.VmaRelease | nvidia-geforce-340.107/nv-mmap.c:83-113 | with nobody in between, the release takes a reference away, or for the last one leaves it there and puts the entry in front of the list; that is the run of a close and, for the last reference, of the three push steps |
| PageCalls.ReleaseDefers | nvidia-geforce-340.107/nv-mmap.c:83-113 | which leaves the allocation with one reference at the head of the list, the rest behind it |
| PageCalls.MapPages | nvidia-geforce-340.107/nv-mmap.c:343-362 | the insertion loop succeeds exactly if every insertion does, keeps one more reference exactly then, and is the run of a begun and finished or failed mmap |
| PageCalls.FreeByRm | nvidia-geforce-340.107/nv.c:2284-2322 | the RM's free gives one reference back, and the pages go exactly if nothing maps them; that is the machine's step |
| PageCalls.DrainFinds | nvidia-geforce-340.107/nv.c:2005-2015 | in every reachable state each turn of the drain finds a record that is not freed, holds one reference and leads to the rest of the list |
| PageCalls.DrainFreeList | nvidia-geforce-340.107/nv.c:2002-2016 | the loop along the pointers is the run of the drains of that file, and frees every allocation on its list |
| SystemPages.Allocation.SetMemoryType | nvidia-geforce-340.107/nv-vm.c:124-161 | one call over all pages and the page by page fallback change the same memory types |
| SystemPages.Allocation.AllocSystemPages | nvidia-geforce-340.107/nv-vm.c:600-723 | success gives distinct, reserved, addressable pages; every failure returns all but the low pages set aside and unreserves them; it is out of memory exactly if the pool refused a page; the retry ends because low pages never come back |
| SystemPages.Allocation.FreeSystemPages | nvidia-geforce-340.107/nv-vm.c:725-765 | all pages return to the pool, unreserved, with their memory types restored |
| SystemPages.HeldPagesAreUsable | nvidia-geforce-340.107/nv-vm.c:640-700 | a page that an allocation holds has a physical address within the reach of the device and, under no-execute mappings, not below 4 MB |
| SystemPages.AllocThenFree | nvidia-geforce-340.107/nv-vm.c:600-765 | allocating and freeing restores pool, reserved marks and memory types but for the low pages set aside |
| DmaMap.OffsetCountsPages | nvidia-geforce-340.107/nv-dma.c:65-87 | the inner loop condition counts exactly the pages of a segment |
| DmaMap.ExpansionEntry | nvidia-geforce-340.107/nv-dma.c:65-87 | entry k of a segment stands behind the segments before it and is the segment's address plus 4096 k, modulo 2^64 |
| DmaMap.EveryEntryIsAPage | nvidia-geforce-340.107/nv-dma.c:65-87 | and every entry is such a page, one for each 4096 bytes that a segment begins |
| DmaMap.LoadScatterlist | nvidia-geforce-340.107/nv-dma.c:65-87 | the nested loops write exactly the first min(page count, total) entries of the expansion and nothing beyond |
| DmaMap.System.Map | nvidia-geforce-340.107/nv-dma.c:89-175 | success exactly when every step succeeds and every entry is within the device's reach; each error has its own cause; a failed map leaves pointer, tables and mappings as they were |
| DmaMap.System.Unmap | nvidia-geforce-340.107/nv-dma.c:177-224 | the caller's pointer is restored and record, table and mapping are gone; errors change nothing |
| DmaMap.System.MapThenUnmap | nvidia-geforce-340.107/nv-dma.c:89-224 | mapping and unmapping restores pointer, tables and mappings |
| DeviceOpen.RunStaysConsistent | nvidia-geforce-340.107/nv.c:1272-1589 | outside persistence mode, in every run of opens with any failure and closes, usage is the number of handles, and open flag, one registration of the interrupt handler and all four stacks are there together exactly while it is positive, with no stack lost |
| DeviceOpen.ConsistentThroughoutIff | nvidia-geforce-340.107/nv.c:1272-1589 | a run in which the mode is switched as well is consistent all along if and only if no first open succeeds and no last handle is closed while it is on |
| DeviceOpen.FailedOpenChangesNothing | nvidia-geforce-340.107/nv.c:1272-1511 | a failed open leaves the device as it was, and an open succeeds exactly if every outcome it needs is good |
| DeviceOpen.ErrorsByCause | nvidia-geforce-340.107/nv.c:1272-1511 | in any state and mode, each error is returned exactly for its cause: no memory, no device node, no device, no interrupt handler, no adapter |
| DeviceOpen.CloseReleases | nvidia-geforce-340.107/nv.c:1543-1589 | what a close releases in any state: nothing while other handles are left; with the last one the stacks outside persistence mode, and the handler except where the mode keeps it, which it does not for GVI |
| DeviceOpen.GviHandlerFollowsOpen | nvidia-geforce-340.107/nv.c:1394-1589 | in every run of a GVI device, persistence mode switched at will, the handler is registered once while the device is open and not at all otherwise |
| DeviceOpen.HandlesAreCounted | nvidia-geforce-340.107/nv.c:1494-1589 | in every run, of any device and in any mode, usage is the opens that succeeded less the closes, and the device is open exactly while that is positive |
| DeviceOpen.OpenThenClose | nvidia-geforce-340.107/nv.c:1543-1589 | a close undoes a successful open |
| DeviceOpen.FailedOpenIsHarmlessIff | nvidia-geforce-340.107/nv.c:1320-1494 | in any state and mode, registrations of the handler counted, a failed open changes nothing if and only if it ends at the lookup, or finds no stacks and does not take a registration away, which it does if there is one, the device is found, is not GVI, and persistence mode is on |
| DeviceOpen.TwoFailedOpensStrip | nvidia-geforce-340.107/nv.c:1320-1589 | from the start, persistence mode keeps stacks and handler over a close, one failed open takes the stacks and another the handler |
| DeviceOpen.SwitchingOffLeaks | nvidia-geforce-340.107/nv.c:1328-1411 | on a device kept by the mode, switching it off, opening and closing loses four stacks and leaves a registration |
| DeviceOpen.PersistenceCanLoseStacks | nvidia-geforce-340.107/nv.c:1320-1494 | otherwise a failed and a good open end in an open device without stacks and handler |
| DeviceOpen.KeptIsReachable | nvidia-geforce-340.107/nv.c:1543-1589 | persistence mode reaches such a device |
| DeviceOpen.Device.OpenFile | nvidia-geforce-340.107/nv.c:1272-1511 | the method with its failure label is the specified open |
| DeviceOpen.Device.CloseFile | nvidia-geforce-340.107/nv.c:1543-1589 | the method is the specified close |
| EventQueue.QueueIsFifo | nvidia-geforce-340.107/nv.c:2337-2411 | in every interleaving posted data events are the delivered ones followed by the queued ones |
| EventQueue.ActionsDecide | nvidia-geforce-340.107/nv.c:2337-2411 | in every interleaving the actions decide the contents: the events posted with memory, stamped with handle and index, are delivered in order, one to each get that finds any, and the rest is queued |
| EventQueue.PollIsExact | nvidia-geforce-340.107/nv.c:1604-1628 | poll answers ready exactly if the queue is non-empty or an undropped post has happened since the last poll |
| EventQueue.FilePrivate.PostEvent | nvidia-geforce-340.107/nv.c:2337-2376 | posting puts the event, stamped with handle and index, at the end of the list, or nothing for a post without data or without memory, and raises the pending flag unless it was dropped |
| EventQueue.FilePrivate.GetEvent | nvidia-geforce-340.107/nv.c:2378-2411 | taking returns and removes exactly the first event of the list, with the right answer to whether more are queued |
| EventQueue.FilePrivate.PollFile | nvidia-geforce-340.107/nv.c:1604-1628 | poll answers ready exactly if an event is queued or the flag was up, and leaves the flag down |
| AcpiExtract.IntegerSurvives | nvidia-geforce-340.107/nv-acpi.c:663-688 | storing an integer in four or eight bytes loses no bit |
| AcpiExtract.OkIffAllFits | nvidia-geforce-340.107/nv-acpi.c:740-771 | extraction succeeds if and only if every leaf is supported and the flattening fits, and then stores the flattening |
| AcpiExtract.EveryLeafReadsBack | nvidia-geforce-340.107/nv-acpi.c:663-771 | after a successful extraction every integer and every buffer stands in the output, behind those before it, in a form that reads back as it was |
| AcpiExtract.ErrorNamesFirstObstacle | nvidia-geforce-340.107/nv-acpi.c:710-738 | otherwise the error is that of the first leaf in the way |
| AcpiExtract.WrittenFits | nvidia-geforce-340.107/nv-acpi.c:710-738 | whatever was written before a failure fits |
| AcpiExtract.ElementFailed | nvidia-geforce-340.107/nv-acpi.c:724-737 | an element that fails ends the package with its verdict and with what was stored so far |
| AcpiExtract.ElementTaken | nvidia-geforce-340.107/nv-acpi.c:724-737 | an element that goes in extends the stored flattening by its own |
| AcpiExtract.ExtractInteger | nvidia-geforce-340.107/nv-acpi.c:663-688 | succeeds exactly if the four or eight bytes fit, and then the bytes read back as the integer; errors store nothing |
| AcpiExtract.ExtractBuffer | nvidia-geforce-340.107/nv-acpi.c:690-708 | succeeds exactly if the bytes fit, and then they stand in the output; errors store nothing |
| AcpiExtract.ExtractPackage | nvidia-geforce-340.107/nv-acpi.c:710-738 | the loop over elements stores the flattening of all leaves and reports its size; the remaining capacity never underflows |
| AcpiExtract.ExtractObject | nvidia-geforce-340.107/nv-acpi.c:740-771 | for every tree and capacity: verdict, reported size, the stored prefix, and every other byte untouched |
| CrayFormat.StoredWord | nvidia-geforce-340.107/nv-cray.c:182-194 | shifting and adding stores the word in its half, with no bit of the earlier word lost |
| CrayFormat.StoreWords | nvidia-geforce-340.107/nv-cray.c:182-194 | the inner loop appends the words of a value, low first, and stops exactly when a thirteenth is due |
| CrayFormat.ForwardErrorToCray | nvidia-geforce-340.107/nv-cray.c:49-204 | the loop over characters and the register array yields the outcome of the scan over values |
| CrayFormat.ScanIsInterpretation | nvidia-geforce-340.107/nv-cray.c:63-197 | scanning the text of any well-formed pieces, stars included, takes the arguments, emits the words or stops with the error that an interpreter of the pieces does |
| CrayFormat.DirectiveScanned | nvidia-geforce-340.107/nv-cray.c:70-150 | a directive's flags, width and precision have no effect, be they digits or a star, and its length and conversion alone decide |
| CrayFormat.OneLetterFormat | nvidia-geforce-340.107/nv-cray.c:70-180 | for every character, what a percent sign and that character come to: c, d, i, o, u, x and X report a word, the nine other conversions and five lengths are refused, and nothing else has an effect |
| CrayFormat.LetterPassedOver | nvidia-geforce-340.107/nv-cray.c:70-130 | a flag, digit, star, dot, h or l between the percent sign and a conversion leaves its word as it is |
| CrayFormat.SupportedFormatReport | nvidia-geforce-340.107/nv-cray.c:62-204 | a format of literals, percent signs and supported directives takes one argument a directive, reports all words packed, and is refused exactly if there are more than twelve |
| CrayFormat.AssignedIffNoStar | nvidia-geforce-340.107/nv-cray.c:76-104 | the arguments the scanner reads are those the grammar assigns to the values if and only if no width or precision is a star |
| CrayFormat.StarFreeFormatIsRight | nvidia-geforce-340.107/nv-cray.c:49-204 | without stars, a supported format reports the words of the arguments the grammar assigns |
| CrayFormat.StarReadsTheWidth | nvidia-geforce-340.107/nv-cray.c:81-85 | for a star width the width is reported in place of the value |
| CrayFormat.InvalidOnlyIfUnsupported | nvidia-geforce-340.107/nv-cray.c:132-180 | a well-formed format is invalid only for an unsupported length or conversion |
| CrayFormat.LongLongIsWholeIff | nvidia-geforce-340.107/nv-cray.c:151-194 | the two words of an ll directive make up the argument if and only if it is unsigned or fits in one word |
| CrayFormat.PackHalves | nvidia-geforce-340.107/nv-cray.c:182-199 | register k holds word 2k above word 2k+1, and a lone last word below a zero; their number is half the words rounded up |
| CrayFormat.SameRegistersIff | nvidia-geforce-340.107/nv-cray.c:182-199 | two word lists give the same registers if and only if they differ at most in that zero |
| VersionScan.ParseVersionString | nvidia-geforce-340.107/gcc-version-check.c:50-156 | one pass without backing up finds the leftmost substring of digits, dot, digits, non-digit and returns the two decimal values, or fails |
| VersionScan.NotFoundIffNone | nvidia-geforce-340.107/gcc-version-check.c:50-156 | it fails if and only if no such substring exists |
| VersionScan.LeftmostIsSpecified | nvidia-geforce-340.107/gcc-version-check.c:50-156 | the leftmost such substring is unique and determines the result |
| VersionScan.LeftmostTakesWholeNumbers | nvidia-geforce-340.107/gcc-version-check.c:50-156 | both digit runs are maximal |
| VersionScan.PrintThenParse | nvidia-geforce-340.107/gcc-version-check.c:50-156 | printing a version and a non-digit after text without digits and scanning gives the same pair |

## Left out

- CommitCalls.CommitNonblocking: states the call with nobody in between, in exchange for the exact outcome; `CommitInterleaved.CommitInternal` has the interleavings, the blocking waits and the failed allocation.
- CommitCalls.HandleFlipEvent: sends and lowers in one go, for a flip that is due; `CommitCalls.SendEvent` and `CommitCalls.LowerFlipFlag` are the two sections apart. A flip that nobody raised, which the handler only warns about, is excluded by what the engine is taken to do.
- CommitCalls.ClearPending: each wait may end in time or not, and both continue alike, so the wait itself does not appear.
- CommitInterleaved.CommitTask: reading the current states for the display engine is one section, and so is the DRM core's swap in `CommitInterleaved.CommitInternal`; the two flags of a CRTC are marked together.
- FlipCalls.CommitTail: runs with nobody in between; `FlipInterleaved.CommitTailAmongOthers` has the interleavings.
- FlipCalls.HandleFlipEvent: likewise; `FlipInterleaved.HandleFlipEventAmongOthers` has the interleavings.
- FlipOwnership.FlipSafety: makes no claim about the order of flips on a list, where entries go in and come out at the head.
- FenceTimeline.TimelineSafety: covers signalling and the pending list, not the memory of fences, their reference counts or the reservation object.
- RequestedConfig.RunStaysInSync: is the case in which the engine refuses no commit; `RequestedConfig.InSyncAgainIff` has the runs with refusals.
- Semaphore.SemaphoreLaw: the completion's own counter is unbounded; it never exceeds the number of sleepers.
- PageLifetime.PageSafety: does not say which process a VMA belongs to, so it also covers interleavings that the kernel's own locks rule out within one process.
- SystemPages.Allocation.AllocSystemPages: is the build without NV_SG_MAP_BUFFERS; zeroing, the checks of page counts and the retry of scatterlist mapping do not appear.
- DmaMap.System.Map: takes page and segment counts below 2^32, the range of the source's loop counters.
- DeviceOpen.RunStaysConsistent: does not follow the flag for message signalled interrupts, which the code does not clear on close, nor the control device.
- CrayFormat.ForwardErrorToCray: the argument list is unbounded and each argument is one 64-bit slot, as on the 64-bit hosts the code is for; reading past the caller's arguments is not modelled.
- VersionScan.ParseVersionString: numbers are unbounded, where the source has `int`, and characters are plain, where the source has signed `char`.
- AcpiExtract.ExtractObject: object trees are values; sharing or cycles among ACPI objects are not modelled.
- DependencyTable.Table.Load: starts from the keys of each line; splitting a line into keys, the type filter, file reading, the fixed line buffer and the graph output are not modelled.
- The contiguous page allocator: its failure path for the first page frees through an address that is not yet set.
- The scatterlist remapping of `nv_sg_map_buffer` and its counter, which the code does not keep balanced.
- Calls into the resource manager and the display engine, UVM, P2P, i2c, procfs, PCI probing and power management: thin wrappers over code that is not in the repository.
- PAT and control registers, CPU hotplug, cache flushes and inline assembly: hardware effects.
- Delays, timers, logging and printing: time and I/O.
- The frontend minor table, the memory debug list and the enum and format translation tables: they would only add easy members.
- `utils/mtest.cpp`: the files it includes are not in the repository.
