# SwiftHorizon: kernel protocols, loader, host memory and IR bookkeeping in Dafny

This project models the parts of SwiftHorizon in which several operations have to agree with each other, and proves what
they keep. `dafny verify dfyconfig.toml` checks all of it.

**Kernel wait protocols** (`WaitTrees`, `KernelState`, `PriorityInheritance`, `WaiterLists`, `WaitSteps`,
`ConditionVariable`, `AddressArbiter`, `KernelRuns`, `CallOutcomes`, `KernelObject`). Every system call runs under the scheduler lock, so
each is one step on threads, per-owner lock lists, the two priority-ordered wait trees and user memory words. The steps
are functions on states; `KernelObject.Kernel` is the kernel with fields that the operations update in place, loops
included, and each of its methods is proved to do what the function says. `CallOutcomes` states of each call when it
blocks, what it returns otherwise and what it leaves alone. `KernelRuns` proves the structural invariant
for every run, with arbitrary user stores in between. Priority inheritance is modelled in full: lists of held locks,
`RestorePriority` along chains of owners, and the re-insertion of queued threads.

**User code that follows the lock protocol** (`LockWords`, `LockProtocol`). With user steps restricted to taking a free
lock, releasing an uncontended one and setting the wait bit, user words and kernel queues agree in every run, and locks
are mutually exclusive.

**The condition-variable flag** (`TreeOrder`, `SignalFlag`, `SharedLock`, `CondFlags`, `SkippedWaiter`). `Signal` advances its iterator
before it signals a thread; signalling can raise another waiter of the same key, which is then re-inserted in front of
the iterator. So the promise that the word of a key is 1 while somebody waits on it is false of the code in general:
`SkippedWaiter.BroadcastSkips` is a protocol-abiding run, `SignalFlag.SignalClearsExactly` says exactly when a signal
strands a thread, `SharedLock.SharedLockExact` tells it from the first state alone if the waiters share one lock, and
`CondFlags.FlagsInRuns` proves the promise for all runs in which threads wait holding no other lock.

**The initial-process loader** (`InitialImage`, `KipHeader`, `InPlaceWalk`, `PageMemory`, `PageGroup`, `InitialProcess`).
One physical memory of pages holds the image, the working groups and what the processes keep; the image is walked in
place while its pages are closed, allocated again and written. Before every read of the image or of a group all free
pages may change. The statement at kern_initial_process.cpp:98 looks as if it moved the end along with the data, but it
subtracts zero; the model keeps the stale end, and `InPlaceWalk.WalksAgreeExactly` says when that is harmless: exactly if
the last binary, too, ends within the image size, which the header walk does not check. `KipHeader.RealImageMisread` is an
image for which it is not.

**The placeholder tracker of the Windows host memory** (`AddressLayout`, `HostMemory`). The operating system's partition
is a ghost field that only the system calls change, each with the demands of the real call.

**The translation cache** (`TranslateTable`), **use-def bookkeeping of the IR** (`UseDef`, `HirUses`), **the lock-free slab
allocator** (`SlabAllocator`), **session counts of client ports** (`ClientPort`), **the capability parser**
(`Capabilities`) and **the boot memory layout loops** (`BootLayout`). The allocator and the port are modelled step by step
at single loads, stores and swaps. The allocator loses nodes in some interleavings: `SlabAllocator.PopExact` says exactly
when a swap does, `SlabAllocator.RunExact` carries that to whole interleavings, and `SlabAllocator.RunKeepsInv` names a
discipline for the callers that excludes it.

`Basics` and `Digits` hold definitions that several modules share.

Parameters stand for what the model cannot see: `load` for the decompression of a process, `other` and `backed` for what
the page table answers, `same` for the pool a process is put in, `base` for where the operating system puts a
reservation, and the results of weak compare-and-swap.

## Model

| member | source | states |
|---|---|---|
| KernelRuns.EveryRunQueuesOnce | source/externals/libmesosphere/source/kern_k_condition_variable.cpp:34-281 | In every state of every run of system calls, cancellations, priority changes, termination requests and arbitrary user stores, a blocked thread is in exactly one of the condition-variable tree, the arbiter tree and one lock's waiters, a running thread is in none, and every thread runs at the best of its base priority and its waiters' priorities |
| KernelRuns.StepKeepsInv | source/externals/libmesosphere/source/kern_k_condition_variable.cpp:72-281 | Each of the thirteen kinds of step keeps the whole invariant (links, inherited priorities, one queue per blocked thread), whatever its arguments and whatever user memory holds |
| KernelRuns.RebaseKeepsInv | source/externals/libmesosphere/source/kern_k_thread.cpp:817-850 | A base-priority change with the following restoration keeps the invariant and changes nothing but that base priority and inherited priorities |
| KernelRuns.TerminateKeepsInv | source/externals/libmesosphere/source/kern_k_thread.cpp:1352-1403 | A termination request keeps the invariant |
| ConditionVariable.CancelKeepsInv | source/externals/libmesosphere/source/kern_k_condition_variable.cpp:34-68 | `CancelWait` at any phase of a wait, before or after `Signal` moved the thread to a lock, leaves the thread running, in no tree and without owner, and keeps the invariant |
| ConditionVariable.UnlinkDetaches | source/externals/libmesosphere/source/kern_k_condition_variable.cpp:34-68 | A blocked thread has a lock owner or a tree entry, never both and never neither, and taking it from there unlinks it and nobody else |
| ConditionVariable.SignalTargetKeepsInv | source/externals/libmesosphere/source/kern_k_condition_variable.cpp:150-217 | One iteration of the signal loop keeps the invariant and takes exactly its target out of the tree |
| ConditionVariable.CursorSurvives | source/externals/libmesosphere/source/kern_k_condition_variable.cpp:193-217 | The iterator that `Signal` advanced before signalling its target still points into the tree afterwards |
| PriorityInheritance.RestoreRepairs | source/externals/libmesosphere/source/kern_k_thread.cpp:1133-1181 | From any well-linked state in which only the start may be out of step, `RestorePriority` ends with every thread at its inherited priority, keeps all links and trees, and changes nothing but priorities |
| PriorityInheritance.RoundProgress | source/externals/libmesosphere/source/kern_k_thread.cpp:1133-1181 | After a round of `RestorePriority` only the owner can be out of step, and a measure has dropped: the walk ends even if owners form a cycle |
| PriorityInheritance.ChangePriorityKeepsLinks | source/externals/libmesosphere/source/kern_k_thread.cpp:1148-1173 | Changing a queued thread's priority with the erasures and insertions around it keeps every queue ordered and every link right |
| KernelState.AddKeepsLinks | source/externals/libmesosphere/source/kern_k_thread.cpp:1084-1110 | Linking a waiter keeps all links and gives exactly that thread the new owner |
| KernelState.RemoveKeepsLinks | source/externals/libmesosphere/source/kern_k_thread.cpp:1112-1131 | Unlinking a waiter keeps all links, takes the owner from exactly that thread and closes a lock without waiters |
| WaiterLists.AddWaiterCorrect | source/externals/libmesosphere/source/kern_k_thread.cpp:1183-1192 | `AddWaiter` makes `o` the owner of `t`, changes no other owner and leaves all priorities inherited, although it restores them only if the new waiter is better |
| WaiterLists.RemoveWaiterCorrect | source/externals/libmesosphere/source/kern_k_thread.cpp:1194-1202 | `RemoveWaiter` takes the owner from `t` alone and leaves all priorities inherited, although it restores them only under its guard |
| WaiterLists.HandOverCorrect | source/externals/libmesosphere/source/kern_k_thread.cpp:1204-1249 | Handing a lock over keeps all links, gives the other waiters the new owner, and leaves priorities right unless the guard of the restoration holds |
| WaiterLists.RemoveWaiterByKeyCorrect | source/externals/libmesosphere/source/kern_k_thread.cpp:1204-1259 | `RemoveWaiterByKey` promotes the best waiter of the key, all others on the key wait for it from then on, and without such a lock nothing changes and nobody waits on the key |
| AddressArbiter.WakeLoopCorrect | source/externals/libmesosphere/source/kern_k_address_arbiter.cpp:70-90 | The wake loop wakes exactly the first waiters of the address in priority order, all of them for a count of zero or less, and nobody else |
| AddressArbiter.SignalAndModifyCorrect | source/externals/libmesosphere/source/kern_k_address_arbiter.cpp:119-179 | Success exactly if the word is accessible and equal; failure changes nothing; success stores `value+1`, `value-1` or `value` by the full number of waiters and the count, and wakes exactly the best waiters that the count allows |
| AddressArbiter.ArbiterSignalKeepsInv | source/externals/libmesosphere/source/kern_k_address_arbiter.cpp:70-179 | All three signals keep the invariant |
| AddressArbiter.ArbiterWaitKeepsInv | source/externals/libmesosphere/source/kern_k_address_arbiter.cpp:181-280 | Both waits keep the invariant |
| CallOutcomes.WaitOutcome | source/externals/libmesosphere/source/kern_k_condition_variable.cpp:219-281 | `Wait` returns no result exactly if the thread is not terminating, the lock word is accessible and the timeout is not zero, and then sleeps in the tree under the key with its address and tag noted; it times out exactly at zero, with the lock released and still running; unless terminating, it sets the flag and releases the lock to the best waiter or to nobody, and everybody else stays |
| CallOutcomes.LockOutcome | source/externals/libmesosphere/source/kern_k_condition_variable.cpp:112-148 | `WaitForAddress` blocks exactly if the word names the handle with the wait bit and the handle is known, behind that thread and with address and tag noted; each result has its exact condition, and every call that returns changes nothing |
| CallOutcomes.UnlockOutcome | source/externals/libmesosphere/source/kern_k_condition_variable.cpp:72-110 | `SignalToAddress` succeeds exactly if the word is accessible; the lock goes to the best waiter of a queue, the others wait for it, the word is its tag with the wait bit if there are others, and 0 if nobody waits |
| CallOutcomes.TargetOutcome | source/externals/libmesosphere/source/kern_k_condition_variable.cpp:150-191 | A signalled thread runs with the lock if the word is 0, queues on the thread the word names, and otherwise runs with the error of the case; nobody else changes |
| CallOutcomes.SignalTakes | source/externals/libmesosphere/source/kern_k_condition_variable.cpp:193-217 | A signal takes only threads of the key out of the tree, at most the count if that is positive, and leaves the flag 0 if it takes fewer or the count is not positive |
| CallOutcomes.CancelOutcome | source/externals/libmesosphere/source/kern_k_condition_variable.cpp:34-68 | A cancelled thread runs, in no queue, with the given result if it was blocked; a running thread and everybody else stay as they are |
| CallOutcomes.TerminateOutcome | source/externals/libmesosphere/source/kern_k_thread.cpp:1352-1403 | After the first request the thread is terminating, runs and is in no queue, its base priority is the smaller of the old one and 15, and a wait it was in ended with that result; a later request changes nothing |
| CallOutcomes.BaseOutcome | source/externals/libmesosphere/source/kern_k_thread.cpp:817-835 | The base priority becomes the given one, but at most 15 if the thread is terminating; all else but inherited priorities stays |
| CallOutcomes.WaitLessOutcome | source/externals/libmesosphere/source/kern_k_address_arbiter.cpp:181-233 | `WaitIfLessThan` sleeps under the address exactly if the signed word is below the value and the timeout is not zero; the word drops by one exactly if it was below and that was asked for, also at a timeout of zero; each result has its exact condition |
| CallOutcomes.WaitEqualOutcome | source/externals/libmesosphere/source/kern_k_address_arbiter.cpp:235-280 | `WaitIfEqual` stores nothing and sleeps exactly if the signed word is the value and the timeout is not zero; each result has its exact condition |
| CallOutcomes.SignalOnlyOutcome | source/externals/libmesosphere/source/kern_k_address_arbiter.cpp:70-90 | Always succeeds, changes no word, and wakes exactly the best waiters of the address that the count allows |
| CallOutcomes.SignalIncrementOutcome | source/externals/libmesosphere/source/kern_k_address_arbiter.cpp:92-117 | Acts exactly if the word is the value; then the word is one more and exactly the best waiters that the count allows wake |
| CallOutcomes.SignalModifyOutcome | source/externals/libmesosphere/source/kern_k_address_arbiter.cpp:119-179 | Acts exactly if the word is the value; then the word is one more if nobody waits, one less if all waiters wake, and otherwise stays, and exactly the best waiters that the count allows wake |
| AddressArbiter.WordRoundTrip | source/externals/libmesosphere/source/kern_k_address_arbiter.cpp:92-233 | Words and signed 32-bit values stand for each other, and a store keeps the lower 32 bits |
| LockProtocol.DisciplinedRun | source/externals/libmesosphere/source/kern_k_condition_variable.cpp:72-281 | In every run in which user code follows the lock protocol, a thread that waits for owner `o` at a lock sees the word `tag(o)` with the wait bit, lock words name nobody or a thread, and no waiter holds what it waits for |
| LockProtocol.HolderKeepsLock | source/externals/libmesosphere/source/kern_k_condition_variable.cpp:72-281 | Mutual exclusion over whole runs: until its holder gives it up, a lock keeps exactly that holder and nobody else holds it, through hand-overs, cancellations, priority changes and terminations |
| LockProtocol.StepSafe | source/externals/libmesosphere/source/kern_k_condition_variable.cpp:72-281 | Each step of such a run keeps the words right, takes a lock from nobody but the releasing thread, and a lock wait that ends with success ends with the lock |
| LockWords.UnlockSafe | source/externals/libmesosphere/source/kern_k_condition_variable.cpp:72-110 | `SignalToAddress` by the holder hands the word to the promoted waiter, or frees it, and nobody else loses a lock |
| LockWords.ArbitrateLockSafe | source/externals/libmesosphere/source/kern_k_condition_variable.cpp:112-148 | `WaitForAddress` keeps words and queues in agreement in every outcome |
| LockWords.SignalSafe | source/externals/libmesosphere/source/kern_k_condition_variable.cpp:150-217 | `Signal` gives each target its lock or queues it on the holder, with the wait bit set, for any number of targets |
| LockWords.WaitSafe | source/externals/libmesosphere/source/kern_k_condition_variable.cpp:219-281 | `Wait` releases the lock to the next owner before the thread enters the tree, in every outcome |
| LockWords.CancelQuiet | source/externals/libmesosphere/source/kern_k_condition_variable.cpp:34-68 | Cancelling a wait at any phase changes no lock word and nobody's holding |
| TreeOrder.RestoreLifts | source/externals/libmesosphere/source/kern_k_thread.cpp:1133-1181 | A restoration that improves priorities moves at most one thread of a tree: the end of the chain of owners, and exactly if it is worse |
| SignalFlag.StepAligned | source/externals/libmesosphere/source/kern_k_condition_variable.cpp:193-217 | One iteration keeps all threads of the key at or behind the iterator if and only if it does not lift a thread of the key over it, told from the state before |
| SignalFlag.SignalClearsExactly | source/externals/libmesosphere/source/kern_k_condition_variable.cpp:193-217 | If nobody waits on the key any more the flag is cleared; if it is cleared, somebody still waits if and only if some iteration skipped a thread |
| SignalFlag.BroadcastExact | source/externals/libmesosphere/source/kern_k_condition_variable.cpp:193-217 | A broadcast always clears the flag, so it strands a thread exactly if it skips one |
| SignalFlag.SignalOneExact | source/externals/libmesosphere/source/kern_k_condition_variable.cpp:193-217 | A signal of one thread clears the flag if and only if nobody waits any more |
| SignalFlag.SignalLevelExact | source/externals/libmesosphere/source/kern_k_condition_variable.cpp:193-217 | If the threads that wait on the key have one priority, whatever locks they hold, a signal of any count clears the flag if and only if nobody waits any more |
| SharedLock.SharedLockExact | source/externals/libmesosphere/source/kern_k_condition_variable.cpp:150-217 | If the waiters of the key share one lock, the first state decides for every count: the flag is cleared if and only if the count suffices for all waiters but one that the first iteration skips, and a thread is stranded if and only if the first iteration skips one and the count suffices for the others |
| SharedLock.ProtocolShares | source/externals/libmesosphere/source/kern_k_condition_variable.cpp:150-191 | In every state of the lock protocol, waiters that name one lock share it in that sense |
| SharedLock.SignalsBest | source/externals/libmesosphere/source/kern_k_condition_variable.cpp:193-217 | A signal of one thread takes exactly the best waiter of the key, if there is one |
| SkippedWaiter.BroadcastSkips | source/externals/libmesosphere/source/kern_k_condition_variable.cpp:193-217 | The flag promise fails: a concrete run of protocol-abiding calls from a fresh state after which a broadcast clears the flag while a thread still waits |
| CondFlags.SignalFlagExact | source/externals/libmesosphere/source/kern_k_condition_variable.cpp:193-217 | If no thread in the tree holds a lock, every signal clears the flag exactly if nobody waits any more |
| CondFlags.FlagsInRuns | source/externals/libmesosphere/source/kern_k_condition_variable.cpp:193-281 | In every run in which threads wait holding no other lock, the flag of every key somebody waits on is 1, so a signaller that reads 0 may skip the call |
| CondFlags.StartedFlagged | source/externals/libmesosphere/source/kern_k_condition_variable.cpp:72-281 | Fresh states satisfy everything the run theorems start from |
| KernelObject.Kernel.FindHeldLock | source/externals/libmesosphere/source/kern_k_thread.cpp:1069-1081 | The first held lock with the key, by a loop |
| KernelObject.Kernel.InheritedPriority | source/externals/libmesosphere/source/kern_k_thread.cpp:1136-1146 | The best of the base priority and the front waiters of all held locks, which is the best over all waiters |
| KernelObject.Kernel.RestorePriority | source/externals/libmesosphere/source/kern_k_thread.cpp:1133-1181 | The in-place loop from owner to owner ends in the state of the recursive specification |
| KernelObject.Kernel.AddWaiter | source/externals/libmesosphere/source/kern_k_thread.cpp:1183-1192 | Updates the kernel in place to exactly the state that `WaiterLists.AddWaiterCorrect` is about |
| KernelObject.Kernel.RemoveWaiter | source/externals/libmesosphere/source/kern_k_thread.cpp:1194-1202 | Updates the kernel in place to exactly the state that `WaiterLists.RemoveWaiterCorrect` is about |
| KernelObject.Kernel.RemoveWaiterByKey | source/externals/libmesosphere/source/kern_k_thread.cpp:1204-1259 | Updates the kernel in place and returns exactly what `WaiterLists.RemoveWaiterByKeyCorrect` is about, hand-over and restoration included |
| WaitSteps.EndWaitSettles | source/externals/libmesosphere/source/kern_k_thread.cpp:1453-1463 | Ending the wait of a thread that has been taken out of its queue, with any store to user memory beside it, restores the whole invariant: the thread runs, and nobody gets another owner |
| KernelObject.Kernel.SignalToAddress | source/externals/libmesosphere/source/kern_k_condition_variable.cpp:72-110 | The sequence of in-place updates is the atomic step `SignalToAddress` of the run theorems, state and result |
| KernelObject.Kernel.WaitForAddress | source/externals/libmesosphere/source/kern_k_condition_variable.cpp:112-148 | The in-place updates are the atomic step of the run theorems; a result is returned exactly if the thread does not block |
| KernelObject.Kernel.SignalImpl | source/externals/libmesosphere/source/kern_k_condition_variable.cpp:150-191 | The in-place updates are the specified step when the word is inaccessible, free, held, or names no handle |
| KernelObject.Kernel.Signal | source/externals/libmesosphere/source/kern_k_condition_variable.cpp:193-217 | The loop with its early-advanced iterator, and the final store, give the specified state |
| KernelObject.Kernel.Wait | source/externals/libmesosphere/source/kern_k_condition_variable.cpp:219-281 | The in-place updates are the atomic step of the run theorems when terminating, when the word is inaccessible, at zero timeout, and when it blocks |
| KernelObject.Kernel.CancelWait | source/externals/libmesosphere/source/kern_k_condition_variable.cpp:34-68 | Whichever queue the thread sleeps in, the in-place updates are the cancellation step of the run theorems |
| KernelObject.Kernel.SetBasePriority | source/externals/libmesosphere/source/kern_k_thread.cpp:817-835 | The in-place change and restoration loop are the priority step of the run theorems |
| KernelObject.Kernel.RequestTerminate | source/externals/libmesosphere/source/kern_k_thread.cpp:1352-1403 | The in-place updates are the termination step of the run theorems: only the first request acts, it may raise the base priority, and it cancels a wait |
| KernelObject.Kernel.ArbiterSignal | source/externals/libmesosphere/source/kern_k_address_arbiter.cpp:70-90 | The erasing loop over the tree is the specified wake, hence wakes exactly the best waiters |
| KernelObject.Kernel.SignalAndIncrement | source/externals/libmesosphere/source/kern_k_address_arbiter.cpp:92-117 | The in-place updates are the specified step: nothing happens unless the word is equal |
| KernelObject.Kernel.NewValue | source/externals/libmesosphere/source/kern_k_address_arbiter.cpp:127-152 | The count that stops early at `count` gives the value that the full number of waiters asks for |
| KernelObject.Kernel.SignalAndModify | source/externals/libmesosphere/source/kern_k_address_arbiter.cpp:119-179 | The in-place updates are the step that `AddressArbiter.SignalAndModifyCorrect` is about |
| KernelObject.Kernel.WaitIfLessThan | source/externals/libmesosphere/source/kern_k_address_arbiter.cpp:181-233 | The in-place updates are the step of the run theorems, with the decrement stored before the thread sleeps; a result is returned exactly if it does not block |
| KernelObject.Kernel.WaitIfEqual | source/externals/libmesosphere/source/kern_k_address_arbiter.cpp:235-280 | The in-place updates are the step of the run theorems; a result is returned exactly if the thread does not block |
| InitialImage.LoadHeader | source/externals/libmesosphere/source/kern_initial_process.cpp:49-69 | The header walk succeeds exactly if every header lies within the size and is valid, and then yields the sum of the secure sizes |
| InPlaceWalk.InPlaceTracks | source/externals/libmesosphere/source/kern_initial_process.cpp:83-99 | While binaries end within the size, the compacting walk with its stale end reads the same headers and binaries as the plain walk, and is never ahead of it |
| InPlaceWalk.PackedAgrees | source/externals/libmesosphere/source/kern_initial_process.cpp:83-99 | For an image whose binaries all end within the size both walks read the same sequence |
| InPlaceWalk.OverrunMisreads | source/externals/libmesosphere/source/kern_initial_process.cpp:83-99 | If the last binary overruns the size, some bytes behind the size make the compacting walk read a different binary |
| InPlaceWalk.WalksAgreeExactly | source/externals/libmesosphere/source/kern_initial_process.cpp:49-99 | The walks agree whatever lies behind the size if and only if the last binary, too, ends within it |
| InPlaceWalk.WalkedJudged | source/externals/libmesosphere/source/kern_initial_process.cpp:49-99 | For an image that the header walk accepts, the compacting walk meets no bad header; unless a process area cannot hold its binary, it passes the image's last page exactly if its end lies there, and never if the plain walk ends within the size |
| InPlaceWalk.PackedLoads | source/externals/libmesosphere/source/kern_initial_process.cpp:49-99 | An image whose binaries end within the size and fit their areas loads, and loads what the plain walk reads |
| KipHeader.RealImageMisread | source/externals/libmesosphere/source/kern_initial_process.cpp:41-99 | An image with the right magic numbers, its own size and number of processes, segments that pass all checks and padding for capabilities, that the header walk accepts and the load completes, but whose process gets the first byte of the image's magic number in place of its binary |
| KipHeader.Misread | source/externals/libmesosphere/source/kern_initial_process.cpp:49-99 | The same for every header that announces a binary of one byte |
| KipHeader.MadeBinary | source/externals/libmesosphere/include/mesosphere/kern_k_initial_process_reader.hpp:101-103 | A header built from segments says the sum of their compressed sizes |
| KipHeader.MadePages | source/externals/libmesosphere/source/kern_k_initial_process_reader.cpp:104-117 | A header built from segments says the pages that just cover the process, up to the end of the bss or of the data |
| KipHeader.MadeSecure | source/externals/libmesosphere/include/mesosphere/kern_k_initial_process_reader.hpp:105-111 | A header asks for secure memory for exactly its code pages and its stack if the flag is set, and for none otherwise |
| KipHeader.MadeSegments | source/externals/libmesosphere/source/kern_k_initial_process_reader.cpp:80-97 | The checks accept exactly segments that begin at page boundaries, the first at 0, and do not overlap |
| InitialProcess.Loader.Compact | source/externals/libmesosphere/source/kern_initial_process.cpp:92-106 | Everything behind the header moves down to a page boundary unchanged, exactly the pages in front are closed and released, and only free pages and unread pages of the image are written |
| InitialProcess.Loader.MakeGroup | source/externals/libmesosphere/source/kern_initial_process.cpp:134-152 | The working group is the binary's own pages in the image, if any, then allocated free pages, all different and as many as the process has; it succeeds exactly if enough pages are free |
| InitialProcess.Loader.PlaceOwn | source/externals/libmesosphere/source/kern_initial_process.cpp:169-177 | With the binary's own pages at the start of the mapped group, tail copy and overlapping move through the mapping bring exactly the binary to its end, and write no page outside the group |
| InitialProcess.Loader.PlaceFar | source/externals/libmesosphere/source/kern_initial_process.cpp:169-184 | In a group that shares no page with the image, the two copies bring exactly the binary to its end, and write no page outside the group |
| InitialProcess.Loader.BuildOwn | source/externals/libmesosphere/source/kern_initial_process.cpp:134-238 | In the image's own pool: although the working group lies in the image and every free page may change before each read, the copy that is kept holds the loaded area; binary and working pages are closed, and only they and free pages have been written |
| InitialProcess.Loader.BuildFar | source/externals/libmesosphere/source/kern_initial_process.cpp:134-191 | In another pool: the binary's pages are closed once copied, may change at once, and the process still gets its loaded area |
| InitialProcess.Loader.BuildProcess | source/externals/libmesosphere/source/kern_initial_process.cpp:113-250 | One process: the kept group holds the loaded area, the unread rest of the image is unchanged and still the image's, and free pages and reservations move by exactly this process |
| InitialProcess.Loader.LoadOne | source/externals/libmesosphere/source/kern_initial_process.cpp:81-268 | One turn of the loop ends as the compacting walk says, or for lack of memory with less than twice the process's pages free; it writes only free pages and pages of the image |
| InitialProcess.Loader.CreateProcesses | source/externals/libmesosphere/source/kern_initial_process.cpp:73-278 | For every image, mix of pools and choice of pages by the allocator, the processes are those of the compacting walk, in disjoint groups that hold their loaded areas, every page of the image is closed, and reservations telescope to the code sizes less the image |
| InitialProcess.Loader.CopyToKernelMemory | source/externals/libmesosphere/source/kern_initial_process.cpp:304-321 | If there are processes, reserves the image and closes exactly the rest of its area; otherwise does nothing |
| InitialProcess.Loader.Load | source/externals/libmesosphere/source/kern_initial_process.cpp:73-321 | The whole load of an image with processes: it ends with the verdict of the compacting walk on the original image, or for lack of memory; if it succeeds, every process keeps pages of its own that hold its loaded area, what stays reserved is the sum of the code sizes, every page of the area has been closed exactly once, and just the kept pages are not free |
| PageGroup.CopyGroup | source/externals/libmesosphere/source/kern_initial_process.cpp:199-238 | The two-cursor copy, in the one memory, makes the second group's pages equal to the first's, page for page across different block boundaries, changes no other page, and exhausts both block lists together |
| PageGroup.CopiedSeen | source/externals/libmesosphere/source/kern_initial_process.cpp:199-238 | After the copy a mapping of the new group shows, byte for byte, what one of the working group showed |
| PageGroup.AddBlockPages | source/externals/libmesosphere/source/kern_initial_process.cpp:139-150 | Adding a block to a group, which may merge it with the last one, appends its pages |
| HostMemory.Impl.Map | source/host/host_memory.cpp:197-206 | Every system call meets its demands; the partition stays the tracked views with exactly the maximal gaps; the byte view grows by exactly the mapped range |
| HostMemory.Impl.IsNieche | source/host/host_memory.cpp:400-407 | Below the end of the reservation the answer is whether the range is exactly one whole gap |
| HostMemory.Impl.TrackPlaceholder | source/host/host_memory.cpp:388-396 | Inserts the interval at its place in the order and its backing offset |
| HostMemory.Impl.UnmapPart | source/host/host_memory.cpp:283-354 | Unmapping part of an interval splits, maps the remainders again, joins the free piece with both neighbouring gaps, meets every system call's demands and tracks the remainders with their offsets |
| HostMemory.Impl.UnmapOne | source/host/host_memory.cpp:283-354 | Either nothing overlaps the range, or exactly the overlap with one interval disappears |
| HostMemory.Impl.Unmap | source/host/host_memory.cpp:208-214 | Ends, since the mapped bytes of the range decrease, and afterwards the byte view is the old one outside the range and empty inside |
| HostMemory.HostMemory.constructor | source/host/host_memory.cpp:641-657 | The base is huge-page aligned and the slack keeps every range in front of the end of the reservation |
| HostMemory.HostMemory.Map | source/host/host_memory.cpp:672-682 | For every range of the virtual size, also the last, the byte view grows by exactly that range |
| HostMemory.HostMemory.Unmap | source/host/host_memory.cpp:684-692 | For every range of the virtual size, the byte view becomes empty there and stays elsewhere |
| AddressLayout.LayoutCut | source/host/host_memory.cpp:283-354 | The partition after cutting a piece out of a view: remainders, and one gap that has swallowed the neighbouring gaps |
| AddressLayout.CutHides | source/host/host_memory.cpp:283-354 | The remainders show the same backing offsets as before and the cut shows nothing |
| TranslateTable.RunCorrect | source/runtime/backend/translate_table.h:34-99 | Over every non-aborting run on non-zero keys the table is a finite map, keys are unique, every probe run is free of gaps and used slots keep their keys |
| TranslateTable.StepCorrect | source/runtime/backend/translate_table.h:34-99 | One operation does to the table what it does to the map, a lookup returns the map's value or 0, and a slot number is odd and names the key's slot |
| TranslateTable.LookupCorrect | source/runtime/backend/translate_table.h:82-99 | A lookup is the map's value, or 0 if the key is absent |
| TranslateTable.SlotNumberStable | source/runtime/backend/translate_table.h:57-80 | A key's slot number is the same in every later call, after any operations in between, and those calls do not abort |
| TranslateTable.AbortsExactly | source/runtime/backend/translate_table.h:34-80 | An operation aborts if and only if the key is absent and its probe run is full |
| TranslateTable.HashDigits | source/runtime/backend/translate_table.h:29-32 | Each binary digit of the home slot is the exclusive or of two digits of the key, as far apart as the table has digits, without the key's two lowest |
| TranslateTable.Table.Put | source/runtime/backend/translate_table.h:34-55 | The probe loop ends at the specified slot and writes it, or aborts exactly when the specification does |
| TranslateTable.Table.GetOrPut | source/runtime/backend/translate_table.h:57-80 | The probe loop returns the slot number of the specification and keeps a value that is already there, or aborts exactly when the specification does |
| TranslateTable.Table.Lookup | source/runtime/backend/translate_table.h:82-99 | The loop returns what `TranslateTable.LookupCorrect` says: the map's value or 0 |
| UseDef.AddedValid | source/runtime/ir/instr.cpp:77-90 | Adding a use keeps all counters, and appends a pseudo instruction at the end of its definition's chain and to no other chain |
| UseDef.PseudoUseExact | source/runtime/ir/instr.cpp:77-90 | A use by a pseudo instruction leaves all chains right if and only if the definition is not itself a pseudo instruction in a chain: otherwise the user lands in the chain of that one's definition |
| UseDef.DroppedValid | source/runtime/ir/instr.cpp:92-106 | Taking a use away keeps all counters, and takes a pseudo instruction out of its chain keeping the others in order |
| UseDef.PlainValid | source/runtime/ir/instr.cpp:13-16 | Storing an argument without a definition changes no use |
| UseDef.Program.Use | source/runtime/ir/instr.cpp:77-90 | The chain walk ends and links the user at the end of the chain |
| UseDef.Program.UnUse | source/runtime/ir/instr.cpp:92-106 | The chain walk ends and unlinks exactly the user |
| UseDef.Program.SetArg | source/runtime/ir/instr.cpp:13-62 | Replaces one slot and keeps counters and chains right, also if the new argument is the old one |
| UseDef.Program.SetOperand | source/runtime/ir/instr.cpp:64-75 | Replaces three slots and keeps counters and chains right |
| UseDef.Program.SetArgs | source/runtime/ir/instr.h:33-47 | The arguments fill consecutive slots, operands three each, and the other slots stay; all are stored exactly if their number plus twice the number of operands is at most four |
| UseDef.SlotCount | source/runtime/ir/instr.h:33-47 | Arguments take their number plus twice the number of operands in slots, so they fit exactly if that sum is at most four |
| UseDef.ArgumentCountMisses | source/runtime/ir/instr.h:33-47 | The static assertion on the number of arguments does not keep them within the slots |
| UseDef.OperandRoundTrip | source/runtime/ir/instr.h:79-90 | Reading an operand back from where `SetArgs` put it gives that operand |
| UseDef.Program.GetPseudo | source/runtime/ir/instr.cpp:139-150 | The first instruction of the chain with the opcode, none in front of it having that opcode; and none exactly if none is attached |
| UseDef.Program.TerminalUse | source/runtime/ir/args.cpp:21-24 | Terminal uses are counted like slots |
| UseDef.Program.Destroy | source/runtime/ir/instr.cpp:204-208 | The instruction gives up exactly its own uses; counters and chains stay right and no other slot changes |
| UseDef.Program.DestroyInst | source/runtime/ir/block.cpp:18-21 | After destroying and deleting an instruction, counters, chains and slots are right if and only if no other instruction used it; no other slot changes |
| HirUses.Function.Emit | source/runtime/ir/hir_builder.cpp:101-119 | A new instruction on live values, registered or not, holds its arguments in its slots, and adds each of its uses of a registered value to the end of the right list once; nothing else changes |
| HirUses.Function.AppendInst | source/runtime/ir/hir_builder.cpp:101-119 | The loop over the slots completes every use list, adding only uses of this instruction at their ends |
| HirUses.Function.AddPhiInput | source/runtime/ir/hir_builder.cpp:78-82 | A phi use is added at the end of its list, apart from the counted ones, and all else stays |
| HirUses.Function.CounterMatches | source/runtime/ir/hir_builder.cpp:62-65 | The 8-bit counter is the number of non-phi list entries plus terminal uses, modulo 256, and equal to it up to 255 |
| SlabAllocator.StepKeepsSound | source/runtime/common/slab_alloc.cc:5-24 | Each load, store and swap but a stale swap keeps free list, handed-out and in-flight nodes a partition, whoever frees what, and a successful swap is one pop or push |
| SlabAllocator.RunExact | source/runtime/common/slab_alloc.cc:5-24 | For every interleaving: the nodes are partitioned in all its states if and only if none of its swaps is stale, and then the free list is what its pushes and pops make it |
| SlabAllocator.StepKeepsInv | source/runtime/common/slab_alloc.cc:5-24 | A step that frees no node another pending `Allocate` holds also keeps every snapshot of a free node up to date |
| SlabAllocator.RunKeepsInv | source/runtime/common/slab_alloc.cc:5-24 | In every interleaving that frees no node another pending `Allocate` holds, no swap is stale, the partition is kept and the free list is what its pushes and pops make it |
| SlabAllocator.OvertakenReachable | source/runtime/common/slab_alloc.cc:5-24 | Without that restriction, a concrete interleaving in which a node is taken, its successor too, and the node is freed again under a pending `Allocate` |
| SlabAllocator.SwapAfterOvertaking | source/runtime/common/slab_alloc.cc:5-15 | Then the pending swap succeeds and no list makes a partition any more |
| SlabAllocator.PopExact | source/runtime/common/slab_alloc.cc:5-15 | A successful swap of `Allocate` keeps a partition if and only if the link it installs is still the link of the node it takes |
| SlabAllocator.Initialize | source/runtime/common/slab_alloc.h:80-97 | The free list is all objects of the memory, first to last, each once |
| SlabAllocator.AllocateEnds | source/runtime/common/slab_alloc.cc:5-15 | `Allocate` gives up exactly if it sees an empty free list, and returns exactly the node that its swap takes from the front |
| ClientPort.StepKeepsInv | source/externals/libmesosphere/source/kern_k_client_port.cpp:28-122 | Each load and swap keeps the bounds, and a notification is sent exactly if the port was full and no longer is |
| ClientPort.EveryRunCounts | source/externals/libmesosphere/source/kern_k_client_port.cpp:28-122 | In every interleaving of any number of creators and finalisers the count stays within its bounds, notifications are exactly the openings of a full port, and whenever no creator is between its two loops the peak is the largest count there ever was |
| ClientPort.CountEnds | source/externals/libmesosphere/source/kern_k_client_port.cpp:99-111 | A creator is refused exactly if the count it loaded has reached the maximum, is counted once exactly if the count it loaded is below that and still current, and otherwise looks again |
| ClientPort.PeakEnds | source/externals/libmesosphere/source/kern_k_client_port.cpp:113-121 | A counted creator leaves the peak at its count or above, and changes it to nothing else |
| Capabilities.AcceptedMeans | source/externals/libmesosphere/source/kern_k_capabilities.cpp:265-345 | For every accepted list, at most one word declares cores and priorities and the masks are exactly its ranges without the four kernel priorities, or empty; the system calls are the union of masks with different indices; the regions acted on are all regions of the list although range pairs are skipped |
| Capabilities.ParseAccounts | source/externals/libmesosphere/source/kern_k_capabilities.cpp:265-345 | The same from any point of the parse on |
| Capabilities.AcceptedWords | source/externals/libmesosphere/source/kern_k_capabilities.cpp:265-345 | On raw words: if a list is accepted, the system calls are those its mask words allow, each by exactly one word, and the regions acted on are all region words of the list |
| Capabilities.AcceptedExactly | source/externals/libmesosphere/source/kern_k_capabilities.cpp:265-345 | A list is accepted if and only if map ranges are paired, no word is bad or refused, no once-only kind repeats, at most one fitting word declares cores and priorities, and mask indices differ |
| Capabilities.DecodeKinds | source/externals/libmesosphere/include/mesosphere/kern_k_capabilities.hpp:31-45 | Which kind a word is, by its lowest bits, for every word |
| Capabilities.CoreRoundTrip | source/externals/libmesosphere/include/mesosphere/kern_k_capabilities.hpp:69-76 | Decoding the word of any core and priority limits gives these limits back |
| Capabilities.MaskRoundTrip | source/externals/libmesosphere/include/mesosphere/kern_k_capabilities.hpp:78-83 | Decoding the word of any mask and index gives that index and exactly the set digits back |
| Capabilities.CoreListAccepted | source/externals/libmesosphere/source/kern_k_capabilities.cpp:65-104 | A list of one word of limits is accepted exactly if the limits are in order, the cores exist and no kernel priority is named, and then grants exactly these cores and priorities |
| Capabilities.KCapabilities.Admit | source/externals/libmesosphere/source/kern_k_capabilities.cpp:48-64 | Check, then parse: succeeds exactly if all regions are backed and the parse accepts; then every region acted on has been checked and every system call comes from exactly one word |
| Capabilities.MasksDisjoint | source/externals/libmesosphere/source/kern_k_capabilities.cpp:106-124 | Masks with different indices allow different system calls |
| Capabilities.DecodedMask | source/externals/libmesosphere/source/kern_k_capabilities.cpp:106-111 | A decoded mask word has a 3-bit index and bits below 24 |
| Capabilities.KCapabilities.SetCapabilities | source/externals/libmesosphere/source/kern_k_capabilities.cpp:316-345 | The index loop over raw words, with its pairs, leaves the state and result of the specified parse, also on failure |
| Capabilities.KCapabilities.CheckCapabilities | source/externals/libmesosphere/source/kern_k_capabilities.cpp:347-362 | Succeeds exactly if every region word of the list is backed, and then has inspected exactly the region words, in order |
| BootLayout.MapLinear | source/kernel/host/kern_init_core.cpp:527-566 | The merging loop and its final flush map exactly the bytes that mapping every linear region alone would, at the fixed distance, in runs with a gap between any two, so runs are as long as possible |
| BootLayout.MappedOnce | source/kernel/host/kern_init_core.cpp:527-566 | In such runs no byte is mapped twice |
| BootLayout.FindLargest | source/kernel/host/kern_init_core.cpp:370-397 | The largest eligible region, the lowest of equals, or none exactly if none is eligible |
| BootLayout.AutoMap | source/kernel/host/kern_init_core.cpp:366-416 | The do-while loop ends, having marked exactly the eligible regions, each once, from the largest to the smallest and equals by address |

## Left out

- Kernel threads: pinning, suspension, finalisation of a thread that still owns locks, reference counts of threads and handles, light locks and locks with kernel addresses as keys, the counters of kernel waiters, and threads that were never started.
- Timers and scheduling: a timeout is a cancellation that may happen at any time, and fairness is not modelled. All interleavings are sequentially consistent; fences have no effect.
- Access to user memory: a word is accessible to all operations or to none, and accessibility does not change during a run.
- Slab exhaustion in `AddWaiterImpl` aborts in the code and does not happen in the model.
- KernelRuns.StepKeepsInv: priorities are unbounded integers, since the assertions on their range have no effect on the protocols.
- Loader: decompression and relocation of the segments, which `load` stands for; the choice of the pool and of the page ranges; the checks of `MakeCreateProcessParameter`; the creation of the process object and its reference to the kept group; the limits of the reservations; and the loop that runs the processes.
- InitialProcess.Loader.Load: all pools draw on one set of free pages; the model stops, with a verdict, at a process area that is empty or cannot hold its binary and at a binary behind the image's last page, where the code checks nothing and goes on; `KipHeader.RealImageMisread` shows what it does within the last page.
- Host memory: the other platforms' implementations, `Protect`, `Free`, `Release`, and failing system calls, which the code only logs.
- HostMemory.Impl.Map: demands that nothing is mapped in the range, which the code asserts, and that the range ends in front of the end of the reservation, which the constructor's slack provides.
- Translation cache: `Remove`, which steps with the wrong mask and leaves gaps in probe runs, and `Replace`, which takes a lock it holds.
- IR: `Validate`, the destruction of blocks, locals, edges, block vectors and `EndFunction`; phi inputs beyond their entry in use lists.
- UseDef.Program.SetOperand: counts each side when it stores it, not after storing both; the final state is the same, since operands of pseudo instructions hold no values.
- UseDef.Program.SetArgs: stops in front of the first argument that does not fit, where the code would write behind the slots.
- UseDef.Program.SetArg: demands that a pseudo instruction takes one plain value, of an instruction that is no pseudo instruction, as the assertions in the chain walks presuppose; `UseDef.PseudoUseExact` says what happens otherwise. `SetArgs` and `HirUses.Function.Emit` demand the same.
- UseDef.Program.Destroy: an instruction that is still used keeps its identity until `DestroyInst`.
- SignalFlag.SignalClearsExactly: for waiters with different locks and counts above one, the condition ranges over the states of the loop, since locks that earlier iterations hand over decide whom later ones raise.
- Slab heaps: the address arithmetic of object indices and `Contains`.
- Client ports: creating, registering and queueing sessions, apart from the counts; the light variant has the same two loops.
- Capabilities: the effects of mapping, interrupt, program-type, version, handle-table and debug words, which appear as one answer each; the two readings of the same user memory are taken to see the same words; the variant for initial processes reads kernel memory with the same loop.
- Boot layout: `GetRandomAlignedRegionWithGuard`, the region trees' insertions, pair addresses and page tables; addresses do not wrap.
- Vendored third-party code, the empty interpreter and register allocator, and device and core start-up code.
