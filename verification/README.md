# ManRiX: verified models of the microkernel and its libc

ManRiX is a Mach-style microkernel for the i386 with a small C library. This project models the parts
of it that keep state across many calls, and proves what those parts are for: that a full run of
`getopt` leaves `argv` stably partitioned, that the rendezvous of `send`, `receive` and `reply` loses
and misattributes nothing, that the two-level page tables of all processes together behave as one
plain map from (process, page) to entry, that the scheduler always runs the longest-waiting thread of
the highest level, that the allocators never hand out the same thing twice, and that the number,
calendar and environment routines compute what they promise on every input.

The model follows the shape of the C code. Where the source updates variables, arrays or linked
records in place, the model is a class or a method on an array, proved equal to a function on values;
the invariants, runs and round trips are then proved about that function.

| file | models |
|---|---|
| GetOptSpec, GetOpt, GetOptProofs, GetOptOrders, GetOptInPlace | `soft/libc/posix/getopt.c` |
| RingList, Words | `microkernel/include/kernel/list.h`, bit operations of `asm.h` |
| Scheduler, SchedulerProofs, TimeSlices | `scheduling.h`, `scheduling.c` |
| Ipc, IpcProofs, IpcTheorems | `microkernel/kernel/message.c` on top of the scheduler |
| ThreadLists, KernelInPlace | the same routines on records and linked lists |
| PageTables, PageTableProofs, UserMaps, MapCopies, MapRuns, RangeEnters, KernelTables, MapFrames, MapWitnesses, Translations, AddressLoops, PmapInPlace | `microkernel/arch/i386/pmap.c` |
| BootFrames | `microkernel/arch/i386/memory.c` |
| IdBitmap, SlabChain | `microkernel/kernel/id.c`, `microkernel/mm/vm_slab.c` |
| Strtol, StrtolLaws, KernelPrint, MkTime | `strtol.c`, `kernel_stdio.c`, `time.c` |
| Environ, EnvironInPlace | `soft/libc/posix/env.c` |
| Types, Arithmetic | an option type; products and quotients |

Every kernel routine is one atomic step on one processor, which is what the configuration compiles to
(`microkernel/include/kernel/config.h:35`, `microkernel/include/kernel/spinlock.h:46`).

Some promises are false of the code as written. Each has a concrete witness or an exact condition:

* The mask tests of `message.c` confuse the blocked states. Over all states of `thread.h`,
  `IpcProofs.MaskTestsIff` says exactly for which they are right; `IpcTheorems.SendWakesAnyWaiter`,
  `SendEndsIrqWait`, `SendWakesBlockedSender`, `MutualSend` and `ReplyWakesBlockedSender` show what goes
  wrong outside the client/server discipline, and `MaskTestsExact` that nothing does inside it.
* A failed buffer transfer leaves the sender queued: `IpcTheorems.SendKeepsIffTransferred`.
* A kernel page entered through a process's own map, as `handle_cow` does at
  `microkernel/mm/vm_map.c:802`, gives the process a kernel table of its own if and only if the kernel has
  none there: `MapRuns.EnterSharedIff`, with the input `MapWitnesses.ProcessGetsOwnKernelTable`.
* A range entered into a process's map can reach or cross `KERNEL_BASE`: `microkernel/arch/i386/memory.c:281`
  takes its size unchecked from the system call, and `microkernel/mm/vm.c:136` its address. Such a range keeps
  the two halves together if and only if the kernel has a table for every page of it above `KERNEL_BASE` when
  that part begins: `RangeEnters.EnterRangeIff`, with the input `MapWitnesses.RangeAcrossKernelBase`.
* `pmap_cow` and `pmap_protect` write into frame 0 for a page that has no table. Every store lands in a
  table of the map if and only if the range lies below `KERNEL_BASE` and all its pages have tables:
  `UserMaps.StoresLandIff`, with the input `MapWitnesses.StrayStore`.
* Creating kernel tables while creating kernel tables can lose the mapping of some of them. For the whole
  nest, `KernelTables.NestMappedIff` says which, and `MapWitnesses.TableLosesItsPage` and
  `DeeperTableLosesItsPage` are inputs.
* The address loops of `pmap.c` need not stop, `pmap_enter_range` need not visit its range, and
  `pmap_protect` and `pmap_cow` can miss the last page of theirs: `AddressLoops.StopsIff`, `RangeStopsIff`,
  `VisitsRangeIff` and `VisitsAllIff`, with inputs beside them.
* Rounding an address up wraps in the last page of the address space: `BootFrames.AlignIff`. The frame search
  goes back below its cursor, to frame 0, if and only if its cursor lies in that page or an interval it meets
  ends there: `BootFrames.NeverBackIff`, with the boot information of `BootFrames.BootGoesBack`.
* The repository's own `limits.h` makes `LONG_MAX` the largest unsigned number and `LONG_MIN` zero. The result
  of `strtol` is clamped to the range of its type if and only if the limits are those of the type:
  `Strtol.ClampsIff`, and `Strtol.RepositoryLimits` for that header.
* A page entered into a table that is there already gets the rights asked for if and only if the table's own
  directory entry has them all: `Translations.EnterRightsIff`.
* Only the first call of `getopt` steps over a leading `-` or `+`; the later ones read the option string with the
  mark. What they answer is what was meant, for every argument list, if and only if the mark character is the
  same kind of option with and without the mark and no colon after the mark can be missed:
  `GetOptOrders.MarkHarmlessIff`, with the input `GetOptOrders.ColonForgotten`.
* A time slice can boost a thread off the end of the queues: `SchedulerProofs.TimerIndexIff`, with the
  input `TimerPastLastQueue`.
* `setenv` accepts a name with an equals sign. Its entry defines another name without an equals sign as well
  if and only if the sign is there and not in front: `Environ.LeaksIff`.
* `setenv` leaves a pointer to a block that was given back if and only if `malloc` fails after `realloc`
  has moved a block of its own: `EnvironInPlace.Environment.SetEnv`.
* `mktime` lets 1969 through its guard and refuses all of it, refuses the Epoch itself, and wraps past
  `LONG_MAX`; for fields in range it is right otherwise and only then: `MkTime.BrokenDown.Mktime`.

## Model

| member | source | states |
|---|---|---|
| `GetOptSpec.PartitionIsPermutation` | soft/libc/posix/getopt.c:185-198 | the reference partition of an argument list into options (with their arguments and `--`) and operands neither loses, invents nor duplicates an argument |
| `GetOptSpec.ElementLaws` | soft/libc/posix/getopt.c:185-198 | an element is an option exactly if it has a dash in front and something behind it; a lone dash is an operand; `--` ends the options and everything after it is an operand |
| `GetOptSpec.KindLaws` | soft/libc/posix/getopt.c:891-1198 | a listed character is plain, or takes an argument with one colon behind it, or may take one with two; an unlisted one and the colon itself are no options |
| `GetOptProofs.ClampExact` | soft/libc/posix/getopt.c:565-568 | a caller that moves `optind` back cuts the skipped operands off there; otherwise nothing changes |
| `GetOptProofs.RotatedIsPermutation` | soft/libc/posix/getopt.c:314-392 | exchanging two adjacent blocks keeps the multiset of arguments |
| `GetOptProofs.ExchangeKeeps` | soft/libc/posix/getopt.c:314-392 | `exchange` changes neither the argument vector nor the `optind` the run is going to end with, and leaves the unread tail alone |
| `GetOptProofs.AdvanceKeeps` | soft/libc/posix/getopt.c:570-586 | gathering and skipping operands leaves the final vector and the answers still to come as predicted, and stops at an option or at the end |
| `GetOptProofs.EnterKeeps` | soft/libc/posix/getopt.c:629-634 | starting on an option element changes no prediction |
| `GetOptProofs.DecodeResume` | soft/libc/posix/getopt.c:891-1198 | decoding one character keeps the point where scanning of whole elements resumes, hence the final vector, and strictly decreases what is left |
| `GetOptProofs.DecodeAnswers` | soft/libc/posix/getopt.c:891-1198 | in every ordering, decoding one character returns the next answer of the left-to-right reading, with its argument; `optopt` becomes the character if it is unlisted or lacks its argument and stays otherwise |
| `GetOptProofs.DoubleDashEnds` | soft/libc/posix/getopt.c:593-616 | meeting `--` finishes with exactly the predicted vector and `optind` |
| `GetOptProofs.CallKeeps` | soft/libc/posix/getopt.c:559-634 | one call permutes `argv`; unless it answers -1 it gives the next answer of the reference reading, `optarg` and `optopt` included, and keeps the predicted end; at -1 the prediction is reached |
| `GetOptProofs.RunReaches` | soft/libc/posix/getopt.c:559-634 | from any state inside a run, calling until -1 ends with the predicted vector, `optind` and answers |
| `GetOptProofs.RunIsStablePartition` | soft/libc/posix/getopt.c:559-634 | over a full run in PERMUTE order `argv` becomes options, their arguments and `--` in original order followed by all operands in original order, `optind` is the first operand, the answers are those of a left-to-right reading, with `optopt` after each of them the last character that was unlisted or lacked its argument, and the result is a permutation |
| `GetOptProofs.EveryCallInRange` | soft/libc/posix/getopt.c:559-634 | after any number of calls the vector is a permutation of the original and `first_nonopt <= last_nonopt <= optind <= argc`, with `optind` never moving back |
| `GetOptOrders.OrderedCall` | soft/libc/posix/getopt.c:559-634 | in the two orderings that do not permute, a call that answers leaves the vector alone and strictly decreases what is left to read |
| `GetOptOrders.OrderedReads` | soft/libc/posix/getopt.c:559-634 | in those orderings every call gives the next answer of a left-to-right reading in which an operand ends the reading or is an answer itself with the element as `optarg`; at -1 nothing is left to answer and `optind` is where the reading stops |
| `GetOptOrders.OrderedRunReads` | soft/libc/posix/getopt.c:559-634 | so does the whole run, with the vector unchanged |
| `GetOptOrders.RunReadsInOrder` | soft/libc/posix/getopt.c:399-463 | from a fresh start a leading `-` selects the reading that returns operands, a leading `+` and POSIXLY_CORRECT the one that stops; the first answer is that of the option string without its mark, the others those of the option string as it stands |
| `GetOptOrders.PosixRunReads` | soft/libc/posix/getopt.c:399-463 | with POSIXLY_CORRECT and no mark the whole run is one left-to-right reading |
| `GetOptOrders.MarkHarmlessIff` | soft/libc/posix/getopt.c:539-545 | reading on with the mark in the option string gives the same answers for every argument list if and only if the mark character stands for the same kind of option and, if a colon follows the mark, no option takes an argument |
| `GetOptOrders.ColonForgotten` | soft/libc/posix/getopt.c:539-545 | with `+:a:` the second call answers `?` where a colon was asked for |
| `GetOptOrders.NoArguments` | soft/libc/posix/getopt.c:533-537 | with no arguments at all the answer is -1 and nothing changes |
| `GetOptOrders.RunTerminates` | soft/libc/posix/getopt.c:533-634 | for every option string, with or without a leading `-` or `+`, and with or without POSIXLY_CORRECT: from a fresh start -1 is reached after at most as many calls as there are unread elements and characters in them, plus one |
| `GetOptInPlace.SwapBlocks` | soft/libc/posix/getopt.c:359-365 | the element-by-element swap of two equally long disjoint stretches exchanges them and touches nothing else |
| `GetOptInPlace.RotateInPlace` | soft/libc/posix/getopt.c:350-386 | the loop of partial swaps terminates and exchanges two adjacent blocks of any lengths, each keeping its order, everything outside untouched |
| `GetOptInPlace.Getopt.Exchange` | soft/libc/posix/getopt.c:314-392 | as above on the file-level indices, which afterwards delimit the moved operands |
| `GetOptInPlace.Getopt.GetOpt` | soft/libc/posix/getopt.c:559-634 | the call on the static variables and the array is the value-level call, in all three orderings |
| `GetOptInPlace.Getopt.InitializeVars` | soft/libc/posix/getopt.c:399-463 | initialisation resets the scan and picks the ordering from the mark, then from POSIXLY_CORRECT |
| `GetOptInPlace.Getopt.ParseAll` | soft/libc/posix/getopt.c:1229-1241 | the caller's loop until -1 leaves the array stably partitioned in place and collects what the reference reading gives after each call: code, `optarg` and `optopt` |
| `RingList.RingIsOneSequence` | microkernel/include/kernel/list.h:54-130 | the next and prev links determine one sequence of members |
| `RingList.ListInit` | microkernel/include/kernel/list.h:147-151 | an initialised head denotes the empty sequence |
| `RingList.ListEnqueue` | microkernel/include/kernel/list.h:54-64 | inserting (also `list_add`, the same text at 88-98) puts one member in front and keeps the circle intact both ways, writing to three links at most |
| `RingList.ListDequeue` | microkernel/include/kernel/list.h:69-80 | dequeueing returns the back member and leaves the rest in order |
| `RingList.ListRemove` | microkernel/include/kernel/list.h:104-114 | removing returns the front member, so add and remove form a stack |
| `RingList.ListDel` | microkernel/include/kernel/list.h:119-130 | deletion takes out exactly the given member wherever it stands, writing only to its neighbours |
| `RingList.FirstInFirstOut` | microkernel/include/kernel/list.h:54-80 | whatever is queued one after the other is dequeued in the same order |
| `Words.Frs` | microkernel/include/i386/asm/asm.h:306-319 | the highest set bit, or -1 for zero |
| `Words.Ffc` | microkernel/include/i386/asm/asm.h:287-300 | the lowest clear bit |
| `SchedulerProofs.EnqueueKeeps` | microkernel/include/kernel/scheduling.h:124-139 | enqueueing keeps bitmap, placement and count, and adds exactly that thread |
| `SchedulerProofs.RemoveKeeps` | microkernel/include/kernel/scheduling.h:162-178 | removing keeps them and removes exactly that thread |
| `SchedulerProofs.WakeupKeeps` | microkernel/include/kernel/scheduling.h:180-185 | waking a thread that is not queued makes it ready and puts it at the end of the queue of its static priority, within the 32 levels; no other thread and no other queue changes |
| `SchedulerProofs.PickIsHighest` | microkernel/kernel/scheduling.c:156-173 | `schedule` picks the longest-queued thread of the highest non-empty level; its empty-list fallback is unreachable; idle is picked if and only if nothing is queued |
| `SchedulerProofs.TimerKeeps` | microkernel/kernel/scheduling.c:102-136 | a timer tick keeps the invariant and the set of queued threads, and the recomputed level is in range |
| `SchedulerProofs.TimerIndexIff` | microkernel/kernel/scheduling.c:129-134 | the recomputed level is one of the 32 if and only if static priority plus bound was at most 128 |
| `SchedulerProofs.TimerPastLastQueue` | microkernel/kernel/scheduling.c:129-134 | static priority 45 with bound 84 is sent to level 32, which does not exist |
| `TimeSlices.SliceLaw` | microkernel/kernel/scheduling.c:126-134 | after n ticks of a running counted thread: what is left of its slice, how many slices have expired, its bound and its priority, in closed form; no other thread changes |
| `TimeSlices.RequeuedExactly` | microkernel/kernel/scheduling.c:126-134 | from a slice s in 1..40 the thread is moved at ticks s, s + 40, s + 80, ... and at no other; the j-th time to the end of the queue of its static priority plus its bound less j, or plus 4 if that is more, no other queue changing; its slice stays in 1..40 |
| `TimeSlices.NotCounted` | microkernel/kernel/scheduling.c:106-119 | a tick does nothing to a thread of another policy or of priority 46 and above |
| `SchedulerProofs.RunKeeps` | microkernel/kernel/scheduling.c:102-184 | in every state of every run of enqueue, remove, wakeup, yield, timer and schedule steps: a bit is set iff its queue is non-empty, each queued thread is once in the queue of its dynamic priority, `nthreads` is the total, and the thread picked is the highest |
| `SchedulerProofs.YieldRotates` | microkernel/kernel/scheduling.c:236-246 | a yield rotates the top queue by one and changes no other |
| `SchedulerProofs.YieldIsFair` | microkernel/kernel/scheduling.c:236-246 | with k threads on the top level the n-th yield runs the n-th of them, and after k yields the queues are as before |
| `IpcProofs.MaskTestsIff` | microkernel/include/kernel/thread.h:36-48 | over every state of the header, each `&` test means its state if and only if the thread is not blocked at all or blocked for that very reason; otherwise it is true of every blocked state |
| `IpcTheorems.StepKeeps` | microkernel/kernel/message.c:126-233 | every send, return from send, receive, reply, yield, tick and switch under the client/server discipline keeps the whole protocol invariant |
| `IpcTheorems.RunKeeps` | microkernel/kernel/message.c:126-233 | the invariant holds in every state of every run |
| `IpcTheorems.InitialIsGood` | microkernel/kernel/message.c:126-233 | a system at rest satisfies it |
| `IpcTheorems.EachThreadInOnePlace` | microkernel/kernel/message.c:42-63 | each thread is runnable and in one run queue, or waits in exactly one `rcvq`, or awaits a reply, or awaits mail, and never in two of these |
| `IpcTheorems.MaskTestsExact` | microkernel/kernel/message.c:150-151 | on every thread the discipline lets them meet, the mask tests coincide with the exact states |
| `IpcTheorems.ReceivedInSendOrder` | microkernel/kernel/message.c:66-92 | at any time of any run the messages sent to a server are, in send order, those it has received followed by those of the senders in its queue; each is word for word what its sender gave to the kernel, with the sender's tid, except that unless the message is short w4 holds the address of a mapped receive buffer or else w2 that of a mapped send buffer; each receive returned the sender, or 0 for a message that wants no reply |
| `IpcTheorems.SendsReturnTheirAnswers` | microkernel/kernel/message.c:126-157 | the messages a thread's sends returned are, in order, exactly the answers given to it, and the code of each is the first word of its answer as an `int`; a send has at most one answer, and a running client has one for each send |
| `IpcTheorems.RunGrows` | microkernel/kernel/message.c:126-233 | what was sent, taken, answered and returned only ever grows along a run |
| `IpcTheorems.FailedCalls` | microkernel/kernel/message.c:126-233 | a send to no thread and a reply to none or to one that is not blocked return the error and change nothing; a send whose buffer is not shared returns the other error with the caller still running |
| `IpcTheorems.SendWakesAnyWaiter` | microkernel/kernel/message.c:150-151 | any send to a thread that is blocked for whatever reason makes it ready and puts it in a run queue |
| `IpcTheorems.SendEndsIrqWait` | microkernel/kernel/irq.c:276-278 | a kernel in which a driver waits for its interrupt and one message ends the wait |
| `IpcTheorems.SendWakesBlockedSender` | microkernel/kernel/message.c:150-151 | any send to a send-blocked thread makes it ready while it still stands in a receive queue |
| `IpcTheorems.MutualSend` | microkernel/kernel/message.c:126-157 | two threads at rest that send to each other reach that state |
| `IpcTheorems.ReplyWakesBlockedSender` | microkernel/kernel/message.c:206-233 | a reply to a thread whose message was not received yet succeeds and leaves it queued twice |
| `IpcTheorems.SendKeepsIffTransferred` | microkernel/kernel/message.c:143-148 | after a send to a server the state fits the protocol if and only if the message maps no buffer or the buffer was shared |
| `IpcTheorems.QueuedSenderIsBlocked` | microkernel/kernel/message.c:141-153 | whoever stands in a receive queue is send-blocked |
| `ThreadLists.Family.constructor` | microkernel/include/kernel/list.h:147-151 | initialised heads denote empty lists, whatever the links held before |
| `ThreadLists.Family.Append` | microkernel/include/kernel/list.h:54-64 | on linked lists sharing one member of the queued structures, `list_enqueue` makes the structure the youngest of one list and leaves every other ring of the family as it was |
| `ThreadLists.Family.Delete` | microkernel/include/kernel/list.h:119-130 | `list_del` takes exactly that structure out of its list, after which it is in none, and leaves every other ring as it was |
| `ThreadLists.Family.TakeOldest` | microkernel/include/kernel/list.h:69-80 | `list_dequeue` gives the structure queued longest and leaves every other ring as it was |
| `ThreadLists.Family.Oldest` | microkernel/include/kernel/list.h:54-80 | the back of the ring is the structure queued longest |
| `ThreadLists.Family.NotTwice` | microkernel/include/kernel/list.h:54-130 | no structure stands twice in a list |
| `KernelInPlace.Machine.constructor` | microkernel/kernel/scheduling.c:48-71 | with all lists empty and the bitmap clear the scheduler invariant holds |
| `KernelInPlace.Machine.EnqueueThread` | microkernel/include/kernel/scheduling.h:124-139 | on the ring of the thread's level, for a thread in no run queue, the list, bitmap and counter updates are the value-level enqueue; all other rings and all receive queues stay |
| `KernelInPlace.Machine.Wakeup` | microkernel/include/kernel/scheduling.h:180-185 | the two assignments and the enqueue are the value-level wakeup |
| `KernelInPlace.Machine.Schedule` | microkernel/kernel/scheduling.c:138-184 | reading the bitmap, testing the ring and taking its last entry, fallback included, sets `current` to the thread of `SchedulerProofs.PickIsHighest` |
| `KernelInPlace.Machine.RemoveThread` | microkernel/include/kernel/scheduling.h:162-178 | deleting from the ring and then testing it for emptiness gives the value-level removal, after which the thread is in no run queue |
| `KernelInPlace.Machine.SchedTimer` | microkernel/kernel/scheduling.c:102-136 | the field-by-field tick on records and rings is the value-level tick, requeueing only on an expired slice |
| `KernelInPlace.Machine.SchedYield` | microkernel/kernel/scheduling.c:236-246 | delete, enqueue on the same ring and the pending schedule are the value-level yield |
| `KernelInPlace.Machine.SendMessage` | microkernel/kernel/message.c:126-157 | message copied in, sender linked into the receiver's ring, buffer mapped, receiver woken, caller unlinked and switched away, with both error returns: the value-level send, on two disjoint families of rings |
| `KernelInPlace.Machine.ReceiveMessage` | microkernel/kernel/message.c:159-204 | waiting, or taking the oldest sender off the ring and releasing or holding it, is the value-level receive |
| `KernelInPlace.Machine.ReplyMessage` | microkernel/kernel/message.c:206-233 | storing the answer and linking the client back into its run queue is the value-level reply |
| `KernelInPlace.ProtocolFits` | microkernel/kernel/message.c:126-233 | under the client/server discipline no routine is ever called on a link that is already in a ring: the conditions the linked lists put on callers hold in every state of the protocol |
| `PageTableProofs.KernelEnterKeeps` | microkernel/arch/i386/pmap.c:223-255 | mapping a kernel page, with tables created recursively as far as pages last, keeps paging frames apart, every listed directory equal to the kernel's on entries 896..1023, and every user entry and table as it was |
| `PageTableProofs.AllocKeeps` | microkernel/arch/i386/pmap.c:187-202 | a table page comes from the free list, is new, clear and marked with its one use, with the same kept |
| `UserMaps.EnterUpdates` | microkernel/arch/i386/pmap.c:223-255 | `pmap_enter` maps the page to frame, PRESENT and protection and changes no other user page of any map |
| `UserMaps.UserRangeUpdates` | microkernel/arch/i386/pmap.c:258-269 | a range of user pages maps page v + k to frame f + k for every k and changes no other user page of any map |
| `RangeEnters.EnterRangeUpdates` | microkernel/arch/i386/memory.c:281 | any range of a listed map, across KERNEL_BASE or not, whose part above it has kernel tables when that part begins: it succeeds, keeps the invariant, maps page v + k to frame f + k, in all maps that see it above KERNEL_BASE, and changes no other user page; other kernel pages are as the part below left them |
| `RangeEnters.RangeShared` | microkernel/mm/vm.c:136 | the part above KERNEL_BASE takes no page, never fails and changes exactly those pages, in the kernel and all listed maps |
| `RangeEnters.RangeParts` | microkernel/arch/i386/pmap.c:258-269 | once a page of it has no kernel table, or the map has parted before, a range above KERNEL_BASE that succeeds leaves the map parted from the kernel, whatever its later allocations do |
| `RangeEnters.EnterRangeIff` | microkernel/arch/i386/pmap.c:258-269 | a range that succeeds on a listed map keeps the invariant if and only if the kernel has a table for every page of it above KERNEL_BASE when that part begins |
| `RangeEnters.EnterKeepsEnterable` | microkernel/arch/i386/pmap.c:223-255 | also for a map that has parted from the kernel, an enter keeps paging frames apart and every kernel entry of the map either the kernel's or its own table |
| `RangeEnters.GoodIsEnterable` | microkernel/arch/i386/pmap.c:223-255 | in every state that keeps the invariant, the in-place enter and range can be called on any map |
| `MapWitnesses.RangeAcrossKernelBase` | microkernel/arch/i386/memory.c:281 | a machine on which two pages, the last user page and the first kernel page, split the halves |
| `UserMaps.PutSeen` | microkernel/arch/i386/pmap.c:223-255 | writing the entry of any page with a table changes that page in every map that shares it, and no other page of any map |
| `UserMaps.RewriteChangesBits` | microkernel/arch/i386/pmap.c:407-454 | on any range both loops change the bits of the pages in range that have tables, in this map for user pages and in all for kernel pages, no other page of any map, and exactly those words of frame 0 that pages without tables fall on |
| `UserMaps.StoresLandIff` | microkernel/arch/i386/pmap.c:407-454 | every store of the loops goes into a user table of the map if and only if the range lies below KERNEL_BASE and every page of it has a table |
| `MapWitnesses.StrayStore` | microkernel/arch/i386/pmap.c:435-454 | copy-on-write of one page without a table changes the word at physical address 0 and nothing else |
| `UserMaps.CowClearsRw` | microkernel/arch/i386/pmap.c:435-454 | copy-on-write clears the RW bit and keeps every other bit |
| `UserMaps.ProtectSetsRw` | microkernel/arch/i386/pmap.c:407-432 | the RW bit ends as asked: set for write, cleared for read or execute alone, untouched for neither |
| `MapCopies.CopyTranslatesAlike` | microkernel/arch/i386/pmap.c:307-354 | the copy translates every user page exactly as the source, directory bits included, and no other map changes |
| `MapCopies.CopyHasTables` | microkernel/arch/i386/pmap.c:325-337 | the copy has a user table exactly where the source has one, entered with the same bits, and every other map keeps its own |
| `MapCopies.NoSharedTables` | microkernel/arch/i386/pmap.c:325-337 | two maps never share a user page table |
| `MapCopies.ShareKernelMapsNothing` | microkernel/arch/i386/pmap.c:357-377 | a map sharing only the kernel's half translates no user page |
| `MapCopies.ShareHasNoTables` | microkernel/arch/i386/pmap.c:357-377 | it has no user table, and every other map keeps its own |
| `MapRuns.OpRefines` | microkernel/arch/i386/pmap.c:223-454 | each operation, protection changes of pages without tables included, is on user pages one update of the plain map from (map, page) to entry; whether a page has a table decides whether its bits change |
| `MapRuns.OpTables` | microkernel/arch/i386/pmap.c:223-454 | and one update of the bits with which user tables are entered: an enter adds a table with PRESENT and the protection if the 4 MB region of its page has none, a copy takes those of its source, nothing else adds, changes or removes any |
| `MapRuns.RunRefines` | microkernel/arch/i386/pmap.c:187-454 | after any run of enters, kernel pages entered through process maps included, copies, shares and protection changes the page tables map every user page of every map as the plain map says, have tables where the plain map says and with the bits it says, listed directories agree with the kernel's on 896..1023, and paging frames are apart |
| `MapRuns.EnterSharedUpdates` | microkernel/mm/vm_map.c:802 | when the kernel has a table for it, a kernel page entered through a listed map takes no page and changes that page in the kernel and all listed maps, and no other |
| `MapRuns.EnterSharedIff` | microkernel/mm/vm_map.c:802 | such an enter keeps the invariant if and only if the kernel has a table for the page |
| `MapRuns.EnterSharedSplits` | microkernel/mm/vm_map.c:802 | otherwise the process's directory and the kernel's differ at that entry, whatever the allocation did |
| `MapWitnesses.ProcessGetsOwnKernelTable` | microkernel/mm/vm_map.c:802 | a machine on which that happens |
| `MapRuns.CopyStaysIndependent` | microkernel/arch/i386/pmap.c:307-354 | however a run goes on after a copy, each of the two maps translates as at the copy until an operation touches that map itself |
| `Translations.EnterTranslates` | microkernel/arch/i386/pmap.c:223-255 | with the walk of section 5.2 of the Intel 80386 Programmer's Reference Manual, PRESENT needed and rights taken in both entries: after `pmap_enter` the processor finds the page in its frame, with the rights asked for if the table is new and with what the table's bits leave of them otherwise, and every other user page of every map as before |
| `Translations.EnterRightsIff` | microkernel/arch/i386/pmap.c:239-253 | the page has exactly the rights asked for if and only if its table is new or was entered with all of them |
| `Translations.KernelEnterTranslates` | microkernel/arch/i386/pmap.c:223-255 | the same of a kernel page, seen from the kernel and from every listed map |
| `Translations.UserRangeTranslates` | microkernel/arch/i386/pmap.c:258-269 | the same of every page of a range of user pages |
| `Translations.EnterRangeTranslates` | microkernel/arch/i386/pmap.c:258-269 | and of any range of a listed map whose part above KERNEL_BASE has kernel tables |
| `Translations.CopyWalksAlike` | microkernel/arch/i386/pmap.c:307-354 | the processor finds every user page of a copy where the source has it, with the same rights |
| `Translations.ShareWalksNowhere` | microkernel/arch/i386/pmap.c:357-377 | every user page of a map that shares only the kernel's half faults |
| `Translations.ChangeTranslates` | microkernel/arch/i386/pmap.c:407-454 | after copy-on-write no page of the range can be written; after a protection for writing exactly those whose table allows it, after one for reading or execution none; frames and user access stay, and so does every page outside |
| `Translations.OpPresent` | microkernel/arch/i386/pmap.c:187-454 | every operation leaves every table entered as present, those of the kernel included |
| `Translations.RunTranslates` | microkernel/arch/i386/pmap.c:187-454 | after any run the processor finds every user page of every map where the plain map says, with the rights its bits for page and table leave |
| `Translations.EnteredStays` | microkernel/arch/i386/pmap.c:223-255 | a page entered in a run is found there, with those rights, until the run touches its map again |
| `Translations.CopyWalksIndependently` | microkernel/arch/i386/pmap.c:307-354 | whatever a run does to other maps after a copy, source and copy are translated as at the copy |
| `KernelTables.AllocNests` | microkernel/arch/i386/pmap.c:187-202 | allocation succeeds if and only if some free frame lies in a region with a kernel table, and takes exactly the pages up to the first such frame |
| `KernelTables.NestMappedIff` | microkernel/arch/i386/pmap.c:187-202 | of the pages so taken, each is mapped at its kernel address afterwards if and only if no earlier one lies in its 4 MB region; each is the table of its predecessor's region unless an earlier one lies there; no other kernel page changes |
| `KernelTables.KernelPageIs` | microkernel/arch/i386/pmap.c:187-202 | the kernel sees the first 512 MB of memory at 0xE0000000 |
| `MapWitnesses.TableLosesItsPage` | microkernel/arch/i386/pmap.c:187-202 | two free frames of one region: the second becomes the kernel's table and is not mapped |
| `MapWitnesses.DeeperTableLosesItsPage` | microkernel/arch/i386/pmap.c:187-202 | the same with a frame of another region between them |
| `KernelTables.AllocReady` | microkernel/arch/i386/pmap.c:187-202 | once the kernel has a table for every free frame, allocation takes one page, maps that page in the kernel and no other, and the kernel stays ready |
| `KernelTables.KernelAbsent` | microkernel/arch/i386/pmap.c:239-247 | entering a kernel page without a table succeeds if and only if the allocation does, and says what every kernel page is mapped by afterwards |
| `KernelTables.EnterSharedSucceedsIff` | microkernel/mm/vm_map.c:802 | through a listed map it succeeds in the same states |
| `MapFrames.EnterTakesExactly` | microkernel/arch/i386/pmap.c:223-255 | for any free list and any kernel tables, `pmap_enter` succeeds if and only if the directory and table it lacks can be allocated one after the other, and leaves the free list and kernel tables of those allocations |
| `MapFrames.CopyTakesExactly` | microkernel/arch/i386/pmap.c:307-354 | likewise `pmap_copy`, with one allocation for the directory and one per user table of the source |
| `MapFrames.ShareTakesExactly` | microkernel/arch/i386/pmap.c:357-377 | likewise `pmap_share_kernel`, with one allocation |
| `MapFrames.SupplyReady` | microkernel/arch/i386/pmap.c:187-202 | while every free frame has a kernel table, k allocations succeed if and only if k pages are free, and take exactly those |
| `AddressLoops.StopsIff` | microkernel/arch/i386/pmap.c:417-427 | on 32-bit addresses the loop of `pmap_protect` and `pmap_cow` stops if and only if the step after its last page does not wrap around |
| `AddressLoops.ProtectNeverStops` | microkernel/arch/i386/pmap.c:417-427 | a range for which it does not |
| `AddressLoops.VisitsAllIff` | microkernel/arch/i386/pmap.c:417-427 | that loop visits every page its range touches if and only if the range does not end earlier in its page than it starts in its own |
| `AddressLoops.LastPageMissed` | microkernel/arch/i386/pmap.c:417-427 | two bytes around a page boundary, of which the second page is missed |
| `AddressLoops.RangeStopsIff` | microkernel/arch/i386/pmap.c:261-268 | the loop of `pmap_enter_range` stops if and only if the end of its range wraps around or the step after it does not, and then visits the stated number of pages |
| `AddressLoops.VisitsRangeIff` | microkernel/arch/i386/pmap.c:261-268 | it visits the inclusive range and stops if and only if the address after the range does not wrap around |
| `AddressLoops.RangeNeverStops` | microkernel/arch/i386/pmap.c:261-268 | a range it never gets out of, and one of which it visits nothing |
| `PmapInPlace.MacrosSplitPage` | microkernel/include/i386/asm/vm_param.h:69-75 | the index macros on a 32-bit address are the two halves of its page number |
| `PmapInPlace.Vm.KernelMapUpdate` | microkernel/arch/i386/pmap.c:207-220 | the walk over the process list writes the entry into every listed directory and nothing else |
| `PmapInPlace.Vm.PageTableAllocate` | microkernel/arch/i386/pmap.c:187-202 | the mutually recursive routine terminates and is the value-level allocation |
| `PmapInPlace.Vm.PmapEnter` | microkernel/arch/i386/pmap.c:223-255 | the in-place writes on addresses are the value-level enter on their page numbers, for the kernel's map, for user pages of any map and for kernel pages of any listed map, parted from the kernel or not |
| `PmapInPlace.Vm.PmapEnterRange` | microkernel/arch/i386/pmap.c:258-269 | whenever the 32-bit loop stops, its effect is the value-level enter of the pages `AddressLoops.RangeStopsIff` counts, from any two addresses, aligned or not; a range of a listed map may lie anywhere, cross KERNEL_BASE and wrap around |
| `PmapInPlace.Vm.PmapCopy` | microkernel/arch/i386/pmap.c:307-354 | the nested copying loops are the value-level copy |
| `PmapInPlace.Vm.PmapShareKernel` | microkernel/arch/i386/pmap.c:357-377 | likewise |
| `PmapInPlace.Vm.PmapCow` | microkernel/arch/i386/pmap.c:435-454 | on any range the loop gets to the end of, pages with or without tables, the in-place writes are the value-level change; a map without directory is left alone |
| `PmapInPlace.Vm.PmapProtect` | microkernel/arch/i386/pmap.c:407-432 | likewise, returning 0 for a map without directory and 1 otherwise |
| `BootFrames.AlignIff` | microkernel/include/i386/asm/vm_param.h:79 | rounding up gives the next multiple of the page size if and only if the address is not inside the last page of the address space, where it gives 0 |
| `BootFrames.MeetsIff` | microkernel/arch/i386/memory.c:118-157 | the overlap test says of an interval that is not empty that a byte of it lies in the frame |
| `BootFrames.FramesExact` | microkernel/arch/i386/memory.c:102-164 | the reference list holds exactly the aligned addresses from the cursor to the end of memory whose frame meets no reserved interval |
| `BootFrames.FramesIncrease` | microkernel/arch/i386/memory.c:102-164 | frames later in it start at or after the end of earlier ones |
| `BootFrames.FirstIsLeast` | microkernel/arch/i386/memory.c:102-164 | its first is the least usable address |
| `BootFrames.SkipReserved` | microkernel/arch/i386/memory.c:118-157 | jumping to the aligned end of an interval that is met skips no usable frame |
| `BootFrames.SkipForwardIff` | microkernel/arch/i386/memory.c:118-157 | the jump goes forward if and only if the interval does not end inside the last page of the address space; otherwise the search starts again at 0 |
| `BootFrames.NeverBackIff` | microkernel/arch/i386/memory.c:102-164 | over all rounds, the search never looks at a frame below its cursor if and only if the cursor is not inside the last page of the address space and no interval that the search meets ends there |
| `BootFrames.BootGoesBack` | microkernel/arch/i386/memory.c:102-164 | boot information with a module that reaches into the last page: the second frame looked at is frame 0, which no interval meets, and the search stops there |
| `BootFrames.HarmlessIsClean` | microkernel/arch/i386/memory.c:102-164 | an interval that ends inside the last page does no harm to any call as long as no frame below the end of memory meets it |
| `BootFrames.Memory.constructor` | microkernel/arch/i386/memory.c:78-93 | the reserved intervals, end of memory and counter come from the boot information in 32-bit arithmetic; when memory ends before the last page and every interval that ends inside it is met by no frame below the end of memory, all calls to come are clean |
| `BootFrames.Memory.GetNextFrame` | microkernel/arch/i386/memory.c:102-164 | whenever the search goes forward and stays out of the last page, it terminates, returns the head of the list of usable frames and leaves its tail, or returns 0 if and only if none is left |
| `BootFrames.Memory.TakeFrames` | microkernel/arch/i386/memory.c:102-164 | a run of such calls hands out that list from the front, without gap, repetition or overlap |
| `IdBitmap.AllocExact` | microkernel/kernel/id.c:64-84 | an id is one that was not live and is live afterwards, no other changes; -1 comes back if and only if ids 0..4127 are all live |
| `IdBitmap.DeallocExact` | microkernel/kernel/id.c:86-95 | freeing clears exactly that id, and the next allocation comes from its word |
| `IdBitmap.ScanStops` | microkernel/kernel/id.c:71-75 | the unbounded scan stops no later than the word after the last, which is never full |
| `IdBitmap.RunMatches` | microkernel/kernel/id.c:64-95 | over every run of allocs and frees of live ids the bitmap equals the live set and the hint stays inside the array |
| `IdBitmap.NeverHandedOutTwice` | microkernel/kernel/id.c:64-84 | over every run, no id is handed out while live |
| `IdBitmap.Bitmap.AllocId` | microkernel/kernel/id.c:64-84 | the scan on the array is the value-level allocation |
| `IdBitmap.Bitmap.DeallocId` | microkernel/kernel/id.c:86-95 | likewise for freeing |
| `SlabChain.CacheCalculateExact` | microkernel/mm/vm_slab.c:77-83 | header, control words, objects and waste add up to the page, one more object would not fit, and no object fits exactly above the stated size |
| `SlabChain.ObjectsApart` | microkernel/mm/vm_slab.c:86-108 | objects lie inside the page past header and control array and do not overlap |
| `SlabChain.IndexOfAddr` | microkernel/mm/vm_slab.c:241 | the index computed from an object's address is its index |
| `SlabChain.ChainUnique` | microkernel/include/kernel/vm_slab.h:43-48 | a control array has one chain from a start |
| `SlabChain.ChainAcyclic` | microkernel/include/kernel/vm_slab.h:43-48 | a chain that ends visits no index twice |
| `SlabChain.ExhaustedIff` | microkernel/mm/vm_slab.c:215-219 | the chain is empty iff every object is live iff the entry count is the object count |
| `SlabChain.AllocKeeps` | microkernel/mm/vm_slab.c:215-219 | allocation yields an object that was not live; the chain still lists exactly the others |
| `SlabChain.FreeKeeps` | microkernel/mm/vm_slab.c:241-245 | freeing a live object puts it at the front of the chain |
| `SlabChain.FreeUndoesAlloc` | microkernel/mm/vm_slab.c:215-245 | freeing what was just allocated restores the slab |
| `SlabChain.RunHolds` | microkernel/mm/vm_slab.c:215-245 | over every run the chain is acyclic and lists exactly the non-live indices, and live count plus chain length is the object count |
| `SlabChain.Page.constructor` | microkernel/mm/vm_slab.c:86-108 | the filled slab chains all its objects and none is live |
| `SlabChain.Page.Alloc` | microkernel/mm/vm_slab.c:215-219 | the address returned is that of an object that was not live |
| `SlabChain.Page.Free` | microkernel/mm/vm_slab.c:241-245 | on the control array in place, exactly that object stops being live |
| `Strtol.OverflowExact` | soft/libc/posix/strtol.c:478-487 | the cutoff test holds if and only if appending the digit exceeds the maximum, and values never shrink |
| `Strtol.PlainLoop` | soft/libc/posix/strtol.c:443-487 | the loop stops after the longest digit run, its sticky flag is set iff the value of the run exceeds the maximum, otherwise the value is exact |
| `Strtol.QuadLoop` | soft/libc/posix/strtol.c:391-487 | the 64-bit variant, with a 32-bit fast path first, has the same contract |
| `Strtol.ReadHead` | soft/libc/posix/strtol.c:306-336 | white space, one sign and the base prefix are consumed as the reference reading of the laws in StrtolLaws does, including a bare `0x` |
| `Strtol.ClampsIff` | soft/libc/posix/strtol.c:498-519 | with given limits, a signed variant clamps every number to the range of its type, with ERANGE iff it was out of range, if and only if the limits are the greatest and least number of the type |
| `Strtol.RepositoryLimits` | soft/libc/include/arch/i386/asm/limits.h:38-40 | with the repository's limits every negative number overflows and gives 0, and a positive one past the range comes out negative |
| `Strtol.Finish` | soft/libc/posix/strtol.c:498-519 | the comparison and conversions in the unsigned and signed type, for any limits, give the result `ClampsIff` is about |
| `Strtol.ParseInt` | soft/libc/posix/strtol.c:300-537 | with the limits of the type, for every string and base, in all four variants: value, end pointer and errno of section 7.20.1.4 of ISO/IEC 9899:1999 |
| `StrtolLaws.WhiteSpaceLaw` | soft/libc/posix/strtol.c:308-310 | a blank, tab, newline, vertical tab, form feed, carriage return or Latin-1 blank in front moves the end pointer by one and changes nothing else |
| `StrtolLaws.PlusLaw` | soft/libc/posix/strtol.c:314-322 | so does a plus sign directly before the number |
| `StrtolLaws.MinusLaw` | soft/libc/posix/strtol.c:314-322 | a minus sign there negates in the signed variants, with the least number of the type reached exactly, and complements in the unsigned ones; what was out of range stays so, with that one exception |
| `StrtolLaws.SignAlone` | soft/libc/posix/strtol.c:314-322 | after a sign nothing but the number may stand: with white space or another sign nothing is read |
| `StrtolLaws.NothingToRead` | soft/libc/posix/strtol.c:531-537 | text that begins with none of these, no digit and no letter gives 0 with the end pointer at its start |
| `StrtolLaws.TailLaw` | soft/libc/posix/strtol.c:443-470 | text behind the number that begins with neither digit nor letter changes nothing, the end pointer included |
| `StrtolLaws.BaseLaw` | soft/libc/posix/strtol.c:300-304 | a base is refused, and the end pointer not written, if and only if it is neither 0 nor 2 to 36 |
| `StrtolLaws.DecimalLaw` | soft/libc/posix/strtol.c:325-336 | with base 0 a number that begins with 1 to 9 is decimal |
| `StrtolLaws.OctalLaw` | soft/libc/posix/strtol.c:325-336 | with base 0 a number that begins with 0 and no x is octal |
| `StrtolLaws.HexLaw` | soft/libc/posix/strtol.c:325-336 | with base 0 or 16, 0x before hexadecimal digits moves the end pointer by two and changes nothing else |
| `StrtolLaws.BareHexLaw` | soft/libc/posix/strtol.c:521-531 | 0x without digits reads as 0 up to the x |
| `StrtolLaws.DigitTable` | soft/libc/posix/strtol.c:443-470 | the digits of all bases are 0 to 9 and the 26 letters in either case, and no other character of the 256 |
| `StrtolLaws.ClampNearest` | soft/libc/posix/strtol.c:498-519 | the reference result is the number of the type nearest to the one written, with ERANGE iff they differ; an unsigned type takes negatives modulo its range |
| `KernelPrint.ValueOfDigits` | microkernel/kernel/kernel_stdio.c:42-82 | the digits printed for n have the value n |
| `KernelPrint.DigitCountExact` | microkernel/kernel/kernel_stdio.c:42-82 | the digit count k is exact: n lies in [base^(k-1), base^k) |
| `KernelPrint.DigitsCase` | microkernel/kernel/kernel_stdio.c:48-54 | every character printed is in 0123456789abcdef without the flag and in 0123456789ABCDEF with it |
| `KernelPrint.ParseUndoesPrint` | microkernel/kernel/kernel_stdio.c:42-82 | the unsigned parser applied to the printed digits returns n, consumes all of them and leaves errno alone, for bases 2 to 16 and either digit case |
| `KernelPrint.FillDigits` | microkernel/kernel/kernel_stdio.c:56-65 | at most 32 digits are produced, least significant first |
| `KernelPrint.CtrlToStr` | microkernel/kernel/kernel_stdio.c:42-82 | the digits land in the buffer most significant first, lower-case without the CASE flag and upper-case with it, their number is returned, and no other cell changes |
| `MkTime.DaysClosed` | soft/libc/timer/time.c:118-146 | the closed day count equals adding up Gregorian year lengths from 1970 |
| `MkTime.LeapDaysStep` | soft/libc/timer/time.c:118-146 | the three divisions together grow by one exactly over a leap year |
| `MkTime.FormulaIsSeconds` | soft/libc/timer/time.c:118-146 | the formula equals the seconds since the Epoch for every year from 1970 on |
| `MkTime.FormulaMonotone` | soft/libc/timer/time.c:118-146 | an earlier broken-down time has the smaller number, and conversely |
| `MkTime.BeforeEpoch` | soft/libc/timer/time.c:123-144 | every time of 1969, which the guard lets through, has a negative sum |
| `MkTime.WrapsIn2038` | soft/libc/timer/time.c:131-145 | the first second past LONG_MAX wraps to the least long |
| `MkTime.BrokenDown.Mktime` | soft/libc/timer/time.c:118-146 | seconds are clamped in place; for in-range fields the answer is the seconds since the Epoch if and only if the time is not the Epoch itself and not past LONG_MAX; all of 1969 is refused |
| `Environ.FastTestExact` | soft/libc/posix/env.c:348-397 | the two-byte comparison of `getenv` followed by the comparison of the rest is the plain prefix test |
| `Environ.PlainTestExact` | soft/libc/posix/env.c:142-144 | the `strncmp` test with the check for the equals sign is the prefix test |
| `Environ.DefinesUpToEquals` | soft/libc/posix/env.c:121-276 | of all names without an equals sign, the entry made for a name defines the part of it before its first equals sign and no other |
| `Environ.LeaksIff` | soft/libc/posix/env.c:121-276 | setting a name defines another non-empty name without an equals sign if and only if it has an equals sign and not in front |
| `Environ.OneName` | soft/libc/posix/env.c:121-276 | without equals signs in names, an entry defines its own name and no other |
| `Environ.EqualsSignLeaks` | soft/libc/posix/env.c:121-276 | setting `A=B` defines both `A=B` and `A` |
| `Environ.GetAfterSet` | soft/libc/posix/env.c:121-276 | get after set yields the new value, or the old one if not replacing |
| `Environ.SetLeavesOthers` | soft/libc/posix/env.c:121-276 | other names are unaffected |
| `Environ.SetKeepsPlaces` | soft/libc/posix/env.c:121-276 | setting rewrites the first entry of the name or adds one behind all others; no entry moves |
| `Environ.UnsetRemoves` | soft/libc/posix/env.c:278-313 | unset removes every match and nothing else |
| `Environ.UnsetLeavesOthers` | soft/libc/posix/env.c:278-313 | other names are unaffected |
| `Environ.UnsetConcat` | soft/libc/posix/env.c:278-313 | unsetting works entry by entry, so the rest keep their order |
| `Environ.RunIsFiniteMap` | soft/libc/posix/env.c:121-313 | over every run of sets and unsets of proper names, from any initial array, looking up any proper name gives the value of the finite map |
| `EnvironInPlace.Environment.GetEnv` | soft/libc/posix/env.c:339-400 | the scan of the pointer array, one-character names included, is the first-match lookup |
| `EnvironInPlace.Environment.Find` | soft/libc/posix/env.c:137-147 | the first matching cell, or the cell of the null pointer |
| `EnvironInPlace.Environment.SetEnv` | soft/libc/posix/env.c:121-276 | growing, replacing and keeping are the value-level set; it fails exactly when an allocation it needs fails, and the contents are then as before if the pointers are still sound; both stay sound if and only if `malloc` does not fail after `realloc` gave back a block |
| `EnvironInPlace.Environment.ShiftBack` | soft/libc/posix/env.c:302-304 | moving the tail back takes out one cell and keeps the rest in order |
| `EnvironInPlace.Environment.FilterCells` | soft/libc/posix/env.c:295-308 | the nested loops filter the array in place, keeping order, adjacent matches included |
| `EnvironInPlace.Environment.UnsetEnv` | soft/libc/posix/env.c:278-313 | a bad name is refused without effect; with a proper name a null environment is dereferenced; otherwise the value-level unset |

## Left out

- Long options, `W;` and diagnostics of `getopt`: only the `getopt` entry with short options is modelled; a negative `char` returned as `int` is a character here.
- Calls of `getopt` after the one that answered -1: the run results stop there.
- GetOptProofs.RunIsStablePartition: stated for PERMUTE order without a leading `-` or `+`; the other orderings do not permute and have `GetOptOrders.RunReadsInOrder`.
- IpcTheorems.RunKeeps: assumes the client/server discipline and successful buffer transfers; what happens without them is stated by the members named above.
- The tid hash behind `find_by_tid` is a map, so its walk through an empty bucket is not modelled.
- Buffer sharing is a success flag and the address it chose; the shared pages themselves are not modelled.
- Signals, timers, interrupts and other callers of `wakeup`; the wait queues of `sync.c`, which reuse the runq member; thread creation and exit; preemption inside a routine; several processors.
- SchedulerProofs.TimerKeeps: it assumes the initial bound satisfies `SchedulerProofs.TimerIndexIff`, since `bound` is not set by the files modelled.
- `sched_set`, `dequeue_thread` and `do_schedrr`: no live caller keeps the count.
- Page-table entries are a frame and twelve bits; a protection argument with higher bits is not modelled, nor are the TLB, the page hash and the page lists.
- Running out of pages is a null result, as the code then goes through a null pointer; free frames are taken to lie below 512 MB, where adding `KERNEL_BASE` does not wrap.
- PmapInPlace.Vm.PmapEnter: not for a kernel page of a map whose process is not listed, nor for a user page of the kernel's map; no caller has either.
- PmapInPlace.Vm.PmapEnterRange: a range of the kernel's map lies above `KERNEL_BASE` and does not wrap, and one of a map whose process is not listed lies below it; where its loop does not stop there is no result.
- RangeEnters.EnterRangeIff: not stated for a range that wraps around from the end of the address space to user pages.
- MapRuns.RunRefines: runs hold kernel pages entered where the kernel has a table; what the others do is stated by `MapRuns.EnterSharedSplits`, and what protection changes do to frame 0 by `UserMaps.RewriteChangesBits`.
- The second lock `pmap_protect` takes at line 429 has no effect in this configuration.
- Copying or sharing a map and listing its process are one step, where `process.c` lists the process first.
- `pmap_remove`, `exec_pmap`, `pmap_destroy` and the temporary mapping of early boot.
- BootFrames.Memory.GetNextFrame: what a call returns is stated for searches that go forward and stay out of the last page of the address space; what the others visit is stated by `BootFrames.NeverBackIff`.
- Slabs beyond the first of a cache, constructors of objects, and allocation from an exhausted slab.
- The offsets `alloc_pid` and `alloc_tid` add, which turn -1 into an ordinary id.
- Grouping, locales and wide characters of `strtol`.
- The sign branch of `ctrl_to_str`, which no caller reaches with the sign set, and the format parser around it.
- The fields of a broken-down time are unbounded; the 32-bit sum of `mktime` is modelled as wrapping, which C leaves undefined.
- `putenv`, `clearenv` and the tree of known values in `env.c`; `realloc` is taken to move the block whenever it succeeds.
- `vm_map.c`, the page hash of `vm_page.c`, `fd.c`, `timer.c`, `sync.c`, `irq.c`, `signal.c` and the process hash: their lists or hints do not keep a clean abstract state.
- The servers, drivers, ELF loading, system-call wrappers and command programs.
