# A verified model of the IridiumOS kernel

IridiumOS is a small x86-64 kernel. This project models the parts of it that carry state from one
call to the next, or that walk structured bytes, and proves what they promise.

**Processes, scheduling and signals.** The process table of `proc.c` is a circular linked list with
raw pointers, entered by system calls and by two interrupts. `ProcSpec` states each operation as a
step on values. `ProcTable` is the pointer code itself: each method of its class is proved to make
exactly one step of `ProcSpec`. The other modules prove what holds over whole runs of steps: the
shape and PID order of the ring (`Ring`), round-robin scheduling (`RoundRobin`), exactly-once
delivery of signals (`Signals`), permissions and driver ownership (`Permissions`). `Pipeline` is the
path of a keystroke through four programs (interrupt handler, init's signal handler, shell's signal
handler, keyboard service) under every interleaving; `Keyboard` is the code of those programs, each
piece proved to be one event of `Pipeline`. `PipelineRace` is a run that fails its guard, and
`Latency` bounds the clock ticks until a keystroke is fetched.

**The screen.** `ScreenSpec` decodes bursts of requests into drawing commands; `ScreenDriver` is the
code of the service and of the framebuffer below it.

**Memory.** `PmmSpec` and `PmmManager` are the frame bitmap with its hint. `VmmSpec` refines
four-level page tables, shared between address spaces, to finite maps from pages to frames;
`VmmFrames` puts the frame allocator below them, and `PageTables` is `vmm.c` writing words of
physical memory. `KHeapSpec` and `KHeap` are the kernel heap.

**Parsers and printers.** `Ustar` writes archives that `Initrd` reads, `ElfSpec` and `Elf` load
programs, `MadtSpec` and `Madt` walk the ACPI interrupt table, `NumberPrinting` prints numbers and
`CStrings` compares strings.

Each operation is atomic, because system calls and interrupt handlers have interrupts off. Machine
integers are written out where they wrap: 16-bit PIDs, the 8-bit queue index, 32-bit products and
lengths, 64-bit sizes.

## What the proofs found

Where a promise does not hold of the code, the code is modelled as it is, and the exact condition
or a concrete counterexample is a lemma.

- The exit of the queue head takes two off `next_pid`. PID order survives exactly the exits that
  `Ring.Guard` admits (`Ring.NextOrder`, `Ring.RunOrder`). PIDs stay distinct, and the last assertion
  of `kill` holds, exactly while no process is created under a PID in use (`Ring.RunUnique`).
- The keystroke pipeline needs no PID order. It works exactly while no process exits whose PID another
  live one has, and no key arrives while a process with a negative PID executes
  (`Pipeline.EventExact`, `Pipeline.RunExact`). After any other event the kernel has halted, or the
  slot holds a keystroke that nobody will ever fetch (`Pipeline.NothingAfterUnguarded`,
  `Pipeline.GuardedIffAlive`). When the shell's handler exits before init's, two keystrokes are enough
  to halt the kernel (`PipelineRace.UnguardedRunHalts`).
- Every accepted signal is delivered to its receiver exactly once and in order if and only if no
  handler reads while its parent has nothing pending (`Signals.NextOnce`, `Signals.RunOnce`). Such a
  read leaves the array: the parent's index goes to 255 and it rejects every later signal
  (`Signals.SecondReadUnderflows`). Five steps from boot get there (`Signals.UnderflowIsReached`).
  A word yields its sender exactly when the sender's PID is not negative
  (`Signals.SignalsArriveIntact`).
- `KEYSTROKE_EXTRACT_PRESSED` tests bit 0 instead of bit 24, so that it says pressed exactly for odd
  scancodes (`Pipeline.KeyWordRoundTrip`).
- `perm_grant` answers EXIT_FAILURE without a sign for an unknown PID, where `perm_revoke` answers
  -EXIT_FAILURE (`Permissions.PermsRefused`).
- A driver stays claimed after its owner has exited (`Permissions.RunExclusive`).
- `pmm_free` ignores frames at or above 4 GiB, so that the accounts hold exactly while none is given
  back (`PmmSpec.RunAccounted`). Frames given back out of order can become invisible to the hint
  (`PmmSpec.RunKeepsHint`, `PmmSpec.FirstInFirstOutLosesAFrame`). `pmm.h` promises 0 when frames
  run out; the code also keeps its lock, so the next call never returns.
- `vmm_map_page` waits for its own lock exactly when an upper table is missing
  (`PageTables.AddressSpaces.MapPage`). `mkpml4` fills the root that it returns only if the page with
  the new frame's address was already mapped; else the copy goes to another frame
  (`PageTables.AddressSpaces.MakeSpace`).
- The loop of `kfree` never runs, and `bytes_allocated` never grows although its comment says so
  (`KHeap.Heap.Kfree`, `KHeap.Heap.Kmalloc`).
- `initrd_open` looks at the zero block behind the last file; the empty path matches it, and the
  enormous size read there makes the allocation fail (`Initrd.Open`).
- The page loop of the ELF loader doubles its end address. All pages of a segment are mapped
  exactly when the loop reaches its last page (`ElfSpec.CoverageExact`): for 31-bit lengths, and
  away from the top of the address space, exactly when the doubled end stays below 2^64, and no
  page at all otherwise (`ElfSpec.DoublingExact`).
- `dec2str` prints the least int as a lone sign (`NumberPrinting.Dec2Str`).

## Model

| member | source | states |
|---|---|---|
| ProcTable.Table.constructor | kernel/src/proc/proc.c:139-194 | the ring after proc_init: one ready process with PID 1, all permissions, linked to itself; next_pid is 2 |
| ProcTable.Table.LocateProc | kernel/src/proc/proc.c:35-48 | the pointer search ends and finds the first process of the ring with the PID, or NULL exactly when there is none |
| ProcTable.Table.LocateBaseLast | kernel/src/proc/proc.c:215-230 | the search of perm_grant and perm_revoke, which looks at queue_base last |
| ProcTable.Table.Spawn | kernel/src/proc/proc.c:57-114 | refused exactly when a mask is asked for without PPERM_PERM; else one process more at the end of the ring, all links in place, and the assertion on line 79 holds |
| ProcTable.Table.InitrdSpawn | kernel/src/proc/proc.c:258-266 | the PID of the new process, or -EPERM; a negative answer means a refusal unless next_pid has wrapped around |
| ProcTable.Table.ExecCallback | kernel/src/proc/proc.c:117-137 | a hooked process gets a handler with its mask, its address space, a copy of its queue and a pointer back to it |
| ProcTable.Table.PsignalHook | kernel/src/intr/syscall.c:157 | only the callback of the running process changes |
| ProcTable.Table.PsignalSend | kernel/src/proc/proc.c:433-463 | the four answers, the word stored, the lock, the sender's attribution and the handler created |
| ProcTable.Table.PsignalRead | kernel/src/proc/proc.c:466-496 | which queue is unlocked and popped, what is returned, and when the read leaves the array |
| ProcTable.Table.SwitchTask | kernel/src/asm/proc/tasking.asm:29-80 | context saved, READY, next, RUNNING, context returned; also when current_task has been removed from the ring |
| ProcTable.Table.PermGrant | kernel/src/proc/proc.c:209-231 | the target's mask gains the bits; the three results |
| ProcTable.Table.PermRevoke | kernel/src/proc/proc.c:233-255 | the target's mask loses the bits; the three results |
| ProcTable.Table.VerifyDrvmaster | kernel/src/proc/drvmaster.c:49-59 | success exactly for an owner of the driver type |
| ProcTable.Table.DrvClaim | kernel/src/proc/drvmaster.c:15-46 | the order of the five refusals; on success type and owner are recorded |
| ProcTable.Table.Unlink | kernel/src/proc/proc.c:321-323 | the structure is out of the ring, its own stale links stay |
| ProcTable.Table.MoveHead | kernel/src/proc/proc.c:299-337 | queue_head and next_pid after an exit, with the double decrement |
| ProcTable.Table.Exit | kernel/src/proc/proc.c:269-357 | the step of an exit: refused, halted, or removed with current_task left on the removed structure |
| Ring.NextKeepsShape | kernel/src/proc/proc.c:57-357 | in every step short of a halt, `next` from queue_base visits each live process once and queue_base stays |
| Ring.ExitRemovesCurrent | kernel/src/proc/proc.c:287-346 | an exit that passes the last assertion removes the running process and no other, never queue_base |
| Ring.SpawnMakes | kernel/src/proc/proc.c:57-114 | -EPERM and no change exactly when a mask is asked for without PPERM_PERM; else one process more, last in the ring, with next_pid, that mask and that context, and nothing pending, hooked, owned or inherited |
| Ring.SendMakes | kernel/src/proc/proc.c:117-137 | a handler has its own registers, and mask, address space and queue of the process signalled; nobody else changes |
| Ring.ExitDoes | kernel/src/proc/proc.c:269-357 | in any state: exactly when an exit is refused, when it halts, and else who is removed, who is next, and when next_pid falls by one or two |
| Ring.ExitOrder | kernel/src/proc/proc.c:299-337 | exit of a process other than the head keeps PID order; exit of the head keeps it exactly when its predecessor's PID is below next_pid - 2 |
| Ring.NextOrder | kernel/src/proc/proc.c:57-357 | a step keeps PID order if and only if it passes a guard that can be decided before it |
| Ring.RunOrder | kernel/src/proc/proc.c:57-357 | from an ordered state, every state of a run is ordered and not halted if and only if every step is guarded |
| Ring.LocateCorrect | kernel/src/proc/proc.c:35-48 | while PIDs are distinct locate_proc finds a process exactly under its own PID and NULL exactly for unused PIDs |
| Ring.NextUnique | kernel/src/proc/proc.c:299-346 | a step keeps PIDs distinct if and only if it creates no process under a PID in use, and then the last assertion of kill holds |
| Ring.RunUnique | kernel/src/proc/proc.c:57-357 | the same over every run |
| RoundRobin.WaitShrinks | kernel/src/asm/proc/tasking.asm:29-80 | over a run in which p does not run: distance after is at most distance before - ticks + spawns, p stays alive and its saved context stays |
| RoundRobin.NoStarvation | kernel/src/asm/proc/tasking.asm:59-62 | p runs within distance + spawns ticks, also across exits |
| RoundRobin.ResumesWhereItStopped | kernel/src/asm/proc/tasking.asm:37-80 | a process is switched in with the context saved when it was last switched out, at once if it is alone in the ring |
| RoundRobin.AloneResumes | kernel/src/asm/proc/tasking.asm:37-80 | a process alone in the ring is switched to itself with the context just saved |
| RoundRobin.StartsAsMade | kernel/src/proc/proc.c:82-109 | over every run a new process is first switched in with the context given at its creation, a handler with its target's CR3 |
| RoundRobin.OnlyCurrentRuns | kernel/src/asm/proc/tasking.asm:54-67 | in every state reachable from boot all processes but current_task are READY, and a tick leaves current_task RUNNING |
| Signals.PackRoundTrip | kernel/include/proc/psignal.h:4-6 | the extraction macros invert the packing; the top bits are clear exactly for senders that are not negative |
| Signals.NextPidsPositive | kernel/src/proc/proc.c:68 | in an ordered ring no PID is ever negative, so every packed word can be read |
| Signals.SentIntact | kernel/src/proc/proc.c:448-450 | a word sent is returned whole, with sender and payload |
| Signals.SendAnswers | kernel/src/proc/proc.c:433-463 | -EXIT_FAILURE exactly when no live process has the PID, EXIT_SUCCESS exactly when the signal is accepted; a refused send changes nothing |
| Signals.ReceiverAnswers | kernel/src/proc/proc.c:435-442 | the first process with the PID rejects when its queue is full, is busy when it is locked, and else takes the signal |
| Signals.AttributedTo | kernel/src/proc/proc.c:444-448 | a signal carries the PID of current_task, or of the process whose handler that is |
| Signals.SignalsComeFromUsers | kernel/src/proc/proc.c:444-448 | over every run no accepted signal is attributed to a handler |
| Signals.AcceptedAreSent | kernel/src/proc/proc.c:433-463 | over every run the signals accepted are, in order, exactly those whose senders were told EXIT_SUCCESS |
| Signals.HandlerDepthOne | kernel/src/proc/proc.c:444-448 | no send to a handler is accepted, and a signal is never attributed to a handler |
| Signals.HandlersAreBusy | kernel/src/proc/proc.c:117-137 | while delivery is exactly-once, a send that reaches a handler answers -EBUSY |
| Signals.HookTakesEffect | kernel/src/proc/proc.c:117-137 | a hook changes the callback of current_task only, and decides whether the next accepted signal starts a handler, and at which address |
| Signals.NextOnce | kernel/src/proc/proc.c:433-496 | a step keeps delivery exactly-once if and only if it is not a read by a handler whose parent has nothing pending |
| Signals.RunOnce | kernel/src/proc/proc.c:433-496 | over every run delivery is exactly-once all along if and only if it has no such read |
| Signals.SignalsExactlyOnce | kernel/src/proc/proc.c:433-496 | from boot, in every such run: the words read for a process are those of the signals to it whose senders were told EXIT_SUCCESS, once each and in order, with at most one pending; its index is 0 or 1 and equals its lock |
| Signals.SignalsArriveIntact | kernel/src/proc/proc.c:448-450 | in every such run the i-th word read for a process is that of the i-th such signal; it yields sender and 32-bit payload exactly when the sender's PID is not negative, and else reads as 0 |
| Signals.GuardedSenders | kernel/src/proc/proc.c:448-450 | while the ring stays in PID order no sender's PID is negative |
| Signals.SecondReadUnderflows | kernel/src/proc/proc.c:487-493 | a read leaves the array if and only if a handler reads while its parent's index is 0; the index is then 255 and the parent rejects every signal |
| Signals.UnderflowIsReached | kernel/src/proc/proc.c:487-493 | a concrete run from boot to such a read |
| Permissions.PermissionsSettle | kernel/src/proc/proc.c:60-62 | once nobody holds PPERM_PERM, nobody ever does: masks never change, ordinary processes get none, handlers their target's |
| Permissions.PermsMove | kernel/src/proc/proc.c:209-255 | a permitted grant adds exactly the permissions named, and a permitted revocation takes exactly those away, from the first process with the PID behind queue_base |
| Permissions.PermsRefused | kernel/src/proc/proc.c:209-255 | without PPERM_PERM -EPERM; for an unknown PID -EXIT_FAILURE, but EXIT_FAILURE from perm_grant; nothing changes |
| Permissions.PermissionsTraced | kernel/src/proc/proc.c:209-255 | over every run a process gains a permission only by a grant, and loses one only by a revocation, of a process that holds PPERM_PERM |
| Permissions.ClaimAnswers | kernel/src/proc/drvmaster.c:15-46 | success exactly for a known, unclaimed driver, with room and PPERM_DRVCLAIM; which refusal gets which error; a refusal changes nothing |
| Permissions.OwnersHadPermission | kernel/src/proc/drvmaster.c:38-46 | over every run whoever owns a driver claimed it while it was vacant, with PPERM_DRVCLAIM |
| Permissions.ClaimExclusive | kernel/src/proc/drvmaster.c:15-46 | a claim keeps ownership exclusive, and succeeds for a permitted process on a free driver |
| Permissions.RunExclusive | kernel/src/proc/drvmaster.c:12-46 | over every run each driver has at most one owner, for good |
| Pipeline.KeyWordRoundTrip | libiridium/include/sys/key.h:5-7 | a keystroke word is never 0 and gives back scancode and character; its pressed bit is set, but the macro for that bit yields 1 exactly for odd scancodes |
| Pipeline.UpperRows | kernel/src/drivers/ps2/ps2keyboard.c:18-20 | the characters of the two upper rows of keys |
| Pipeline.LowerRows | kernel/src/drivers/ps2/ps2keyboard.c:18-20 | those of the two lower rows, space and enter |
| Pipeline.KeyTaken | kernel/src/drivers/ps2/ps2keyboard.c:27-41 | a key press is accepted exactly when no keystroke is in flight, with its own scancode and character; a release never is |
| Pipeline.ForwardsKeystrokesOnly | programs/sys/init/src/main.c:17-20 | a signal is forwarded exactly when its payload is the keystroke code |
| Pipeline.OthersMayDoAnything | kernel/src/intr/syscall.c:60-199 | the pipeline theorems leave every system call but sending and reading to all other processes |
| Pipeline.EventOk | programs/sys/init/src/main.c:13-25 | every guarded event, whatever the interleaving, moves the keystroke to its next phase or leaves it |
| Pipeline.EventExact | kernel/src/proc/proc.c:345-346 | an event keeps the pipeline in order if and only if no exit hits a PID shared with a live process and no key arrives under a negative PID |
| Pipeline.RunExact | kernel/src/proc/proc.c:345-346 | every state of a run is in order if and only if all its events pass that guard |
| Pipeline.NothingAfterUnguarded | kernel/src/drivers/ps2/ps2keyboard.c:35-41 | after any other event nothing is ever fetched again |
| Pipeline.GuardedIffAlive | kernel/src/drivers/ps2/ps2keyboard.c:35-41 | a run passes the guard all along if and only if it ends neither halted nor with a keystroke that nobody will fetch |
| Pipeline.OnePhase | kernel/src/drivers/ps2/ps2keyboard.c:35-41 | a state is in one phase only: the keystroke is in exactly one place |
| Pipeline.SendsAreNeverBusy | kernel/src/drivers/ps2/ps2keyboard.c:37-40 | neither send of the pipeline is ever refused |
| Pipeline.KeystrokesInOrder | programs/sys/shell/src/main.c:17-20 | after every guarded run the shell has fetched exactly the accepted keystrokes, once each and in order, but for the one in the slot |
| Pipeline.SomebodyMoves | programs/sys/init/src/main.c:14-24 | no deadlock: with a keystroke in flight some live handler can execute the next instruction |
| Pipeline.WorkShrinks | programs/sys/init/src/main.c:13-25 | each turn of that handler brings the fetch one instruction closer, and nobody else pushes it back |
| Latency.TicksInFlight | kernel/src/asm/proc/tasking.asm:59-62 | while a keystroke stays in flight, at most one lap of the ring passes per instruction that is left, when handlers execute in their turns |
| Latency.FetchedInTime | programs/sys/shell/src/main.c:17-20 | in a guarded run in which handlers take their turns, an accepted keystroke is fetched within 6 * (n + 1) ticks, n counting the processes in the ring at the start and those created in the run |
| PipelineRace.BootIsReady | programs/sys/init/src/main.c:28-35 | boot, two hooks and one spawn lead to a state that the pipeline theorem starts from |
| PipelineRace.UnguardedRunHalts | kernel/src/proc/proc.c:299-346 | a concrete run of two keystrokes from there whose last event alone is not guarded, and halts the kernel |
| Keyboard.Machine.Irq1Isr | kernel/src/drivers/ps2/ps2keyboard.c:17-47 | the interrupt handler is the Key event: slot filled only when empty, emptied again when init is busy |
| Keyboard.Machine.ShellKey | kernel/src/drivers/ps2/ps2keyboard.c:50-54 | the fetch returns the slot and empties it |
| Keyboard.Machine.InitLock | programs/sys/init/src/main.c:14 | one attempt to take the mutex |
| Keyboard.Machine.InitFetch | programs/sys/init/src/main.c:15-17 | the signal is read, and forwarded next exactly when its payload is the keystroke code |
| Keyboard.Machine.InitForward | programs/sys/init/src/main.c:19 | the payload goes to the shell |
| Keyboard.Machine.InitRelease | programs/sys/init/src/main.c:23 | the mutex is free |
| Keyboard.Machine.ShellFetch | programs/sys/shell/src/main.c:18 | the shell's handler reads its signal, and takes the keystroke next |
| Keyboard.Machine.HandlerExit | programs/sys/shell/src/main.c:53 | the exit of either handler is the exit of the process machine |
| ScreenSpec.FeedDecodes | kernel/src/uapi/video/screen.c:24-104 | from rest, the operations performed on any request stream are those of an independent decoder |
| ScreenSpec.EncodedCommandsPerformed | kernel/src/uapi/video/screen.c:24-104 | encoding any list of commands and feeding it performs exactly that list and ends at rest |
| ScreenSpec.AnswersAreExpected | kernel/src/uapi/video/screen.c:24-104 | for every request stream the caller is asked for more exactly while arguments are missing |
| ScreenSpec.OwnerAloneDraws | kernel/src/uapi/video/screen.c:72-76 | whatever all processes do, the operations are those that one process's own requests spell out |
| ScreenDriver.PixelShowsLast | kernel/src/drivers/video/lfb.c:20-35 | after any operations each pixel shows the color of the last one that covers it |
| ScreenDriver.ScreenService.ProcessRequest | kernel/src/uapi/video/screen.c:24-63 | state, status and picture after an argument of a burst |
| ScreenDriver.ScreenService.ScreenUapi | kernel/src/uapi/video/screen.c:72-104 | the call, with the process table asked for the owner, is exactly the Request action; status and picture follow |
| ScreenDriver.ScreenService.PictureIsDecoded | kernel/src/uapi/video/screen.c:72-104 | after any steps and requests of any processes, each pixel shows the last command that covers it among those that one process's own requests spell out, or what it showed at first |
| ScreenDriver.ScreenService.Serve | kernel/src/uapi/video/screen.c:72-104 | any stream of requests from the owner, from rest, draws exactly what it decodes to, pixel by pixel |
| ScreenDriver.IndexInjective | kernel/src/drivers/video/lfb.c:15-17 | two pixels of rows no wider than pitch/4 share a word only if they are the same pixel |
| ScreenDriver.Framebuffer.PutPixel | kernel/src/drivers/video/lfb.c:20-26 | the word at x + y * (pitch / 4) and the pixel in column x of row y get the color, when it is visible; every other word and pixel stays |
| ScreenDriver.Framebuffer.ClearScreen | kernel/src/drivers/video/lfb.c:29-35 | the visible picture has one color; words outside it stay |
| PmmManager.Allocator.constructor | kernel/src/mm/pmm.c:83-84 | the bitmap is whatever memory held, the hint is 2 |
| PmmManager.Allocator.Alloc | kernel/src/mm/pmm.c:33-47 | the lowest free frame from the hint on, marked used; 0 with the lock held when there is none |
| PmmManager.Allocator.Free | kernel/src/mm/pmm.c:50-62 | the loop over 32-bit products frees exactly the whole managed frames below 4 GiB and moves the hint there |
| PmmSpec.AllocAccounted | kernel/src/mm/pmm.c:33-47 | an allocation keeps the accounts, never hands out a frame that is held, and returns 0 exactly when it is stuck |
| PmmSpec.FreeAccounted | kernel/src/mm/pmm.c:50-62 | giving a frame back keeps the accounts if and only if it lies below 4 GiB |
| PmmSpec.RunAccounted | kernel/src/mm/pmm.c:33-62 | over every run, from any bitmap: frames held are distinct, aligned, not free, and with the free ones conserved, if and only if all frames given back lie below 4 GiB |
| PmmSpec.AllocIsLowest | kernel/src/mm/pmm.c:36-46 | with a correct hint the frame is the lowest free one, and 0 means that none is free |
| PmmSpec.FreeKeepsHint | kernel/src/mm/pmm.c:53-57 | a free keeps the hint correct if and only if no free frame lies from the hint up to the frame |
| PmmSpec.RunKeepsHint | kernel/src/mm/pmm.c:36-57 | over every run the hint is correct all along if and only if each free passes that test |
| PmmSpec.LastInFirstOutIsLowest | kernel/src/mm/pmm.c:36-57 | over every last-in-first-out run the hint stays correct |
| PmmSpec.FirstInFirstOutLosesAFrame | kernel/src/mm/pmm.c:53-57 | a concrete run in another order that ends stuck with a free frame |
| VmmSpec.SplitInjective | kernel/src/mm/vmm.c:26-29 | two canonical addresses have the same four indices if and only if they are on the same page |
| VmmSpec.SplitPositions | kernel/src/mm/vmm.c:26-29 | the indices are bits 47-39, 38-30, 29-21 and 20-12 of the address |
| VmmSpec.SplitJoin | kernel/src/mm/vmm.c:26-29 | every combination of indices is that of a canonical page |
| VmmSpec.OpRefines | kernel/src/mm/vmm.c:56-64 | map and unmap are update and removal on the map of every space that shares the table: a mapped page keeps its frame, other pages and spaces stay, and tables stay reached under one path |
| VmmSpec.OtherBitsStay | kernel/src/mm/vmm.c:56-64 | of an entry in use only the three low bits are ever written |
| VmmSpec.RunRefines | kernel/src/mm/vmm.c:22-89 | the same over whole runs on any roots |
| VmmSpec.CopyAgrees | kernel/src/mm/vmm.c:108-112 | a copied root has the same address space, and no other space changes |
| VmmSpec.CopyForever | kernel/src/mm/vmm.c:104-113 | the two spaces stay the same under any later maps and unmaps through any roots |
| VmmFrames.FreshFrame | kernel/src/mm/vmm.c:58-60 | the frame of a new page was free: it is no table and no mapped frame |
| VmmFrames.RunSound | kernel/src/mm/vmm.c:22-89 | over every run, until frames run out: tables, mapped frames and free frames stay apart |
| VmmFrames.PagesApart | kernel/src/mm/vmm.c:58-60 | two pages of a space never show the same frame |
| PageTables.AddressSpaces.MapPage | kernel/src/mm/vmm.c:22-68 | returns exactly when the three upper entries are present, and then makes the step of the specification: the page has the flags, and its old frame or else the one that the allocator hands out |
| PageTables.AddressSpaces.UnmapPage | kernel/src/mm/vmm.c:71-89 | the step of the specification: the page is mapped to nothing |
| PageTables.AddressSpaces.AllocPage | kernel/src/mm/vmm.c:91-102 | when it yields a page, and that the page maps what a map request for the frame's address maps |
| PageTables.AddressSpaces.MakeSpace | kernel/src/mm/vmm.c:104-113 | the root returned has the current address space if the frame's own page was mapped; if not, the root's frame was never written |
| KHeapSpec.BlocksApart | kernel/src/mm/kheap.c:86-99 | header and data of a block end before any later block, and data is 16-byte aligned |
| KHeapSpec.ReturnedAre | kernel/src/mm/kheap.c:68-100 | the closed form of every pointer ever returned, valid for ever after |
| KHeapSpec.ReasonableAreServed | kernel/src/mm/kheap.c:68-100 | over every run each request of at most 4 GiB, and no other, gets a pointer |
| KHeapSpec.RunDisjoint | kernel/src/mm/kheap.c:68-141 | over every run of kmalloc, krealloc and kfree all data ranges ever returned are disjoint and clear of all headers |
| KHeap.Heap.constructor | kernel/src/mm/kheap.c:144-153 | one empty block at the start of the heap |
| KHeap.Heap.FirstFit | kernel/src/mm/kheap.c:36-65 | the list walk ends, finds nothing, and changes nothing |
| KHeap.Heap.Kmalloc | kernel/src/mm/kheap.c:68-100 | NULL exactly above 4 GiB; else a block behind the newest one at its closed-form address |
| KHeap.Heap.Memcpy | kernel/src/common/string.c:56-60 | every byte that the copy had not itself overwritten arrives; nothing else changes |
| KHeap.Heap.Krealloc | kernel/src/mm/kheap.c:103-108 | the common prefix is in the new block, and no older block's bytes change |
| KHeap.Heap.Kfree | kernel/src/mm/kheap.c:122-141 | nothing changes, for any pointer |
| KHeap.Heap.KmallocUser | kernel/src/mm/kheap.c:111-119 | exactly the pages from the block's first to its last are passed to vmm_map_page |
| KHeap.CoversBlock | kernel/src/mm/kheap.c:114-116 | every byte of the block lies on one of those pages |
| CStrings.Strlen | kernel/src/common/string.c:4-8 | the length up to the first zero byte |
| CStrings.Strcmp | kernel/src/common/string.c:135-151 | 0 exactly for strings that agree in length modulo 2^32 and in that many characters |
| CStrings.ShortEqual | kernel/src/common/string.c:135-151 | below 4 GiB those are the equal strings |
| NumberPrinting.DecTextParses | kernel/src/common/string.c:24-53 | an independent parser reads the decimal text back |
| NumberPrinting.HexTextParses | kernel/src/common/string.c:64-106 | an independent parser, which insists on the prefix and two digits, reads the text back |
| NumberPrinting.NoWaste | kernel/src/common/string.c:24-53 | decimal text has no leading zero |
| NumberPrinting.NoHexWaste | kernel/src/common/string.c:64-106 | hexadecimal text has one only to make up two digits |
| NumberPrinting.ReverseInPlace | kernel/src/common/string.c:45-50 | the swapping loop reverses the characters and touches no others |
| NumberPrinting.Dec2Str | kernel/src/common/string.c:24-53 | the text fits into the buffer, ends in a zero, and denotes the number if and only if that is not the least int |
| NumberPrinting.Hex2Str | kernel/src/common/string.c:64-106 | the same for every 32-bit word |
| Ustar.LookupInverts | kernel/src/fs/initrd.c:76-98 | on archives with distinct names each file is found under its name, and nothing under other paths |
| Ustar.LookupMisses | kernel/src/fs/initrd.c:76-98 | a path that is no name yields NULL, but the empty path on an archive with files runs into the failed allocation |
| Initrd.GetSize | kernel/src/fs/initrd.c:31-42 | the sum of the eleven weighted characters in 64 bits |
| Initrd.SizeOfOctal | kernel/src/fs/initrd.c:31-42 | it inverts the octal digits of the writer |
| Initrd.GetBuf | kernel/src/fs/initrd.c:45-56 | the bytes behind the header and a zero byte, unless the allocation fails |
| Initrd.Open | kernel/src/fs/initrd.c:76-98 | on every archive and path the loop ends with what Lookup says: the first file of that name, or NULL |
| ByteFields.LeRoundTrip | kernel/src/common/elf.c:26-28 | little-endian fields of any width are read as they were written |
| ElfSpec.EhdrRoundTrip | kernel/include/common/elf.h:424-440 | every field of a file header that the loader uses is read from where a linker puts it |
| ElfSpec.PhdrRoundTrip | kernel/include/common/elf.h:442-452 | the same for program headers: a segment goes to its physical address |
| ElfSpec.AcceptedBytes | kernel/src/common/elf.c:30-36 | accepted headers are exactly those with these thirteen bytes |
| ElfSpec.TableOfWritten | kernel/src/common/elf.c:38-53 | a program header table written at e_phoff with stride e_phentsize is read as it was meant |
| ElfSpec.SegmentCovered | kernel/src/common/elf.c:55-60 | for a segment that fits, every page that its memory meets is passed to vmm_map_page, whatever the alignment |
| ElfSpec.CoverageExact | kernel/src/common/elf.c:55-60 | for any length and place, all pages of a segment are covered if and only if the loop's address in the last page lies before its end, with 32- and 64-bit wrap-around |
| ElfSpec.DoublingExact | kernel/src/common/elf.c:58 | for 31-bit lengths away from the top of the address space: all pages if and only if the doubled end does not wrap around, none if and only if it does |
| Elf.Loader.MapSegment | kernel/src/common/elf.c:55-60 | the page loop goes through exactly the addresses a page apart from the segment up to the doubled end, with 32- and 64-bit wrap-around |
| Elf.Loader.LoadSegments | kernel/src/common/elf.c:53-69 | the stride loop visits exactly e_phnum headers; all segments are loaded and nothing else is written |
| Elf.Loader.GetEntry | kernel/src/common/elf.c:11-73 | of a file that starts with a written header, its entry exactly if it is a 64-bit x86-64 executable, else none; then file bytes are in place, pages mapped, other memory as before |
| MadtSpec.WrittenTable | kernel/include/firmware/acpi/tables.h:157-161 | a table that firmware writes is well formed, and its local APIC address is read from where it is |
| MadtSpec.EntryRead | kernel/include/firmware/acpi/tables.h:163-190 | each kind of record is recognized, and its fields are read from where firmware puts them |
| MadtSpec.CountIsProcessors | kernel/src/firmware/acpi/acpi.c:52-54 | what is counted in a written table are its processors |
| MadtSpec.BaseIsLast | kernel/src/firmware/acpi/acpi.c:55-60 | the base kept is the address of the last I/O APIC |
| MadtSpec.BaseIsNone | kernel/src/firmware/acpi/acpi.c:55-60 | without an I/O APIC the base stays |
| MadtSpec.GsiIsOverride | kernel/src/firmware/acpi/acpi.c:68-86 | an interrupt is what its first override says, cut to 16 bits, or itself |
| MadtSpec.GsiUnique | kernel/src/firmware/acpi/acpi.c:68-86 | the answer to an interrupt is determined |
| Madt.Acpi.ParseMadt | kernel/src/firmware/acpi/acpi.c:43-65 | the local APIC's address is read, the core count grows by the records of type 0, modulo 256, and the last I/O APIC base is kept |
| Madt.Acpi.IrqToGsi | kernel/src/firmware/acpi/acpi.c:68-86 | the first override cut to 16 bits, else the interrupt itself |

## Left out

- Hardware: port I/O, PCI, APICs, timer, descriptor tables, ring transitions, TLB flushes. A context is one opaque value and CR3.
- Fonts, console output, panics, logging, shell commands and `gfxd`. The shell's command buffer is not modelled: two of its handlers can interleave on it.
- `semaphore.c` and `spinlock.c`. Mutexes are booleans around atomic steps.
- The loader of initial process images: `ProcTable.Table.Spawn` receives address space and stack as a parameter.
- Frame ownership across exit: a handler shares its target's CR3, and `kill` frees it.
- ProcTable.Table.Exit: `kill` with a PID other than the caller's own; the kernel calls it only from `exit`. After a refused exit the caller resumes with its saved context, which is not modelled.
- ProcTable.Table.PsignalRead: a read by a process that has already been removed from the ring is not modelled; such a process spins with interrupts on and makes no system call.
- ProcTable.Table.Unlink: kfree of the removed structure is a no-op (see Kfree) and is left out, so a structure's address is never used again.
- Signals.SignalsExactlyOnce: stated for runs in which every handler's read passes Signals.MayRead; Signals.RunOnce shows that in no others delivery is exactly-once all along.
- Pipeline.KeystrokesInOrder: stated for runs whose events pass Pipeline.EventGuard; after any other event nothing is fetched any more. Processes other than init and shell may do anything but send and read signals.
- Latency.FetchedInTime: a handler that can bring the fetch closer executes at least one instruction per turn; how long a time slice is, is not modelled.
- Keyboard.Machine.Irq1Isr: the byte behind the scancode table, read for scancodes above 58, is a parameter.
- PmmManager.Allocator.Alloc: the byte behind the bitmap, which is read when the hint has reached the end, is assumed not to say free. A second call after a failure is not modelled, because it never returns.
- PmmManager.Allocator.Free: bitmaps of 2^32 frames or more, on which the loop does not end, are excluded.
- PageTables.AddressSpaces.MapPage: flags are the three of PAGE_BITS. What the missing-table branch leaves behind is not stated, because the call never returns.
- PageTables.AddressSpaces.UnmapPage: the code follows whatever address a missing upper entry holds; the model needs the three entries present.
- PageTables.AddressSpaces.MakeSpace: a page below the frame's address that is mapped elsewhere than to itself is excluded; the boot loader maps low memory to itself.
- KHeap.Heap.Kmalloc: the heap is kept below the end of the address space. Which pages kmalloc maps is not modelled: its loop starts from a null region.
- KHeap.Heap.Krealloc: the new size is at most 4 GiB. Above that the copy goes through the null pointer.
- KHeap.Heap.KmallocUser: the end of the block does not wrap around the address space.
- ProcSpec.ReadStep: a read outside a signal queue is reported and not given a value.
- Initrd.GetBuf: a size of 2^64 - 1, for which the length asked of the heap wraps around to 0, is excluded; no archive of the writer has it.
- Initrd.Open: the image is an archive of the writer in Ustar. When the allocation fails the copy through the null pointer is reported as NullBuffer and not carried out.
- Elf.Loader.GetEntry: the image is one that the loader's arithmetic can express (32-bit lengths, no wrap of the doubled end address) and whose segments have doubled ends below 2^64 and are apart from each other, the file and the headers. Memory is flat: address translation is not part of this module, nor are the page flags and the stored size of the program headers.
- Elf.Loader.MapSegment: an end in the last page of the address space is excluded; the counter wraps around there and the loop does not end.
- Elf.Loader.LoadSegments: segments are apart from each other, from the file and from the headers; else a later copy overwrites what an earlier one placed.
- Madt.Acpi.IrqToGsi: the same tables as for ParseMadt.
- Madt.Acpi.ParseMadt: records tile the table and have the length that their type needs. A record of length 0 makes the code loop for ever.
- `verify_checksum`, `fetch_madt`, `initrd_init` and `pmm_init`'s choice of a memory chunk: single loops over tables that would only add easy members.
- ScreenDriver.Framebuffer: modes with no pixels are excluded; width - 1 wraps around there.
