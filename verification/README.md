# Proofs about the kernel's state machines

This project models the parts of the kernel whose correctness is an invariant over every run: page
tables and the frames under them, the scheduler and its wait queues, descriptors and pipes, the
in-memory filesystem and its paths, signal frames, the terminal grid, and the image a program starts
on. `dafny verify dfyconfig.toml` checks all of it.

**Memory.** `PageTables.dfy` has the four-level tables as they lie in frames, and a ghost tree that
says which frame is which table or page of which space. `PageMap` is what the tables mean: a finite
map from page to frame and flags, found by walking. `PageTableSteps.dfy` and `PageMaps.dfy` show what
each write to an entry does to that map, `Teardown.dfy` and `Cloning.dfy` do the same for tearing a
space down and copying it, and `Isolation.dfy` draws the conclusions: private frames have one owner, a
fork reads alike and shares only foreign frames, and checking the leaf entry is enough.
`Rollback.dfy` counts the frames a range needs and so says when and where filling it fails;
`CloneCost.dfy` does so for a copy. `UserView.dfy` says what each operation means to the programs in
the space: which bytes they read and what the processor lets them do.
`Protection.dfy` has new flags for a mapped page and which of them keep the account of frames.
`AddressSpaces.dfy` is the code itself, on a class, with `Run` for every sequence of calls;
`ForeignFrames.dfy` follows a page whose flags have lost the foreign bit. `Physical.dfy` is the bitmap
allocator and its search hint; `HeapModel.dfy` and `KernelHeap.dfy` are the slab heap, its free lists
threaded through memory, and `HeapPages.dfy` puts it on that allocator. `UserCopy.dfy` copies into and
out of a space.

**Scheduling.** `Scheduler.dfy` is one state machine for the run queue, sleepers, zombies and wait
queues. A step is one section with interrupts masked; waking a queue is many such steps of the thread
that wakes, which can be preempted between them, or one step when an interrupt handler does it.
`SchedulerInvariant.dfy` proves what each section keeps, and `SchedulerRuns.dfy` what all runs have:
bounded waiting in ticks and in switches, and that a poller which has queued up has missed nothing.
`SchedulerLaws.dfy` has what threads are promised: a sleep ends at its deadline, a turn lasts its quantum,
and whoever is woken gets in line.
`WakeRaces.dfy` has the two races in waking and when exactly they happen. `IntrusiveList.dfy` is the
linked list itself, on heap nodes. `Sessions.dfy` has process groups and sessions. `SignalFrames.dfy`
and `Signals.dfy` push and restore signal contexts; `Restarts.dfy` follows the interrupted call.

**Files.** `Tree.dfy` and `Tmpfs.dfy` keep the directory tree a forest under create, unlink and rename.
`Paths.dfy` and `Namespace.dfy` resolve paths across mounts and turn inodes back into paths;
`PathLaws.dfy` says what a path means, component by component.
`PagedFile.dfy` has file contents in pages. `OpenFiles.dfy` and `Descriptors.dfy` count slots,
descriptions and inodes. `Rendezvous.dfy`, `Rings.dfy` and `Pipe.dfy` are pipes and the opening of a
named one; `PipeEnds.dfy` ties a pipe's ends and its sleeping openers to the descriptor tables of the
processes.

**Terminals and program start.** `TerminalSpec.dfy` is a terminal with unbounded history;
`Terminal.dfy` is the scrollback ring that refines it, and `TerminalLaws.dfy` says what is on the screen
for what was sent. `LineDiscipline.dfy` is canonical input against a pure editing function, and
`EditLaws.dfy` says what that function makes of whole lines. `UserStack.dfy` builds the start-up stack and decodes it again, as section
3.4.1 of the System V AMD64 psABI describes it; `ProgramStart.dfy` puts it into a space, byte by byte,
and reads it through the page tables as the program would.

Findings where the code does not do what one would expect, each with its exact condition:

- A `map_anonymous` that runs out of memory unmaps pages it had not mapped. Whatever is free, the calls
  that fail leave the map as it was if and only if no mapped page of the range comes before a hole of
  it (`Rollback.AnonymousExact`; `MapAnonymous` states each outcome from the state before the call, and
  `LosesPageFromBoot` loses a page).
- `protect` writes the flags it is given, and a private read-only file mapping over a shared one gives it
  flags without the foreign bit. A sound account of who owns which frame is left if and only if the
  foreign bit stays as it was and user access is given only under tables that give it
  (`Protection.ReflagExactly`, `ProtectPage`). Where the page was the only one on the file's frame,
  tearing the space down afterwards frees that frame, which the file still uses, if and only if the bit
  was dropped (`ForeignFrames.ProtectThenDestroy`; `FreesForeign` does it from boot).
- `setsid` tests only that the caller does not lead its group. Groups stay within sessions if and only
  if nobody else is in the group the new session is named after (`RunExactly`; `GroupSplit` is a run
  that breaks it).
- A thread that exits while a waker has it in hand is marked ready as a zombie. A step leaves every ready
  thread in line if and only if it does not let go of a thread that has exited
  (`WakeRaces.ReadyExactly`; `ZombieMarkedReady` is a run of fifteen steps).
- The comment at kernel/sched/waitqueue.cpp:21-25 says a wake-up between queueing and blocking is not
  lost. `unblock` ignores threads that are running or ready, so it is: in every run the thread is left
  blocked on no queue and in nobody's hand if and only if it was taken off its queue in between and
  nobody has it in hand when it blocks (`WakeRaces.LostExactly`), and then only a signal to it gets it
  going (`StrandedForGood`). `LostWakeup` and `LostPollWakeup` are the shortest runs.
- Erasing the display marks no row for repainting. After any stream everything that differs from the
  last paint is marked if and only if no cell the stream cleared that way, on a row left unmarked, had
  anything on it (`Terminal.MarkedExactly`, `Grid.Feed`; `Clear` is the case of clearing the screen and
  `ClearUnmarked` a screen where it goes wrong).
- Mounting one filesystem twice can make `absolute_path_of` give a path that leads nowhere: `/a/x` for
  what is at `/b` (`TwiceMountedIsLost`). Every inode's path leads back to it if and only if, for every
  filesystem's root in sight, the path of the place it was first mounted on leads to that root
  (`Namespace.RoundTripExactly`).
- Poll says a pipe can be written when `write` would sleep, if and only if the ring is full and its only
  readers are still opening (`PollAgrees`; `PollPromises` gets there).
- A system call to be restarted is remembered by its number alone, and survives into a handler that does
  not restart calls. A fault in that handler can then rewind the faulting frame instead
  (`Restarts.StaleRestart`). A restarting delivery puts the remembered call back if and only if it finds
  the registers as that call left them (`Signals.HandlerUnwinds`), which it does straight after the
  call (`InterruptedCall`) and never inside a handler for it (`HandlerNeverRestarts`).

## Model

| member | source | states |
|---|---|---|
| Physical.PageAllocator.constructor | kernel/mm/physical.cpp:140-143 | every page starts used, the count of used pages is the number of set bits, and no free page is below the hint |
| Physical.PageAllocator.TestBit | kernel/mm/physical.cpp:28-31 | reading a bit of a 64-bit word is reading the bit of that page |
| Physical.PageAllocator.Flip | kernel/mm/physical.cpp:33-41 | changes one page's bit, no other page, and keeps the count of used pages equal to the number of set bits |
| Physical.PageAllocator.MarkUsed | kernel/mm/physical.cpp:43-51 | takes exactly the pages of the range that exist out of the free set, whatever they were before |
| Physical.PageAllocator.MarkFree | kernel/mm/physical.cpp:53-61 | frees exactly the pages of the range that exist; no free page is below the hint afterwards if and only if none of those is |
| Physical.PageAllocator.AllocatePage | kernel/mm/physical.cpp:172-199 | the hinted word-at-a-time search returns the lowest free page of all and fails only when none is free |
| Physical.PageAllocator.Search | kernel/mm/physical.cpp:177-195 | one pass from the hint's word finds the lowest free page, given that nothing below the hint is free |
| Physical.PageAllocator.AllocateContiguous | kernel/mm/physical.cpp:208-233 | the lowest start of a run of that many free pages, failing only when there is no such run; exactly that run leaves the free set |
| Physical.PageAllocator.FindRun | kernel/mm/physical.cpp:217-230 | the scan that restarts at every set bit finds the lowest run |
| Physical.PageAllocator.FreeContiguous | kernel/mm/physical.cpp:240-255 | the double-free panic happens exactly when some page of the range is free; otherwise exactly the range becomes free and the hint stays below every free page |
| Physical.PageAllocator.ClearRange | kernel/mm/physical.cpp:247-253 | clearing bit by bit panics at the first clear bit and otherwise frees the whole range |
| Physical.SplitPages | kernel/mm/physical.cpp:26-61 | used and free pages add up to all pages |
| Physical.NoRunThrough | kernel/mm/physical.cpp:219-230 | no run of free pages goes through a used page, so restarting there misses none |
| PageTables.IndexIsShift | kernel/mm/address_space.cpp:42-46 | the table index by division is the shift and mask of the address |
| PageTables.PageMapUnique | kernel/mm/address_space.cpp:144-184 | what the walk finds determines one finite map |
| PageTables.WalkIsLeaf | kernel/mm/address_space.cpp:144-158 | walking the tables in memory from the root gives the entry the ownership tree says is there |
| PageTables.PageMapPoint | kernel/mm/address_space.cpp:160-184 | the map has a page exactly when its leaf entry is present, with that entry's frame and flags |
| PageTables.AncestorsPlaced | kernel/mm/address_space.cpp:144-158 | a page table that is placed has its three ancestors placed above it |
| PageTableSteps.LinkTableKeeps | kernel/mm/address_space.cpp:60-80 | linking a fresh zeroed table under an absent entry keeps every table and page in its one place and changes no leaf |
| PageTableSteps.GrantUserKeeps | kernel/mm/address_space.cpp:60-80 | adding the user bit to an entry above keeps the shape and changes no leaf |
| PageTableSteps.WriteLeafKeeps | kernel/mm/address_space.cpp:82-100 | writing a leaf entry keeps the shape |
| PageTableSteps.WriteLeafMap | kernel/mm/address_space.cpp:82-100 | writing a leaf entry changes that page of that space's map and nothing of any other space |
| PageMaps.FreshLeafKeeps | kernel/mm/address_space.cpp:82-100 | filling an absent leaf keeps ownership and the resident count and adds exactly one page |
| PageMaps.ClearLeafKeeps | kernel/mm/address_space.cpp:240-254 | clearing a present leaf keeps the resident count, which was positive, and removes exactly one page |
| PageMaps.ReflagLeafKeeps | kernel/mm/address_space.cpp:311-331 | new flags that keep the foreign bit and ask for no more user access than the tables above give keep the shape, the frame and every other page |
| Protection.ReflagMap | kernel/mm/address_space.cpp:311-331 | any new flags on a present leaf change that page of that space's map and nothing of any other space |
| Protection.ForeignIsOutside | kernel/mm/address_space.cpp:264-309 | the foreign bit of a mapped page says whether the frame is somebody else's |
| Protection.ReflagExactly | kernel/mm/address_space.cpp:311-331 | after any new flags there is a sound account of all frames, under any tree, if and only if the foreign bit is as before and user access is asked for only where every table above gives it |
| Protection.TablesUserIff | kernel/mm/address_space.cpp:60-80 | every table on the way to a page lets user mode through if and only if the last one does |
| Protection.UserIsOpen | kernel/mm/address_space.cpp:60-100 | a page open to user mode has open tables above it |
| Protection.DisownKeeps | kernel/mm/address_space.cpp:264-309 | a frame of somebody else's that no space maps can be dropped from the account |
| Protection.TakenForOwn | kernel/mm/address_space.cpp:311-331 | without the foreign bit, the only page on somebody else's frame is indistinguishable from a page of the space's own: the same tables have a sound account in which the space owns the frame |
| PageMaps.MemoryKeeps | kernel/mm/address_space.cpp:114-142 | a change to page contents and free frames alone changes no map |
| AddressSpaces.AddressSpaces.TakeFrame | kernel/mm/physical.cpp:172-199 | the lowest free frame, or ENOMEM exactly when none is free |
| AddressSpaces.AddressSpaces.EnsureTable | kernel/mm/address_space.cpp:60-80 | the table under an entry, made if absent; no translation changes, and failure means the entry was absent and nothing was written |
| AddressSpaces.AddressSpaces.EnsureLeafTable | kernel/mm/address_space.cpp:82-92 | the page table of a page after three such steps, or ENOMEM only for an unmapped page |
| AddressSpaces.AddressSpaces.Map | kernel/mm/address_space.cpp:82-100 | success adds exactly one page with that frame and flags; EEXIST if and only if it is mapped; ENOMEM only when the missing tables are more than are free; a failed call changes no translation of any space |
| AddressSpaces.AddressSpaces.MapAnonymous | kernel/mm/address_space.cpp:114-142 | fails exactly when the frames the holes and their tables need are more than are free, and then every page of the range before the first that could not be had is gone; success fills every hole with a fresh zeroed frame and leaves mapped pages alone; other spaces and other memory are kept |
| AddressSpaces.AddressSpaces.FillPage | kernel/mm/address_space.cpp:118-139 | one page of the above: kept if mapped, else a fresh zeroed frame, else ENOMEM exactly when its frame and tables are more than are free, with no page changed |
| AddressSpaces.AddressSpaces.FillHole | kernel/mm/address_space.cpp:122-137 | the same for a page that is not mapped; a frame taken for nothing is given back |
| AddressSpaces.AddressSpaces.PlaceFrame | kernel/mm/address_space.cpp:130-137 | the frame just taken is mapped, or given back with the map as it was |
| AddressSpaces.AddressSpaces.MapTaken | kernel/mm/address_space.cpp:130-137 | a frame already taken is mapped exactly when the tables for it can be had |
| AddressSpaces.AddressSpaces.GiveBack | kernel/mm/address_space.cpp:132-135 | a frame that could not be mapped goes back, and every map is as before |
| AddressSpaces.AddressSpaces.RollBack | kernel/mm/address_space.cpp:122-135 | the way out unmaps exactly the pages before the failure, mapped by this call or not |
| AddressSpaces.LosesPage | kernel/mm/address_space.cpp:114-142 | with page 0 mapped, page 1 a hole and nothing free, mapping both fails and page 0 is gone |
| AddressSpaces.LosesPageFromBoot | kernel/mm/address_space.cpp:114-142 | a run from boot that gets there |
| Rollback.PaidTrans | kernel/mm/address_space.cpp:60-80 | frames spent in two stages are those the two need together |
| Rollback.LinkPaid | kernel/mm/address_space.cpp:60-80 | a fresh table costs one frame and fills one place |
| Rollback.DownStep | kernel/mm/address_space.cpp:82-92 | each step down takes a frame exactly for a table that was missing |
| Rollback.DownEnds | kernel/mm/address_space.cpp:82-92 | and stops only when the missing tables of the page are more than are free |
| Rollback.FillBilled | kernel/mm/address_space.cpp:118-139 | a hole is paid for with its frame and its tables, or they were more than are free |
| Rollback.NextBilled | kernel/mm/address_space.cpp:114-142 | the pages so far cost the places they want that were not there, each once |
| Rollback.StopExists | kernel/mm/address_space.cpp:114-142 | if the range costs more than is free there is a page at which the frames run out |
| Rollback.StopUnique | kernel/mm/address_space.cpp:114-142 | and only one |
| Rollback.RollbackExact | kernel/mm/address_space.cpp:114-142 | whatever is free, failing restores the map if and only if no mapped page of the range comes before a hole |
| Rollback.AnonymousExact | kernel/mm/address_space.cpp:114-142 | the same for every sound state and range, with the costs they have |
| AddressSpaces.AddressSpaces.WalkToLeafTable | kernel/mm/address_space.cpp:144-158 | the loop over levels reaches the page's table, and stops early only for an unmapped page |
| AddressSpaces.AddressSpaces.Translate | kernel/mm/address_space.cpp:160-184 | the map's frame plus the offset, EFAULT exactly when the page is not in the map |
| AddressSpaces.AddressSpaces.ValidateUserRange | kernel/mm/address_space.cpp:211-238 | true if and only if the range, with 64-bit wrap-around, ends in the user half and at every byte of it the permission bits ANDed down the whole walk, as the processor does, give user access, and write access if asked; reading leaf entries is enough for that |
| AddressSpaces.RangeIsGranted | kernel/mm/address_space.cpp:186-238 | the leaf entries of a range tell what the processor will do at each byte of it |
| AddressSpaces.PagesCoverBytes | kernel/mm/address_space.cpp:221-235 | checking page by page from the rounded start to the rounded end is checking every byte |
| AddressSpaces.AddressSpaces.Unmap | kernel/mm/address_space.cpp:240-254 | removes exactly one page of one map and frees no frame |
| AddressSpaces.AddressSpaces.UnmapRange | kernel/mm/address_space.cpp:256-262 | removes exactly the pages of the range |
| AddressSpaces.AddressSpaces.Protect | kernel/mm/address_space.cpp:311-331 | keeps every frame and replaces the flags up to the first unmapped page; EFAULT exactly when there is one |
| AddressSpaces.AddressSpaces.ProtectPage | kernel/mm/address_space.cpp:316-328 | one page, with any flags: EFAULT exactly when it is not mapped, else the frame is kept and the flags replaced; a sound account of all frames remains if and only if the foreign bit is as before and user access is asked for only where every table above gives it |
| AddressSpaces.AddressSpaces.ReleaseFrame | kernel/mm/physical.cpp:240-255 | callable only on a frame that is not free, so every call below stays clear of the double-free panic |
| AddressSpaces.AddressSpaces.DestroyTable | kernel/mm/address_space.cpp:264-309 | frees everything below one table, each frame once, and reads no table after it is freed |
| AddressSpaces.AddressSpaces.DestroyEntry | kernel/mm/address_space.cpp:275-303 | one entry of it: the table or private page under it is freed, a foreign page is not |
| AddressSpaces.AddressSpaces.DestroySlot | kernel/mm/address_space.cpp:270-306 | one top-level entry: what is under it, its table, and the entry itself |
| AddressSpaces.AddressSpaces.DestroyUserMappings | kernel/mm/address_space.cpp:264-309 | frees exactly the frames the space owned, each once, empties its map, and touches no foreign frame, no kernel entry and no other space |
| Teardown.TornDownKeeps | kernel/mm/address_space.cpp:264-309 | what is left is a space that maps nothing and owns only its root, with every other space as before |
| Teardown.OwnedMemory | kernel/mm/address_space.cpp:264-309 | the memory frames a space owns are exactly those its map has under entries that are not foreign |
| Teardown.OwnedPage | kernel/mm/address_space.cpp:264-309 | a placed page is in the user half, and the walk finds it, not foreign |
| Teardown.SpanAll | kernel/mm/address_space.cpp:264-309 | the 256 lower entries together span everything a space owns but its root |
| AddressSpaces.AddressSpaces.CreateUserSpace | kernel/mm/address_space.cpp:344-363 | a new space with an empty map exactly when a frame and a heap object can be had, else ENOMEM and no change |
| Cloning.NewSpaceKeeps | kernel/mm/address_space.cpp:344-363 | a root with the shared kernel half maps nothing and disturbs no other space |
| Cloning.DropKeeps | kernel/mm/address_space.cpp:365-439 | deleting a space keeps every other space's map |
| AddressSpaces.AddressSpaces.ClonePage | kernel/mm/address_space.cpp:393-432 | a foreign page is shared, any other gets a new frame with the same bytes; fails exactly when its frame and tables are more than are free |
| AddressSpaces.AddressSpaces.CopyFrame | kernel/mm/address_space.cpp:405-432 | a new frame with the parent's bytes is mapped, or given back |
| AddressSpaces.AddressSpaces.CloneTable | kernel/mm/address_space.cpp:371-436 | the pages below a table are copied, in order, and none before it is lost; fails only when the whole copy needs more frames than there were |
| AddressSpaces.AddressSpaces.CloneSlot | kernel/mm/address_space.cpp:371-436 | one entry of a table being copied, at any level |
| AddressSpaces.AddressSpaces.CloneBelow | kernel/mm/address_space.cpp:371-436 | the table under one entry of it |
| AddressSpaces.AddressSpaces.CloneUserSpace | kernel/mm/address_space.cpp:365-439 | succeeds exactly when a heap object can be had and the free frames are enough for a root, the parent's private pages and the tables above its pages; success gives exactly the parent's pages and flags, foreign frames shared and the rest copied; failure leaves the spaces as they were; either way no memory in use changes |
| AddressSpaces.AddressSpaces.CopyPages | kernel/mm/address_space.cpp:371-436 | the copying into an empty space, with the same exact condition |
| CloneCost.CopyStep | kernel/mm/address_space.cpp:393-432 | one page more is paid for as part of what the copy needs, or the whole copy cannot be paid for |
| CloneCost.CopyDone | kernel/mm/address_space.cpp:365-439 | a copy that has all it needs could be paid for |
| AddressSpaces.NeedsArePlaced | kernel/mm/address_space.cpp:365-439 | a finished copy has a place for every table and private page it needs |
| AddressSpaces.AddressSpaces.UndoClone | kernel/mm/address_space.cpp:427-431 | a copy that failed is torn down and deleted, with every other space and all memory in use as before |
| Cloning.CopiedAll | kernel/mm/address_space.cpp:365-439 | having copied below all 256 lower entries is having copied the whole map |
| AddressSpaces.AddressSpaces.Execute | kernel/mm/address_space.cpp:60-439 | any one request keeps the ownership invariant and the bytes of foreign frames |
| AddressSpaces.AddressSpaces.Run | kernel/mm/address_space.cpp:60-439 | so does any sequence of create, map, share, unmap, protect, fork and destroy over any spaces; no free in it hits a free frame |
| ForeignFrames.SharedPage | kernel/sys/syscall.cpp:584-613 | from boot: a space with one page on a frame a file owns |
| ForeignFrames.DropsForeign | kernel/mm/address_space.cpp:311-331 | whatever the flags, once the foreign bit of that page is dropped no account of the frames is sound |
| ForeignFrames.ProtectThenDestroy | kernel/mm/address_space.cpp:264-331 | new flags for the only page on somebody else's frame, then the end of the space: the frame is free afterwards if and only if the flags are without the foreign bit |
| ForeignFrames.FreesForeign | kernel/mm/address_space.cpp:264-331 | the same from boot: the frame is free while the file has it |
| Isolation.SoleOwner | kernel/mm/address_space.cpp:344-439 | two mapped pages on one frame are the same page of the same space, or both are foreign |
| Isolation.SoleTable | kernel/mm/address_space.cpp:60-80 | a table is reached from one entry of one table, and is never user memory |
| Isolation.ForkReadsAlike | kernel/mm/address_space.cpp:365-439 | a clone reads the parent's byte at every user address, mapped or not |
| Isolation.ForkSharesForeignOnly | kernel/mm/address_space.cpp:365-439 | any frame two spaces share is foreign in both |
| Isolation.PrivateWrite | kernel/mm/address_space.cpp:365-439 | a write through a private page changes that byte of that space and no other byte of any space |
| Isolation.UserAllTheWay | kernel/mm/address_space.cpp:60-80 | above a user page every entry on the walk is present and open to user mode |
| Isolation.LeafCheckSuffices | kernel/mm/address_space.cpp:211-238 | the leaf entry's permissions are the conjunction of the permissions down the whole walk |
| UserView.FilledSeen | kernel/mm/address_space.cpp:114-142 | after an anonymous mapping every byte of the range that could not be read reads as zero with the access asked for; every other byte of the space reads as before with the access it had |
| UserView.UnmappedSeen | kernel/mm/address_space.cpp:256-262 | after an unmapping no byte of the range can be read and every other is as it was |
| UserView.ProtectedSeen | kernel/mm/address_space.cpp:311-331 | after a change of protection every byte up to the first hole reads as before with the access asked for, and every other has the access it had |
| UserView.MappedEnds | kernel/mm/address_space.cpp:311-331 | the pages in a row end at the first hole |
| UserView.ForkSeen | kernel/mm/address_space.cpp:365-439 | a forked space has the same pages with the same flags, bytes and access at every address, and a page shares its frame exactly when it is foreign |
| UserView.ElsewhereAlike | kernel/mm/address_space.cpp:60-439 | no operation on one space changes a byte or an access right of another |
| UserView.TableForIs | kernel/mm/address_space.cpp:144-158 | the table a walk goes through at a level is the one the ownership tree has there |
| UserView.OwnedExactly | kernel/mm/address_space.cpp:264-309 | what teardown frees is exactly the tables and private pages that walks from the root come through |
| UserCopy.CopyInto | kernel/sys/elf_loader.cpp:30-49 | succeeds exactly when the range is mapped; the space then reads those bytes there and no other byte of any space changed; a failure has copied a prefix |
| UserCopy.CopyOut | kernel/sys/elf_loader.cpp:51-68 | succeeds exactly when the range is mapped, with the bytes the space reads there |
| UserCopy.PrivateChunk | kernel/sys/elf_loader.cpp:30-49 | a chunk within one private page changes those bytes of that space and no others |
| UserCopy.MappedHasData | kernel/sys/elf_loader.cpp:30-68 | a mapped page always has memory behind it |
| IntrusiveList.List.constructor | kernel/lib/intrusive_list.h:131-135 | an empty list |
| IntrusiveList.List.Append | kernel/lib/intrusive_list.h:37-52 | the item goes to the end, unless it is on some list already |
| IntrusiveList.List.Prepend | kernel/lib/intrusive_list.h:54-69 | the item goes to the front, unless it is on some list already |
| IntrusiveList.List.Remove | kernel/lib/intrusive_list.h:71-91 | the list without the item, in order; an unlinked item is left alone |
| IntrusiveList.List.Splice | kernel/lib/intrusive_list.h:76-90 | the neighbours, or the ends of the list, now name each other |
| IntrusiveList.List.TakeFirst | kernel/lib/intrusive_list.h:93-99 | the first item comes off, null exactly when there is none |
| IntrusiveList.List.TakeMatching | kernel/lib/intrusive_list.h:105-126 | iterating while removing takes exactly the wanted items, in order, and keeps the rest in order |
| IntrusiveList.List.Visit | kernel/lib/intrusive_list.h:105-126 | fetching the next item before the body runs never loses the place |
| IntrusiveList.List.OnListIsLinked | kernel/lib/intrusive_list.h:37-99 | an item on the list has its flag set |
| SchedulerInvariant.SpawnKeeps | kernel/sched/scheduler.cpp:103-110 | enqueueing a new thread keeps: the run queue is duplicate-free and is exactly the ready threads but idle and the dead, and every node is on at most one list |
| SchedulerInvariant.SwitchKeeps | kernel/sched/scheduler.cpp:112-168 | a switch keeps it from any state of the current thread, and exactly one thread runs after it |
| SchedulerInvariant.TickKeeps | kernel/sched/scheduler.cpp:170-212 | waking sleepers while walking the list, charging and switching keep it; which sleepers is in `SchedulerLaws.TickExactly` |
| SchedulerInvariant.UnblockKeeps | kernel/sched/scheduler.cpp:243-269 | waking a thread, whatever it is doing, takes it off the sleeper list when it is there and puts it in line once; one that has exited stays out of line |
| SchedulerInvariant.WakeSleeperIsUnblock | kernel/sched/scheduler.cpp:183-189 | the tick's own wake-up does what `unblock` does |
| SchedulerInvariant.WaitKeeps | kernel/sched/waitqueue.cpp:11-54 | queueing up keeps it; on the poll queue the mark is the current generation |
| SchedulerInvariant.SleepKeeps | kernel/sched/scheduler.cpp:271-287 | going to sleep keeps it, although sleepers and wait queues share a node |
| SchedulerInvariant.ResumeKeeps | kernel/sched/waitqueue.cpp:26-36 | a thread that was woken by a signal takes itself off its own queue and no other list |
| SchedulerInvariant.ExitKeeps | kernel/sched/scheduler.cpp:289-302 | so does an exit, whoever has the thread in hand |
| SchedulerInvariant.ReapKeeps | kernel/sched/scheduler.cpp:34-57 | and the freeing of a zombie by the idle loop, which runs only when nobody is in the middle of waking it |
| SchedulerInvariant.NoWaker | kernel/sched/scheduler.cpp:34-57 | when nobody is ready nobody is in the middle of a wake-up |
| SchedulerInvariant.StartDrainKeeps | kernel/sched/waitqueue.cpp:77-82 | bumping the generation before draining keeps "a waiter's mark is current or a drain is under way" |
| SchedulerInvariant.TakeKeeps | kernel/sched/waitqueue.cpp:60-93 | taking the first waiter leaves it on no list |
| SchedulerInvariant.DrainTakeKeeps | kernel/sched/waitqueue.cpp:84-93 | the waker takes the next waiter in hand; a drain that finds the poll queue empty leaves nobody with an old mark |
| SchedulerInvariant.WakeOneKeeps | kernel/sched/waitqueue.cpp:60-69 | the same for waking one |
| SchedulerInvariant.ReleaseKeeps | kernel/sched/waitqueue.cpp:84-93 | waking the thread in hand keeps everything, wherever it has got to meanwhile |
| SchedulerInvariant.WakeWaitersKeeps | kernel/sched/waitqueue.cpp:84-93 | so does waking a whole queue in one go |
| SchedulerInvariant.InterruptWakeKeeps | kernel/sched/waitqueue.cpp:77-104 | and a whole wake-up from an interrupt handler, pollers included, whatever the current thread was in the middle of |
| SchedulerRuns.NextKeeps | kernel/sched/scheduler.cpp:103-302 | every section keeps the invariant |
| SchedulerRuns.BootHolds | kernel/sched/scheduler.cpp:61-91 | it holds after initialization |
| SchedulerRuns.RunKeeps | kernel/sched/scheduler.cpp:103-302 | it holds in every state of every run, so no splice is ever applied to a list the thread is not on |
| SchedulerRuns.Advances | kernel/sched/scheduler.cpp:170-220 | a ready thread never moves back and gets strictly nearer with every tick and every yield |
| SchedulerRuns.WaitEnds | kernel/sched/scheduler.cpp:112-220 | a ready thread behind k others runs within 5 * (k + 1) ticks and yields of any run |
| SchedulerRuns.LineMoves | kernel/sched/scheduler.cpp:112-168 | a switch moves the line up by exactly one and any other section by none: nobody is put in front |
| SchedulerRuns.LineEnds | kernel/sched/scheduler.cpp:112-168 | a ready thread behind k others runs within k + 1 switches of any run |
| SchedulerRuns.GenerationCounts | kernel/sched/waitqueue.cpp:77-104 | the poll generation goes up by one with each wake-up and with nothing else |
| SchedulerRuns.GenerationGrows | kernel/sched/waitqueue.cpp:38-42 | equal generations at two points of a run mean no wake-up in between |
| SchedulerRuns.MarkKept | kernel/sched/waitqueue.cpp:38-58 | a poller's mark changes only when it reads the generation itself |
| SchedulerRuns.MarkWasRead | kernel/sys/syscall.cpp:1183-1228 | in a run from boot every mark was read by that thread at an earlier step |
| SchedulerRuns.PollMissesNothing | kernel/sched/waitqueue.cpp:38-104 | in every run from boot, a thread on the poll queue with no drain under way read the generation at some step after which there was no wake-up |
| WakeRaces.BlockStrands | kernel/sched/waitqueue.cpp:11-58 | blocking leaves a thread where no wake-up can reach it if and only if it is on no queue and in nobody's hand already |
| WakeRaces.StrandedStays | kernel/sched/waitqueue.cpp:60-104 | no step but a signal or a continue to that thread changes that |
| WakeRaces.StrandedForGood | kernel/sched/waitqueue.cpp:60-104 | nor does any run without one |
| WakeRaces.StatusMoves | kernel/sched/waitqueue.cpp:11-104 | what each step makes of a wake-up for a thread that has queued up and not yet blocked |
| WakeRaces.LostExactly | kernel/sched/waitqueue.cpp:11-58 | in every run, a thread that queues up and later blocks, with no signal to it in between, is stranded if and only if a step in between took it off its queue and nobody has it in hand when it blocks |
| WakeRaces.LostIfWoken | kernel/sched/waitqueue.cpp:11-58 | if nobody had it in hand when it queued up, that is if and only if it was woken in between |
| WakeRaces.QueuedAt | kernel/sched/waitqueue.cpp:11-100 | over any stretch of a run a thread stays on its queue if and only if no step takes it off |
| WakeRaces.LostWakeup | kernel/sched/waitqueue.cpp:11-36 | from any state where a thread can go and wait: wait, a wake-up from an interrupt, block, and it is stranded if and only if no waker had it in hand before |
| WakeRaces.LostPollWakeup | kernel/sched/waitqueue.cpp:38-58 | the same for a poller that reads the generation and waits |
| WakeRaces.ReadyIffNoCorpse | kernel/sched/scheduler.cpp:243-269 | every ready thread is in line if and only if no dead one is marked ready |
| WakeRaces.ReadyExactly | kernel/sched/scheduler.cpp:243-302 | a step keeps every ready thread in line if and only if it does not let go of a thread that has exited |
| WakeRaces.ZombieMarkedReady | kernel/sched/scheduler.cpp:243-302 | from any state with one other thread in line, a run of fifteen steps in which that thread wakes the first, is preempted in between, and marks a zombie ready |
| SchedulerLaws.WakeDueExactly | kernel/sched/scheduler.cpp:182-189 | of the sleepers looked at, exactly those whose deadline has come are woken and put in line; every other thread is untouched |
| SchedulerLaws.TickExactly | kernel/sched/scheduler.cpp:170-212 | a tick takes a thread off the sleepers if and only if its deadline is not after now, and then it is in line or running |
| SchedulerLaws.SleeperStep | kernel/sched/scheduler.cpp:238-287 | apart from ticks, a sleeper gets up if and only if a signal or a wake-up reaches it |
| SchedulerLaws.SleepsOn | kernel/sched/scheduler.cpp:170-287 | in every run a sleeper sleeps on until a tick at or after its deadline or somebody rouses it |
| SchedulerLaws.SleepEnds | kernel/sched/scheduler.cpp:170-287 | in every run, a thread that goes to sleep until a deadline and that nobody rouses gets up at the first tick at or after it and at no other step |
| SchedulerLaws.ChargeTurn | kernel/sched/scheduler.cpp:191-211 | the running thread is charged one tick; with none left the first in line takes over with a full quantum and it goes to the back, and with nobody in line its turn begins anew |
| SchedulerLaws.TickCharges | kernel/sched/scheduler.cpp:170-212 | the same for a whole tick, where a sleeper that is due may be the first in line |
| SchedulerLaws.TurnKept | kernel/sched/scheduler.cpp:214-330 | no other section by it or by an interrupt handler costs the running thread the processor or any of its quantum |
| SchedulerLaws.TurnLasts | kernel/sched/scheduler.cpp:170-330 | in every run, a thread that does not give up the processor has it for as many ticks as its quantum has left |
| SchedulerLaws.WakeWaitersAt | kernel/sched/waitqueue.cpp:84-93 | emptying a queue wakes exactly who was on it |
| SchedulerLaws.InterruptWakeAt | kernel/sched/waitqueue.cpp:77-104 | a wake-up from an interrupt handler wakes exactly who waits on that queue or polls |
| SchedulerLaws.WakesAll | kernel/sched/waitqueue.cpp:77-104 | they all get in line and the queue is empty |
| SchedulerLaws.TakesFirst | kernel/sched/waitqueue.cpp:60-93 | a waker takes in hand who has waited longest, and takes nobody else off any queue |
| SchedulerLaws.ReleaseWakes | kernel/sched/waitqueue.cpp:84-93 | letting go of a thread that has not exited gets it in line, whatever it was waiting for |
| Sessions.ForkKeeps | kernel/sched/process.cpp:73-120 | a child in its parent's group and session keeps groups within sessions |
| Sessions.MoveKeeps | kernel/sched/process.cpp:415-460 | so does moving to the process's own group or to one that exists in its session |
| Sessions.MoveExactly | kernel/sched/process.cpp:415-460 | the checks in order refuse exactly what the rule for moving refuses |
| Sessions.StartExactly | kernel/sched/process.cpp:462-477 | starting a session does if and only if nobody else is in the group it is named after |
| Sessions.ReapKeeps | kernel/sched/process.cpp:384-395 | so does the end of a process |
| Sessions.RequestExactly | kernel/sched/process.cpp:73-477 | the four together, refusals included |
| Sessions.RunExactly | kernel/sched/process.cpp:73-477 | a run from init has one session per group, the session of the process the group is named after, throughout, if and only if every session it starts is by a process nobody else shares that group name with |
| Sessions.GroupSplit | kernel/sched/process.cpp:415-477 | five calls from init that leave a child in its parent's group and in another session |
| Sessions.ProcessList.constructor | kernel/sched/process.cpp:73-120 | init leads its own group and session |
| Sessions.ProcessList.Find | kernel/sched/process.cpp:63-71 | the first process with that pid, if there is one |
| Sessions.ProcessList.GroupExists | kernel/sched/process.cpp:445-456 | whether some process of that session is in that group |
| Sessions.ProcessList.Fork | kernel/sched/process.cpp:73-120 | a new pid that no process has, with the caller as parent and the caller's group and session; every other process is as it was |
| Sessions.ProcessList.SetProcessGroup | kernel/sched/process.cpp:415-460 | succeeds if and only if the target is the caller or a child of it, in its session and no session leader, and the group is the target's own or one of that session; then that process's group changes and nothing else; the refusals come in the code's order with their error codes and no change |
| Sessions.ProcessList.StartSession | kernel/sched/process.cpp:462-477 | EPERM and no change for a group leader; otherwise the caller leads a new session and group of its own and nothing else changes, in order exactly under the condition above |
| Sessions.ProcessList.Reap | kernel/sched/process.cpp:384-395 | the process leaves the list and order is kept |
| SignalFrames.FrameRoundTrip | kernel/sys/syscall.cpp:61-64 | a frame written to memory and read back is the same frame |
| SignalFrames.StoreSkips | kernel/sys/syscall.cpp:1793-1851 | a store changes no cell outside it |
| SignalFrames.StoreHits | kernel/sys/syscall.cpp:1793-1851 | and every cell inside it |
| SignalFrames.SanitizedSame | kernel/sys/syscall.cpp:989-1008 | forcing selectors and flags on return keeps everything a program can see, and no flag but the arithmetic ones and interrupts can be set |
| SignalFrames.PushPlace | kernel/sys/syscall.cpp:1793-1815 | when the push fits, nothing wraps, the context ends below the red zone and the return address is 16-aligned |
| Signals.PushedReads | kernel/sys/syscall.cpp:1793-1851 | after a delivery the context holds the saved frame and the word below it the restorer; nothing at or above rsp - 128 was written |
| Signals.HandlerEntered | kernel/sys/syscall.cpp:1793-1851 | what the handler finds in registers and on the stack |
| Signals.RestoredReads | kernel/sys/syscall.cpp:989-1008 | what a return puts back, register by register |
| Signals.RewindsOwn | kernel/sys/syscall.cpp:1724-1733 | rewinding a frame puts the remembered call back if and only if its registers are those the call left |
| Signals.PushStacks | kernel/sys/syscall.cpp:1793-1851 | a delivery beneath earlier contexts leaves them intact |
| Signals.ReturnUnwinds | kernel/sys/syscall.cpp:989-1008 | a return at the innermost context restores its frame and leaves the outer ones |
| Signals.HandlerUnwinds | kernel/sys/syscall.cpp:1735-1852 | however deliveries, signals that run no handler, system calls and returns nest, a handler that ends leaves the registers, rip, rsp and arithmetic flags as they were; if it restarts calls and one is remembered, the thread is back at that call if and only if the delivery found the registers as the call left them |
| Signals.TurnsKeep | kernel/sys/syscall.cpp:1735-1852 | between deliveries, any sequence of complete handlers, system calls and program steps that leave the contexts alone keeps them |
| Signals.PushKeeps | kernel/sys/syscall.cpp:1793-1851 | the state after a delivery is again one contexts can be stacked on |
| Signals.PopKeeps | kernel/sys/syscall.cpp:989-1008 | and so is the state after a return |
| Signals.Overwritten | kernel/sys/syscall.cpp:1724-1733 | writing the rewound frame over the first copy is as good as writing it at once |
| Signals.UserThread.Finish | kernel/sys/syscall.cpp:1861-1910 | the result or negated error goes to rax; a call is remembered exactly when it failed with EINTR and was no sleep, with the frame it left |
| Signals.UserThread.Restart | kernel/sys/syscall.cpp:1724-1733 | with a call remembered, rip is back at its two-byte instruction and rax has its number, all else as it was; without one nothing changes; the program is back at that call if and only if its registers are those the call left |
| Signals.UserThread.Deliver | kernel/sys/syscall.cpp:1735-1852 | signal by signal and disposition by disposition: the process ends with that status, stops first, goes on with an interrupted call put back, or enters the handler with rip at its entry, the signal in rdi, rax zero, every other general register as before, rsp aligned and the restorer on top of the stack; SIGSEGV exactly when the context does not fit |
| Signals.UserThread.Push | kernel/sys/syscall.cpp:1793-1851 | the handler is entered with the signal as argument and the restorer as return address, on an aligned stack below the red zone, with the interrupted program's other registers, flags and selectors; the context below holds the frame to be put back and the signal; older contexts are intact |
| Signals.UserThread.SigReturn | kernel/sys/syscall.cpp:989-1008 | EFAULT exactly when the context cannot be read; otherwise rip, rsp and every general register are those in the context, the selectors are the user ones, interrupts are on and no privileged flag is set; at the innermost context what the program sees is what was saved and the outer contexts are intact |
| Signals.UserThread.Unwind | kernel/sys/syscall.cpp:994-1007 | the frame is that of the context at the stack pointer, and the contexts outside it are intact |
| Restarts.InterruptedCall | kernel/sys/syscall.cpp:1861-1910 | a call cut short and its handler straight after it: with SA_RESTART the thread is back at the instruction that made the call with the registers it made it with, without it the call returns EINTR |
| Restarts.HandlerNeverRestarts | kernel/sys/syscall.cpp:1735-1852 | inside a handler, whatever runs and however deep, no delivery finds the registers of the call that handler interrupted |
| Restarts.TurnsBelow | kernel/sys/syscall.cpp:1735-1852 | because everything inside runs below the saved context |
| Restarts.FaultAndReturn | kernel/sys/fault.cpp:84-99 | a fault whose restarting handler returns at once leaves the frame rewound by whatever call is remembered |
| Restarts.StaleRestart | kernel/sys/fault.cpp:84-99 | from any frame with room for two contexts: a call cut short, a handler that does not restart it, a fault in that handler, and the program goes on two bytes before the faulting instruction with the old call's number in rax |
| Tree.NoCycle | kernel/fs/vfs.cpp:505-532 | in a forest no chain of parents comes back to where it began |
| Tree.BindingIff | kernel/fs/tmpfs.cpp:324-331 | a name is bound to exactly the child that has it |
| Tree.DroppedKeeps | kernel/fs/tmpfs.cpp:286-322 | taking a child out of its directory keeps the forest |
| Tree.DroppedBinding | kernel/fs/tmpfs.cpp:286-322 | and unbinds that one name |
| Tree.PlacedKeeps | kernel/fs/tmpfs.cpp:371-380 | putting a detached inode into a directory that is not under it keeps the forest |
| Tree.PlacedBinding | kernel/fs/tmpfs.cpp:371-380 | and binds that one name |
| Tmpfs.MovedKeeps | kernel/fs/tmpfs.cpp:333-393 | the ancestor walk is enough: the moved forest is a forest, whatever was replaced |
| Tmpfs.MoveUnderSelfBreaks | kernel/fs/vfs.cpp:505-532 | and needed: moving a directory under itself makes a cycle |
| Tmpfs.MovedBindings | kernel/fs/tmpfs.cpp:333-393 | a rename changes the binding of the old name and the new one and no other |
| Tmpfs.MovedKept | kernel/fs/tmpfs.cpp:333-393 | and touches no inode but the moved, the replaced and the two directories |
| Tmpfs.UnmovedBelow | kernel/fs/tmpfs.cpp:333-393 | who is neither moved nor replaced keeps its ancestors |
| Tmpfs.MovedBelow | kernel/fs/tmpfs.cpp:333-393 | who is below what after a rename, exactly |
| Tmpfs.SourceDiffers | kernel/fs/tmpfs.cpp:348-357 | a rename never replaces its own source |
| Tmpfs.LeafNotAbove | kernel/fs/vfs.cpp:524-529 | a file has nothing under it, so walking for directories only is enough |
| Tmpfs.SplicedIsMoved | kernel/fs/tmpfs.cpp:371-390 | the code's order of removals and insertions has the effect of one move |
| Tmpfs.AddedKeeps | kernel/fs/tmpfs.cpp:245-284 | a new child keeps the forest and binds its name only |
| Tmpfs.Filesystem.constructor | kernel/fs/tmpfs.cpp:395-413 | a root and nothing else |
| Tmpfs.Filesystem.FindChild | kernel/fs/tmpfs.cpp:324-331 | the loop finds the first child of that name |
| Tmpfs.Filesystem.RemoveChild | kernel/fs/tmpfs.cpp:313-322 | the list without that child, in order |
| Tmpfs.Filesystem.Lookup | kernel/fs/tmpfs.cpp:203-213 | the binding, ENOTDIR or ENOENT |
| Tmpfs.Filesystem.Create | kernel/fs/tmpfs.cpp:245-284 | the errors in order with no change, or one new inode bound and nothing else touched |
| Tmpfs.Filesystem.Unlink | kernel/fs/tmpfs.cpp:286-311 | ENOTDIR, ENOENT, ENOTEMPTY with no change, or exactly that name unbound and its inode parentless |
| Tmpfs.Filesystem.Rename | kernel/fs/tmpfs.cpp:333-393 | succeeds if and only if both directories are directories, the new name fits, the source exists and either nothing is asked for or memory can be had and whatever has the new name is of the source's kind and has no children; each error names what stood in the way, with no change; success unbinds the old name and binds the new one, and every inode but the replaced one has the ancestors it had, or, if it moved, those up to the source and then the target directory's |
| Tmpfs.Filesystem.RenameChecked | kernel/fs/vfs.cpp:505-532 | the same behind the checks for device, read-only, dots and moving a directory under itself |
| Tmpfs.Filesystem.Inspect | kernel/fs/tmpfs.cpp:333-369 | everything rename checks, with its errors, before anything moves |
| Tmpfs.Filesystem.Move | kernel/fs/tmpfs.cpp:371-390 | the move itself: names, parents and ancestors as above |
| Tmpfs.Filesystem.Walk | kernel/fs/vfs.cpp:524-529 | the loop up the parents decides exactly whether the target is under the source |
| Tmpfs.Filesystem.Relink | kernel/fs/tmpfs.cpp:371-390 | the part of rename that can no longer fail |
| Tmpfs.Filesystem.Run | kernel/fs/tmpfs.cpp:245-393 | after any sequence of create, unlink and rename: a forest, with distinct names and parents that agree with the directories |
| Paths.NextComponent | kernel/fs/vfs.cpp:57-72 | the cursor loop yields the components of the path one by one, truncated as the buffer is |
| Paths.CopyName | kernel/fs/vfs.cpp:64-70 | copies up to the next slash and cuts at the buffer's size |
| Paths.PastSlashes | kernel/fs/vfs.cpp:59-60 | skips the run of slashes and no more |
| Paths.ComponentsOfRender | kernel/fs/vfs.cpp:57-72 | splitting a rendered path gives its names back |
| Paths.ComponentsConcat | kernel/fs/vfs.cpp:57-72 | splitting at a slash and going on separately is splitting the whole |
| Namespace.FollowMount | kernel/fs/vfs.cpp:46-53 | the root of the first mount that covers the inode, or the inode |
| Namespace.MountPointOf | kernel/fs/vfs.cpp:33-42 | the point the first mount of that root covers |
| Namespace.LookupIn | kernel/fs/tmpfs.cpp:203-213 | the child bound to that name |
| Namespace.Resolve | kernel/fs/vfs.cpp:370-404 | the loop over components is the fold of single steps, dots and mounts included, with its errors; what a step means is in the laws below |
| PathLaws.OneMore | kernel/fs/vfs.cpp:370-404 | a component more is one step more from where the path leads |
| PathLaws.Down | kernel/fs/vfs.cpp:370-404 | a proper name leads to the directory's child of that name, or to the root of what was first mounted on it; ENOTDIR and ENOENT exactly when they should be |
| PathLaws.DownAndUp | kernel/fs/vfs.cpp:370-404 | down into a child that no mount covers and up again by dot-dot is where one was |
| PathLaws.Up | kernel/fs/vfs.cpp:370-404 | dot-dot leads to the parent, and from a filesystem's root to that root |
| PathLaws.RootUp | kernel/fs/vfs.cpp:370-404 | a slash and slash dot-dot are the root |
| PathLaws.Stay | kernel/fs/vfs.cpp:370-404 | a dot changes nothing |
| PathLaws.Joined | kernel/fs/vfs.cpp:370-404 | a relative path from where another leads is the two joined by a slash |
| PathLaws.Absolute | kernel/fs/vfs.cpp:370-404 | a path that begins with a slash means the same from everywhere |
| Namespace.ResolvedVisible | kernel/fs/vfs.cpp:370-404 | whatever resolution returns can be reached from the root by names alone |
| Namespace.VisibleUncovered | kernel/fs/vfs.cpp:46-53 | an inode in sight is not covered by a mount |
| Namespace.VisibleUp | kernel/fs/vfs.cpp:553-629 | an inode in sight with a parent is reached from that parent, itself in sight, by its own name |
| Namespace.NameIn | kernel/fs/vfs.cpp:591-603 | enumerating the parent finds the child's name, empty when it is not there |
| Namespace.TurnUp | kernel/fs/vfs.cpp:572-606 | one turn of the loop is the step up the specification makes, and in a world where every mount point is in sight the name leads back |
| Namespace.PutName | kernel/fs/vfs.cpp:607-613 | puts a slash and the name in front of what the buffer holds |
| Namespace.CollectNames | kernel/fs/vfs.cpp:569-619 | the buffer holds the names on the way up, or the way up does not end, or it does not fit |
| Namespace.AbsolutePathOf | kernel/fs/vfs.cpp:553-629 | returns exactly the rendered way up from any inode, or the error where that ends; in a world where every mount point is in sight the path of an inode in sight resolves, from any base, to it, and ENAMETOOLONG and ERANGE come only when a path is too long for the buffer |
| Namespace.RoundTripExactly | kernel/fs/vfs.cpp:370-629 | every inode in sight is named by the path it is given if and only if, for every filesystem's root in sight, the path of the place it was first mounted on leads to that root |
| Namespace.ClimbsBack | kernel/fs/vfs.cpp:553-629 | below roots whose paths lead back, every inode's path does |
| Namespace.LeadsFromFirst | kernel/fs/vfs.cpp:33-42 | a root has the path of its first mount point |
| Namespace.ClimbRoom | kernel/fs/vfs.cpp:607-613 | a larger buffer changes no path that fits |
| Namespace.TwiceMountedIsLost | kernel/fs/vfs.cpp:33-42 | a filesystem mounted twice: what `/b` resolves to is given the path `/a/x`, which resolves to ENOENT |
| Namespace.OnceMountedIsOpen | kernel/fs/vfs.cpp:312-344 | mounting each filesystem at most once keeps every mount point in sight |
| Namespace.HiddenMountPoint | kernel/fs/vfs.cpp:312-344 | a mount point in a directory that is itself mounted over is out of sight |
| PagedFile.File.EnsurePages | kernel/fs/tmpfs.cpp:37-58 | fresh zeroed pages up to the wanted size, or ENOMEM, exactly when memory runs out, with the pages as before |
| PagedFile.File.ReleasePagesFrom | kernel/fs/tmpfs.cpp:60-66 | the pages from there on go |
| PagedFile.File.Read | kernel/fs/tmpfs.cpp:68-92 | the slice of the flat contents, cut at the size; EISDIR for a directory |
| PagedFile.File.Write | kernel/fs/tmpfs.cpp:94-124 | the contents overwritten at the offset, holes zero; fails exactly when a directory or out of memory, contents unchanged |
| PagedFile.File.CopyIn | kernel/fs/tmpfs.cpp:107-119 | the page-by-page copy changes exactly the bytes of the range |
| PagedFile.File.Truncate | kernel/fs/tmpfs.cpp:126-147 | the contents cut or extended with zeroes, even after shrinking within a page; failures leave them unchanged |
| PagedFile.OverwriteByte | kernel/fs/tmpfs.cpp:110-119 | a chunk written into one page, seen through the whole file |
| PagedFile.WrittenIs | kernel/fs/tmpfs.cpp:94-124 | pages after the copy are the flat write, with exactly as many pages as the size needs and zeroes past it |
| PagedFile.GrownIs | kernel/fs/tmpfs.cpp:126-147 | growing appends zeroes |
| PagedFile.ShrunkIs | kernel/fs/tmpfs.cpp:126-147 | shrinking cuts and leaves zeroes in the rest of the last page |
| PagedFile.SliceAt | kernel/fs/tmpfs.cpp:68-92 | a read gives the bytes from the offset on, as many as were asked for and are there |
| PagedFile.ReadOn | kernel/fs/tmpfs.cpp:68-92 | two reads in a row are one |
| PagedFile.ReadBack | kernel/fs/tmpfs.cpp:68-124 | what was written is read back, the rest is as it was, and a gap before it is zero |
| PagedFile.ReadResized | kernel/fs/tmpfs.cpp:126-147 | a file cut or stretched keeps its beginning, and the new end is zero |
| OpenFiles.LiveIffNamed | kernel/fs/vfs.h:217-253 | between calls a description exists exactly when some slot of some process names it |
| OpenFiles.RefKeeps | kernel/fs/vfs.h:217-253 | one more reference keeps all counts |
| OpenFiles.PutKeeps | kernel/sched/process.cpp:178-192 | filling a slot turns a held reference into a counted one |
| OpenFiles.TakeKeeps | kernel/sched/process.cpp:204-214 | emptying a slot turns it back |
| OpenFiles.MakeKeeps | kernel/fs/vfs.h:217-253 | a new description refers to its inode and is one more reader or writer |
| OpenFiles.ReleaseKeeps | kernel/fs/vfs.cpp:534-551 | giving up a reference destroys the description exactly when it was the last, closes the pipe end and lets the inode go |
| OpenFiles.MakePipeKeeps | kernel/fs/pipe.cpp:211-236 | a new pipe with its two ends keeps all counts |
| OpenFiles.TablesDetermine | kernel/sched/process.cpp:178-271 | the slots determine every count, so a call that is undone leaves no trace |
| OpenFiles.NoWriterIffNone | kernel/fs/pipe.cpp:136-162 | the writer count is zero exactly when no description of that pipe can write, and the same for readers |
| Descriptors.Kernel.Allocate | kernel/sched/process.cpp:178-192 | the lowest free slot at or above the given one; EMFILE exactly when there is none, EINVAL for a negative one |
| Descriptors.Kernel.Install | kernel/sched/process.cpp:178-192 | the same for a reference the call holds |
| Descriptors.FirstFree | kernel/sched/process.cpp:178-192 | a slot is to be had exactly if one from there on is free; it is the first such, and the others stay |
| Descriptors.PipeNumbers | kernel/sys/syscall.cpp:633-663 | a pipe's read end has the lower number, both are the lowest there were, the one can only be read and the other only written, on one inode |
| Descriptors.Kernel.Close | kernel/sched/process.cpp:204-214 | empties exactly that slot, EBADF exactly when nothing is open there; all counts follow |
| Descriptors.Kernel.DupFrom | kernel/sys/syscall.cpp:1077-1116 | F_DUPFD: the lowest free slot from there names the same description with the flag asked for |
| Descriptors.Kernel.Dup2 | kernel/sched/process.cpp:216-242 | the target slot, closed if open, names the same description; onto itself nothing happens |
| Descriptors.Kernel.Duplicate | kernel/sched/process.cpp:216-242 | dup and dup2 in one, with their errors |
| Descriptors.Kernel.SetCloseOnExec | kernel/sched/process.cpp:250-255 | only that slot's flag |
| Descriptors.Kernel.CloseAll | kernel/sched/process.cpp:257-263 | nothing is open any more, all counts following |
| Descriptors.Kernel.CloseMarked | kernel/sched/process.cpp:265-271 | slot by slot: a marked descriptor is closed, any other is as it was |
| Descriptors.Kernel.Fork | kernel/sys/syscall.cpp:349-364 | the child's table is the parent's, flags and all, and every count follows |
| Descriptors.Kernel.ShareInto | kernel/sys/syscall.cpp:349-364 | asking for a slot at or above fd in a table filled in order gives fd itself |
| Descriptors.Kernel.LetGo | kernel/fs/vfs.cpp:534-551 | a held reference given up |
| Descriptors.Kernel.Abandon | kernel/sys/syscall.cpp:296-320 | a description no slot ever named, given up, leaves everything as before the call |
| Descriptors.Kernel.AbandonBoth | kernel/sys/syscall.cpp:633-663 | the same for both ends of a pipe |
| Descriptors.Kernel.Open | kernel/sys/syscall.cpp:296-320 | a new description in the lowest free slot; any failure leaves slots, descriptions and inodes untouched |
| Descriptors.Kernel.Pipe | kernel/sys/syscall.cpp:633-663 | two ends in the two lowest free slots and one reader and one writer; ENOMEM, EMFILE and EFAULT when they should be, with everything untouched |
| Descriptors.Kernel.PipeRest | kernel/sys/syscall.cpp:646-663 | the write end, and the undoing of the read end when that fails |
| Descriptors.Kernel.PlaceEnds | kernel/sys/syscall.cpp:646-663 | both ends get the two lowest free slots, or neither stays |
| Descriptors.Kernel.PlaceReader | kernel/sys/syscall.cpp:646-650 | the read end in the lowest free slot |
| Descriptors.Kernel.PlaceWriter | kernel/sys/syscall.cpp:646-663 | the write end after it, or both undone |
| Descriptors.Kernel.Execute | kernel/sched/process.cpp:178-271 | any one call keeps all counts, turns no description into another, and makes only the descriptions it is for |
| Descriptors.Kernel.Run | kernel/sched/process.cpp:178-271 | after any sequence of these calls each description's count is the number of slots that name it, each was destroyed once per making but for the one still there, and each pipe's readers and writers are its descriptions with that access |
| Rendezvous.SomebodyCounts | kernel/fs/pipe.cpp:57-116 | the counts the code tests say exactly whether a peer is open or opening |
| Rendezvous.PlusCounts | kernel/fs/pipe.cpp:26-39 | one agent more is one count more |
| Rendezvous.OpenedKeeps | kernel/fs/pipe.cpp:26-39 | a new description keeps the counts |
| Rendezvous.LessKeeps | kernel/fs/pipe.cpp:41-55 | a closed description or an opener that leaves keeps them, and none was zero |
| Rendezvous.AnnouncedKeeps | kernel/fs/pipe.cpp:65-89 | an arrival is recorded for everyone waiting for that kind |
| Rendezvous.MayEnterExactly | kernel/fs/pipe.cpp:91-96 | an opener may go on exactly when a peer is there, or came while it waited |
| Rendezvous.NoStandoff | kernel/fs/pipe.cpp:57-116 | a waiting reader and a waiting writer are never both held up |
| Pipe.PipeBuffer.Used | kernel/fs/pipe.cpp:14-24 | the distance round the ring |
| Pipe.PipeBuffer.Read | kernel/fs/pipe.cpp:136-162 | the oldest bytes, as many as fit; end of file exactly when the ring is empty and no description can write; otherwise EINTR or sleep |
| Pipe.PipeBuffer.CopyOut | kernel/fs/pipe.cpp:153-158 | the loop takes the first bytes of the contents |
| Pipe.PipeBuffer.Write | kernel/fs/pipe.cpp:164-207 | the bytes written are appended in order; EPIPE exactly when nobody reads or is opening to read; sleep, EINTR and short counts only on a full ring |
| Pipe.PipeBuffer.CopyIn | kernel/fs/pipe.cpp:199-202 | the loop appends until the data or the room ends |
| Pipe.PipeBuffer.PutByte | kernel/fs/pipe.cpp:199-202 | one byte at the head appends it |
| Pipe.PipeBuffer.Fill | kernel/fs/pipe.cpp:199-203 | one filling keeps bytes taken followed by bytes buffered equal to bytes placed |
| Pipe.PipeBuffer.OpenAtOnce | kernel/fs/pipe.cpp:26-39 | a description made without waiting is counted |
| Pipe.PipeBuffer.Close | kernel/fs/pipe.cpp:41-55 | a closed description no longer is, and the guards against going below zero never bite |
| Pipe.PipeBuffer.Arrive | kernel/fs/pipe.cpp:57-116 | an opener enters at once exactly when a peer is there, and everyone waiting for its kind is now met |
| Pipe.PipeBuffer.Announce | kernel/fs/pipe.cpp:67-90 | an arrival is counted, exactly those waiting for one have met somebody, and the newcomer has not |
| Pipe.PipeBuffer.Meet | kernel/fs/pipe.cpp:91-116 | a woken opener enters exactly when a peer is there or came and went; once in, it counts until it closes |
| Pipe.PipeBuffer.PollAgrees | kernel/fs/pipe.cpp:118-134 | readable exactly when read would not sleep; writable exactly when write would not, but for a full ring with only opening readers |
| Pipe.PollPromises | kernel/fs/pipe.cpp:118-134 | a reader waits to open, a writer opens and fills the ring: poll says it can be written and a write of one byte sleeps |
| PipeEnds.EndsAreHeld | kernel/fs/pipe.cpp:26-55 | a pipe has an end exactly when some process has a descriptor for it |
| PipeEnds.SharedPipe.constructor | kernel/fs/pipe.cpp:211-236 | a new pipe counts the descriptions its inode has |
| PipeEnds.SharedPipe.Execute | kernel/fs/vfs.cpp:534-551 | after any system call on descriptors the pipe counts exactly the descriptions of its inode, and who sleeps in an open still does |
| PipeEnds.SharedPipe.Settle | kernel/fs/vfs.cpp:534-551 | the descriptions a call has destroyed are closed and those it has made are opened |
| PipeEnds.PendingIsWanted | kernel/fs/pipe.cpp:57-116 | the pending counts are those asleep in an open |
| PipeEnds.SharedPipe.OpenEnd | kernel/fs/vfs.cpp:492-500 | open of a named pipe: it sleeps exactly when there is no signal and nobody has the other end open or is opening it; it opens exactly when somebody does, memory can be had and a slot is free, and the lowest free slot then names the new description; EINTR, ENOMEM and EMFILE otherwise |
| PipeEnds.SharedPipe.Wake | kernel/fs/pipe.cpp:93-116 | who is woken in an open goes on exactly when there is a peer, one has come and gone since, or a signal; it gets its descriptor exactly when it was met, memory can be had and a slot is free |
| PipeEnds.SharedPipe.Enter | kernel/sys/syscall.cpp:296-320 | the description made gets a slot, or is given up and its end closed |
| PipeEnds.SharedPipe.PeerIsSomebody | kernel/fs/pipe.cpp:93-97 | the counts the open loop tests are nonzero exactly when a process has the other end open or is asleep opening it |
| PipeEnds.SharedPipe.Run | kernel/fs/pipe.cpp:26-55 | after any sequence of opens of the named pipe, wake-ups of those asleep in one, and open, pipe, dup, close, fork, exec and exit on any descriptors: a count of readers or writers is zero exactly when no process has that end open, a count of those opening exactly when nobody is asleep in such an open |
| PipeEnds.SharedPipe.Read | kernel/fs/pipe.cpp:136-162 | end of file exactly when the ring is empty and no process has a descriptor to write to it |
| PipeEnds.SharedPipe.Write | kernel/fs/pipe.cpp:164-207 | EPIPE exactly when no process has a descriptor to read from it and none is asleep opening one; what is written goes behind what is there |
| TerminalSpec.PrintedOk | user/libui/terminal.c:349-367 | a printed character keeps the cursor within the screen and never shortens the history |
| TerminalSpec.ExecutedOk | user/libui/terminal.c:305-347 | so does any control sequence, and the history keeps its length |
| TerminalSpec.FedOk | user/libui/terminal.c:369-459 | so does any byte in any parser state |
| TerminalSpec.SplitAnywhere | user/libui/terminal.c:461-483 | a stream fed in two pieces, cut anywhere, gives the same history, cursor, pen and parser state |
| TerminalSpec.DisplayErasedAt | user/libui/terminal.c:269-288 | an erased display row by row, and no row of the scrollback |
| TerminalLaws.NumberFed | user/libui/terminal.c:388-414 | the decimal digits of a number within a control sequence are that number |
| TerminalLaws.ControlFed | user/libui/terminal.c:369-414 | a sequence with one number carries out its final byte with that number |
| TerminalLaws.TwoNumbersFed | user/libui/terminal.c:369-414 | the same with two |
| TerminalLaws.Positioned | user/libui/terminal.c:305-347 | ESC [ r ; c H leaves the cursor on row min(r, rows) and column min(c, columns), counted from one, and changes no cell |
| TerminalLaws.Stepped | user/libui/terminal.c:305-347 | the arrow sequences move that many places, at least one, and stop at the edge |
| TerminalLaws.Aligned | user/libui/terminal.c:305-347 | going to a column or a row |
| TerminalLaws.Rendered | user/libui/terminal.c:224-267 | what each rendition number does to colours and attributes, and that it does nothing else |
| TerminalLaws.LineErasedAt | user/libui/terminal.c:290-303 | cell by cell, what erasing in the line clears |
| TerminalLaws.ScreenErasedAt | user/libui/terminal.c:269-288 | cell by cell, what erasing in the display clears, and the cursor stays |
| TerminalLaws.CharacterFed | user/libui/terminal.c:349-367 | a character goes under the cursor in the pen's colours and no other cell of the screen changes |
| TerminalLaws.TextFed | user/libui/terminal.c:349-367 | a text that fits on the line appears there from the cursor on |
| TerminalLaws.LineFed | user/libui/terminal.c:177-193 | a line feed goes down a row; on the last one the screen moves up, the old rows stay in the history and a blank one comes in |
| TerminalLaws.WrapIsNewLine | user/libui/terminal.c:349-367 | a character past the end of the line is one after a carriage return and a line feed |
| TerminalLaws.TabFed | user/libui/terminal.c:431-458 | a tab goes to the next multiple of eight, or to the last column |
| TerminalLaws.ReturnFed | user/libui/terminal.c:431-458 | carriage return and backspace |
| TerminalLaws.SavedAndRestored | user/libui/terminal.c:305-347 | saving the cursor, going anywhere and restoring it brings it back |
| TerminalLaws.CursorShown | user/libui/terminal.c:305-347 | private mode 25 shows and hides the cursor, and no other does |
| Terminal.MirrorSet | user/libui/terminal.c:113-123 | writing a row of the ring writes that row of the history |
| Terminal.MirrorScroll | user/libui/terminal.c:177-193 | advancing the ring appends to the history, over the oldest row when it is full |
| Terminal.TouchedSmallest | user/libui/terminal.c:125-143 | a marked range grows to the smallest range with the old rows and the new ones |
| Terminal.CellFed | user/libui/terminal.c:269-458 | a byte that leaves a row unmarked changes no cell of it but those an erasure of the display clears |
| Terminal.CellFedAll | user/libui/terminal.c:461-483 | over a stream, a cell of such a row is what it was, or what the last erasure left |
| Terminal.RowExactly | user/libui/terminal.c:461-483 | a row left unmarked is as painted if and only if every cell cleared on it was blank already |
| Terminal.MarkedExactly | user/libui/terminal.c:461-483 | after any stream every row that differs from the last paint is marked if and only if that holds of every unmarked row |
| Terminal.SplitMarksMore | user/libui/terminal.c:461-483 | cutting a stream in two marks no row less |
| Terminal.Clear | user/libui/terminal.c:269-288 | clearing the screen leaves everything marked if and only if every row that stays unmarked was blank |
| Terminal.ClearUnmarked | user/libui/terminal.c:269-288 | a screen of two rows where it does not |
| Terminal.Grid.constructor | user/libui/terminal.c:600-655 | a blank grid of that size, all of it marked |
| Terminal.Grid.PutRow | user/libui/terminal.c:113-123 | a screen row in the ring is a row of the history |
| Terminal.Grid.EraseCells | user/libui/terminal.c:157-170 | the cells of the range, clipped to the row, blank in the pen's background |
| Terminal.Grid.Touch | user/libui/terminal.c:125-143 | the marked range of `TouchedSmallest` |
| Terminal.Grid.ScrollUp | user/libui/terminal.c:177-193 | the history grows by one blank row and everything is marked |
| Terminal.Grid.Settle | user/libui/terminal.c:349-367 | scrolls until the cursor is on the screen |
| Terminal.Grid.PutCharacter | user/libui/terminal.c:349-367 | wraps, scrolls, writes and advances as the unbounded terminal does |
| Terminal.Grid.EraseInLine | user/libui/terminal.c:290-303 | the three modes of erasing the cursor's row, marked |
| Terminal.Grid.EraseInDisplay | user/libui/terminal.c:269-288 | the three modes of erasing the screen, with the marks left alone |
| Terminal.Grid.ClearRows | user/libui/terminal.c:275-285 | the loops over whole rows |
| Terminal.Grid.ApplySgr | user/libui/terminal.c:224-267 | the loop over parameters is the fold of their meanings; none means reset |
| Terminal.Grid.Draw | user/libui/terminal.c:305-347 | the sequences that draw |
| Terminal.Grid.ExecuteCsi | user/libui/terminal.c:305-347 | a finished control sequence does what the specification says |
| Terminal.Grid.FeedGround | user/libui/terminal.c:431-458 | a byte outside any sequence |
| Terminal.Grid.FeedCsi | user/libui/terminal.c:388-414 | a byte within a control sequence, parameters capped |
| Terminal.Grid.FeedByte | user/libui/terminal.c:369-459 | the ring after a byte holds the last rows of the unbounded history after that byte, with the same cursor, pen and parser state, and exactly the rows it should are marked |
| Terminal.Grid.FeedBytes | user/libui/terminal.c:461-483 | the same for any stream |
| Terminal.Grid.Feed | user/libui/terminal.c:461-483 | and the cursor's old and new rows are marked too; if everything changed since the last paint was marked before, it is marked after if and only if the erasures in the stream did no harm, so always when there is none |
| Terminal.Grid.Paint | user/libui/terminal.c:540-586 | the rows of the clip are shown and all marks go; everything is shown if the marks were complete and the clip covers them, or the clip is the whole screen |
| HeapModel.ClassFor | kernel/mm/heap.cpp:73-80 | the smallest class that holds the size and its header, or none |
| HeapModel.BlocksApart | kernel/mm/heap.cpp:126-211 | no two blocks, live or free, share a byte |
| HeapModel.DoubleFreeCaught | kernel/mm/heap.cpp:179-186 | the first word of a free chunk never carries the magic, because links are aligned |
| HeapModel.LiveAccepted | kernel/mm/heap.cpp:179-186 | a live block's always does |
| HeapModel.PopKeeps | kernel/mm/heap.cpp:151-161 | taking the head of a free list keeps every list a chain through memory of free chunks of its class |
| HeapModel.PushKeeps | kernel/mm/heap.cpp:208-210 | so does putting a chunk in front |
| HeapModel.ClaimKeeps | kernel/mm/heap.cpp:84-102 | new pages that nobody has become the heap's |
| HeapModel.SetBlockKeeps | kernel/mm/heap.cpp:126-162 | a block on no list may appear or change what it is |
| HeapModel.RemoveKeeps | kernel/mm/heap.cpp:172-211 | a block given back leaves its memory to nobody |
| HeapModel.TotalWithout | kernel/mm/heap.cpp:126-211 | the bytes in use are the sum over live blocks, whatever the order |
| KernelHeap.Allocator.constructor | kernel/mm/heap.cpp:112-120 | an empty heap |
| KernelHeap.Allocator.Refill | kernel/mm/heap.cpp:84-102 | a page cut into chunks of the class, all free; no live block changes |
| KernelHeap.Allocator.Allocate | kernel/mm/heap.cpp:126-162 | a payload in a block nobody had, every other live block kept, bytes in use up by the size; null exactly for size zero, a class with no free block when no page comes, or a large size when no run comes |
| KernelHeap.Allocator.AllocateChunk | kernel/mm/heap.cpp:151-161 | the same from a class, refilled if empty |
| KernelHeap.Allocator.AllocateRun | kernel/mm/heap.cpp:137-149 | the same from whole pages |
| KernelHeap.Allocator.Malloc | kernel/mm/heap.cpp:126-162 | the same with the records of aligned blocks undisturbed |
| KernelHeap.PayloadApart | kernel/mm/heap.cpp:126-162 | a payload handed out is clear of every block that was live |
| KernelHeap.Allocator.Release | kernel/mm/heap.cpp:172-211 | panics exactly on a free chunk; otherwise exactly that block is given back and bytes in use go down by its size |
| KernelHeap.Allocator.Kfree | kernel/mm/heap.cpp:172-211 | the same, and null does nothing |
| KernelHeap.Allocator.MallocAligned | kernel/mm/heap.cpp:239-270 | page-aligned pages big enough, with a record in its bucket; bytes in use up by both; null exactly for size zero, when no run comes, or when no record can be had |
| KernelHeap.Allocator.FindRecord | kernel/mm/heap.cpp:280-285 | the first record of that address in the bucket |
| KernelHeap.Allocator.FreeAligned | kernel/mm/heap.cpp:272-294 | exactly an aligned block and its record go, and the pages to free are those it was given; anything else panics with no change |
| HeapPages.FreshFrames | kernel/mm/heap.cpp:84-102 | frames that were free are memory the heap does not have |
| HeapPages.BlockTaken | kernel/mm/heap.cpp:172-211 | a block of whole pages lies on frames that exist and are taken |
| HeapPages.BackedMore | kernel/mm/heap.cpp:172-211 | frames nothing of the heap lies on may be freed |
| HeapPages.KernelMemory.constructor | kernel/mm/heap.cpp:112-120 | an empty heap on any page allocator |
| HeapPages.KernelMemory.Kmalloc | kernel/mm/heap.cpp:126-162 | a payload in a block nobody had; null exactly for size zero, or when the class has no free block and no page is free, or when a large size finds no run of free pages; all heap memory stays on taken frames |
| HeapPages.KernelMemory.MallocRun | kernel/mm/heap.cpp:137-149 | a large block, null exactly when no run of that many pages is free, and then nothing changes |
| HeapPages.KernelMemory.MallocChunk | kernel/mm/heap.cpp:151-161 | a chunk, null exactly when the class is empty and no page is free, and then nothing changes |
| HeapPages.KernelMemory.Kfree | kernel/mm/heap.cpp:172-211 | panics exactly on a free chunk; a large block gives back exactly its frames, none of which the page allocator finds free; any other leaves the free frames alone |
| HeapPages.KernelMemory.FreeFrames | kernel/mm/physical.cpp:240-255 | the frames of a block the heap has let go are freed without the double-free panic |
| HeapPages.KernelMemory.KmallocAligned | kernel/mm/heap.cpp:239-270 | page-aligned pages with a record, or null with heap and free frames as before; null exactly for size zero, when no such run is free, or when the record's class has no free block and the run would take every free page |
| HeapPages.KernelMemory.MallocRecord | kernel/mm/heap.cpp:253-270 | the record for pages already taken, null exactly when there is nowhere to put it |
| HeapPages.KernelMemory.KfreeAligned | kernel/mm/heap.cpp:272-294 | exactly the frames of an aligned block are freed; anything else panics and changes nothing |
| LineDiscipline.Discipline.PushReady | kernel/dev/line_discipline.cpp:62-69 | a byte goes to the end of the ring, or is lost when it is full |
| LineDiscipline.Discipline.CommitLine | kernel/dev/line_discipline.cpp:71-77 | the whole line goes to the ring and the line is empty |
| LineDiscipline.PushAccounted | kernel/dev/line_discipline.cpp:62-77 | bytes pushed are all there to be read, in order, or some are missing, exactly when they do not all fit |
| LineDiscipline.Discipline.Commit | kernel/dev/line_discipline.cpp:71-77 | and bytes are missing from what was committed exactly when they did not fit |
| LineDiscipline.Discipline.Feed | kernel/dev/line_discipline.cpp:95-165 | a byte edits as the pure editing function says; bytes delivered followed by bytes ready are the committed lines, or fewer exactly if the ring overflowed; signals and end of input are exact |
| LineDiscipline.Discipline.FeedCanonical | kernel/dev/line_discipline.cpp:129-165 | the same for canonical mode |
| EditLaws.PlainTyped | kernel/dev/line_discipline.cpp:129-165 | plain bytes are put on the line, as far as there is room |
| EditLaws.ErasesTyped | kernel/dev/line_discipline.cpp:129-135 | each erase takes one byte off the end and stops at the beginning |
| EditLaws.LineCommits | kernel/dev/line_discipline.cpp:95-165 | plain bytes, any number of erases and a newline commit exactly the bytes less as many, and the newline |
| EditLaws.Discards | kernel/dev/line_discipline.cpp:100-143 | what came before a kill, or before a byte that raises a signal, is never committed |
| EditLaws.EofCommits | kernel/dev/line_discipline.cpp:145-151 | an end-of-file byte commits the line as it stands, with no newline, and ends the input exactly on an empty line |
| EditLaws.RawCommits | kernel/dev/line_discipline.cpp:95-127 | without editing, every byte that raises no signal is committed as it comes |
| EditLaws.ReturnIsNewline | kernel/dev/line_discipline.cpp:95-98 | a carriage return is a newline where it is to be one |
| EditLaws.Raises | kernel/dev/line_discipline.cpp:100-107 | which byte raises which signal, and which takes precedence |
| LineDiscipline.Discipline.Read | kernel/dev/line_discipline.cpp:172-223 | delivers the oldest ready bytes; sleeps exactly when `has_input` is false; a background reader is interrupted; an end of file is delivered once and then spent |
| LineDiscipline.Discipline.Serve | kernel/dev/line_discipline.cpp:200-223 | the same for a reader that may read |
| LineDiscipline.Discipline.Claim | kernel/dev/line_discipline.cpp:178-198 | a reader is allowed when the terminal is its group's or nobody's any more |
| LineDiscipline.Discipline.Take | kernel/dev/line_discipline.cpp:217-222 | as many bytes as there are and as fit |
| LineDiscipline.Discipline.CopyOut | kernel/dev/line_discipline.cpp:217-221 | the copying loop |
| UserStack.SetupUserStack | kernel/sys/elf_loader.cpp:182-283 | decoding the image at rsp gives exactly argc, argv, envp and the auxiliary vector; rsp is 16-aligned, vectors and strings are apart and within the stack; E2BIG exactly when there is too much |
| UserStack.BuildStack | kernel/sys/elf_loader.cpp:182-283 | the same for any auxiliary vector of that length |
| UserStack.Measure | kernel/sys/elf_loader.cpp:190-205 | the counting loops give the packed length or too many |
| UserStack.LayoutFits | kernel/sys/elf_loader.cpp:231-250 | the rounded areas fit, do not overlap and end at the top of the stack |
| UserStack.Fill | kernel/sys/elf_loader.cpp:247-274 | the moving cursors fill every area as it should be |
| UserStack.WriteStrings | kernel/sys/elf_loader.cpp:251-270 | strings packed one after the other, a pointer to each, and a null |
| UserStack.WriteAuxiliary | kernel/sys/elf_loader.cpp:272-274 | the auxiliary pairs fill the rest |
| UserStack.StringsRead | kernel/sys/elf_loader.cpp:251-270 | a vector of pointers into packed strings reads back as those strings |
| UserStack.AuxiliariesRead | kernel/sys/elf_loader.cpp:272-274 | the pairs read back up to the terminator |
| UserStack.AuxiliaryTags | kernel/sys/elf_loader.cpp:207-228 | what a program finds under the tags for its headers, the page size and its entry |
| UserStack.AuxiliaryZeroes | kernel/sys/elf_loader.cpp:207-228 | and that the ids, base, flags and secure tags are zero |
| UserStack.Readable | kernel/sys/elf_loader.cpp:182-283 | an image filled that way decodes to what went in |
| ProgramStart.BytesRoundTrip | kernel/sys/elf_loader.cpp:30-49 | a word that fits its bytes reads back from them |
| ProgramStart.ImageShows | kernel/sys/elf_loader.cpp:30-49 | a space that reads as the bytes of an image shows every word and string of it where it should be |
| ProgramStart.TextsRead | kernel/sys/elf_loader.cpp:251-270 | in memory that shows an image, a vector of pointers and the strings behind them are those that went in |
| ProgramStart.PairsRead | kernel/sys/elf_loader.cpp:272-274 | the auxiliary pairs likewise, up to the terminator |
| ProgramStart.ProgramReads | kernel/sys/elf_loader.cpp:182-283 | where a space reads as an image's bytes, a program starting there finds argc, argv, envp and the auxiliary vector |
| ProgramStart.WordsFit | kernel/sys/elf_loader.cpp:182-283 | every word of an image fits 64 bits |
| ProgramStart.StackMapped | kernel/sys/elf_loader.cpp:182-189 | once the stack is mapped every byte of the image is on a page of the space's own |
| ProgramStart.FillingUnseen | kernel/mm/address_space.cpp:114-142 | filling a range in one space changes nothing another space reads |
| ProgramStart.CopyImage | kernel/sys/elf_loader.cpp:30-49 | the copy into the new space cannot fail; the space then reads as the image and no other space reads anything new |
| ProgramStart.Place | kernel/sys/elf_loader.cpp:190-283 | all of it once the stack is mapped |
| ProgramStart.SetUp | kernel/sys/elf_loader.cpp:182-283 | succeeds exactly when the frames of the stack are free, the strings are not too big and the buffer can be had, with ENOMEM or E2BIG otherwise; then a program that starts with that 16-aligned rsp finds, byte by byte through the page tables, exactly argc, argv, envp and the auxiliary vector; no other space reads anything new |

## Left out

- Hardware effects: CR3, TLB and MSR writes, FPU state, device ports, framebuffers. There is no property here that depends on them.
- The kernel half of the page tables is one constant of 256 entries shared by all spaces; the direct map, module windows and MMIO are not modelled.
- Outside `HeapPages`, whether a heap object, a page or a copy to user memory can be had is a parameter of the operation that asks.
- Start-up of the page allocator (`physical_initialize`, `apply_to_range`).
- AddressSpaces.AddressSpaces.MapAnonymous: ranges are given in whole pages, as for `UnmapRange` and `Protect`; rounding of byte addresses is modelled in `ValidateUserRange` alone.
- AddressSpaces.AddressSpaces.Map: user half only; the caller vouches for the frame, either foreign and owned elsewhere or private and not yet mapped.
- AddressSpaces.AddressSpaces.Protect: over a range it requires that the new flags keep the foreign bit and do not add user access, and `Run` refuses other requests. `sys_mmap` can ask for others; what one page of them does is in `ProtectPage`, and of what runs after it only the end of the space, in `ProtectThenDestroy`.
- ForeignFrames.ProtectThenDestroy: for a frame that no other page is on; with several the account of that frame is not followed.
- AddressSpaces.AddressSpaces.Translate: user addresses only, so the walk through huge kernel pages is not modelled.
- AddressSpaces.AddressSpaces.DestroyTable: the three nested loops are one recursion over levels; the same holds for `CloneTable`.
- UserCopy.CopyInto: requires the target pages not to be foreign, since writing through a foreign page is seen by every space that shares it.
- Frames are freed exactly once, but leaks are not excluded: `unmap` frees no frame and the top-level table of a space is never freed.
- The scheduler is a state machine on values, and its intrusive lists are sequences with the nodes' flags; `IntrusiveList.dfy` has the pointers. Lists of different element types in one run are not tied together through the heap.
- Scheduler: signals and continues go to threads that still exist, as the process holds its main thread; a wake-up from an interrupt handler is one step, since nothing runs in between on one processor. `wake_one` is modelled although nothing calls it.
- The scan of `sys_poll` over descriptors is only the reading of the generation before it and the wait after it.
- Pending and masked signal words (`raise_signal`, `take_pending_signal`, `set_signal_mask`) and what stopping does to a process.
- Signals.UserThread.SigReturn: user memory is cells of eight bytes, so a context at an address that is not a multiple of eight away from the original one is not read byte by byte.
- Signals.HandlerUnwinds: the program's own steps may do anything but write over a saved context or go above it with the stack. A handler starts with rsp a multiple of 16, where the psABI has it eight off; the model follows the code.
- Reference counts of inodes in the directory tree, children made in an unlinked directory, `resolve_parent` and its trailing slashes, links and permissions.
- Tmpfs.Filesystem.Rename: is called, as in the code, behind the ancestor walk and within one filesystem; `RenameChecked` has no such requirement.
- Namespace.RoundTripExactly: worlds with a mount on the root of another filesystem or on the global root are outside `Sound`.
- The flags `open` checks, O_SETFL flags and file offsets; the failure of a fork after its descriptors are copied.
- Pipe.PipeBuffer.Meet: returning from `await_peer` and making the description are one step. Openers that do not wait do not count as arrivals, as in the code.
- Pipe.PipeBuffer.Read: from one blocking point to the next; `Write` likewise.
- PipeEnds.SharedPipe.Run: the pipe hears of a system call once it is over; new descriptions get names nobody has, and nobody opens the pipe after its inode is gone.
- Terminal.Grid.FeedBytes: parameters of control sequences are unbounded integers.
- Terminal.Grid.Paint: only which rows are shown and what becomes of the marks, for a clip as wide as the screen and a view that is not scrolled back.
- KernelHeap.Allocator.Kfree: of a pointer that was never given out, or of a large block given back before, the model says nothing; the same for `HeapPages.KernelMemory.Kfree`. `krealloc`, `kzalloc` and the contents of payloads are not modelled.
- KernelHeap.Allocator.MallocAligned: for alignments above 16 up to a page; below that the code calls `kmalloc` and above it panics.
- PagedFile.File.Write: offsets are unbounded and no page is mapped shared.
- LineDiscipline.Discipline.Feed: with fixed settings; echo and window size are not modelled.
- UserStack.SetupUserStack: words are kept as words; `ProgramStart.SetUp` maps the stack and has the bytes. Loading of ELF segments is not modelled.
- ProgramStart.SetUp: no page of the stack is foreign beforehand, as in a space just made.
