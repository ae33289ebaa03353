# Verified models of the OSLoader pager, scheduler kernel and page codec

This project models the three parts of the OSLoader whose correctness is hardest to see from their code,
and proves what they are for.

* **The page codec** (`QuickLz*.dfy`): QuickLZ at level 1, in the branch without streaming for a 32-bit
  processor other than x86. The compressor sends hash-bucket numbers instead of distances, so the
  decompressor must rebuild the compressor's dictionary as it goes, two bytes behind. Proved: every
  accepted input comes back unchanged, whatever the buffers and tables held before, no packet is more than
  400 bytes longer than its input, and the compressor takes every copy that its dictionary offers, in full
  length, and gives up just when a ratio test fails.
* **The demand pager** (`MmuTable`, `MmuAges`, `Mmu`, `LruList`, `Pager`, `PagerTheory`, `PagerSteps`,
  `PagerAccess`, `PagerRuns`, `PagerFaults`, `PagerRomList`, `PagerService`, `PagerProgress`, `PagerPair`,
  `PagerCorrespondence`, `PagerCalm`, `PagerExamples`, `PagerLostWrite`, `PagerCodec`, `VmMgr`): 40 RAM and 160 ROM frames of 1 KB stand for 3 MB and 6 MB, over a compressed store
  in memory and a swap area on flash, behind a page table of whose first level only eight entries exist in
  hardware. Proved: over any run of accesses, faults and flash operations, with any number of faults queued,
  accesses going on while a service waits for the flash memory, and flash operations that may fail, what was
  written last is what is read, until an event does harm; for each kind of event exactly when it does; and
  runs in which it does. Every service brings its access nearer to completion or ends in the right report,
  and what one page needs does not undo what was done for another.
* **The scheduler kernel** (`List`, `Rings`, `MessageQueue`, `QueueProtocol`, `QueueSafety`, `QueueAnswers`,
  `Ticks`, `TickRuns`, `TaskClock`, `TaskLists`, `TaskOrder`, `TaskTable`, `TimeOuts`, `TimerLists`,
  `TimerClock`, `TimerRuns`, `TimerCommands`, `TimerDaemon`, `EventBits`, `EventGroup`): FreeRTOS as configured
  here. Proved: no wake-up is lost at a queue, and a call on it fails only when its time is over; delays end on
  the exact tick across the wrap of the 32-bit count, ticks deferred have the effect they would have had on
  arrival; the ready lists and their bitmap agree, and stand for a plain table of tasks with an order of turn;
  timers fire once per period and never early, from the time that a command sets, and not after a stop that
  holds; and setting event bits releases exactly the tasks whose condition holds.

`dafny verify dfyconfig.toml` checks everything.

## How the models are built

Each component has a specification made of values and functions, on which the theorems are proved, and, for
the code that updates its variables in place, classes whose methods follow that code statement by statement.
A class's `View()` (for the queue `Contents()` and `Control()`) gives the value its fields stand for, and
each method states its whole new view by the specification's function of the old one. So the theorems about
runs of the functions are theorems about runs of the methods.

The service of a page fault waits for the flash memory in up to three places: for the sector of the page that
it evicts to be read, for that sector to be written back, and for the sector or image page of the new page.
The pager is cut there. `Pager.Begin` takes a service up to its first wait, `Pager.GoOn` from one wait to the
next, with what came of the flash operation, and between them any task may read and write. The methods of
`VmMgr.Manager` are the same parts of `vmMgr_task`, and `ServeFault` strings them together.

Interrupts and other tasks are steps between critical sections. The ticks, the allocator's answers, the
choice of the next task to run and the position a priority gives in a list are parameters, and every value
of them is allowed for.

## What was found

* A byte written to a page while the page is on its way to flash is lost, though no fault is out of date and
  the flash memory does not fail. The sector is written back from a copy, the page stays mapped writable
  meanwhile (`OSLoader/VmMgr/vmMgr.c:417-419`), and after it the page counts as clean and is unmapped (450,
  755). The end of a successful write-back does harm iff a written byte of the page is not what was copied
  (`PagerCalm.LostWriteIff`, and `PagerCalm.LostInRun` over any run). `PagerLostWrite.OvertakenWriteLost` is a
  run from start-up with one fault at a time in which this happens.
* Faults are queued. A miss in the RAM area that is served although its page has got a frame meanwhile gives
  the page a second one, loaded from the store, unless its own frame happens to be the victim
  (`PagerCorrespondence.StaleMissIff`). That costs a byte iff the store does not have the page's written bytes
  (`PagerSteps.MissIff`, `PagerSteps.RamLoadIff`): what is read next is what the store has
  (`PagerService.MissShows`, `PagerService.WrongLoadIsRead`). It takes no more than two faults in one segment that is not resident: the first
  service brings the segment in, and the second takes the mapped page for an unmapped one
  (`PagerExamples.TwoFaultsLoseByte`). In the ROM area a page can get a second frame too
  (`PagerCorrespondence.StaleRomMissIff`), but nothing is read wrong on that account
  (`PagerSteps.RomMissKeeps`).
* A write fault for the page of a frame that stands at the end of the RAM list with the forward link it had in
  the middle is another matter. The code takes it for a frame of the middle and links it to itself; after that a
  search for any other page does not end (`LruList.MoveTailLoops`). Two write faults for one page suffice
  (`PagerExamples.TwoFaultsLoopList`).
* The results of flash operations are not looked at (417, 419, 804, 720). After a failed write the page counts
  as saved and its task resumes; after a failed read the page that shares the sector is overwritten with
  whatever the buffer held. `PagerService.SaveOutcome` says what the store has then, and
  `PagerService.SaveSurvivesIff` when nothing is lost. A miss resumes its task iff its victim is not refused a
  block or the swap area, whatever the flash memory answers (`PagerService.ResumesIff`).
* None of this happens with one fault outstanding at a time, a flash memory that does not fail, and no write to
  a page on its way to flash (`PagerCalm.OneAtATime`). A write fault served after its page was evicted leaves
  the task suspended for good (`PagerCorrespondence.WriteFaultAnswered`).
* Switching the swap area off does harm iff some written page above the compressed store is not at that moment
  mapped writable (`PagerAccess.DisableSwapKeepsIff`). Such a page comes back with whatever its new frame held
  (`PagerService.MissShows`, and `PagerExamples.SwapOffLosesByte` for a state).
* Resetting a queue in use wakes one sender, however much room there is. The senders' half of the
  no-lost-wake-up property survives the reset iff at most one sender is waiting, or as many have already
  been woken as there will be free places but one (`QueueSafety.ResetBalance`, with a queue of two as the
  example in `QueueSafety.ResetStrandsSender`).
* The time-out check is exact less than 2^32 ticks after the last one. After that it is right iff the
  overflow is seen or the rest of the time alone is as long as the wait (`TimeOuts.CheckRightIff`, and
  `TimeOuts.LateCheckMisses` for a case in which it is wrong).
* When a wait for a mutex times out, the reset of the ready bit names the holder's priority after the change
  (`OSLoader/Scheduler/tasks.c:4328`). The bitmap stays right iff the holder was not alone on the ready list
  it leaves (`TaskLists.AfterTimeoutKeepsIff`); else the selection may come to an empty list
  (`TaskLists.StaleBitSelected`). The task whose wait timed out is normally ready at that same priority
  (`TaskLists.SharedPriorityKeeps`), but not if its priority was raised while it waited
  (`TaskLists.RaisedWaiterStalls`, a whole run).
* A stop of a timer need not be the last word. If the daemon is late by a period when it fires the timer, it
  sends itself a restart, which stands behind a stop that is in its queue already
  (`OSLoader/Scheduler/timers.c:524`); obeyed after it, the restart sets the timer going again
  (`TimerCommands.StopOvertaken`). A stop holds iff no start or change of period of the timer is obeyed after
  it (`TimerCommands.StopHoldsIff`).
* `xTimerIsTimerActive` is documented to call an expired one-shot timer dormant
  (`OSLoader/Scheduler/include/timers.h:417-419`). It does so iff the timer expired at the head of its list, not
  if it was fired at a switch of the lists or by a start that came too late (`TimerCommands.OneShotDormantIff`,
  and `TimerCommands.OneShotStaysActive` for a case).
* Setting the priority of a task that has inherited one to more than it has inherited leaves it at what it has
  inherited until it gives its mutexes back (`OSLoader/Scheduler/tasks.c:1653-1668`). Every other change keeps a
  task at least at its base priority (`TaskOrder.AtLeastBaseIff`, and `TaskOrder.RaiseNotUsed` for a case).
* A delay counts from the last tick processed, so that one made while ticks are pended ends that many ticks
  early by the real clock (`TickRuns.DeferredAsOnArrival`, which shortens it by them on the other side).

## Model

| member | source | states |
|---|---|---|
| QuickLzParse.MatchLenCopies | OSLoader/VmMgr/quicklz.c:306-350 | a match is a true copy of the bytes at its offset, at least 3 and at most 255 long, and ends before the last four bytes of the input |
| QuickLzParse.ParseCovers | OSLoader/VmMgr/quicklz.c:275-543 | literals and matches together cover the input exactly, and are all of encodable length |
| QuickLzParse.TailIsLiteral | OSLoader/VmMgr/quicklz.c:264-275 | where ten bytes or fewer are left no match starts: what remains is one literal for each byte, in order |
| QuickLzParse.EnterAllIsLast | OSLoader/VmMgr/quicklz.c:228-255 | what the table holds after a range of positions was entered: for each bucket the last of them that hashes to it, or the old entry |
| QuickLzGreedy.GreedyIff | OSLoader/VmMgr/quicklz.c:264-350 | the parse is greedy, without reference to the table: where more than ten bytes are left, an item is a copy iff the last item before it that starts with the same hash agrees in three bytes and starts more than two bytes back, or one byte back in a run after three literals; the copy goes on until the bytes differ, it is 255 long or four bytes are left; otherwise the item is the next byte |
| QuickLzGreedy.GivenUpIff | OSLoader/VmMgr/quicklz.c:279-281 | compression is given up iff at some full control word past the half of the input, with a copy still possible, the stream so far is longer than 31/32 of what it stands for |
| QuickLzFormat.ControlWordIsBits | OSLoader/VmMgr/quicklz.c:283-287 | a control word is the group's item kinds as bits, the first lowest, under a sentinel |
| QuickLzFormat.StreamAppend | OSLoader/VmMgr/quicklz.c:277-287 | the stream of more items extends that of fewer, with control words patched in behind |
| QuickLzFormat.FoldTells | OSLoader/VmMgr/quicklz.c:92-99 | the hash folds a word of 24 bits in two: of two words that agree in one half it tells every difference in the other |
| QuickLzBound.StreamWithinBudget | OSLoader/VmMgr/quicklz.c:279-281 | a stream that was never given up on stays within a budget that the half-way ratio test enforces |
| QuickLzBound.CoreWithinBound | OSLoader/VmMgr/quicklz.c:257-552 | the core writes at most 24 bytes more than its input, on every input |
| QuickLzRoundTrip.HashUpToAgrees | OSLoader/VmMgr/quicklz.c:247-255 | the decoder's catching up with its table gives what the encoder's table holds up to the same position |
| QuickLzRoundTrip.SourceAgrees | OSLoader/VmMgr/quicklz.c:596-611 | dictionary agreement: at a match decoded at p the decoder's bucket holds the encoder's offset o when o <= p - 3, and p - 3 when o = p - 1 inside a run of equal bytes; either way the copy is the same, and the bucket was filled in this run |
| QuickLzRoundTrip.RunRepeats | OSLoader/VmMgr/quicklz.c:58-64 | a match one byte back continues a run of equal bytes, so that copying from three back gives the same |
| QuickLzRoundTrip.CopyUpRepeats | OSLoader/VmMgr/quicklz.c:204-224 | a byte-by-byte upward copy over an overlap reproduces the source's bytes |
| QuickLzRoundTrip.LeadingLiterals | OSLoader/VmMgr/quicklz.c:563-697 | `bitlut` gives the number of leading literals among the next four items, for every control word |
| QuickLzRoundTrip.CopyKeeps | OSLoader/VmMgr/quicklz.c:591-684 | decoding a match keeps decoder and encoder in step |
| QuickLzRoundTrip.LiteralKeeps | OSLoader/VmMgr/quicklz.c:687-701 | decoding up to four literals at once, with overwriting ahead, keeps them in step |
| QuickLzRoundTrip.TailDecodes | OSLoader/VmMgr/quicklz.c:702-725 | the all-literal tail is copied out, across control words that are skipped unread |
| QuickLzRoundTrip.LoopDecodes | OSLoader/VmMgr/quicklz.c:570-728 | from any state in step with the encoder the decoder ends with the whole input |
| QuickLzRoundTrip.CoreRoundTrip | OSLoader/VmMgr/quicklz.c:554-729 | decoding the encoder's stream gives the input |
| QuickLzPacket.OutputBound | OSLoader/VmMgr/quicklz.c:737-799 | a packet is at most 400 bytes longer than its input, and at most 255 bytes when the input is shorter than 216, which gets the short header, so its length fields are exact; it is as long as header and stored bytes, a stream of fewer than nine bytes counting as nine |
| QuickLzPacket.HeaderRoundTrip | OSLoader/VmMgr/quicklz.c:179-202 | the sizes read back from a header are the packet's and the input's, and its other fields say level 1 without streaming (790-803) |
| QuickLzPacket.RoundTrip | OSLoader/VmMgr/quicklz.c:731-849 | decompressing a buffer that begins with the packet of x gives x, whatever follows and whatever destination and table held |
| QuickLzCompressor.FindMatchLen | OSLoader/VmMgr/quicklz.c:308-339 | the loop finds the match length: three bytes are known to agree, the next are tried one by one, and from the sixth on up to 255 and four short of the end |
| QuickLzCompressor.Probe | OSLoader/VmMgr/quicklz.c:293-306 | the table lookup takes a match exactly when the parse does, and leaves the parse's table |
| QuickLzCompressor.CompressCore | OSLoader/VmMgr/quicklz.c:257-509 | the main loop, table and output updated in place, writes the stream of the greedy parse as far as a match may start, or gives up exactly when the parse meets a poor ratio |
| QuickLzCompressor.FinishCore | OSLoader/VmMgr/quicklz.c:510-551 | the tail loop and the last control word complete the stream |
| QuickLzCompressor.Compress | OSLoader/VmMgr/quicklz.c:731-809 | the destination ends up holding the packet of the source, whose length is returned; 0 for an empty or too long one |
| QuickLzCompressor.CompressState.Reset | OSLoader/VmMgr/quicklz.c:66-77 | no bucket of an earlier run survives |
| QuickLzDecompressor.MemcpyUp | OSLoader/VmMgr/quicklz.c:204-224 | the copy loop leaves what copying upwards byte by byte leaves, also where source and destination overlap |
| QuickLzDecompressor.UpdateHashUpTo | OSLoader/VmMgr/quicklz.c:226-255 | the loop enters every position after the last one hashed, up to the one asked for, and no other |
| QuickLzDecompressor.DecompressCore | OSLoader/VmMgr/quicklz.c:554-729 | the decoding loop, in place, ends with the bytes and the verdict of the decoder on values that the round trip is proved about |
| QuickLzDecompressor.DecompressInto | OSLoader/VmMgr/quicklz.c:811-849 | the destination ends up holding the decompressed bytes |
| QuickLzDecompressor.ThereAndBack | OSLoader/VmMgr/quicklz.c:731-849 | compressing and then decompressing, both in place, gives the source back |
| MmuTable.TinyPageFields | OSLoader/VmMgr/mmu.c:362-430 | a page table entry's address and permission read back |
| MmuTable.TinyPageBits | OSLoader/VmMgr/mmu.c:362-430 | and so do its cache and buffer bits |
| MmuTable.IndexInjective | OSLoader/VmMgr/mmu.c:362-430 | every page of a registered segment has an entry of its own |
| MmuTable.BringInRefines | OSLoader/VmMgr/mmu.c:324-348 | bringing a segment in keeps slot 0 on segment 0, slots 1 to 7 on distinct segments and every resident entry equal to its backup, and changes no page's entry |
| MmuTable.WalkRefines | OSLoader/VmMgr/mmu.c:450-471 | the hardware walk finds what a complete table would hold, and misses exactly the segments that are not resident |
| MmuTable.PutEntryRefines | OSLoader/VmMgr/mmu.c:311-430 | mapping or unmapping updates the complete table at that page and nowhere else |
| MmuTable.RunRefines | OSLoader/VmMgr/mmu.c:311-471 | after any sequence of maps, unmaps and reloads, lookup with reload on a miss equals lookup in an ordinary table |
| MmuAges.OpAges | OSLoader/VmMgr/mmu.c:311-471 | one map, unmap or reload: a segment that it brings in is the youngest; every other resident one grows older by one and goes if it was the oldest of the seven; if none is brought in nothing changes |
| MmuAges.ResidentSeven | OSLoader/VmMgr/mmu.c:311-471 | in any run of maps, unmaps and reloads, a segment that was brought in stays resident until seven others have been brought in after it, and no longer |
| MmuAges.CodeSays | OSLoader/VmMgr/mmu.c:450-471 | what a reload reports: 0 for a segment that is not registered, 1 for a resident one, 2 iff it has brought it in |
| Mmu.Unit.IncPtr | OSLoader/VmMgr/mmu.c:20 | the next entry to move goes round 1 to 7, which `MmuAges.ResidentSeven` makes of the order of eviction |
| Mmu.Unit.ReloadDflptSeg | OSLoader/VmMgr/mmu.c:450-471 | reload brings the segment in, in the entry whose turn it is, and reports whether it had to; over runs of them that is `MmuAges.ResidentSeven` |
| Mmu.Unit.MapPage | OSLoader/VmMgr/mmu.c:362-430 | the page's entry is written, its segment brought in first; segment 0 is left alone |
| Mmu.Unit.UnmapPage | OSLoader/VmMgr/mmu.c:311-360 | the page's entry is cleared, its segment brought in first |
| Mmu.Unit.SetL1Pte | OSLoader/VmMgr/mmu.c:200-269 | registering the segments one by one keeps the last seven resident and all of them backed up |
| Mmu.Unit.Init | OSLoader/VmMgr/mmu.c:475-551 | initialisation establishes the invariant from any power-up contents |
| LruList.TouchPermutes | OSLoader/VmMgr/vmMgr.c:247-306 | moving a frame to the tail keeps every frame on the list exactly once |
| LruList.TouchIndex | OSLoader/VmMgr/vmMgr.c:247-306 | where every frame stands after one was moved |
| LruList.BehindWasMoved | OSLoader/VmMgr/vmMgr.c:247-306 | what stands behind a frame was moved after it |
| LruList.EvictedLast | OSLoader/VmMgr/vmMgr.c:260-272 | a frame is evicted only after every other frame was moved behind it since its own last move |
| LruList.MoveHeadLinks | OSLoader/VmMgr/vmMgr.c:260-272 | the pointer updates for the head keep the backward chain complete and the forward chain right but for the tail's link |
| LruList.MoveMiddleLinks | OSLoader/VmMgr/vmMgr.c:295-302 | and so do those for a frame from the middle, which keeps its old forward link |
| LruList.MoveTailLoops | OSLoader/VmMgr/vmMgr.c:295-302 | the same updates made for the tail, on account of a stale forward link, leave no list in any order, and the way back from the tail never leaves it, so that a search for any other page does not end |
| LruList.FrameList.Reset | OSLoader/VmMgr/vmMgr.c:576-611 | all frames unused and linked in the order of their numbers |
| LruList.FrameList.GetPageAndMoveToTail | OSLoader/VmMgr/vmMgr.c:260-272 | the head is taken and goes last, with a fresh forward link |
| LruList.FrameList.MoveToTail | OSLoader/VmMgr/vmMgr.c:291-306 | the frame goes last, and what becomes of the tail's forward link; the frames stay on a list iff the frame was not a tail with a stale link |
| LruList.FrameList.Search | OSLoader/VmMgr/vmMgr.c:319-329 | the frame nearest the tail that holds the page, or none does |
| PagerTheory.GiveIff | OSLoader/VmMgr/vmMgr.c:755-829 | once the victim has been seen to, giving its frame to another page keeps the invariant iff the store has every written byte that depends on it from then on: the victim's, those of pages not mapped writable, and the new page's if it is had at once |
| PagerSteps.ReloadKeeps | OSLoader/VmMgr/vmMgr.c:683-688 | the reload of a first-level miss changes nothing that is read |
| PagerSteps.MissIff | OSLoader/VmMgr/vmMgr.c:739-829 | a RAM miss up to its first wait, up to date or not, keeps the invariant iff the store then has the victim's written bytes and those of the page brought at once; or, if the victim is refused a block, iff no written page depended on its old one |
| PagerSteps.RefusedIff | OSLoader/VmMgr/vmMgr.c:380-423 | a victim that is refused a block or the swap area stays where it was and the task is reported; its old block is lost, which does harm iff a written page depended on it |
| PagerSteps.WriteBackIff | OSLoader/VmMgr/vmMgr.c:419-450 | the end of a write-back, successful or not, keeps the invariant iff the store then has the victim's written bytes, whatever was written to it meanwhile, those of the page that shares its sector unless that is mapped writable, and those of the page brought at once |
| PagerSteps.RamLoadIff | OSLoader/VmMgr/vmMgr.c:803-829 | the end of a load from the swap area keeps the invariant iff the page's written bytes are in what has come and in the store |
| PagerSteps.RomMissKeeps | OSLoader/VmMgr/vmMgr.c:709-720 | the first part of a ROM miss keeps it always, also for a page that is in another frame |
| PagerSteps.RomLoadIff | OSLoader/VmMgr/vmMgr.c:720-737 | and the second iff the page of the image has come |
| PagerAccess.WriteFaultDirties | OSLoader/VmMgr/vmMgr.c:929-953 | a write fault marks the frame nearest the tail that holds the page dirty, moves it and maps the page writable to it, or finds none and changes nothing |
| PagerAccess.WriteFaultIff | OSLoader/VmMgr/vmMgr.c:929-953 | a write fault, up to date or not, keeps the invariant iff its page is not in a tail with a stale forward link and that frame shows the page's written bytes; for such a tail the list is linked to itself |
| PagerAccess.StoreKeeps | OSLoader/VmMgr/vmMgr.c:672-953 | a write through a writable mapping updates the flat memory at its address and nowhere else |
| PagerAccess.LoadCorrect | OSLoader/VmMgr/vmMgr.c:672-953 | a completed read of a written address gives the byte written last, of the ROM area the image's byte |
| PagerAccess.EnableSwapKeeps | OSLoader/vectors.c:167-173 | the swap area may be switched on at any time |
| PagerAccess.DisableSwapKeepsIff | OSLoader/vectors.c:167-173 | switching it off keeps the invariant iff every written page above the compressed store is mapped writable |
| PagerRuns.GoOnWaits | OSLoader/VmMgr/vmMgr.c:416-829 | a service that has begun to wait ends by resuming its task, whatever the flash memory answers |
| PagerRuns.BeginKeepsIff | OSLoader/VmMgr/vmMgr.c:677-999 | the first part of the service of any fault, however old and of whatever kind, keeps the invariant iff it is fine as the page's miss or write fault |
| PagerRuns.GoOnKeepsIff | OSLoader/VmMgr/vmMgr.c:416-829 | each later part keeps it iff it is fine as the end of the flash operation, whatever happened while that was waited for |
| PagerRuns.StepKeepsIff | OSLoader/VmMgr/vmMgr.c:672-999 | every event of a run, an access, a fault, a part of a service or the switching of the swap area, keeps the invariant iff it does no harm, which can be told before it |
| PagerRuns.RunInv | OSLoader/VmMgr/vmMgr.c:672-999 | so it holds throughout every run up to the first event that does harm |
| PagerRuns.FirstHarm | OSLoader/VmMgr/vmMgr.c:672-999 | and is lost by that one |
| PagerRuns.ReadsLastWritten | OSLoader/VmMgr/vmMgr.c:672-999 | in any run, with any number of faults queued, accesses during services and failing flash operations, a completed read before the first harm gives the byte written last, if the address was ever written, and of the ROM area the byte of the image at the start |
| PagerRuns.OnlyWritesChange | OSLoader/VmMgr/vmMgr.c:672-999 | the flat memory changes by completed writes only |
| PagerRuns.RefusedNeverResumes | OSLoader/VmMgr/vmMgr.c:741-755 | in any run, a service whose victim is refused a block or the swap area does not resume the task and leaves frames, contents and mappings alone; it does harm iff the lost block was needed |
| PagerRuns.EvictedLastInRun | OSLoader/VmMgr/vmMgr.c:260-306 | in any run, a frame is evicted only after every other frame was moved behind it since its own last move |
| PagerRomList.RomTakenInTurn | OSLoader/VmMgr/vmMgr.c:247-259 | in any run, a ROM frame that a service took is taken again only after every other ROM frame has been taken in between |
| PagerFaults.FirstServed | OSLoader/vectors.c:296-330 | in any run, the faults served so far and then those in the queue are the faults raised, in that order, but for those that found 32 before them |
| PagerService.ResumesIff | OSLoader/VmMgr/vmMgr.c:739-829 | a RAM miss resumes its task iff its victim is not refused a block or the swap area, whatever comes of the flash operations |
| PagerService.SaveOutcome | OSLoader/VmMgr/vmMgr.c:416-450 | what the store has after a write-back, for each outcome of its read and its write: the victim's page unless the write failed, the page that shares the sector as it was unless only the read failed, every other page as it was |
| PagerService.SaveSurvivesIff | OSLoader/VmMgr/vmMgr.c:416-450 | when that loses no written byte, of the victim or of the page that shares its sector |
| PagerService.MissShows | OSLoader/VmMgr/vmMgr.c:739-829 | after a RAM miss whose flash operations succeed the task reads what the store had of its page, or, if nothing, what the victim's frame held |
| PagerService.WrongLoadIsRead | OSLoader/VmMgr/vmMgr.c:803-829 | a page that has come without its written bytes is read wrong at once |
| PagerService.WrongImageIsRead | OSLoader/VmMgr/vmMgr.c:720-737 | and a ROM page that has not come as it is in the image likewise |
| PagerService.VictimGone | OSLoader/VmMgr/vmMgr.c:419-755 | a page written back wrong is not mapped any more, and the store has the wrong copy |
| PagerService.LossIsRead | OSLoader/VmMgr/vmMgr.c:739-829 | so a written byte that the store does not have is read wrong once its page is brought in again |
| PagerProgress.CompletesIff | OSLoader/VmMgr/vmMgr.c:672-999 | an access completes iff it needs no more services |
| PagerProgress.ServiceHelps | OSLoader/VmMgr/vmMgr.c:672-999 | every service that resumes the task brings its access to either area nearer to completion, of which it needs at most three, whatever the flash memory answers; a RAM access is stopped by a refused victim only, and a ROM access iff it is a store to a page that is mapped, which is reported |
| PagerProgress.Verdicts | OSLoader/VmMgr/vmMgr.c:677-999 | for every fault, however old: a registered segment that is not resident is brought in, with nothing else changed, and the task resumes; otherwise a page of no area is always reported, and so is a write to ROM, and a task is left hanging only by a write fault whose page is in no frame or a fault of another kind, all three with nothing changed; the task resumes iff its page could be had or is in some frame, and its access then completes |
| PagerPair.ServedSpares | OSLoader/VmMgr/vmMgr.c:677-999 | a service for one page leaves the entry of every other page as it was, but of the one whose frame it takes, and brings at most two segments in |
| PagerPair.KeepsProgress | OSLoader/VmMgr/vmMgr.c:677-999 | three services for other pages, however they end, undo nothing of what was done for a page whose segment has just been brought in, unless one of them takes its frame |
| PagerPair.ReloadIsYoungest | OSLoader/VmMgr/vmMgr.c:683-688 | a reload leaves the segment just brought in |
| PagerPair.ReloadEvictsIff | OSLoader/VmMgr/vmMgr.c:683-688 | and evicts another iff that is the oldest of the seven |
| PagerPair.SecondCompletes | OSLoader/VmMgr/vmMgr.c:677-999 | an instruction that needs two pages, the first one's segment just brought in: the services that the second access needs end after three at most, and the first access needs no more than before, so that both complete |
| PagerCorrespondence.NoPageTwice | OSLoader/VmMgr/vmMgr.c:739-827 | while frames and mappings correspond one to one, no page is in two frames |
| PagerCorrespondence.HeldIffMapped | OSLoader/VmMgr/vmMgr.c:934-953 | and a page is in some frame iff it is mapped |
| PagerCorrespondence.MissMeansAbsent | OSLoader/VmMgr/vmMgr.c:683-688 | a miss that the page table would still raise reaches frame allocation only when no frame holds the page, a first-level miss being repaired by the reload check |
| PagerCorrespondence.WriteFaultAnswered | OSLoader/VmMgr/vmMgr.c:934-953 | the task of a write fault is answered iff its page is still mapped; otherwise it stays suspended |
| PagerCorrespondence.StaleMissIff | OSLoader/VmMgr/vmMgr.c:677-829 | a RAM miss that is not refused keeps the correspondence, whatever the flash memory answers, iff its page was not mapped or the victim was that page's own frame |
| PagerCorrespondence.StaleRomMissIff | OSLoader/VmMgr/vmMgr.c:709-737 | and so does a ROM miss |
| PagerCalm.LostWriteIff | OSLoader/VmMgr/vmMgr.c:417-450 | the end of a successful write-back of a page mapped writable keeps the invariant iff the page's written bytes are still what was copied into the sector |
| PagerCalm.LostInRun | OSLoader/VmMgr/vmMgr.c:417-450 | in any run, from the copying of a page mapped writable to the end of its being written back: no harm iff its frame has, wherever the page was ever written, what it had when it was copied |
| PagerCalm.UnwrittenIsSaved | OSLoader/VmMgr/vmMgr.c:417-450 | which is so if no write to the page completes in between |
| PagerCalm.StrictBegin | OSLoader/VmMgr/vmMgr.c:677-999 | the service of a fault that the page table would still raise begins without harm, and keeps the correspondence; the stale link is then never followed, its frame being mapped writable |
| PagerCalm.StrictAnswer | OSLoader/VmMgr/vmMgr.c:416-829 | and goes on without harm when the flash operation succeeds and the page being saved is as it was copied |
| PagerCalm.OneAtATime | OSLoader/VmMgr/vmMgr.c:672-999 | in a run with one fault outstanding at most, no failing flash operation, the swap area left on and no write to a page on its way to flash, every fault is up to date when it is served and nothing does harm |
| PagerExamples.TwoReads | OSLoader/VmMgr/vmMgr.c:677-829 | from any state in which a page is in a frame and its segment not resident, and neither it nor the next victim has to be waited for: two reads of it fault, the first service brings the segment in, the second gives the page a second frame, and the next read gives what the store has |
| PagerExamples.TwoFaultsLoseByte | OSLoader/VmMgr/vmMgr.c:677-829 | a run of twelve events from start-up in which a written byte is read back wrong that way |
| PagerExamples.TwoFaultsLoopList | OSLoader/VmMgr/vmMgr.c:295-302 | a run of eight events from start-up in which two write faults for one page link the list to itself |
| PagerExamples.SwapOffLosesByte | OSLoader/VmMgr/vmMgr.c:803-810 | a state in which switching the swap area off loses a byte |
| PagerLostWrite.OvertakenWriteLost | OSLoader/VmMgr/vmMgr.c:417-450 | a run from start-up, with one fault at a time and a flash memory that does not fail, in which a write completes while its page is being written to flash, and the byte of before is read afterwards |
| PagerCodec.QuickLzLossless | OSLoader/VmMgr/quicklz.c:731-849 | QuickLZ meets what the pager asks of its codec |
| VmMgr.Manager.Init | OSLoader/VmMgr/vmMgr.c:1001-1012 | start-up leaves no frame in use and nothing mapped |
| VmMgr.InitStarts | OSLoader/VmMgr/vmMgr.c:1001-1012 | which is a state the runs start from |
| VmMgr.Manager.ReleaseAllPage | OSLoader/VmMgr/vmMgr.c:576-629 | every page of both areas is unmapped and every frame unused |
| VmMgr.Manager.SaveCachePage | OSLoader/VmMgr/vmMgr.c:338-426 | a dirty page goes to the compressed store, or its sector is to be waited for; without a block the old one is lost (-2), without a swap area nothing changes (-3) |
| VmMgr.Manager.CopyIntoSector | OSLoader/VmMgr/vmMgr.c:417-418 | the page is copied into its half of the sector as read, or of what a failed read left |
| VmMgr.Manager.SectorWritten | OSLoader/VmMgr/vmMgr.c:419-450 | the sector is replaced if the write succeeded, and the page counts as clean in any case |
| VmMgr.Manager.GiveVram | OSLoader/VmMgr/vmMgr.c:755-829 | the victim is unmapped and its frame given to the page, which is decompressed, waited for, or shows what the frame held |
| VmMgr.Manager.SectorArrived | OSLoader/VmMgr/vmMgr.c:804-829 | the page's half of the sector that has come is copied into its frame and the page mapped read-only |
| VmMgr.Manager.ImageArrived | OSLoader/VmMgr/vmMgr.c:720-737 | so is the page of the image |
| VmMgr.Manager.HandleRamMiss | OSLoader/VmMgr/vmMgr.c:739-829 | a RAM miss up to its first wait: the frame moved longest ago is saved, unmapped and given to the page; if it is refused the task is reported instead; state, wait and verdict are those of `Pager.RamMiss`, about which the theorems are |
| VmMgr.Manager.HandleRomMiss | OSLoader/VmMgr/vmMgr.c:709-720 | a ROM miss up to its wait for the image, as `Pager.RomMiss` says |
| VmMgr.Manager.HandleWriteFault | OSLoader/VmMgr/vmMgr.c:929-953 | the frame nearest the tail that holds the page becomes dirty, last in the list and mapped writable, as `Pager.WriteFault` says, also where that links the list to itself; without one the task hangs |
| VmMgr.Manager.BeginService | OSLoader/VmMgr/vmMgr.c:677-999 | one fault of the queue, up to date or not, from the first check to the first wait or the verdict: reload, the area check, a miss or a write fault, as `PagerRuns` has it in its runs; which verdict it comes to, for every fault, is `PagerProgress.Verdicts` |
| VmMgr.Manager.GoOnService | OSLoader/VmMgr/vmMgr.c:416-829 | from one wait to the next, whatever the flash memory answered, as `PagerRuns` has it in its runs |
| VmMgr.Manager.ServeFault | OSLoader/VmMgr/vmMgr.c:677-999 | a whole service with nothing in between, for any answers of the flash memory, as `PagerService` has it |
| VmMgr.IndexOfPlace | OSLoader/VmMgr/vmMgr.c:350 | the index computed from sector and offset is the page's number in its area |
| Rings.StepRotates | OSLoader/Scheduler/include/list.h:270-285 | stepping on returns the item next in turn and puts it last |
| Rings.InsertEndComesLast | OSLoader/Scheduler/list.c:74-99 | an item inserted at the end comes after every other but the current one |
| Rings.RemoveKeepsOrder | OSLoader/Scheduler/list.c:170-196 | removing any item leaves the others' order of turn as it was, also when the cursor was on it |
| Rings.FairRound | OSLoader/Scheduler/include/list.h:270-285 | as many steps as items return each of them once |
| Rings.InsertSorted | OSLoader/Scheduler/list.c:103-166 | sorted insertion keeps the list sorted and equal values in order of arrival |
| List.List.Insert | OSLoader/Scheduler/list.c:103-166 | the search ends, the ring stays a ring and the item is where sorted insertion puts it |
| List.List.InsertEnd | OSLoader/Scheduler/list.c:74-99 | the ring stays a ring with the item before the cursor |
| List.List.Remove | OSLoader/Scheduler/list.c:170-196 | the ring stays a ring without the item, with a valid cursor and the number left |
| List.List.NextOwner | OSLoader/Scheduler/include/list.h:270-285 | the cursor steps over the end marker |
| MessageQueue.BackAppends | OSLoader/Scheduler/queue.c:2155-2168 | a message written at the write cursor is the last |
| MessageQueue.FrontPrepends | OSLoader/Scheduler/queue.c:2170-2182 | a message written at the read cursor is the first |
| MessageQueue.ReadTakes | OSLoader/Scheduler/queue.c:2209-2227 | moving the read cursor on takes the first |
| MessageQueue.Queue.CopyDataToQueue | OSLoader/Scheduler/queue.c:2126-2206 | back appends, front prepends, overwriting a queue of one replaces |
| MessageQueue.Queue.TrySend | OSLoader/Scheduler/queue.c:792-893 | the critical section of a send, contents and control |
| MessageQueue.Queue.TryReceive | OSLoader/Scheduler/queue.c:1345-1397 | the critical section of a receive: the head is taken and one sender woken |
| MessageQueue.Queue.TryPeek | OSLoader/Scheduler/queue.c:1707-1768 | the critical section of a peek: nothing is taken and the next receiver woken |
| MessageQueue.Queue.SendFromIsr | OSLoader/Scheduler/queue.c:983-1146 | a send from an interrupt: on a locked queue it is counted and no list touched |
| MessageQueue.Queue.ReceiveFromIsr | OSLoader/Scheduler/queue.c:1831-1922 | a receive from an interrupt, likewise |
| MessageQueue.Queue.Lock | OSLoader/Scheduler/queue.c:249-261 | both counters start from zero unless already counting |
| MessageQueue.Queue.UnlockTx | OSLoader/Scheduler/queue.c:2230-2310 | the loop wakes one receiver for each message counted, while there are any |
| MessageQueue.Queue.UnlockRx | OSLoader/Scheduler/queue.c:2312-2346 | and one sender for each message taken |
| MessageQueue.Queue.Reset | OSLoader/Scheduler/queue.c:264-315 | the queue is empty and unlocked, and one sender woken |
| QueueSafety.WakeRxTimesKeeps | OSLoader/Scheduler/queue.c:2241-2306 | the unlocking loop wakes as many as were counted unless the list runs empty |
| QueueSafety.TryBalance | OSLoader/Scheduler/queue.c:792-979 | a task that tries again keeps the balance of messages and woken receivers, and of free places and woken senders |
| QueueSafety.StepConsistent | OSLoader/Scheduler/queue.c:771-1458 | every step keeps lists, locks and tasks in agreement; how calls end, sleep and get on is in `QueueAnswers` |
| QueueSafety.ResetBalance | OSLoader/Scheduler/queue.c:264-315 | a reset keeps the receivers' balance always, and the senders' iff it is safe |
| QueueSafety.ResetStrandsSender | OSLoader/Scheduler/queue.c:284-291 | two senders asleep on a full queue of two: one sleeps on with room for it |
| QueueSafety.StepBalance | OSLoader/Scheduler/queue.c:249-2347 | every step keeps both balances, a reset if safe |
| QueueSafety.RunBalance | OSLoader/Scheduler/queue.c:249-2347 | so they hold throughout every run from a new queue |
| QueueSafety.NoLostWakeUp | OSLoader/Scheduler/queue.c:249-2347 | in every reachable state with the queue unlocked and receivers waiting, the messages number at most the receivers woken but not yet run again; the same for senders and free places |
| QueueSafety.LockedOnlyByHolder | OSLoader/Scheduler/queue.c:249-261 | the queue is locked only while a task holds the scheduler suspended over it |
| QueueAnswers.Answers | OSLoader/Scheduler/queue.c:777-1458 | in any run, a call heads for sleep until it is told that its time is over, and not a step longer; it fails only if it had no time to wait or has been told so |
| QueueAnswers.EndOfCall | OSLoader/Scheduler/queue.c:792-1458 | a call passes iff it looks in the critical section and finds a message or room; it fails only without time or told that its time is over, a receiver on a queue that it has just found empty |
| QueueAnswers.AlwaysListed | OSLoader/Scheduler/queue.c:1415-1430 | in every reachable state each task on its way to sleep or asleep is on the event list of its side, or has been woken off it |
| QueueAnswers.AfterCheck | OSLoader/Scheduler/queue.c:1412-1458 | from the check for the time-out to the resumption of the scheduler, whatever interrupts come in between: told that its time is over a sender has failed and a receiver looks once more; with time left and still nothing there it is asleep, and on the event list unless it has been woken since; with something there it tries again |
| QueueAnswers.RoundsEnd | OSLoader/Scheduler/queue.c:777-1458 | a call gets on: of any nine moves of its own one ends it, sends it to sleep, or has it try again, for which it has woken, or the check or the last look has found something |
| QueueAnswers.MessagesCounted | OSLoader/Scheduler/queue.c:792-1397 | a call that passes takes or adds its one message, and nothing else but interrupts and resets changes their number |
| QueueAnswers.WokenInTurn | OSLoader/Scheduler/queue.c:2230-2347 | no event changes the order of the tasks on an event list, and none but its own time-out takes a task off before those ahead of it |
| Ticks.DelayOk | OSLoader/Scheduler/tasks.c:5294-5366 | adding a delay keeps the lists sorted and in the future, and the next unblock time no later than the earliest wake time |
| Ticks.DelayExact | OSLoader/Scheduler/tasks.c:5294-5366 | a delay of d ticks at clock time t is due at t + d, on the list of the right epoch, and reschedules nothing else |
| Ticks.EmptyAtSwitch | OSLoader/Scheduler/tasks.c:199-211 | the current list is empty whenever the lists are switched |
| Ticks.ExpireTakes | OSLoader/Scheduler/tasks.c:2782-2866 | the loop takes exactly the entries whose time has come and leaves the next unblock time exact |
| Ticks.TickExact | OSLoader/Scheduler/tasks.c:2756-2866 | a tick wakes exactly the tasks due at it, across the wrap, and leaves the rest due when they were |
| TickRuns.DeferredTicks | OSLoader/Scheduler/tasks.c:2157-2349 | ticks that arrive just before the outermost resumption have the same effect, on the same tasks in the same order, as after it |
| TickRuns.DeferredAsOnArrival | OSLoader/Scheduler/tasks.c:2157-2349 | through any ticks, events, delays and nested suspensions, whenever the scheduler runs again the tasks made ready, the tasks still waiting with their times, and the clock are as if each tick had been processed on arrival |
| TickRuns.TickedExact | OSLoader/Scheduler/tasks.c:2297-2320 | processing n pended ticks wakes exactly the tasks due in them |
| TickRuns.NoTickLost | OSLoader/Scheduler/tasks.c:2912-2915 | through any nesting of suspensions, tick count and pended ticks together grow by one with each tick interrupt |
| TickRuns.NestingCounts | OSLoader/Scheduler/tasks.c:2157-2349 | the scheduler runs again when it has been resumed as often as it was suspended, and not before |
| TickRuns.NextKept | OSLoader/Scheduler/tasks.c:4019-4037 | the next unblock time stays that of the first task to wake, through delays, ticks and suspensions; a task unblocked early may leave it too early, and the next tick that looks or a resumption that readies tasks puts it right |
| TickRuns.ExactWakeUp | OSLoader/Scheduler/tasks.c:2756-2866 | in any run, a task delayed d ticks at clock time c is made ready when tick c + d is processed, never earlier or later, unless another event concerns it |
| TaskClock.Clock.AddCurrentTaskToDelayedList | OSLoader/Scheduler/tasks.c:5294-5366 | the running task goes into the list of the epoch in which it wakes, in order of time, and the next unblock time is brought forward if need be |
| TaskClock.Clock.SwitchDelayedLists | OSLoader/Scheduler/tasks.c:199-211 | with the current list empty the two are exchanged, the overflow counted and the next unblock time taken from the new head |
| TaskClock.Clock.UnblockExpired | OSLoader/Scheduler/tasks.c:2782-2866 | the loop readies the expired prefix of the current list in order and sets the next unblock time to the head left |
| TaskClock.Clock.IncrementTick | OSLoader/Scheduler/tasks.c:2756-2926 | a tick is processed, and wakes what `Ticks.TickExact` says, or is only counted while the scheduler is suspended |
| TaskClock.Clock.ResumeScheduler | OSLoader/Scheduler/tasks.c:2241-2349 | the outermost resumption readies the pending tasks and then processes every pended tick; an inner one only counts down |
| TaskClock.Clock.RemoveFromEventList | OSLoader/Scheduler/tasks.c:3196-3261 | the task is made ready, or noted while the scheduler is suspended |
| TaskLists.BlockKeeps | OSLoader/Scheduler/tasks.c:5294-5404 | blocking the running task keeps lists and bitmap in agreement |
| TaskLists.UnblockKeeps | OSLoader/Scheduler/tasks.c:3196-3261 | so does waking any task |
| TaskLists.SuspendKeeps | OSLoader/Scheduler/tasks.c:1737-1836 | so does suspending any task, ready or not |
| TaskLists.PrioritySetKeeps | OSLoader/Scheduler/tasks.c:1571-1730 | so does setting a priority, inherited or not |
| TaskLists.InheritKeeps | OSLoader/Scheduler/tasks.c:4087-4170 | so does inheriting one, which raises it at least to that of the task that waits and leaves the base |
| TaskLists.DisinheritKeeps | OSLoader/Scheduler/tasks.c:4177-4250 | so does giving a mutex back, the last one restoring the base priority |
| TaskLists.AfterTimeoutKeepsIff | OSLoader/Scheduler/tasks.c:4257-4354 | when a wait for a mutex times out the tasks stay partitioned, but the bitmap stays right iff the holder does not leave a ready list on which it is alone |
| TaskLists.StaleBitSelected | OSLoader/Scheduler/tasks.c:173-176 | if it does, and nothing above is ready, the next selection looks at an empty list |
| TaskLists.SharedPriorityKeeps | OSLoader/Scheduler/tasks.c:4319-4331 | it does not while another task is ready at the priority the holder had inherited, such as the one that timed out if its priority is still that |
| TaskLists.RaisedWaiterStalls | OSLoader/Scheduler/tasks.c:4328 | a run in which it does: a task asks for the mutex, lends the holder its priority and blocks, its own priority is raised, its time runs out, and it is the running task that finds the holder alone; once it leaves its ready list the selection comes to the empty one |
| TaskLists.ExactlyOneList | OSLoader/Scheduler/tasks.c:170-223 | every task is on exactly one list, and if ready on that of its priority |
| TaskLists.SelectsMaximal | OSLoader/Scheduler/tasks.c:170-178 | a context switch picks a ready task of maximal priority |
| TaskLists.ApplyKeeps | OSLoader/Scheduler/tasks.c:1571-5404 | every operation keeps the partition and the bitmap |
| TaskLists.RunPartitioned | OSLoader/Scheduler/tasks.c:1571-5404 | so they hold throughout every run, and every context switch in it picks a task of maximal priority |
| TaskOrder.ApplyMeans | OSLoader/Scheduler/tasks.c:1571-5404 | the lists refine a plain table of tasks: each operation makes the task it is for ready, waiting for this turn of the tick or the next, or suspended, and changes its priorities and its count of mutexes, as it is meant to, and those of no other task |
| TaskOrder.TurnsAfter | OSLoader/Scheduler/tasks.c:170-223 | whatever is done to a task, the others of each priority keep their order of turn, and a task that comes to a priority has its turn after all that were there but the one that has it; a context switch gives the turn to the first of the highest priority and puts it last |
| TaskOrder.InheritedOnlyByHolders | OSLoader/Scheduler/tasks.c:4087-4354 | in any run in which only holders of a mutex inherit, a task that holds none uses its base priority |
| TaskOrder.AtLeastBaseIff | OSLoader/Scheduler/tasks.c:1653-1668 | every change keeps a task at least at its base priority, but for setting the priority of one that has inherited to more than it has inherited |
| TaskOrder.RaiseNotUsed | OSLoader/Scheduler/tasks.c:1653-1668 | a case of that |
| TaskTable.Table.AddTaskToReadyList | OSLoader/Scheduler/tasks.c:219-223 | the task goes behind the others of its priority, whose bit is set |
| TaskTable.Table.AddCurrentTaskToList | OSLoader/Scheduler/tasks.c:5294-5404 | the running task leaves its ready list, whose bit goes with the last one, for a delayed list or that of the suspended; partition and bitmap hold after it |
| TaskTable.Table.SuspendTask | OSLoader/Scheduler/tasks.c:1737-1777 | the task leaves whatever list it is on for that of the suspended, the bit cleared only if its ready list is empty; partition and bitmap hold after it |
| TaskTable.Table.ResumeTask | OSLoader/Scheduler/tasks.c:1842-1935 | only a task in the suspended state is made ready |
| TaskTable.Table.SetPriority | OSLoader/Scheduler/tasks.c:1571-1730 | base and, unless inherited, used priority change, and a ready task moves to its new list; partition and bitmap hold after it |
| TaskTable.Table.PriorityInherit | OSLoader/Scheduler/tasks.c:4087-4170 | a holder of lower priority takes that of the running task and, if ready, moves to its list; partition and bitmap hold after it |
| TaskTable.Table.PriorityDisinherit | OSLoader/Scheduler/tasks.c:4177-4250 | one mutex fewer is held, and with the last the running task returns to its base priority and list; partition and bitmap hold after it |
| TaskTable.Table.PriorityDisinheritAfterTimeout | OSLoader/Scheduler/tasks.c:4257-4354 | the holder of one mutex falls to the greater of its base and the priorities still waiting, the bit of the new priority being the one cleared; partition and bitmap hold after it iff it did not leave an empty ready list |
| TaskTable.Table.SwitchContext | OSLoader/Scheduler/tasks.c:3041-3094 | the next task of the highest list in use runs, or while the scheduler is suspended a yield is noted and nothing else changes |
| TimeOuts.TimeOut.CheckForTimeOut | OSLoader/Scheduler/tasks.c:3313-3396 | expiry, remaining ticks and the restarted mark are those of `Check`, which `CheckExact`, `WaitAccounted` and `WaitsForEver` compare with real time |
| TimeOuts.CheckExact | OSLoader/Scheduler/tasks.c:3313-3396 | less than 2^32 ticks after the last, a check reports expiry iff the wait has really passed, and otherwise deducts the real time |
| TimeOuts.CheckRightIff | OSLoader/Scheduler/tasks.c:3360-3372 | how late a check may come and still be right, and what a check leaves of the wait however late it comes |
| TimeOuts.LateCheckMisses | OSLoader/Scheduler/tasks.c:3360-3372 | a check almost two turns late that takes a wait that is over for unfinished |
| TimeOuts.WaitAccounted | OSLoader/Scheduler/tasks.c:3313-3396 | over any number of checks the remaining wait is the original less the total real time, and expiry is reported iff that reaches it |
| TimeOuts.WaitsForEver | OSLoader/Scheduler/tasks.c:3358-3366 | a wait without end never times out: over any number of checks, however far apart, none reports expiry and the wait stays as long as it was |
| TimeOuts.CountersExact | OSLoader/Scheduler/tasks.c:199-211 | the tick and the overflow count that a call marks and a check compares are those of the unbounded clock, throughout every run of ticks, delays and nested suspensions |
| TimerLists.DecideExact | OSLoader/Scheduler/timers.c:693-731 | a timer is reported expired iff its period has really passed; otherwise it goes into the list of the epoch in which it expires |
| TimerLists.DrainFires | OSLoader/Scheduler/timers.c:882-932 | at a switch every timer left is fired once for each expiry left in the epoch, and an auto-reload timer's restart is sent from the last of them |
| TimerLists.DrainInOrder | OSLoader/Scheduler/timers.c:882-932 | in the order of expiry |
| TimerLists.TimesCount | OSLoader/Scheduler/timers.c:911-921 | the number of those expiries |
| TimerClock.SampleExact | OSLoader/Scheduler/timers.c:670-690 | a sample switches the lists iff the epoch has changed and leaves the rest due when it was; what leaves the lists was due before the present epoch |
| TimerClock.StartExact | OSLoader/Scheduler/timers.c:693-731 | a timer started at c is fired at once iff its period has passed when it is obeyed, and is otherwise listed as due exactly one period after c |
| TimerClock.HeadExpires | OSLoader/Scheduler/timers.c:602-608 | the timer the daemon fires has expired and is the first to do so |
| TimerClock.ExpiredKeeps | OSLoader/Scheduler/timers.c:507-545 | processing an expired timer keeps the lists sorted and apart |
| TimerClock.ObeyedKeeps | OSLoader/Scheduler/timers.c:734-879 | so does obeying any command |
| TimerRuns.SampleFires | OSLoader/Scheduler/timers.c:670-690 | what a sample fires of a timer is the next of its expiries, one period apart, none before its time, after which the timer is due one period on, listed or with its restart sent |
| TimerRuns.OncePerPeriod | OSLoader/Scheduler/timers.c:507-879 | in any run in which nobody else sends a command for the timer, it is fired for its expiries one after the other, one period apart from the one it was started for, none missing, none twice and none early; without auto-reload, once; stopped, not at all; the restarts it obeys on the way are those it sent itself, taken from the queue in order |
| TimerRuns.NothingMissed | OSLoader/Scheduler/timers.c:602-608 | when the head of the list has not expired, every listed timer is due later than now |
| TimerRuns.StepLogs | OSLoader/Scheduler/timers.c:507-879 | the expiries of those runs are the ones the daemon fires, and the restarts put into the queue the ones it sends |
| TimerCommands.AfterStop | OSLoader/Scheduler/timers.c:826-830 | from the execution of a stop on, in any run, until a start or a change of period of the timer is obeyed, the timer is on neither list, not active, and never fired |
| TimerCommands.StopHoldsIff | OSLoader/Scheduler/timers.c:789-842 | and it stays so iff none is obeyed |
| TimerCommands.StopOvertaken | OSLoader/Scheduler/timers.c:517-531 | a run in which a timer is fired again after its stop, by a restart that the daemon sent itself |
| TimerCommands.AfterStart | OSLoader/Scheduler/timers.c:794-824 | a start that names clock time c, whatever became of the timer before: it is fired at c plus its period and then once every period, none missing, none early |
| TimerCommands.AfterChange | OSLoader/Scheduler/timers.c:832-848 | a change of period obeyed at clock time n: the timer is due at n plus the new period, and is fired then and once every new period after |
| TimerCommands.FlagAfter | OSLoader/Scheduler/timers.c:539-868 | a start and a change of period make a timer active, a stop and the expiry of a one-shot timer at the head of its list make it dormant, and nothing else changes whether it is |
| TimerCommands.ListedIsActive | OSLoader/Scheduler/timers.c:507-879 | so a timer on a list is active throughout every run |
| TimerCommands.OneShotDormantIff | OSLoader/Scheduler/include/timers.h:417-419 | a one-shot timer that has been fired is on no list, and dormant iff it expired at the head of its list |
| TimerCommands.OneShotStaysActive | OSLoader/Scheduler/timers.c:801-824 | a case in which it is not |
| TimerDaemon.Service.InsertTimerInActiveList | OSLoader/Scheduler/timers.c:693-731 | the timer is put in order into the current or the overflow list, or reported expired and put into neither |
| TimerDaemon.Service.SwitchTimerLists | OSLoader/Scheduler/timers.c:882-938 | the loop ends, though it puts timers back into the list it empties: the old overflow list is current, the other empty, and what fired and restarted is what `DrainFires` counts |
| TimerDaemon.Service.SampleTimeNow | OSLoader/Scheduler/timers.c:670-690 | the lists are switched iff the tick has gone down since the last sample, which is then this one |
| TimerDaemon.Service.ProcessExpiredTimer | OSLoader/Scheduler/timers.c:507-545 | the first timer is taken off the list and fired; an auto-reload one is entered again from its expiry time, or restarted by command if that has passed too |
| TimerDaemon.Service.ProcessCommand | OSLoader/Scheduler/timers.c:734-879 | the timer is taken off its list and then started, stopped or given a new period, the lists switched first if the tick has wrapped; what that comes to over runs is `TimerCommands.AfterStart`, `AfterStop` and `AfterChange` |
| EventBits.SetReleasesExactly | OSLoader/Scheduler/event_groups.c:553-612 | exactly the waiters whose any-or-all condition holds of the old bits with the new are released |
| EventBits.ClearsExactly | OSLoader/Scheduler/event_groups.c:591-618 | a bit is cleared iff some released waiter asked for it |
| EventBits.BitAfter | OSLoader/Scheduler/event_groups.c:192-623 | what becomes of each bit: a set adds its bits less those that a waiter it releases asked to have cleared, a wait or late look whose condition holds takes its own if it was asked to, a complete rendezvous always, a clear takes its bits, and nothing else changes any |
| EventBits.WaitUntilMet | OSLoader/Scheduler/event_groups.c:341-413 | a task that waits goes on at once, with the bits as they were, if its condition holds or it has no time; otherwise it is listed, and a set releases it just when its condition comes to hold |
| EventBits.DropsExactly | OSLoader/Scheduler/tasks.c:2827-2836 | a time-out takes the task's own item off the list and no other |
| EventBits.WordSays | OSLoader/Scheduler/event_groups.c:379-403 | the value stored in a blocked task's list item says what it waits for |
| EventBits.Rendezvous | OSLoader/Scheduler/event_groups.c:192-253 | a rendezvous releases all its participants together, with the same value for the task that completes it and for those that wait, and clears its bits; before that it releases none |
| EventBits.StepKeeps | OSLoader/Scheduler/event_groups.c:192-623 | every operation keeps it that no task waits for a condition that holds |
| EventBits.NobodyWaitsInVain | OSLoader/Scheduler/event_groups.c:192-623 | so that is true throughout every run |
| EventBits.NoControlBits | OSLoader/Scheduler/event_groups.c:531-623 | the control bits are never among a group's own, so that the value a released task finds is the group's |
| EventGroup.EventGroup.Test | OSLoader/Scheduler/event_groups.c:561-586 | the test of the walk is the waiter's condition |
| EventGroup.EventGroup.Walk | OSLoader/Scheduler/event_groups.c:553-612 | the walk visits every waiter once although it takes items out of the list it walks; each one released is told the bits |
| EventGroup.EventGroup.SetBits | OSLoader/Scheduler/event_groups.c:531-623 | bits are set, the waiters whose condition holds leave the list and are told, the others keep their order, and the bits the released asked to clear are cleared |
| EventGroup.EventGroup.WaitBits | OSLoader/Scheduler/event_groups.c:315-413 | if the condition holds the bits are returned and, if asked, cleared; otherwise the task is listed with its condition, unless it may not block |
| EventGroup.EventGroup.Sync | OSLoader/Scheduler/event_groups.c:192-253 | the bits are set; if all awaited are there they are cleared and the caller goes on, otherwise it is listed for all of them, unless it may not block |

## Left out

- QuickLZ levels 2 and 3, streaming, `QLZ_MEMORY_SAFE` and the x86 branches, which are compiled out; the decoder on malformed input, beyond the reads outside its buffers that the model reports as a fault.
- `OSLoader/Config/SystemConfig.h:39` selects miniLZO, so the QuickLZ calls in `vmMgr.c` are compiled out in that configuration. miniLZO, the allocator and the flash translation layer are not part of this model: they appear as any codec that decompresses what it compressed, an allocator that may refuse, and a store of sectors whose operations take time and may fail; a read that fails leaves anything in the buffer, a write that fails leaves the sector as it was.
- Contents of pages that were never written: a fresh page shows what its frame held, so the pager's theorem speaks of written addresses only.
- Caches and the translation look-aside buffer, access to the first megabyte, which is a section, and the memory checks of domains.
- The table of areas is fixed as `vmMgr_init` leaves it, with RAM on the swap area from sector 0 and ROM on the system image from sector 1984.
- PagerRuns.ReadsLastWritten: speaks of the run up to the first event that does harm, the one that `PagerRuns.StepKeepsIff` says loses the invariant; what is then read wrong, and when, is in `PagerService.WrongLoadIsRead`, `WrongImageIsRead`, `VictimGone` and `LossIsRead`.
- A service is preempted only where it waits for the flash memory: the tasks that run guest code or write to its memory have lower priority than the VM task (`OSLoader/start.c:1012-1025`), and what a display task reads in the middle of a part is not modelled.
- VmMgr.Manager.BeginService: once the RAM list has been linked to itself, no further service is modelled; the search of a write fault for another page then does not end.
- Addresses of pages are counted in pages, and the places of the queue's buffer in items.
- List.List.Insert: the list is circular doubly linked nodes as in the source; the scheduler, timer and pager models that use sorted or intrusive lists hold them as sequences or arrays of links instead of sharing this class, except the event group, which walks it.
- TaskLists.ApplyKeeps: mutex counts and priorities are those of a single level of inheritance; a step of `vTaskPriorityDisinheritAfterTimeout` that leaves an empty ready list with its bit set is shut out of the runs, because the property is false after it (`TaskLists.AfterTimeoutKeepsIff`).
- TaskLists.SelectsMaximal: asks that some task is ready, which the idle task is by never blocking; the ready bitmap is a sequence of flags, not a word.
- Timed lists and the partition into lists are two views of the same variables of `tasks.c` and are modelled by two classes.
- MessageQueue.Queue.CopyDataToQueue: queues with items of some length; those without data, and with them mutexes, are left out.
- TaskTable.Table.ResumeTask: whether the task is on the pending list or waits on an event is an argument, the event lists being those of the queues.
- The retry loops of the blocking queue calls are the steps of `QueueProtocol.MoveTask`, not methods; a lock counter at 127 stops the system on an assertion, so no step is taken then.
- QueueAnswers.AfterCheck: what the check for the time-out says is free at each check; that it says so exactly when the time is over is `TimeOuts.WaitAccounted`.
- PagerPair.KeepsProgress: speaks of services one after the other, with no other task's accesses between them.
- QueueSafety.NoLostWakeUp: the order in which the scheduler runs tasks is left open, and no third party suspends a woken task; mutex inheritance within queue calls, queue sets and semaphores without data are left out.
- TickRuns.NoTickLost: the count of pended ticks is not bounded to 32 bits.
- TimerClock.SampleExact: the delete command is a stop as far as the lists go and has no case of its own; the daemon looks at the clock at least once in 2^32 ticks, as it does by waking when the tick overflows; callbacks and what they send are left out, and the daemon's command queue always has room.
- EventBits.NobodyWaitsInVain: the second look of a task whose wait has timed out is one step; event groups are not deleted.
- Features that `FreeRTOSConfig.h` compiles out: task deletion, aborted delays, tickless idle, co-routines, memory protection, tracing.
- Request plumbing, boot, drivers, display, file and USB code, which would only add single-branch facts.
