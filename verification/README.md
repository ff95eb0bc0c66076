# A verified model of the hoverboard bridge

The bridge is the small computer that flashes, debugs and talks to a hoverboard's mainboard over SWD. This project models its
core in Dafny 4.11 and proves what it promises. `dafny verify dfyconfig.toml` checks all of it.

The main part is the flash pipeline, closed over the hardware it drives:

- `Part`, `Bytes`, `Ring`: the part table and its geometry, halfwords, the ring's arithmetic.
- `Chip`: the flash controller with write-once cells, the closed-halfword rule and page erase, the SRAM ring, the core and the
  RAM loader on it, as functions on a chip's state. `Board`: the same as the mutable board the bridge meets over the bus, where
  after every access the loader runs on for a number of halfwords nobody chooses.
- `Loader`, `LoaderProofs`, `LoaderRuns`: the ring protocol as a state machine of two actors, the bridge one bus access at a
  time and the loader one halfword at a time, in any interleaving; its invariant, its measure, and where every fair run ends.
  `RingRun` is the run object that polls, each poll proved a schedule of that machine.
- `Flash`, `FlashProofs`, `FlashRuns`, `FlashTheorems`: a flash job over that, and its promises: cut short anywhere it has hurt
  nothing, and every fair run of it ends with the image in flash or a refusal that touched nothing. `FlashJob` is the job object
  with its register sequences, busy polls and read-back loops, proved to step the same system; `FlashBoard` drives one to its
  end. `FlashChecks`: the held core, and the job's own checks on chips of any content. `StoreErase` erases the store.

Beside it:

- `Target`: disarm, halt, reset-halt and the armed-breakpoint rule against firmware that may arm any timer between any two
  accesses.
- `Bulk`, `Service`, `ServiceRuns`: who owns the image buffer and the engine, over every interleaving of terminal commands,
  GDB's load and polls; the chunked transfer; what each client is told.
- `Mailbox`, `MailboxRuns`: the latest-wins queue towards the board, what becomes of each frame, and when the session is up.
- `GdbFeed`, `Comparators`: the hold-back behind `$vFlashDone#`; breakpoints and watchpoints as bags mirrored in comparators.
- `Wire`: SWD transfers bit by bit, ADIv5 as both ends implement it.
- `Keys`, `KeysRules`, `KeysRuns`: the write-through store with torn writes and failed erases, one operation and over every
  history. `Rollback`: the two app slots under the boot loader.
- `Reach`, `Frame`, `Mean`: the call-graph gate, the fixed-point Clarke and Park frame, the circular mean.

Code that changes state step by step is a class whose methods are proved against functions on its abstract value (`View()`); the
promises are lemmas about those functions over every run. A schedule is a sequence of actors; a fair round is one in which both
move.

Four properties hold only under a condition, which is exact and shown to be needed:

- The write-through store is in step with its device after a history of programs and erases exactly when
  `KeysRuns.InStepExactly` says so. A caller can rely on it once each operation the device failed has since succeeded, or had
  its page erased (`KeysRuns.MendedInStep`); a success alone is not enough (`KeysRuns.SuccessCanBeWrong`,
  `KeysRuns.TornThenOther`), since a program is checked against the mirror and not the device.
- A trial never confirmed always ends with the other slot booted (`Rollback.TrialEnds`). That slot's bytes
  survive every trial without a new update exactly when none is under way as the trial starts (`Rollback.FallbackSafeIff`),
  which the reset before it sees to; a trial that begins another can overwrite them (`Rollback.BeginOnTrialOverwrites`).
- GDB is told how its flash ended, and nothing before, exactly when it does not start another load while it runs
  (`ServiceRuns.LoadEndsAsTheJob`, `ServiceRuns.ToldAtTheEndIff`): a session opened during a flash can.
- A line reset works from inside a request but for one stopped a park bit short of its answer (`Wire.OnesReset`).

The plain RAM region answers an out-of-range page erase with another error code than the mirrored one; both are kept as the code
has them. The comment on the mirrored region's `program` (bridge/src/keys.rs:95-98) takes the bytes around a program to be on the
device as they are in the mirror, which holds only under the first condition.

## Model

| member | source | states |
|---|---|---|
| Parts.RowGeometry | bridge/core/src/part.rs:93-261 | Every row has sound geometry: whole pages, the store's two pages on top of flash, the image limit the largest that fits the buffer and ends below the store, the stack inside SRAM, timer 0 first |
| Parts.RowLimits | bridge/core/src/part.rs:224-261 | Each row's store address, image limit and stack top, as numbers |
| Parts.LookupFindsTheRow | bridge/core/src/part.rs:196-211 | No two rows are alike: a row is found by its family with its flash size, and a Cortex-M0 ID finds its own |
| Bytes.AndErased | bridge/core/src/sim.rs:980-984 | Programming an erased cell leaves the value, programming the erased value leaves the cell |
| Ring.WrapApart | bridge/core/src/loader.rs:176-179 | Two counts less than a ring apart share a cell only when equal |
| Ring.WrapDistance | bridge/core/src/loader.rs:176-179 | The ring distance of two counts' pointers is the counts' difference |
| Ring.WrapIsRemainder | bridge/core/src/loader.rs:178 | The recursive wrap is the remainder |
| Chips.TakeProgress | bridge/core/src/sim.rs:1059-1074 | A halfword the flash takes: one cell and-ed, at most the halfword below closed, pointers moved on by one |
| Chips.TakeRefused | bridge/core/src/sim.rs:1061-1084 | A halfword the flash refuses: nothing written, the loader stops with `rp` 0 and the failing address in `r2` |
| Chips.ProgramOnce | bridge/core/src/sim.rs:968-994 | A halfword is written where its cell is erased and open, or as zeros anywhere, and refused elsewhere; on an F1x0 a word's low halfword inside a page closes the one before it |
| Chips.ProgramUpwards | bridge/core/src/sim.rs:976-990 | So on an F1x0 a word's halfwords are programmed upwards or not at all, on the others in either order |
| Chips.ErasesItsPage | bridge/core/src/sim.rs:900-947 | A page erase erases and opens exactly the cells of the page its address is in, and no other control write touches a cell |
| Chips.ResumesAsLoader | bridge/core/src/sim.rs:1010-1033 | A core let go is the loader exactly at the entry, in Thumb state, over written code |
| Chips.ResetsTheController | bridge/core/src/sim.rs:860-890 | A reset leaves the controller locked and idle, no loader, and every cell as it was |
| Boards.Gd32.WriteControl | bridge/core/src/sim.rs:900-947 | The control register write is the specification's: locked, lock, page erase, finished |
| Boards.Gd32.EraseHeldPage | bridge/core/src/sim.rs:920-935 | The page holding the address is erased and its closed halfwords open; a store page is counted |
| Boards.Gd32.ProgramHalfword | bridge/core/src/sim.rs:968-994 | Write-once programming with the closed-halfword rule |
| Boards.Gd32.RunLoader | bridge/core/src/sim.rs:1040-1084 | Between two accesses the loader takes some number of turns, never none while it can move |
| Boards.Gd32.Take | bridge/core/src/sim.rs:1059-1076 | One halfword of the loader |
| Boards.Gd32.Stop | bridge/core/src/sim.rs:1077-1084 | The loader's exit: program bit cleared, status and address answered, core halted |
| Boards.Gd32.WriteKey | bridge/core/src/sim.rs:1347-1364 | The two keys in order unlock, anything else locks |
| Boards.Gd32.ResumeCore | bridge/core/src/sim.rs:1010-1033 | A resume at the loader's entry starts it with the register arguments |
| Boards.Gd32.ResetHalt | bridge/core/src/sim.rs:860-890 | A caught reset: controller locked and idle, no loader, core halted |
| LoaderProofs.AfterFlash | bridge/core/src/sim.rs:1059-1066 | After `k` halfwords every programmed cell holds its old bits masked by the data, every other cell is untouched |
| LoaderProofs.AfterClosed | bridge/core/src/sim.rs:983-990 | No cell still to be programmed has been closed, nor any below a run that starts a page |
| LoaderProofs.WordCells | bridge/core/src/loader.rs:203-225 | Every word of a chunk with room, padding halfword included, lands inside the ring on cells that hold nothing unread |
| LoaderProofs.ChunkHalves | bridge/core/src/loader.rs:212-224 | A chunk's words are the padded data's halfwords in order |
| LoaderProofs.NextHalfword | bridge/core/src/sim.rs:1059-1061 | What the loader reads next is the next halfword of the padded data, and its cell is as the run found it |
| LoaderProofs.LoaderKeeps | bridge/core/src/sim.rs:1040-1084 | A loader turn keeps the protocol's invariant |
| LoaderProofs.LoaderRefused | bridge/core/src/sim.rs:1063-1084 | A halfword its cell cannot take stops the loader exactly there |
| LoaderProofs.LoaderTakes | bridge/core/src/sim.rs:1059-1076 | Any other moves it on by exactly one |
| LoaderProofs.WordKeeps | bridge/core/src/loader.rs:225 | Writing a word keeps the invariant, whatever the loader's progress |
| LoaderProofs.PublishKeeps | bridge/core/src/loader.rs:226-237 | Moving `wp` past a chunk keeps it |
| LoaderProofs.FeedKeeps | bridge/core/src/loader.rs:202-211 | Starting a chunk or reading `rp` keeps it |
| LoaderProofs.DrainKeeps | bridge/core/src/loader.rs:239-247 | A drain poll keeps it |
| LoaderProofs.HostKeeps | bridge/core/src/loader.rs:196-261 | Every bus access of the bridge keeps it |
| LoaderProofs.ReadRp | bridge/core/src/loader.rs:182-191 | An `rp` read never takes the bridge's count back nor past the loader's |
| LoaderProofs.Drained | bridge/core/src/loader.rs:241-245 | Equal pointers mean an empty ring, never a full one |
| LoaderRuns.BeginHolds | bridge/core/src/loader.rs:138-163 | A run's start establishes the invariant on any flash content |
| LoaderRuns.RunHolds | bridge/core/src/loader.rs:196-261 | The invariant after every interleaving of bridge and loader |
| LoaderRuns.RingIsSafe | bridge/core/src/loader.rs:176-237 | The bridge's count of unread bytes never under-counts and stays below the ring's length |
| LoaderRuns.WritesAreSafe | bridge/core/src/loader.rs:206-225 | The word written next lands inside the ring, on cells that hold nothing unread |
| LoaderRuns.RingSafety | bridge/core/src/loader.rs:176-237 | The same in every state any schedule reaches: the bridge writes only inside the ring, the next halfwords of the data, on cells that hold nothing unread, and the loader reads the next halfword of the data |
| LoaderRuns.ReadsOnlyWhenFull | bridge/core/src/loader.rs:202-211 | `rp` is read only when the next kilobyte, or what is left, does not fit beside what is not known to be taken |
| LoaderRuns.LoaderProgress | bridge/core/src/sim.rs:1040-1084 | A loader turn that changes anything decreases the measure |
| LoaderRuns.HostProgress | bridge/core/src/loader.rs:196-261 | So does every poll access that changes anything |
| LoaderRuns.NeverStuck | bridge/core/src/loader.rs:206-211 | A poll that only waits, with a loader that cannot move, is a finished run: no deadlock |
| LoaderRuns.RunFinishes | bridge/core/src/loader.rs:196-261 | Every fair run is done within the measure's rounds |
| LoaderRuns.RunOutcome | bridge/core/src/flash.rs:267-278 | A finished run fails exactly when some halfword could not be programmed, at the first such, with all before it and none after it in flash |
| LoaderRuns.RunEndsExactly | bridge/core/src/loader.rs:138-261 | The whole protocol from a start on any flash, at any pace: it ends, exactly where the first bad halfword says |
| RingRuns.RingRun.Start | bridge/core/src/loader.rs:138-163 | The start sequence over the bus launches the run |
| RingRuns.RingRun.Used | bridge/core/src/loader.rs:176-179 | The pointer arithmetic is the specification's count |
| RingRuns.RingRun.Poll | bridge/core/src/loader.rs:196-261 | A poll is a schedule of the protocol: its accesses with the loader's turns between them, and `Waiting` exactly when nothing moved |
| RingRuns.RingRun.MakeRoom | bridge/core/src/loader.rs:206-211 | No `rp` read while there is room for the chunk, and `Waiting` exactly when one finds `rp` where it was |
| RingRuns.RingRun.WriteChunk | bridge/core/src/loader.rs:212-225 | The chunk's words go out in order, the loader running between any two |
| RingRuns.RingRun.PublishChunk | bridge/core/src/loader.rs:226-237 | `wp` moves only after the whole chunk, wrapped at the ring's end |
| RingRuns.RingRun.DrainOnce | bridge/core/src/loader.rs:239-247 | One `rp` read, and `wp` 0 once the ring is empty |
| RingRuns.RingRun.HaltOnce | bridge/core/src/loader.rs:248-258 | One halt check, and the answer registers once halted |
| FlashTheorems.PageOrder | bridge/core/src/flash.rs:350-354 | The erase order is a permutation of the covered pages with page 0 last |
| FlashTheorems.PagesCovered | bridge/core/src/flash.rs:350-354 | A page is covered exactly when the image has a byte in it, and is erased at its own address |
| FlashTheorems.SegmentsPartition | bridge/core/src/flash.rs:358-366 | The loader runs partition the image, each byte at its own address |
| FlashProofs.ErasedCells | bridge/core/src/flash.rs:404-420 | After `i` erases exactly the first `i` pages of the order are erased and open |
| FlashProofs.SecondBelow | bridge/core/src/flash.rs:356-366 | The first run leaves page 0 erased and closes nothing there |
| FlashProofs.SecondAbove | bridge/core/src/flash.rs:356-366 | and leaves everything else as the job leaves it |
| FlashProofs.TasksClean | bridge/core/src/flash.rs:428-463 | After the erase no run meets a cell it cannot program |
| FlashProofs.LastRunFinal | bridge/core/src/flash.rs:428-463 | The last run completes the image, the rest of its last page erased, every other page as it was |
| FlashRuns.ErasePageIs | bridge/core/src/flash.rs:234-247 | The erase's register sequence erases exactly its page and leaves no error |
| FlashRuns.StartKeeps | bridge/core/src/flash.rs:368-377 | Starting a segment starts a run on its task |
| FlashRuns.RunPasses | bridge/core/src/flash.rs:267-278 | A finished run of the job is never an error and ends at its end |
| FlashRuns.VerifyPasses | bridge/core/src/flash.rs:465-480 | What the job leaves reads back as the image, byte by byte |
| FlashRuns.JobKeeps | bridge/core/src/flash.rs:392-506 | Every step of the job keeps its invariant |
| FlashRuns.BoardKeeps | bridge/core/src/sim.rs:1040-1084 | So does every loader turn under it |
| FlashRuns.SystemKeeps | bridge/core/src/flash.rs:380-506 | The job's invariant after every interleaving |
| FlashRuns.JobProgress | bridge/core/src/flash.rs:392-506 | Every step that changes anything decreases the job's measure, across both segments |
| FlashRuns.JobNeverStuck | bridge/core/src/flash.rs:428-463 | The job and the loader are both unable to move only when the job is over |
| FlashRuns.JobFinishes | bridge/core/src/flash.rs:392-506 | Every fair job is over within its measure's rounds |
| FlashTheorems.UncoveredCell | bridge/core/src/flash.rs:346-366 | A cell outside the covered pages is untouched in every reachable state |
| FlashTheorems.LastRunCell | bridge/core/src/flash.rs:356-366 | While page 0 is programmed every later page already holds the image |
| FlashTheorems.CutShort | bridge/core/src/flash.rs:380-463 | Cut short anywhere: the store never written, uncovered pages untouched, page 0 old, erased, or being programmed over a finished rest; a refusal changes nothing |
| FlashTheorems.FlashEndToEnd | bridge/core/src/flash.rs:346-506 | End to end for every row, image, prior flash and pace: refused exactly when protected, empty, larger than the buffer or reaching the store; otherwise passed with the image in flash; the controller locked either way |
| FlashTheorems.EveryImageFlashes | bridge/core/src/flash.rs:346-506 | In plain terms, for every row and every image that fits the buffer and ends below the store, over any prior content and at any pace: every byte of the image in flash, the rest of its last page erased, every other cell as it was, the store never written |
| FlashTheorems.RestingIsAtRest | bridge/core/src/sim.rs:735-797 | A board of any row on any flash content is one a job can be handed |
| FlashChecks.HeldThroughout | bridge/core/src/flash.rs:392-506 | In every reachable state the core is halted while the job erases and while it reads back, whatever it was doing before |
| FlashChecks.VerifyIsExact | bridge/core/src/flash.rs:465-480 | On any flash content the read-back passes exactly when every byte of the image is there, and otherwise names the first that is not |
| FlashChecks.RunIsJudged | bridge/core/src/flash.rs:428-463 | What any finished run is taken for: a flash error at its address, a loader that stopped early, or nothing wrong and the next step |
| FlashJobs.AwaitIdle | bridge/core/src/flash.rs:196-204 | The busy poll always finds the controller idle within its bound |
| FlashJobs.Unlock | bridge/core/src/flash.rs:210-219 | The key sequence unlocks |
| FlashJobs.ErasePageOf | bridge/core/src/flash.rs:234-247 | The erase over the bus is the specification's |
| FlashJobs.RunLifts | bridge/core/src/flash.rs:428-463 | A schedule of the ring protocol is a schedule of the whole system |
| FlashJobs.CompareWords | bridge/core/src/flash.rs:469-479 | The word loop reports exactly the first differing byte |
| FlashJobs.FlashJob.Create | bridge/core/src/flash.rs:157-162 | An empty or oversized image is refused at once |
| FlashJobs.FlashJob.PrepareBoard | bridge/core/src/flash.rs:395-403 | Refusals first, then reset and unlock |
| FlashJobs.FlashJob.EraseNext | bridge/core/src/flash.rs:404-420 | One page, the store's refused |
| FlashJobs.FlashJob.StartRun | bridge/core/src/flash.rs:251-263 | A segment's run, a range reaching the store refused |
| FlashJobs.FlashJob.ProgramOn | bridge/core/src/flash.rs:428-463 | One poll, a finished run judged |
| FlashJobs.FlashJob.FinishRun | bridge/core/src/flash.rs:453-463 | The next segment, or the lock and the read-back |
| FlashJobs.FlashJob.VerifyNext | bridge/core/src/flash.rs:465-490 | One piece read back; after the last, reset and halt |
| FlashJobs.FlashJob.Step | bridge/core/src/flash.rs:380-390 | A step is a schedule of the system, keeps the invariant, and moves the job unless only the loader can move |
| FlashJobs.FlashBoard | bridge/core/src/flash.rs:326-506 | Stepping a job to its end terminates at any pace and ends as the end-to-end theorem says, the controller never written while busy but to lock it |
| StoreErase.ReadBack | bridge/core/src/flash.rs:540-549 | The read-back passes exactly when every cell of the store reads erased, and otherwise names a word that does not |
| StoreErase.EraseStore | bridge/core/src/flash.rs:528-552 | Refused on a protected part; otherwise the store's two pages are erased, no other cell changes, and the core runs from its reset vector |
| Targets.LineIsTheRows | bridge/core/src/target.rs:317-340 | A board of any row is seen as that row: its timers, and its family's hold, register and bits as numbers |
| Targets.LineOfNone | bridge/core/src/target.rs:317-340 | A part in no row has timer 0 alone, and a hold only on a Cortex-M3 |
| Targets.HoldIsTheRows | bridge/core/src/part.rs:38-49 | Setting the hold of a board that answers as a row adds that row's bits to its register and leaves the other register alone |
| Targets.ClearedIsDisarmed | bridge/core/src/target.rs:369-379 | Clearing every listed timer leaves one armed only on a board whose clear does not take, and changes no bit but `MOE` |
| Targets.Target.PickLine | bridge/core/src/target.rs:317-340 | The identifying reads touch no timer |
| Targets.Target.AnyArmed | bridge/core/src/target.rs:343-350 | On a halted core, whether any listed timer is armed |
| Targets.Target.ClearMoe | bridge/core/src/target.rs:360-367 | One timer cleared, its other bits kept; whether it was armed |
| Targets.Target.DisarmTimers | bridge/core/src/target.rs:371-379 | On a halted core success exactly when nothing is left armed, and nothing but `MOE` bits changes |
| Targets.Target.SetHold | bridge/core/src/target.rs:403-412 | The hold bits set on a halted core |
| Targets.Target.WaitHalted | bridge/core/src/target.rs:414-421 | Success means halted, failure a hundred reads that found it running |
| Targets.Target.Halt | bridge/core/src/target.rs:424-433 | Against firmware that may arm at any moment: success means halted with every timer of the row off; no halt is asked for but with each last seen off and the hold last seen set; on a halted board of any row its hold is set and the other register is as it was; timer 7 touched only where it is listed |
| Targets.Target.ResetHalt | bridge/core/src/target.rs:610-623 | The same through a reset, with no vector catch left set; it refuses a halted board exactly when its clear does not take |
| Targets.Target.PollHalt | bridge/core/src/target.rs:473-491 | A time is reported exactly when some timer of the row was armed, counted from the halt seen to the last of them off, saturating; timer 0 comes before any other access, and afterwards all are cleared |
| Bulk.WalkResumes | shared/espsvc/src/lib.rs:928-935 | Walking the acknowledgement on from where it stood is walking it from the start |
| Bulk.WalkEnds | shared/espsvc/src/lib.rs:928-935 | The walk reaches the end exactly when every chunk has arrived |
| Bulk.TakesItsChunk | shared/espsvc/src/lib.rs:915-936 | Taken are the transfer's own chunks, whole, and nothing else; each writes its own bytes and no others |
| Bulk.TakeMatches | shared/espsvc/src/lib.rs:915-927 | An honest chunk leaves every arrived byte the image's, in any order, duplicates included |
| Bulk.TransferDelivers | shared/espsvc/src/lib.rs:862-967 | A transfer is complete exactly when every chunk has come, and the buffer is then the image |
| Bulk.EveryEighth | shared/espsvc/src/lib.rs:915-951 | Short of the end every eighth chunk is acknowledged, and the one that completes the transfer |
| Bulk.BeginClears | shared/espsvc/src/lib.rs:899-909 | A begin is accepted for 1 byte up to the buffer, and leaves nothing acknowledged, no chunk there and its length erased |
| Bulk.ResetForgets | shared/espsvc/src/lib.rs:968-973 | A reset transfer has no data, nothing to acknowledge and nothing to complete |
| Bulk.PlaceOverlays | shared/espsvc/src/lib.rs:976-1003 | Placed bytes lie at their offset over what there was, gaps erased, refused only past the buffer |
| Bulk.BulkRx.Start | shared/espsvc/src/lib.rs:899-909 | A begin clears exactly the transfer's bits and bytes |
| Bulk.BulkRx.Chunk | shared/espsvc/src/lib.rs:915-936 | A chunk taken or refused as specified |
| Bulk.BulkRx.NextAck | shared/espsvc/src/lib.rs:945-951 | When an acknowledgement is due |
| Bulk.BulkRx.GrowTo | shared/espsvc/src/lib.rs:976-985 | The transfer grown, its new bytes erased, none past the capacity |
| Bulk.BulkRx.PlaceAt | shared/espsvc/src/lib.rs:998-1003 | Bytes placed at any offset, the transfer grown with erased bytes |
| Services.StepKeeps | bridge/core/src/svc.rs:192-611 | Every interleaving step keeps: a job exactly while the port is held, its image the buffer's, no job while collecting, a job while flashing |
| Services.JobUndisturbed | bridge/core/src/svc.rs:192-611 | Only a finished poll ends a job; until then it, its image and the buffer stand still |
| Services.GdbBufferSafe | bridge/core/src/svc.rs:334-343 | No `FLASH_BEGIN`, `FLASH_CHUNK`, store erase or protection clear changes anything while GDB owns the buffer |
| Services.ImageFrozen | bridge/core/src/svc.rs:192-611 | Over every run without the job's end, the job goes on over the bytes it started on, the engine held |
| Services.BeginTransfers | bridge/core/src/svc.rs:400-415 | An accepted begin starts a transfer on nothing of what the buffer held |
| Services.TransferStartsTheJob | bridge/core/src/svc.rs:503-557 | With anything else going on between them, the job starts exactly when every chunk has come, on that image |
| ServiceRuns.LoadEndsAsTheJob | bridge/core/src/svc.rs:205-589 | Over every run: GDB is told nothing until its flash ends, then exactly once how it ended, as long as it does not start another meanwhile |
| ServiceRuns.ToldAtTheEndIff | bridge/core/src/svc.rs:205-232 | That condition is exact: a start while the job runs has GDB told of a success at once |
| ServiceRuns.GdbCollects | bridge/core/src/svc.rs:187-201 | Until the start the buffer is exactly what GDB has placed, whatever else is sent |
| ServiceRuns.GdbFlashesWhatItPlaced | bridge/core/src/svc.rs:187-221 | GDB's job flashes exactly what it has placed since its load began; a load of nothing succeeds at once |
| ServiceRuns.PlacingTakesTheBuffer | bridge/core/src/svc.rs:187-201 | GDB's bytes take the buffer unless a job runs; what does not fit is not placed |
| ServiceRuns.DropFrees | bridge/core/src/svc.rs:240-249 | GDB gone: what it collected and an unasked result are dropped, a flash goes on |
| ServiceRuns.FlashEndsAsTheJob | bridge/core/src/svc.rs:566-611 | Over every run from an accepted begin: the end's one reply goes to its sender, booted with the image's length exactly when it succeeded |
| ServiceRuns.BusyIff | bridge/core/src/svc.rs:334-355 | Which commands are answered busy, and when; they change nothing |
| ServiceRuns.BeginAcceptedIff | bridge/core/src/svc.rs:334-415 | A begin is accepted exactly when nobody is in its way and the image fits the part and the buffer |
| ServiceRuns.ChunkAnswers | bridge/core/src/svc.rs:503-557 | Every chunk's replies, and what the completing one comes to by its digest |
| ServiceRuns.CommandsAnswered | bridge/core/src/svc.rs:322-496 | The other commands are answered as they went and touch no transfer |
| Services.Service.GdbWrite | bridge/core/src/svc.rs:192-201 | GDB's first write takes the buffer; refused while a flash runs |
| Services.Service.GdbLoadStart | bridge/core/src/svc.rs:205-221 | GDB's job starts with the engine held |
| Services.Service.GdbLoadResult | bridge/core/src/svc.rs:224-232 | The result once |
| Services.Service.GdbLoadDrop | bridge/core/src/svc.rs:240-249 | A collecting load dropped, a flashing one left |
| Services.Service.Answer | bridge/core/src/svc.rs:322-496 | The command gating and replies |
| Services.Service.TakeChunk | bridge/core/src/svc.rs:503-557 | A chunk, its acknowledgement, the digest check, the start of the job |
| Services.Service.PollJob | bridge/core/src/svc.rs:566-611 | A finished job gives buffer and engine back |
| Mailbox.StepKeeps | bridge/core/src/mailbox.rs:135-188 | Every send, pause, hold, release and poll keeps the queue's invariant |
| Mailbox.KeyedOnce | bridge/core/src/mailbox.rs:174-184 | No two queued packets share a key |
| Mailbox.ReplaceKeeps | bridge/core/src/mailbox.rs:174-184 | A newer packet sits at its elder's index, the rest of the queue as it was, and the elder is recorded as replaced by it |
| Mailbox.RunExtends | bridge/core/src/mailbox.rs:135-341 | Deliveries and settled fates stay, in their order, whatever comes after |
| Mailbox.NeverTwice | bridge/core/src/mailbox.rs:319-341 | No packet is delivered twice, or delivered and still queued |
| Mailbox.LatestWins | bridge/core/src/mailbox.rs:77-341 | After every run: one packet per key and the newest, unkeyed packets in order, none delivered twice, a replaced one replaced by a later one of its key, every packet accounted for, nothing queued while down or paused |
| MailboxRuns.SendOutcome | bridge/core/src/mailbox.rs:166-188 | A send displaces the queued packet of its key, joins the end, or is dropped and counted; sent to a port down or paused it is none of these |
| MailboxRuns.SameKey | bridge/core/src/mailbox.rs:73-94 | Which two packets share a key, byte by byte |
| MailboxRuns.PollFlushes | bridge/core/src/mailbox.rs:318-341 | Frames leave in order while their writes go out, delivered exactly where the link carried them; a full ring keeps the rest queued; a lost link or another session clears them |
| MailboxRuns.SessionEnds | bridge/core/src/mailbox.rs:135-161 | A hold, a pause and a header found wrong each clear the queue; only a release ends a hold |
| MailboxRuns.SessionComesUp | bridge/core/src/mailbox.rs:208-286 | The port comes up exactly at an acknowledged attach; when it gives up and when it tries again |
| Mailbox.MailboxPort.Accept | bridge/core/src/mailbox.rs:166-188 | A send is the specification's |
| Mailbox.MailboxPort.IndexOf | bridge/core/src/mailbox.rs:174-184 | The queue search finds the first packet with the key |
| Mailbox.MailboxPort.PollSession | bridge/core/src/mailbox.rs:208-234 | The session's step |
| Mailbox.MailboxPort.Serve | bridge/core/src/mailbox.rs:296-318 | The header check |
| Mailbox.MailboxPort.Flush | bridge/core/src/mailbox.rs:319-341 | The drain loop: oldest first, a refused frame stays |
| Mailbox.MailboxPort.CloseFor | bridge/core/src/mailbox.rs:156-161 | A close clears the queue |
| GdbFeed.MatchedIs | bridge/core/src/gdb.rs:1085-1090 | The matcher's count is the longest suffix that is a proper prefix of the pattern, and it completes exactly at an occurrence |
| GdbFeed.FeedIsFaithful | bridge/core/src/gdb.rs:959-1097 | Over every run: fed and queued bytes are the taken ones in order, one load started per occurrence |
| GdbFeed.HeldBack | bridge/core/src/gdb.rs:1061-1068 | Nothing is fed behind a `#` while the load it started runs |
| GdbFeed.TurnFeeds | bridge/core/src/gdb.rs:1059-1097 | A turn feeds exactly the queue's first byte, exactly when the session is open, the replies are out and no load holds it; what it leaves held and running |
| GdbFeed.FeedsThrough | bridge/core/src/gdb.rs:1059-1097 | With no load running the feed goes through the queue until it is empty, the turns are over or an occurrence starts a load |
| GdbFeed.GoesOnAfterTheLoad | bridge/core/src/gdb.rs:1061-1068 | Once a load is over the next service feeds what was held back behind it |
| GdbFeed.SessionStarts | bridge/core/src/gdb.rs:942-968 | A session starts with nothing taken, fed, queued or held |
| GdbFeed.GdbServer.Push | bridge/core/src/gdb.rs:995-1007 | As many bytes as there is room for |
| GdbFeed.GdbServer.FeedByte | bridge/core/src/gdb.rs:1076-1096 | One byte to the protocol and the matcher |
| GdbFeed.GdbServer.Serve | bridge/core/src/gdb.rs:1061-1097 | The feed loop |
| GdbFeed.GdbServer.Disconnect | bridge/core/src/gdb.rs:959-968 | A close forgets the session's stream |
| Comparators.FpbExact | bridge/core/src/target.rs:515-523 | A code comparator set for an address halts the core at that halfword and nowhere else in the code region |
| Comparators.DwtExact | bridge/core/src/target.rs:545-561 | A watch comparator halts on exactly the accesses of its kind to its bytes |
| Comparators.HaltsAtBreakpoints | bridge/core/src/sim.rs:1098-1113 | With a session's unit enabled, the core halts at a pc of the code region exactly when a breakpoint is set there |
| Comparators.HaltsAtWatchpoints | bridge/core/src/sim.rs:1117-1141 | The core halts on an access exactly when a set watchpoint of its kind covers it |
| Comparators.BagRoom | bridge/core/src/gdb.rs:451-457 | A table has a free comparator exactly while it holds fewer entries than there are |
| Comparators.Session.AddBreakpoint | bridge/core/src/gdb.rs:451-464 | Taken exactly when in the code region and a comparator is free; the table is a bag with one more |
| Comparators.Session.RemoveBreakpoint | bridge/core/src/gdb.rs:466-476 | Taken exactly when set; the bag has one fewer |
| Comparators.Session.AddWatchpoint | bridge/core/src/gdb.rs:668-691 | Taken exactly when the range fits a comparator and one is free |
| Comparators.Session.RemoveWatchpoint | bridge/core/src/gdb.rs:693-712 | Taken exactly when set |
| KeysRuns.InStepExactly | bridge/src/keys.rs:80-134 | Over every history of programs and erases, each finished or failed: the device equals the mirror, whatever the device did, exactly when the bits it surely has and those it may have are both the mirror's in every byte |
| KeysRuns.ReachIsFits | bridge/src/keys.rs:80-134 | After any history the device can hold exactly the bytes between those two |
| KeysRuns.MendedInStep | bridge/src/keys.rs:80-134 | The device is in step after every history in which each operation the device failed has since succeeded, or its page has been erased |
| KeysRuns.PaidInStep | bridge/src/keys.rs:80-134 | A byte is in step whenever every failure on it has been made good, whatever happened to the others |
| KeysRuns.DebtsHaveCauses | bridge/src/keys.rs:80-134 | What a byte is owed comes from a failed operation on it that nothing since has made good |
| KeysRuns.TornThenOther | bridge/src/keys.rs:107-132 | After a torn program, another one in its place that succeeds leaves the device in step exactly when its bits are all in the torn one's |
| KeysRuns.SuccessCanBeWrong | bridge/src/keys.rs:107-132 | A success is not enough: zeros torn on a blank region, then ones programmed there, leave the device wrong |
| KeysRules.WriteOnce | bridge/src/keys.rs:99-112 | A program is taken exactly where each byte is blank or has its value; again it changes nothing, and another value is refused |
| KeysRules.InStepIff | bridge/src/keys.rs:113-132 | A finished program leaves the device in step exactly when every byte of the words written had the mirror's new bits, and every other byte was in step |
| KeysRules.WrittenInStep | bridge/src/keys.rs:113-132 | A program that finishes brings in step a device that only tears of this same program have put behind |
| KeysRules.TornIsNear | bridge/src/keys.rs:113-130 | Another tear of it leaves such a device one, and every byte outside the program's own untouched |
| KeysRules.StaysBehind | bridge/src/keys.rs:113-132 | A program, finished or torn, gives the device no bit its mirror has not |
| Keys.Chained | bridge/src/keys.rs:117-131 | The chunk loop, whole or torn, amounts to one write of the range |
| Keys.KeysFlash.WriteThrough | bridge/src/keys.rs:113-131 | Only whole words are written, covering the program's own range |
| Keys.KeysFlash.Program | bridge/src/keys.rs:99-134 | Answers as the plain region does unless the device fails; a failure leaves the mirror; the device is where the history allows, and in step after a success when only failures of this program put it behind |
| Keys.KeysFlash.MendedIsInStep | bridge/src/keys.rs:80-134 | The store object is in step once each operation the device failed has since succeeded, or had its page erased |
| Keys.KeysFlash.ErasePage | bridge/src/keys.rs:80-93 | The device first; a failure leaves the mirror and the rest of the device, and counts in the history |
| Keys.RamFlash.Program | bridge/core/src/sim.rs:1679-1695 | The plain region's write-once rule |
| Keys.RamFlash.ErasePage | bridge/core/src/sim.rs:1671-1678 | The plain region's erase |
| Wire.HeaderRoundTrip | bridge/core/src/swd.rs:197-203 | A header decodes to its own request, and no other bits do |
| Wire.HeaderValue | bridge/core/src/swd.rs:197-203 | The header's bits in their places, as a number |
| Wire.ParityIsOdd | bridge/core/src/swd.rs:201-202 | The parity bit makes the ones even |
| Wire.IdcodeIs | bridge/core/src/sim.rs:261-264 | The one request a reset port hears is `0xA5` |
| Wire.OnesReset | bridge/core/src/sim.rs:219-233 | Fifty ones reset the line from idle, inside a request or lost, and the port breaks off instead exactly when the request is one park bit short of an answered one with more than two ones missing |
| Wire.SomeRequestBreaks | bridge/core/src/sim.rs:244-286 | Such a request exists, so the reset is not unconditional |
| Wire.SimPins.WriteBit | bridge/core/src/sim.rs:428-461 | A written bit, in a phase that takes one |
| Wire.SimPins.ReadBit | bridge/core/src/sim.rs:463-522 | A read bit |
| Wire.SimPins.Clock | bridge/core/src/sim.rs:524-540 | A turnaround clock |
| Wire.SimPins.SwdioOut | bridge/core/src/sim.rs:394-416 | The host drives |
| Wire.SimPins.SwdioIn | bridge/core/src/sim.rs:418-426 | The host lets go |
| Wire.SimPins.DecodeRequest | bridge/core/src/sim.rs:244-286 | Answered or lost |
| Wire.Swd.SendHeader | bridge/core/src/swd.rs:298-303 | The header is answered exactly when the port is selected, hears it, and it is the `DPIDR` read where one is due |
| Wire.Swd.ReceiveAck | bridge/core/src/swd.rs:304-312 | The three acknowledgement bits are the port's answer |
| Wire.Swd.ReceiveData | bridge/core/src/swd.rs:316-327 | The 32 bits read are the port's, the parity checked |
| Wire.Swd.SendData | bridge/core/src/swd.rs:328-335 | The 32 bits written arrive, parity right |
| Wire.Swd.Raw | bridge/core/src/swd.rs:298-351 | A transfer never meets a panic nor makes a line reset, is served as asked with the same words, reports the answer it got by its bits, takes the cycles its kind takes, and returns to idle or lost |
| Wire.Swd.LineReset | bridge/core/src/swd.rs:440-445 | 56 ones reset the line |
| Wire.Swd.Wake | bridge/core/src/swd.rs:449-461 | From idle or lost the port ends up speaking SWD and wanting its `DPIDR` read |
| Reach.StopsAtPanic | tools/panic-reach.py:482-491 | A path that meets a panic has a part that stops at the first it meets |
| Reach.ClosureIsReached | tools/panic-reach.py:476-493 | The closure is exactly what some uncut walk reaches, each rendered path a shortest one |
| Reach.NoneShorter | tools/panic-reach.py:476-493 | No walk is shorter than the recorded distance |
| Reach.BlamesIffNotClean | tools/panic-reach.py:476-535 | A closure has something to report exactly when some uncut path can panic or hide its target |
| Reach.Closure | tools/panic-reach.py:476-493 | The worklist builds such a closure and terminates |
| Reach.Sites | tools/panic-reach.py:495-502 | Every call site of a panic in the closure |
| Reach.Gate | tools/panic-reach.py:476-535 | The gate is silent exactly on clean roots, and otherwise names every reachable panic with every site, and every call it cannot follow |
| Reach.Render | tools/panic-reach.py:574-591 | The rendered path is finite and real |
| Reach.ChainInside | tools/panic-reach.py:563-571 | A set with the callees and closed under calls holds everything behind the cut |
| Reach.HiddenSites | tools/panic-reach.py:548-571 | The sites a cut hides are exactly the declared ones |
| Rollback.RunningSlotSafe | bridge/core/src/sim.rs:1591-1642 | No update writes the slot that runs |
| Rollback.TrialEnds | bridge/core/src/sim.rs:1556-1642 | Whatever happens on trial short of a confirmation, updates included, the reset runs the other slot, and the image is aborted unless another was activated |
| Rollback.UnconfirmedRollsBack | bridge/core/src/sim.rs:1556-1642 | An activation never confirmed is rolled back by the second reset, whatever else happens; the old slot's bytes are identical when the trial begins no update |
| Rollback.FallbackSafeIff | bridge/core/src/sim.rs:1591-1619 | The bytes to fall back to survive every trial that begins no update exactly when none is under way as it starts |
| Rollback.BeginOnTrialOverwrites | bridge/core/src/sim.rs:1591-1619 | On every platform, from an activation and a reset: a trial that begins an update can overwrite the slot the rollback runs |
| Rollback.ConfirmedStays | bridge/core/src/sim.rs:1556-1642 | A confirmed slot stays booted and unwritten through any resets until the next activation |
| Rollback.ConfirmSettles | bridge/core/src/sim.rs:1635-1642 | Confirming is what settles it |
| Rollback.UpdateBoots | bridge/core/src/sim.rs:1556-1633 | An image that fits, sent sector by sector over anything, activated and booted, runs byte for byte, the other slot as it was |
| Rollback.TouchesItsOwn | bridge/core/src/sim.rs:1599-1619 | An erase sets its own sector and no other byte, a write clears bits of its own bytes alone |
| Rollback.RefusedIff | bridge/core/src/sim.rs:1591-1633 | When each step of an update is refused; a refused one changes nothing |
| Rollback.SimPlatform.UpdateBegin | bridge/core/src/sim.rs:1591-1597 | The target is the other slot |
| Rollback.SimPlatform.UpdateErase | bridge/src/platform.rs:129-138 | A sector of the target, refused outside it |
| Rollback.SimPlatform.UpdateWrite | bridge/core/src/sim.rs:1611-1619 | Bits only cleared, in the target only |
| Rollback.SimPlatform.UpdateActivate | bridge/core/src/sim.rs:1629-1633 | The target selected as new |
| Rollback.SimPlatform.ConfirmRunning | bridge/core/src/sim.rs:1635-1642 | Only a pending running slot becomes valid |
| Rollback.SimPlatform.BootAgain | bridge/core/src/sim.rs:1556-1570 | The boot loader's choice |
| Frame.ClarkeNeverWraps | tools/foc-trace.py:122-124 | No pair of currents wraps the Clarke accumulator |
| Frame.ParkNeverWraps | tools/foc-trace.py:127-130 | Nor any angle the Park accumulators |
| Frame.MacTruncates | tools/foc-trace.py:106-110 | The biased shift truncates toward zero, then saturates symmetrically |
| Frame.MacIsOdd | tools/foc-trace.py:97-110 | It is odd |
| Frame.QuarterTurn | tools/foc-trace.py:113-119 | A quarter turn on, sine and cosine change places |
| Frame.ParkQuarterTurn | tools/foc-trace.py:127-130 | A quarter turn of the frame turns the currents exactly |
| Frame.ReverseNegates | tools/foc-trace.py:138-151 | Reversing the direction negates both currents exactly |
| Frame.SectorAngleNearest | tools/foc-trace.py:133-135 | A sector's angle is the nearest to its sixth of a turn |
| Frame.SaturatesNearest | tools/foc-trace.py:97-103 | Saturation keeps what fits and otherwise takes the nearest value |
| Frame.TruncatedIs | tools/foc-trace.py:106-110 | Rounding toward zero keeps the sign and loses less than a step |
| Frame.ClarkeIs | tools/foc-trace.py:122-124 | The second axis is minus the first current and twice the second over the root of three, rounded down |
| Frame.ClarkePhases | tools/foc-trace.py:122-124 | Exchanging the other two phases reverses it exactly |
| Frame.FirstQuarter | tools/foc-trace.py:113-119 | The table is the first quarter's sine, its cosine read from the other end |
| Frame.MirrorTurn | tools/foc-trace.py:113-119 | Turned the other way the sine changes its sign and the cosine does not |
| Frame.ParkTurns | tools/foc-trace.py:127-130 | The frame is turned, not stretched: squares add up, and each axis' current is all its own |
| Frame.ShaftQuarterTurn | tools/foc-trace.py:146-151 | A quarter turn of the shaft turns the currents with it |
| Frame.AngleIsAligned | tools/foc-trace.py:138-151 | The angle is the shaft's with two sectors and the alignment's, to the nearest step |
| Mean.MeanOfPlaces | tools/imu-tilt.py:302-314 | In a window under half a turn the mean is the samples' own, in the turn of the first |
| Mean.MeanIsOfAngles | tools/imu-tilt.py:302-314 | There neither the order nor the turns the samples are written with change the angle |
| Mean.TurnsDoNotMatter | tools/imu-tilt.py:302-314 | A whole turn on a sample moves no place |
| Mean.MeanShifts | tools/imu-tilt.py:302-314 | Shifting the samples shifts the mean exactly |
| Mean.MeanInside | tools/imu-tilt.py:302-314 | The mean is inside the window |
| Mean.PairMean | tools/imu-tilt.py:302-314 | The mean of two angles is halfway along the shortest arc from the first |
| Mean.AcrossTheWrap | tools/imu-tilt.py:302-308 | Two angles as far before the end of the turn as past it have their mean there while less than half a turn apart, and on the far side otherwise |
| Mean.HalfTurnTooWide | tools/imu-tilt.py:302-314 | For any two angles the order decides the mean exactly when they are half a turn apart |

## Left out

- SWD faults, retries and reconnects on the flash path: every bus access answers; the retry engine above one transfer is not modelled.
- Time-outs in microseconds (`LOADER_STALL_US`, the boot wait): replaced by fairness of the schedule; `Finish::Boot` is not modelled.
- The loader's machine code: the model is the simulator's loop, one halfword a turn.
- Core registers are written as one block rather than through `DCRDR` and `DCRSR`; the reset and halt inside a flash job is one step, `Target` has its sequence.
- The SRAM outside the ring and the two control words, option bytes, mass erase, the MM32's own erase rules and both protection clears.
- FlashTheorems.FlashEndToEnd: starts with no loader running, and a job whose busy polls run out is shown impossible on this board rather than modelled as an error.
- FlashTheorems.CutShort: a cut is between two bus accesses; a page erase is one step of the controller, as in the simulator.
- Progress events, status codes and the terminal's messages, except the replies that say who owns what.
- StoreErase.EraseStore: the mailbox word cleared before the restart, and the firmware that then runs.
- The part table's names, and `identify` beyond the reads that pick the row.
- Targets.Target.Halt: the core's own single step and the reset under NRST are not modelled.
- Services.TransferStartsTheJob: the digest is a function of the bytes; which GDB session a load's result belongs to after a reconnect during a flash is not claimed.
- Bulk.BulkRx.Chunk: the chunk bitmap is an array of booleans, not of packed bytes.
- Mailbox: the link's framing and how the rings are read; a write's result is the environment's.
- GdbFeed: the protocol state machine behind the feed is an environment that may end the session at any byte.
- Comparators: the engine answers; a failed write and the stop-reason report are not modelled.
- Wire: the debug port's register file, so what an answered read returns is the environment's; injected faults are its choice of answer.
- Keys.KeysFlash.ErasePage: a failed erase may leave anything in its sector, and a failed write any part of its words' bits; which, the device decides. The partition table is not modelled.
- Reach: parsing the disassembly, the patterns and `index_of`.
- Rollback.SimPlatform.UpdateWrite: an offset whose data would pass the slot's end is refused; the partition table is not modelled.
- Frame: the sine table's values (only that they are a rising quarter's range) and the magnitude.
- Radio, USB, TCP, BLE, the node and router, and the bench scripts: plumbing and operator tools.
