# A verified model of libyarn

libyarn runs the iterations of a loop on several threads at once, ahead of time and
out of order, and still promises the result of the sequential loop. An iteration is an
*epoch*. Its stores stay in a write buffer until the epoch is committed; every load
and store of a shared word leaves a flag; a store that comes after a later epoch has
already read the word rolls that epoch and all above it back. Epochs live in a ring of
at most half a word's bits, so that the read and the write flags of a word fit into one
machine word.

This project models the runtime in Dafny and proves what it promises, on three levels
that are connected to each other.

**The machine words.** `Bits` and `Timestamp` model `bits.h` and `timestamp.h` on words
of 32 or 64 bits, bit by bit. `Search` proves that the two masks, the highest-bit and
the lowest-bit search and the conversion back to an epoch find the latest earlier
writer and the earliest later reader, with the window anywhere on the ring.

**The step machine.** `Timeline` and `Speculation` say what each operation does, told
by epoch and without a bound on the epochs. Steps are finer than the functions of the
source: taking an epoch that was rolled back is an issue, one step for every address it
clears, and the clearing of its rollback bit, and a commit is one step for every
address. `Coherence` finds the invariant and shows that every step keeps it. From it
`Equivalence`, `Livelock`, `Progress` and `CommitOrder` prove, for every program, every
number of workers and every run:

- an epoch whose executions make at most k stores is started at most (k + 1)^e times;
- no epoch is executed by two workers at once, and nothing past the stop bound is
  committed;
- commits may be carried out in any order and by any interleaving;
- no run gets stuck before the end of the loop is reported;

and, for every run in which a rollback bit is only cleared in time (see below):

- memory is what the sequential loop has after as many iterations as were handed out
  for commit, as soon as these are written back;
- no value read by a live epoch is stale, at any moment;
- if the sequential loop breaks and no execution goes on for ever, no run goes on for
  ever either (`Progress`);
- if stops come in time as well, the stop bound is exact and the loop ends where the
  sequential loop breaks.

`Examples` follows one run to its end, so that the hypotheses are seen to be met.

`Serial` gives the meaning all this is held to: iterations are deterministic programs
that touch shared words only by loads and stores, and the sequential loop runs them one
after another.

**The data structures.** The classes `Epochs`, `AddrInfo`, `InfoLists`, `InfoTable` and
`Dependency` are the globals and structs of `epoch.c` and `dependency.c`, changed in
place: the ring and its cursors, the packed flags, the write buffers, the map and the
index that bypasses it, and the intrusive lists. Each method is proved to take the step
of the step machine that bears its name. `Runtime` puts the worker loop of `yarn.c` on
top: a schedule picks a worker for every operation, down to single addresses of a
rollback or a commit, and whatever the schedule, what the workers do is a run of the
step machine, so everything said above holds of the memory they share. `Workers` shows
that nothing is left lying about between them: if each gets its turns for long enough,
all of them leave, and memory is what the sequential loop leaves behind. `Alone` shows
it of one worker on any loop that ends, with nothing asked about clears and stops.

Three protocols are looked at more closely than one operation at a time, as step
machines whose steps are single reads, writes and compare-and-swaps: `Handshake` (the
flags of one word), `MapProbing` (threads probing one table of `map.c`) and
`MapTransfer` (a resize by a master and its helpers). For each it is shown what an
operation has done when it is over, and that it gets there. `AddressMap` is the map as
one thread sees it, resizing included.

## What does not hold as it stands

Two promises hold under a condition that the source does not check. For each there is a
run from the first step on, played by the rules of the step machine, and the exact
condition is proved for all states.

- `yarn_epoch_rollback_done` (epoch.c:420-426) clears the rollback bit even if the epoch
  was rolled back again since it was handed out. The invariant survives exactly when it
  was not (`Coherence.UnmaskKeepsInvIff`). Otherwise a later epoch can read a store that
  was made in vain, and nothing rolls it back: `LateClear` plays such a run of four
  epochs until all are committed and memory is wrong.
- `yarn_epoch_stop` (epoch.c:250-271, called at yarn.c:140-142) does not notice that the
  epoch that breaks has been rolled back meanwhile. The bound stays exact exactly when
  it has not, or a stop was already set (`Equivalence.StopKeepsExactIff`). Otherwise the
  loop can end by a break the sequential loop never takes: `LateStop` plays a run that
  ends after two epochs of a loop without end. What is committed is right all the same;
  only the claims about where the loop ends ask for stops in time.

Smaller ones, each with its exact condition:

- The stamp of an address that was never committed to is -1, and stamps are compared on
  words that wrap around. The first store to an address is lost when it commits exactly
  if its epoch, as a word, is not in the first quarter of the range
  (`Timestamp.FirstStoreIsSeenIff`; dependency.c:116 and 371). In general an epoch is
  sure to be taken for newer than a stamp up to a quarter of the range above it
  (`Timestamp.NewerIsSeenIff`). Comparisons within epoch.c stay close enough
  (`Wrapping.ComparisonsSurviveWrapping`).
- The slots of the ring change when epochs wrap around unless the pool has a power of
  two workers, or so many that half a word bounds the ring
  (`Wrapping.PoolKeepsItsSlotsIff`). The comment at epoch.c:5-9 speaks only of
  comparisons.
- `adjust_capacity` rounds down, so a map made for a number of items can be resized by
  the last of them: exactly when the rounded quotient is itself a capacity
  (`AddressMap.AdjustedIsOverloadedIff`).
- epoch.h:52-56 names a status `yarn_epoch_waiting` that does not exist; the code uses
  `yarn_epoch_commit`, and so does the model. epoch.h:83-84 promises a rollback bit for
  epochs that are rolled back; the bit also stays set while the next execution clears
  up (`Equivalence.MaskedWhileRolledBack`).

## Checking it

`dafny verify dfyconfig.toml` checks everything (Dafny 4.11).

## Model

| member | source | states |
|---|---|---|
| Bits.IndexIsMod | libyarn/src/bits.h:19 | the recursive slot function is the remainder |
| Bits.IndexStep | libyarn/src/bits.h:19 | moving k values on moves the slot k on around the ring |
| Bits.IndexInjective | libyarn/src/bits.h:19 | values less than a ring apart never share a slot |
| Bits.SetClearBits | libyarn/src/bits.h:21-23 | setting or clearing a bit changes that bit and no other |
| Bits.TestBit | libyarn/src/bits.h:21 | masking with one bit tests exactly that bit |
| Bits.MaskRangeBits | libyarn/src/bits.h:26-40 | which bits a range mask has, wrapped ranges and equal slots included |
| Bits.ByteBounds | libyarn/src/bits.h:65-82 | the logarithm table is only indexed within its 256 entries |
| Bits.Log2IsHighest | libyarn/src/bits.h:49-83 | the cascade returns the highest set bit of every non-zero word |
| Bits.TrailingZeros | libyarn/src/bits.h:94-136 | the in-place search returns the lowest set bit, and the word size less one on zero |
| Bits.ShiftIfClear | libyarn/src/bits.h:113-131 | one test-and-shift keeps the place of the lowest bit |
| Bits.PackBits | libyarn/src/bits.h:142-144 | which bit of either half each bit of a packed word is |
| Bits.UnpackBits | libyarn/src/bits.h:146-149 | which bit of the word each bit of the two halves is |
| Bits.PackRoundTrip | libyarn/src/bits.h:139-149 | unpacking a packed word gives both halves back |
| Timestamp.CompOrdersNearbyStamps | libyarn/src/timestamp.h:63-84 | stamps at most a quarter of the range apart are ordered right, however often they wrapped |
| Timestamp.CompBoundIsTight | libyarn/src/timestamp.h:63-84 | one further apart, and some pair is ordered wrong |
| Timestamp.CompExactBound | libyarn/src/timestamp.h:63-84 | a distance is safe for every pair if and only if it is at most a quarter of the range |
| Timestamp.SlotsSurviveWrapping | libyarn/src/epoch.c:5-9 | slots of wrapped epochs are right for every epoch if and only if the ring divides the range |
| Timestamp.NewerIsSeenIff | libyarn/src/dependency.c:371 | an epoch above a stamp is taken for newer by every pair up to a distance if and only if that is at most a quarter of the range |
| Timestamp.FirstStoreIsSeenIff | libyarn/src/dependency.c:116 | an epoch is taken for newer than the stamp of an untouched address if and only if it lies in the first quarter of the range |
| Wrapping.ComparisonsSurviveWrapping | libyarn/src/epoch.c:192-398 | every comparison epoch.c makes between cursors, bound and epochs of the window is right on wrapped words |
| Wrapping.PoolKeepsItsSlotsIff | libyarn/src/epoch.c:143-148 | the slots are right for every wrapped epoch if and only if half a word bounds the ring or the pool size is a power of two |
| Wrapping.SixWorkersLoseTheirSlots | libyarn/src/epoch.c:143-148 | a pool of six gets twelve slots, for which they are not |
| Search.Select | libyarn/src/dependency.c:596-612 | masking by rollback flags and a range leaves exactly the unmasked bits of the range |
| Search.BeforeIsSlotEpoch | libyarn/src/dependency.c:443-454 | a slot becomes the epoch of the window that lives in it, looking back |
| Search.AfterIsSlotEpoch | libyarn/src/dependency.c:429-441 | and looking ahead |
| Search.MaskWriters | libyarn/src/dependency.c:596-621 | the one or two masks of a load keep the highest flagged epochs of the window, in slot order |
| Search.FindWriter | libyarn/src/dependency.c:596-627 | a load finds the latest unmasked writer of [first, e], or that there is none |
| Search.MaskReaders | libyarn/src/dependency.c:672-688 | the one or two masks of a store keep the lowest flagged epochs of the window, in slot order |
| Search.FindReader | libyarn/src/dependency.c:664-696 | a store finds the earliest unmasked reader of (e, next), never e itself, or that there is none |
| Serial.LoopExitIsUnique | libyarn/src/yarn.c:136-142 | the sequential loop leaves at one iteration with one memory |
| Serial.LoopPrefixIsUnique | libyarn/src/yarn.c:136-142 | and has one memory after any number of iterations |
| Serial.NothingRunsPastABreak | libyarn/src/yarn.c:136-142 | no iteration runs after the one that breaks |
| Serial.ConsistentIsSerial | libyarn/src/yarn.c:139 | an execution whose reads are those of a memory is the serial execution on it |
| Timeline.StartRing | libyarn/src/epoch.c:112-127 | the reset timeline satisfies the ring invariant |
| Timeline.IssueKeepsRing | libyarn/src/epoch.c:159-240 | an epoch handed out has a free slot, the assertion on its old status holds, and the invariant is kept |
| Timeline.RollbackKeepsRing | libyarn/src/epoch.c:388-417 | a rollback from an unclaimed epoch keeps ring, stop bound and rollback bits |
| Timeline.RollbackKeepsRingIff | libyarn/src/epoch.c:388-417 | a rollback keeps ring and bound if and only if it starts at an epoch that has not been claimed |
| Timeline.RollbackMarks | libyarn/src/epoch.c:323-368 | what a rollback does to every epoch, and that it commits none |
| Timeline.SetDoneKeepsRing | libyarn/src/epoch.c:511-538 | finishing an execution keeps ring and stop bound |
| Timeline.StopKeepsRing | libyarn/src/epoch.c:250-271 | setting the stop bound keeps ring and stop bound |
| Timeline.ClaimKeepsRing | libyarn/src/epoch.c:434-471 | handing out a commit keeps ring and stop bound |
| Timeline.AdvanceFirstEffect | libyarn/src/epoch.c:484-502 | first moves over exactly the committed epochs in front |
| Timeline.CommitDoneEffect | libyarn/src/epoch.c:473-504 | marking an epoch committed keeps the invariant, and the bound if it is set |
| Timeline.UnmaskKeepsMasksIff | libyarn/src/epoch.c:420-426 | clearing the rollback bit is right if and only if the epoch is still executing |
| Timeline.InFlightWithinWindow | libyarn/src/epoch.c:172-178 | two epochs in flight are less than a ring apart |
| Speculation.LatestWriter | libyarn/src/dependency.c:605-627 | the latest epoch that offers a value, and that none after it does |
| Speculation.EarliestReader | libyarn/src/dependency.c:666-696 | the earliest exposed reader, and that none before it is |
| Coherence.SearchMeetsOverlay | libyarn/src/dependency.c:623-659 | the search through the buffers finds what all lower epochs left |
| Coherence.LoadMeetsOverlay | libyarn/src/dependency.c:585-660 | a live epoch loads what it would see running after all epochs below it |
| Coherence.IssueKeepsInv | libyarn/src/yarn.c:122-126 | handing out an epoch keeps the invariant |
| Coherence.ScrubKeepsInv | libyarn/src/dependency.c:396-412 | so does clearing one address of a rolled back epoch |
| Coherence.UnmaskKeepsInv | libyarn/src/yarn.c:128 | so does clearing its rollback bit while it executes |
| Coherence.LoadKeepsInv | libyarn/src/dependency.c:585-660 | so does a load |
| Coherence.StoreKeepsInv | libyarn/src/dependency.c:555-583 | so does a store with its violation check and rollback |
| Coherence.QuietStoreKeepsInv | libyarn/src/dependency.c:690-692 | a store without an exposed later reader leaves no read stale |
| Coherence.ViolationKeepsInv | libyarn/src/dependency.c:694-696 | a store with one rolls back enough that no read is stale |
| Coherence.StopKeepsInv | libyarn/src/epoch.c:250-271 | stopping keeps the invariant |
| Coherence.DoneKeepsInv | libyarn/src/epoch.c:511-538 | so does finishing an execution |
| Coherence.ClaimKeepsInv | libyarn/src/epoch.c:434-471 | so does handing out a commit |
| Coherence.WriteBackKeepsInv | libyarn/src/dependency.c:358-391 | so does writing back one address |
| Coherence.CommittedKeepsInv | libyarn/src/epoch.c:473-509 | so does marking an epoch committed |
| Coherence.StepKeepsInv | libyarn/src/yarn.c:115-159 | every step of every worker keeps the invariant |
| Coherence.UnmaskKeepsInvIff | libyarn/src/epoch.c:420-426 | clearing the rollback bit keeps it if and only if the epoch was not rolled back again |
| Coherence.RollbackSparesTheOldest | libyarn/src/dependency.c:694-696 | a rollback starts above the storing epoch and never reaches a claimed epoch or the oldest other one |
| Coherence.StepEffect | libyarn/src/yarn.c:115-159 | what a step leaves alone in the other epochs |
| Coherence.StepKeepsBase | libyarn/src/yarn.c:115-159 | every step, timely or not, keeps ring, stop bound and announced breaks |
| Coherence.ReachableBase | libyarn/src/yarn.c:115-159 | these hold in every reachable state |
| Coherence.ReachableInv | libyarn/src/yarn.c:115-159 | the whole invariant holds in every state of every run with timely clears |
| Equivalence.ReachableFollows | libyarn/src/yarn.c:136-147 | every execution does what the iteration says |
| Equivalence.CommittedMemory | libyarn/src/dependency.c:370-375 | with all claimed epochs written back, memory is the initial one with their stores over it |
| Equivalence.SerialEquivalence | libyarn/src/yarn.c:115-157 | in every run with timely clears memory is then that of the sequential loop after as many iterations |
| Equivalence.NoStaleReadSurvives | libyarn/src/dependency.c:555-700 | in every state of such a run a live epoch has logged what it would do running alone after those below it |
| Equivalence.StopKeepsExactIff | libyarn/src/epoch.c:250-271 | a stop keeps the bound exact if and only if the epoch still executes or a stop is set |
| Equivalence.ReachableStopIsExact | libyarn/src/epoch.c:250-318 | in every run with timely stops the bound is one past the lowest live epoch that broke, or parked |
| Equivalence.NothingClaimedPastTheStop | libyarn/src/epoch.c:456-459 | nothing at or past the bound is handed out for commit |
| Equivalence.HandedOutIff | libyarn/src/epoch.c:168-200 | when an epoch is handed out: there is room, its last execution was set done, and it lies below the bound, which with timely stops means that no epoch below it has broken |
| Equivalence.LoopEndsWhereSerialBreaks | libyarn/src/epoch.c:188-200 | with timely clears and stops, when no epoch is left the committed ones are those below the bound and memory is that of the sequential exit |
| Equivalence.OpenIsExecuting | libyarn/src/epoch.c:511-538 | an epoch is executing or pending if and only if it was handed out and not set done since |
| Equivalence.ReissuedOnlyWhenDone | libyarn/src/epoch.c:180-186 | an epoch is handed out again only after its previous execution was set done |
| Equivalence.MaskedWhileRolledBack | libyarn/src/epoch.c:370-379 | with timely clears the rollback bit is set if and only if the epoch is rolled back or being cleaned |
| Examples.TheEndIsReached | libyarn/src/yarn.c:115-157 | a run from start to end without a late step, with the memory the sequential loop leaves |
| Livelock.ReachablePaid | libyarn/src/dependency.c:664-700 | every issue but the first is paid for by a store of a lower epoch |
| Livelock.StoresPerEpoch | libyarn/src/yarn.c:122-139 | the stores of an epoch are at most k for every issue |
| Livelock.BoundedRestarts | libyarn/src/epoch.c:388-417 | epoch e is handed out at most (k + 1)^e times in any run |
| Progress.StaysUnblocked | libyarn/src/epoch.c:172-200 | the ring is never full when everything below the bound is committed, and every flag belongs to a word of memory |
| Progress.QuietIsNotStuck | libyarn/src/epoch.c:168-203 | while nobody executes or commits, an epoch can be handed out or claimed, or the end is reported |
| Progress.NeverStuck | libyarn/src/yarn.c:119-157 | until the end is reported some step can be taken, in every reachable state |
| Progress.StepsPerEpoch | libyarn/src/yarn.c:122-154 | if an execution makes at most k loads and stores, epoch e takes at most (3k + 6)(k + 1)^e steps in any run, stale executions included |
| Progress.NothingClaimedPastTheExit | libyarn/src/epoch.c:435-470 | with timely clears no epoch past the break of the sequential loop is handed out for commit |
| Progress.EveryRunIsBounded | libyarn/src/yarn.c:115-159 | if the sequential loop breaks, no run with timely clears is longer than a bound, however it is interleaved |
| Progress.EveryRunEndsSerially | libyarn/src/yarn.c:115-159 | with timely clears and stops, a run that cannot go on has committed as many iterations as the sequential loop and left its memory |
| Workers.OthersKeepFitting | libyarn/src/yarn.c:115-157 | a step of one worker leaves every other where it was |
| Workers.FreshIsNotHeld | libyarn/src/yarn.c:122-152 | no worker holds an epoch that is handed out |
| Workers.ExplainTurn | libyarn/src/yarn.c:115-157 | a worker's operation extends the run, and every worker is where the run has taken it |
| Workers.StepStaysStaffed | libyarn/src/yarn.c:119-157 | an epoch handed out stays in some worker's hands, one that is ready to be claimed has a worker coming for it, and nobody leaves before the loop is over |
| Workers.OverStaysOver | libyarn/src/epoch.c:192-200 | once everything below the bound is committed it stays so, whatever late executions do |
| Workers.RoundGetsOn | libyarn/src/yarn.c:119-157 | if every worker gets two turns, some worker has taken a step or all have left |
| Workers.GoneIsFinished | libyarn/src/epoch.c:192-195 | when all workers have left, the end was there to be reported |
| Workers.GetsToTheEnd | libyarn/src/yarn.c:115-159 | after any schedule in which every worker gets enough turns all have left and memory is that of the sequential exit, with timely clears and stops |
| Workers.SomeScheduleIsLongEnough | libyarn/src/yarn.c:169-190 | for any number of workers there is such a schedule |
| Alone.SoloStep | libyarn/src/yarn.c:119-157 | a lone worker has at most one epoch not yet claimed, and none of its steps comes too late |
| Alone.AheadIsTheRest | libyarn/src/yarn.c:139 | what its execution still has to do is the rest of the serial execution |
| Alone.SoloTurn | libyarn/src/yarn.c:119-157 | every turn of a lone worker brings it nearer to the end |
| CommitOrder.WriteBackKeepsLoads | libyarn/src/dependency.c:643-648 | writing back an address changes no load of an epoch at or above, of any address |
| CommitOrder.WriteBacksKeepLoads | libyarn/src/dependency.c:643-648 | nor does any sequence of write-backs, at any point |
| CommitOrder.WriteBackThenCommit | libyarn/src/dependency.c:358-391 | committing the rest of an epoch gives the same as committing it at once |
| CommitOrder.DrainIsCommit | libyarn/src/dependency.c:353-393 | whatever the order of its list, emptying it commits the epoch |
| CommitOrder.HighestWriterWins | libyarn/src/dependency.c:370-375 | any order leaves each address with the store of the highest committed writer |
| CommitOrder.CommitOrderIsIrrelevant | libyarn/test/check_dependency.c:193-241 | two orders on the same epochs lead to the same state |
| LateClear.SequentialMemory | libyarn/src/yarn.c:136-142 | the memory of the first finding's loop after four sequential iterations |
| LateClear.LateClearLetsAStaleReadThrough | libyarn/src/epoch.c:420-426 | a run with one late clear reaches a state in which a live epoch has read what nobody below it stored |
| LateClear.LateClearCommitsAWrongMemory | libyarn/src/yarn.c:126-129 | carried on, it commits four epochs and leaves a memory the sequential loop never has |
| LateStop.NoSequentialExit | libyarn/src/yarn.c:140-142 | the loop of the second finding never breaks when run sequentially |
| LateStop.LateStopIsNotExact | libyarn/src/yarn.c:140-142 | a run with one late stop reaches a state whose stop bound is not exact |
| LateStop.LateStopEndsTheLoop | libyarn/src/epoch.c:188-200 | carried on, no epoch is handed out any more after two of them |
| EpochRing.MirrorOne | libyarn/src/epoch.c:37-47 | changing one slot changes one epoch of the window |
| EpochRing.MirrorAdvance | libyarn/src/epoch.c:495-501 | the slot of a committed epoch is ready for the epoch a round later |
| EpochRing.Epochs.constructor | libyarn/src/epoch.c:112-127 | the ring starts as the empty timeline, with the length for the pool |
| EpochRing.Epochs.IsStopSet | libyarn/src/epoch.c:244-247 | tells whether the stop bound is set |
| EpochRing.Epochs.TailReached | libyarn/src/epoch.c:172-178 | the slots of next and first coincide exactly when the ring is full |
| EpochRing.Epochs.Next | libyarn/src/epoch.c:159-240 | hands out the next epoch, waits or reports the end, each exactly when the cursors, the bound and the status in the slot say, and as the timeline says |
| EpochRing.Epochs.RollbackDone | libyarn/src/epoch.c:420-431 | clears the bit of the epoch and of no other, whatever its status |
| EpochRing.Epochs.Stop | libyarn/src/epoch.c:250-271 | sets the bound as the timeline says |
| EpochRing.Epochs.SetDone | libyarn/src/epoch.c:511-538 | executing becomes done, pending becomes rolled back |
| EpochRing.Epochs.GetNextCommit | libyarn/src/epoch.c:434-471 | claims the next epoch exactly when it can be |
| EpochRing.Epochs.RollbackOne | libyarn/src/epoch.c:323-379 | status and bit of one epoch |
| EpochRing.Epochs.DoRollback | libyarn/src/epoch.c:388-417 | slots, cursors and bound follow the timeline from any start in the window, and the ring stays valid if and only if the start was not claimed |
| EpochRing.Epochs.CommitDone | libyarn/src/epoch.c:473-509 | marks the epoch and moves first and the parked bound |
| Tracking.UpdateTracks | libyarn/src/dependency.c:31-40 | setting or clearing one slot of one info is changing one epoch at one address |
| Tracking.InsertTracks | libyarn/src/dependency.c:105-125 | a new info changes nothing |
| Tracking.LineTracks | libyarn/src/epoch.c:484-502 | when cursors move the words stand for the epochs of the new window |
| Tracking.FlaggedIsOffer | libyarn/src/dependency.c:596-597 | an unmasked flag in the window is what the step machine calls an offer or an exposed read |
| AddrInfos.FlagBits | libyarn/src/dependency.c:705-772 | setting or clearing a flag in a packed word changes one bit of one half |
| AddrInfos.AddrInfo.constructor | libyarn/src/dependency.c:105-119 | no flags, stamp -1 |
| AddrInfos.AddrInfo.IsNew | libyarn/src/dependency.c:526-533 | tells whether the epoch has touched the address |
| AddrInfos.AddrInfo.IsNewer | libyarn/src/dependency.c:361-371 | tells whether the epoch's store must go to memory |
| AddrInfos.AddrInfo.SetReadFlag | libyarn/src/dependency.c:729-751 | sets the epoch's read flag, keeps all others, returns the flags |
| AddrInfos.AddrInfo.SetWriteFlag | libyarn/src/dependency.c:705-727 | sets the epoch's write flag, keeps all others, returns the flags |
| AddrInfos.AddrInfo.Store | libyarn/src/dependency.c:555-583 | buffers the value in the epoch's slot and flags it, keeping the other slots |
| AddrInfos.AddrInfo.ClearFlags | libyarn/src/dependency.c:753-780 | clears both flags of the epoch, keeps all others |
| AddrInfos.AddrInfo.Retire | libyarn/src/dependency.c:375-388 | stamps the info if told to and clears the epoch's flags |
| InfoLists.InfoLists.Push | libyarn/src/dependency.c:519-524 | the info is in front of the slot's list, and all other lists are as they were |
| InfoLists.InfoLists.Pop | libyarn/src/dependency.c:539-551 | takes the first node off the slot's list, and all other lists are as they were |
| InfoTables.InfoTable.constructor | libyarn/src/dependency.c:140-168 | an empty map, empty lists, an empty index |
| InfoTables.InfoTable.Push | libyarn/src/dependency.c:519-524 | pushing keeps the table |
| InfoTables.InfoTable.PushIfNew | libyarn/src/dependency.c:526-537 | afterwards the info is on the epoch's list exactly once |
| InfoTables.InfoTable.Probe | libyarn/src/dependency.c:497-502 | the map is insert-if-absent, and a new info is on no list |
| InfoTables.InfoTable.GetMapInfo | libyarn/src/dependency.c:487-515 | the one info of the address, on the epoch's list |
| InfoTables.InfoTable.GetIndexInfo | libyarn/src/dependency.c:457-484 | the info the index was filled with, whatever the address given, or the one of the address, which fills it; other entries are kept |
| InfoTables.InfoTable.MarkRead | libyarn/src/dependency.c:591 | with the flag set, lists and flags agree again |
| InfoTables.InfoTable.MarkWrite | libyarn/src/dependency.c:565-566 | so they do with the write flag |
| InfoTables.InfoTable.Pop | libyarn/src/dependency.c:539-551 | takes a touched info off the epoch's list |
| InfoTables.InfoTable.Retire | libyarn/src/dependency.c:371-388 | with its flags cleared, lists and flags agree again |
| InfoTables.InfoTable.Clean | libyarn/src/dependency.c:398-400 | so they do after a rollback |
| SpeculativeMemory.StoreResult | libyarn/src/dependency.c:672-696 | the epoch found is the earliest exposed reader |
| SpeculativeMemory.LoadResult | libyarn/src/dependency.c:623-659 | the value chosen by log2, slot and stamp is the buffered one the step machine finds, or that of memory at the source |
| SpeculativeMemory.WriteThenCheck | libyarn/src/dependency.c:274-275 | buffering and then checking is one store step |
| SpeculativeMemory.NothingTouched | libyarn/src/dependency.c:358-391 | an epoch without flags has nothing left to commit |
| SpeculativeMemory.Dependency.constructor | libyarn/src/dependency.c:140-168 | the memory starts as the initial state |
| SpeculativeMemory.Dependency.Choose | libyarn/src/dependency.c:592-659 | buffer or memory, as the step machine says |
| SpeculativeMemory.Dependency.LoadFrom | libyarn/src/dependency.c:585-660 | a load step of the info's address, and the value for the source address |
| SpeculativeMemory.Dependency.Load | libyarn/src/dependency.c:311-326 | a load step, whether or not the address was known |
| SpeculativeMemory.Dependency.LoadFast | libyarn/src/dependency.c:328-347 | a load step of the address behind the index, the same as a plain load when that is the address given |
| SpeculativeMemory.Dependency.StoreTo | libyarn/src/dependency.c:555-583 | the store is buffered and the readers' flags returned |
| SpeculativeMemory.Dependency.FindViolation | libyarn/src/dependency.c:664-695 | finds the earliest exposed reader |
| SpeculativeMemory.Dependency.RollbackFrom | libyarn/src/dependency.c:696 | rolls the timeline back |
| SpeculativeMemory.Dependency.ViolationCheck | libyarn/src/dependency.c:664-700 | rolls back from the earliest exposed reader, and only if there is one |
| SpeculativeMemory.Dependency.Store | libyarn/src/dependency.c:266-282 | a store step, rollback included |
| SpeculativeMemory.Dependency.StoreFast | libyarn/src/dependency.c:285-306 | a store step of the address behind the index, the same as a plain store when that is the address given |
| SpeculativeMemory.Dependency.CommitNext | libyarn/src/dependency.c:358-391 | one write-back step per round, until the list is empty |
| SpeculativeMemory.Dependency.CommitAddress | libyarn/src/dependency.c:358-391 | the same, and the epoch is ready to be marked when there is none left |
| SpeculativeMemory.Dependency.Commit | libyarn/src/dependency.c:353-393 | the whole commit; no info keeps a flag of the slot, all other slots and lists are unchanged |
| SpeculativeMemory.Dependency.ScrubNext | libyarn/src/dependency.c:396-412 | one clearing step per round, until the list is empty |
| SpeculativeMemory.Dependency.ScrubAddress | libyarn/src/dependency.c:396-412 | the same, and the rollback bit can be cleared when there is none left |
| SpeculativeMemory.Dependency.Rollback | libyarn/src/dependency.c:396-412 | nothing of the last execution is left; all other slots and lists are unchanged |
| Runtime.LineStepTracks | libyarn/src/epoch.c:159-538 | moving the timeline leaves the flags standing for the epochs |
| Runtime.Pool.constructor | libyarn/src/yarn.c:169-190 | the runtime starts as the initial state |
| Runtime.Pool.TakeEpoch | libyarn/src/yarn.c:122 | an issue step, or none and why |
| Runtime.Pool.RollbackDone | libyarn/src/yarn.c:128 | the clearing of a rollback bit is a step, in time or not |
| Runtime.Pool.StopAfter | libyarn/src/yarn.c:140-142 | a stop step |
| Runtime.Pool.SetDone | libyarn/src/yarn.c:147 | a done step |
| Runtime.Pool.ClaimEpoch | libyarn/src/yarn.c:152 | a claim step exactly when one is enabled |
| Runtime.Pool.CommitDone | libyarn/src/yarn.c:154 | a committed step |
| Runtime.Pool.DoTake | libyarn/src/yarn.c:122-124 | an idle worker takes an epoch, waits, or leaves at the end of the loop |
| Runtime.Pool.DoClean | libyarn/src/yarn.c:126-129 | an address of the rollback, or the clearing of its bit |
| Runtime.Pool.DoLoad | libyarn/src/yarn.c:139 | the executor's load, with the value it returns noted |
| Runtime.Pool.DoStore | libyarn/src/yarn.c:139 | the executor's store |
| Runtime.Pool.DoBreak | libyarn/src/yarn.c:140-142 | the executor's break |
| Runtime.Pool.DoFinish | libyarn/src/yarn.c:147 | the end of an execution |
| Runtime.Pool.DoSeek | libyarn/src/yarn.c:152 | the worker claims a commit, or goes back for another epoch; Workers.RoundGetsOn shows that this gets on |
| Runtime.Pool.DoCommit | libyarn/src/yarn.c:153-154 | an address of the commit, or its end |
| Runtime.Pool.Tick | libyarn/src/yarn.c:119-157 | a worker's next operation is the one the loop calls for |
| Runtime.Pool.RunIsSerial | libyarn/src/yarn.c:110-159 | whatever has been run with timely clears, memory is that of the sequential loop |
| Runtime.Pool.Run | libyarn/src/yarn.c:110-159 | for every schedule the operations are those of the worker loop and a run of the step machine; with timely clears the result is serial, and with timely stops too a schedule that is long enough gets to the end of the loop |
| Runtime.Pool.RunAlone | libyarn/src/yarn.c:110-159 | one worker comes to the end of every loop that the sequential loop leaves, with its memory |
| Handshake.WordBits | libyarn/src/dependency.c:705-772 | what each compare-and-swap would change |
| Handshake.OnlyOwnBits | libyarn/src/dependency.c:705-780 | no step changes another epoch's flags, and only a clear takes any away |
| Handshake.FlagsStay | libyarn/src/dependency.c:705-780 | a flag stays until it is cleared |
| Handshake.StorePoint | libyarn/src/dependency.c:565-566 | the flags a store returns were the word at some moment after its buffer write |
| Handshake.LoadPoint | libyarn/src/dependency.c:591-629 | those of a load were the word at some moment before its buffer read |
| Handshake.NeitherMissesTheOther | libyarn/src/dependency.c:555-603 | in every interleaving the store sees the reader, or the load sees the writer and its value |
| Handshake.StoreLeavesFlagged | libyarn/src/dependency.c:705-727 | a store is over only when its flag has been in the word since its buffer write |
| Handshake.LoadLeavesFlagged | libyarn/src/dependency.c:729-751 | so is a load |
| Handshake.ClearLeavesNoFlag | libyarn/src/dependency.c:753-780 | the step that ends a clear takes both flags of its slot away and no others |
| Handshake.AloneItGetsThrough | libyarn/src/dependency.c:705-780 | a thread nobody interferes with is through after a read and a swap |
| Handshake.BeatenByASwap | libyarn/src/dependency.c:705-780 | a swap fails only if another thread's has succeeded since the read, which got that one through |
| OpenAddressing.ChainedIsDistinct | libyarn/src/map.c:185-211 | with unbroken chains no address is in two slots |
| OpenAddressing.PlaceKeepsChains | libyarn/src/map.c:199-203 | an address its probe has passed by is nowhere when the probe meets an empty slot, and adding it there breaks no chain |
| OpenAddressing.NextSlot | libyarn/src/map.c:209 | the step to the next slot, around the end |
| OpenAddressing.PassedAllIsFull | libyarn/src/map.c:186 | a probe goes all the way round only on a full table |
| OpenAddressing.DistinctTakesAtMost | libyarn/src/map.c:244 | distinct addresses take no more slots than there are of them |
| AddressMap.KeysAreTaken | libyarn/src/map.c:163-165 | the number of keys is the number of slots taken |
| AddressMap.LoadLeavesRoom | libyarn/src/map.c:213-214 | a table that is not overloaded is not full |
| AddressMap.LoadAfterDoubling | libyarn/src/map.c:285 | doubling once is enough |
| AddressMap.AdjustedIsOverloadedIff | libyarn/src/map.c:94-102 | a map made for a number of items is overloaded by them if and only if the rounded quotient is itself a capacity and was rounded |
| AddressMap.AdjustedForTooMany | libyarn/src/map.c:94-102 | 169 items are such a case |
| AddressMap.Map.AdjustCapacity | libyarn/src/map.c:94-102 | a doubled default capacity, not below the quotient and not twice as large |
| AddressMap.Map.constructor | libyarn/src/map.c:105-119 | an empty map of the adjusted capacity |
| AddressMap.Map.Find | libyarn/src/map.c:179-211 | finds the address, or the empty slot where it belongs, before going round once |
| AddressMap.Map.Insert | libyarn/src/map.c:200-206 | one key more, chains unbroken |
| AddressMap.Map.Probe | libyarn/src/map.c:168-224 | insert-if-absent on a finite map; the table is doubled exactly when the keys it then has are too many for it |
| AddressMap.Map.TransferItem | libyarn/src/map.c:233-255 | moves one item to where its probe in the new table gets to |
| AddressMap.Map.TransferAll | libyarn/src/map.c:295-297 | the new table represents the same map with unbroken chains |
| AddressMap.Map.Resize | libyarn/src/map.c:273-313 | the same map on twice the capacity, no longer overloaded |
| AddressMap.MovedLeavesRoom | libyarn/src/map.c:244-254 | the new table never fills up |
| MapProbing.SwapIsNew | libyarn/src/map.c:201 | a compare-and-swap that succeeds adds an address that is nowhere in the table |
| MapProbing.StepKeepsInv | libyarn/src/map.c:185-211 | every read, swap and write of every thread keeps the invariant |
| MapProbing.NoAddressTwice | libyarn/src/map.c:185-211 | in every state of every run no address is in two slots and no chain is broken |
| MapProbing.WinnerStays | libyarn/src/map.c:201-204 | once an address is in, its item never changes |
| MapProbing.AllProbesAgree | libyarn/src/map.c:192-206 | all probes of an address return the item of the thread that put it in |
| MapProbing.PutInOnce | libyarn/src/map.c:201 | an address is put in at most once |
| MapProbing.SizeIsTheKeys | libyarn/src/map.c:205 | the size is the number of keys, short of the threads that have not counted theirs yet |
| MapProbing.ProbeEnds | libyarn/src/map.c:185-223 | a probe is over only with the item of the thread that put the address in, or on a full table |
| MapProbing.WaitsForTheWriter | libyarn/src/map.c:194-195 | a step that changes nothing waits for an item, and the next step of the thread that has it ends the waiting |
| MapProbing.ProbeGetsThrough | libyarn/src/map.c:185-211 | whatever the others do, a probe takes at most four steps a slot and four more besides waiting, and until it is through it or the thread it waits for can go on |
| MapTransfer.ProbeFindsASlot | libyarn/src/map.c:244-254 | a transfer never runs out of slots |
| MapTransfer.StepKeepsInv | libyarn/src/map.c:233-353 | every step of master and helpers keeps the invariant |
| MapTransfer.ItemsAreConserved | libyarn/src/map.c:233-255 | every item is in the old table, in one thread's hands or in the new table, and nothing else is |
| MapTransfer.NothingIsDropped | libyarn/src/map.c:244-254 | no transfer gives its item up |
| MapTransfer.SwappedIsComplete | libyarn/src/map.c:299-307 | when the tables are swapped the new one is the old map with unbroken chains, and nobody is at work |
| MapTransfer.StepLowersRest | libyarn/src/map.c:233-353 | every step but a helper's coming in or picking an item leaves less to do |
| MapTransfer.ResizeIsBounded | libyarn/src/map.c:273-353 | a resize takes no more steps than the table, the helpers that come in and the items they pick give |
| MapTransfer.NeverStuck | libyarn/src/map.c:295-311 | until the tables are swapped the master can go on, or a helper that has come in |
| MapTransfer.ResizeEnds | libyarn/src/map.c:273-313 | from every state of every resize the tables are swapped in the end if helpers come and pick no more, and the new one is the old map |
| MapTransfer.HelpersCanTakeItems | libyarn/src/map.c:321-345 | a helper that comes in while the master is still at it can take any item |

## Left out

- Equivalence.SerialEquivalence: about runs in which `yarn_epoch_rollback_done` finds its epoch executing; what happens otherwise is `Coherence.UnmaskKeepsInvIff` and `LateClear`.
- Equivalence.NoStaleReadSurvives: the same runs, for the same reason.
- Equivalence.LoopEndsWhereSerialBreaks: about runs in which moreover a stop comes from an epoch that still executes or finds a stop set; what happens otherwise is `Equivalence.StopKeepsExactIff` and `LateStop`.
- Progress.EveryRunIsBounded: about loops whose executions are bounded whatever their loads return; nothing stops an execution that a stale value sends round for ever. `Runtime.Pool.RunAlone` does without this.
- MapTransfer.ResizeEnds: helpers may stay away or leave at any moment, but that they stop coming in while the master waits for the last one is assumed; `MapTransfer.ResizeIsBounded` counts what each adds.
- Runtime.Pool.Run: interleaves whole operations, and single addresses of a rollback or a commit; interleavings within a load, a store or a probe are the subject of `Handshake`, `MapProbing` and `MapTransfer`.
- AddrInfos.AddrInfo.IsNewer: compares unbounded stamps; when the wrapped comparison agrees is `Timestamp.NewerIsSeenIff`.
- InfoTables.InfoTable.Probe: the map by its contract, which `AddressMap.Map.Probe` and `MapProbing` prove separately.
- AddressMap.Map.Probe: the load factor is a fraction instead of a single-precision number, and the hash an arbitrary function.
- MapTransfer.StepKeepsInv: a helper picks any position below the capacity; that its random position can be rounded up to the capacity itself (map.c:338) is not modelled.
- Compare-and-swap loops in the classes go round once, because an operation is atomic there.
- Machine-word epochs in the classes: epochs, the stop bound and commit stamps are unbounded integers; when the wrapped comparisons and slots agree is in `Timestamp` and `Wrapping`. The unwrapped comparison at dependency.c:668 is not covered.
- Probing against a concurrent resize: the user count and the drain of regular users before a transfer (map.c:172-177 and 289-290); the two step machines are separate.
- Waiting on condition variables and spinning: a worker that has to wait takes a turn in which nothing happens, and tries again with its next one; that the source wakes it up is not shown.
- Weak memory: reads, writes and compare-and-swaps are sequentially consistent.
- Client tasks attached to epochs (epoch.c:463-464 and 546-553), `yarn_ret_error`, allocation failures and their clean-up.
- The thread pool, thread-local stores and pooled allocation (tpool.c, pstore.c, pmem.c).
- Map resets and destruction, and debug output.
- yarnc and yarnb: the compiler passes and the benchmarks.
