# The read/write-splitting server of egg3, modelled and proved

This project models the RWS cluster server of egg3 (`egg3/server/RWS`) and a neighbour of it, the unit scheduler of the
information server, and proves what their code keeps over all inputs, all interleavings and all runs.

The server receives packages of documents, spreads them over short-lived *mem-servers* that only append them to a file,
and from time to time replays such a file into a pool of replicas, the *bakers*, that readers search. Half of the
replicas are taken away from the readers and brought up to date, then the halves change places. What the server is for
is that readers never see a half-updated replica, that nothing a client was told is stored is lost on the way, and that
the whole keeps going by itself. These are the main results here; the second is true only as long as no two mem-servers
have one name, and it is shown exactly when that is so.

Verify with `dafny verify dfyconfig.toml`.

## How it is built

Code that changes things in place is a class with the source's fields, and each of its methods is proved to do what a
function on values does; the invariants and the results over runs are lemmas about those functions. A mutex-held region
is one step, and a condition wait is the guard of a step. (Two exceptions, both in the main thread: adding a creator and
setting up its timeout are one step, because no other thread reads or writes a creator; and so are reading the head of
the timeout list and, when it is not due, leaving the loop.)

| file | what it holds |
|---|---|
| `Ordered`, `Times`, `Descriptors` | lists without duplicates, time arithmetic, descriptors and their two orders |
| `Lifecycle`, `LifecycleInv`, `Effects`, `Lifetimes` | the mem-server manager on values, what every trigger keeps, what it does with times and flags written out, and what follows over runs |
| `Ring`, `MemManager` | its circular doubly linked lists and its methods, on pointers and fields |
| `MainLoop`, `WakeUp`, `BackPressure`, `Firing`, `Late`, `Pending` | the main loop with the other threads: termination, no lost wake-up, the bound, what firing leaves due and a run that leaves something, how long a descriptor is there for a thread that gave it back |
| `Start`, `IntServer` | how the server starts, and the passes of its main loop |
| `BakerPool`, `BakerManager`, `WToRWalk` | the replica pool on values, on next pointers, and the walk of WToR_Group |
| `DumpCycle`, `Requests` | a dump cycle among readers, and how readers are given bakers |
| `LoopChange`, `Names`, `Files` | what a step of the main loop means to the rest: for states and users, for names, for directories and package files |
| `Cluster`, `ClusterRuns`, `Durability`, `NameClash` | all threads together: refinement, runs, conservation of packages, and when and how two mem-servers of one name break it |
| `CircularQueue`, `PointerSet`, `Sockets` | the queue, the set, and who holds an accepted socket |
| `Framing`, `MemWorker`, `PackFile` | packages in a byte stream, the state machine that reads them, the package file |
| `Scheduler` | the unit allocator and schedule of the information server |

The main results, in the order in which they build on each other:

* `BakerManager.BakerManager.WToRGroup`, `WToRWalk.EndsIffEnded`: the pointer walk over nodes it is relinking visits
  exactly the backup bakers, and ends if and only if the list is null-terminated.
* `DumpCycle.StepInv`, `DumpCycle.ReadersSeeOneVersion`: all READING bakers hold all the published packages, on top of
  what each held at the start, and no baker changes under a reader, in every interleaving. `DumpCycle.HalfServes`: at least
  half of them are READING all the time; `DumpCycle.ExporterGetsOn`: only a reader that keeps a baker holds a cycle up.
* `MemManager.MemServerManager.FireDue`: the loop that fires everything that is due ends, and leaves nothing due if and
  only if `Firing.LeavesNothing` holds before it.
* `Lifetimes.ServesForAPeriod`, `Lifetimes.KthId`: over runs, a mem-server that is forked is to be dumped exactly when a
  period has passed since, and the k-th mem-server of a creator has the k-th id.
* `WakeUp.StepWake`, `WakeUp.SomethingIsOutstanding`: nobody parked is forgotten, and the parked never wait for each
  other only.
* `BackPressure.RunBounded`: the number of mem-servers stays within its bound.
* `Cluster.StepInv`, `Cluster.StepRefines`: the parts together still are the parts; the dump slot and the user counts
  are what keeps dump cycles apart and logs still while they are replayed.
* `Durability.AnsweredIsHeld`: from a start in the invariant, what has been published and what waits in logs is what there
  was at the start, all that was answered as stored, and only what is about to be answered or was denied although stored.
* `ClusterRuns.StartsWell`, `NameClash.DistinctIff`: the server starts in that invariant, and in all runs names stay
  distinct, if and only if it waits for the end of the cleaning up, or has so much to clean up that the creator is deleted
  first, or no directory found has the name the creator gives first. `NameClash.LosingRun` is what happens otherwise.

## What the code does that its documentation does not say

* `isTooHeavy` sets a time to live to 0 but sets up no timeout, so it makes nothing due
  (`LifecycleInv.TooHeavyMakesNothingDue`).
* `cmpTimeout` compares the microseconds of a descriptor with themselves, so the list is in order of seconds only and
  the firing loop can stop before one that is due in the same second (`Late.LateByMicroseconds` is a run from a start that
  ends so).
  `Firing.LeavesNothingIff` says exactly when it does: with a *blocker* a descriptor whose second has come but not its
  microsecond, nothing due is left if and only if there is no blocker; or a descriptor that will give the dump slot
  back, and so signal all retries, is due in front of every blocker and every blocker is to be retried; or there is no
  such descriptor, nothing due stands behind a blocker, and no creator is due, whose new mem-server would come to stand
  there.
* `timeval_getRecentInstanceId` uses C's `%`: before the epoch in local time it gives the next aligned instant, not the
  last one; and 0 stands for "now" (`Times.InstantIsRecent`, `Times.InstantFixed`, `Times.InstantIdempotent`).
* A timeout set for later is due at once when the clock has reached INT_MAX (`Times.LaterNotDue`). The results about
  the firing loop and the bound assume a clock strictly between 0 and INT_MAX.
* A package file is found by its mem-server's name, and nothing looks whether the name is taken. With
  `noWaitCleanUpMemServer`, after a restart within one period, the new mem-server gets the directory of one that is still
  to be cleaned up: it writes over the packages there, answered by the server before the restart
  (`NameClash.LosingRun`), and when the old one is done the directory is removed under the new one, which goes on
  answering packages that are in no file (`NameClash.EndTakesBoth`, `NameClash.WritesNowhere`, `NameClash.StaysOut`).
* The order documented at the end of `eggRWSBakerManager.h` puts the second export after `WToR_Group`; the exporter
  does it before. In the documented order the export would write into bakers that readers are given, and that lack what
  was published (`DumpCycle.WToRFirstIsWrong`). Followed here is the code.
* `WToR_Group` straight after `moveBakersByIds` returns if and only if every baker that stands in the list behind the last
  idle one that was moved was moved, too (`WToRWalk.EndsAfterMoveIff`); in a pool as it is loaded it never does
  (`WToRWalk.WrongOrderNeverEnds`).
* Replicas need not be alike: after a crash in the middle of an export they are not, and the log is replayed again into
  those that have it. They stay as unlike as they were (`ClusterRuns.AlikeIffBegunAlike`).
* The limit on clients is checked against the waiting ones only (`Sockets.LimitIsOnWaiting`), and not when a socket is put
  back, so even those can be more (`Sockets.SetPassesLimit`, `Sockets.LimitHolds`).
* `userDecrease` reads the descriptor after giving it back. It is still there until its trigger has fired three times, or
  twice if it was the exporter's (`Pending.StillThere`); that often it may (`Pending.GoneBeforeSignal`).
* A package with an empty body is answered whatever the read of no bytes reports, even an error
  (`MemWorker.Worker.ReadBody`).
* A fresh handle on a package file that is not empty writes over its beginning (`PackFile.FreshHandleOverwrites`,
  `PackFile.AddKeepsIff`), and a fetch that finds a body cut short has already moved past its header, so a later one may
  find something; none does if and only if no package begins at a whole number of headers from there
  (`PackFile.NothingIsFinalIff`, with a file where one does in `PackFile.NothingIsNotFinal`).
* A unit of the scheduler that was allocated but never scheduled cannot be given back: the assertion fails exactly for
  such a unit and for a free one (`Scheduler.Scheduler.DelProcUnit`, `Scheduler.Scheduler.NeverScheduled`).

## Model

| member | source | states |
|---|---|---|
| `Times.DueIffNotAfter` | egg3/server/RWS/eggRWSCommon.c:28-45 | for normalised times the loop's test "nothing is left to wait" holds exactly when the timeout is not after now, microseconds included |
| `Times.DeltaIsRemainder` | egg3/server/RWS/eggRWSCommon.c:28-45 | the wait handed to select is a normalised time and is exactly what is left |
| `Times.LaterExactly` | egg3/server/RWS/eggRWSCommon.c:115-131 | a time set for n seconds later is n seconds later, to the microsecond, or at INT_MAX if that is earlier |
| `Times.LaterNotDue` | egg3/server/RWS/eggRWSCommon.c:115-131 | a timeout set for later is not due now if and only if the clock is below INT_MAX, saturation included; and it is due exactly from that many seconds later on |
| `Times.InstantIsRecent` | egg3/server/RWS/eggRWSCommon.c:98-113 | the instant is always aligned to the period in local time; it lies in (t-p, t] exactly when local time is not before the epoch or t is aligned; otherwise in [t, t+p) |
| `Times.AlignedUnique` | egg3/server/RWS/eggRWSCommon.c:98-113 | there is only one aligned instant in (t-p, t] |
| `Times.InstantFixed` | egg3/server/RWS/eggRWSCommon.c:98-113 | apart from 0, the fixed points are exactly the aligned instants |
| `Times.InstantIdempotent` | egg3/server/RWS/eggRWSCommon.c:98-113 | taking the recent instant twice is taking it once if and only if the first is not 0, or the clock read then has the recent instant 0 |
| `Times.CreatorIdsAligned` | egg3/server/RWS/eggRWSMemDptor.c:613-652 | every id a creator hands out is aligned; it is its own recent instant, so a name is formatted from its own id, if and only if it is not 0 or the clock read instead has the recent instant 0; ids strictly increase |
| `Descriptors.Pos` | egg3/server/RWS/eggRWSMemManager.c:371-380 | the place doublelink_add finds: everything before is not greater, the element there is greater |
| `Descriptors.ResortListing` | egg3/server/RWS/eggRWSMemManager.c:660-680 | moving one descriptor to the place its new key asks for keeps a sorted list of all descriptors, each once |
| `Descriptors.AddListing` | egg3/server/RWS/eggRWSMemManager.c:382-411 | adding a descriptor keeps the list sorted, complete and without duplicates |
| `Descriptors.DelListing` | egg3/server/RWS/eggRWSMemManager.c:428-445 | removing one keeps the list sorted and holding exactly the others |
| `Lifecycle.SignalWakesAll` | egg3/server/RWS/eggRWSMemManager.c:733-759 | after signalRetry everything that had RETRY set has its timeout set to now, nothing has RETRY set, nothing else changed, and both lists hold the same descriptors in order |
| `LifecycleInv.ForkInv` | egg3/server/RWS/eggRWSMemDptor.c:222-298 | fork, successful or not, keeps lists, descriptor shapes and DUMPING iff holding the slot |
| `LifecycleInv.DumpStartInv` | egg3/server/RWS/eggRWSMemDptor.c:300-341 | so does dumping, granted or refused |
| `LifecycleInv.HaltWakes` | egg3/server/RWS/eggRWSMemDptor.c:343-374 | halting frees the slot, sets the timeout of every parked descriptor to now and leaves the halted one about to be removed |
| `LifecycleInv.HaltInv` | egg3/server/RWS/eggRWSMemDptor.c:343-374 | halting keeps the invariant, waiting for users or not |
| `LifecycleInv.EndInv` | egg3/server/RWS/eggRWSMemDptor.c:377-394 | removal keeps the invariant |
| `LifecycleInv.CreateInv` | egg3/server/RWS/eggRWSMemDptor.c:613-636 | the creator's trigger, which adds a descriptor and moves itself on, keeps the invariant |
| `LifecycleInv.GrantedInOrder` | egg3/server/RWS/eggRWSMemManager.c:151-188 | when the slot is granted nobody was dumping, no NORMAL or CLEANUP descriptor has a smaller name, the descriptor has no user but its exporter, takes no more writes, and alone is DUMPING |
| `LifecycleInv.AskerIsCandidate` | egg3/server/RWS/eggRWSMemManager.c:151-188 | askDump's assertion that there is a next one cannot fail: the asker is one |
| `LifecycleInv.TooHeavyMakesNothingDue` | egg3/server/RWS/eggRWSMemManager.c:245-280 | isTooHeavy changes no timeout, no order and no writable flag |
| `LifecycleInv.TooHeavyExactly` | egg3/server/RWS/eggRWSMemManager.c:245-280 | it zeroes the time to live of the last mem-server in name order that takes packages, and nothing else |
| `LifecycleInv.WritableIsLast` | egg3/server/RWS/eggRWSMemManager.c:570-602 | the search from the last name backwards finds one that takes packages behind which nobody does, or there is none |
| `LifecycleInv.LastIsWritable` | egg3/server/RWS/eggRWSMemManager.c:570-602 | and whoever is that one is found |
| `LifecycleInv.UsersInv` | egg3/server/RWS/eggRWSMemDptor.c:717-742 | taking and giving back a user keeps the invariant as long as the count stays non-negative |
| `Effects.ForkExactly` | egg3/server/RWS/eggRWSMemDptor.c:222-298 | forked: NORMAL, readable and writable, due in a period; not forked: to be retried, due in 30 s; nobody else is touched |
| `Effects.GrantedIff` | egg3/server/RWS/eggRWSMemManager.c:151-188 | the slot is granted if and only if nobody uses the descriptor and it has the slot, or the slot is free and no NORMAL or CLEANUP descriptor stands before it |
| `Effects.DumpStartExactly` | egg3/server/RWS/eggRWSMemDptor.c:300-341 | granted: DUMPING with one user, due in 3 s; refused: not writable, to be retried, with a time to live of INT_MAX; nobody else is touched |
| `Effects.HaltExactly` | egg3/server/RWS/eggRWSMemDptor.c:343-374 | in use: to be retried, with a time to live of INT_MAX; not in use: the slot is free, all that is to be retried is due now, and so is the end |
| `Effects.CreateExactly` | egg3/server/RWS/eggRWSMemDptor.c:613-636 | the new mem-server has the creator's id and is due now; the creator's id is one period on, and it is due in one |
| `Effects.UnaskExactly` | egg3/server/RWS/eggRWSMemManager.c:190-208 | only its holder gives the slot back |
| `Effects.RefusedThenSignalled` | egg3/server/RWS/eggRWSMemDptor.c:311-317 | a mem-server whose dump was refused takes no packages, is not due, and is due at the next signal |
| `Effects.InUseThenSignalled` | egg3/server/RWS/eggRWSMemDptor.c:353-357 | so is one that is to halt while it is in use |
| `Lifetimes.StepUndisturbed` | egg3/server/RWS/eggRWSMemDptor.c:222-394 | no step but its own trigger changes timeout, state or id of a mem-server that is not to be retried |
| `Lifetimes.ServesForAPeriod` | egg3/server/RWS/eggRWSMemDptor.c:613-636 | over any run, a mem-server that was forked is due exactly from one period after that on, as long as its trigger has not fired since |
| `Lifetimes.KthId` | egg3/server/RWS/eggRWSMemDptor.c:628-632 | over any run, the mem-server that a creator adds after k others has the k-th id from the one it began with |
| `Ring.MutuallyInverse` | egg3/server/RWS/eggRWSMemManager.c:365-380 | next and prev are inverse on every node and on the head |
| `Ring.Ring.InsertBefore` | egg3/server/RWS/eggRWSMemManager.c:365 | the four assignments insert the node at exactly that place of a valid ring |
| `Ring.Ring.Add` | egg3/server/RWS/eggRWSMemManager.c:371-380 | the loop and its two ends insert in order, after equal keys |
| `Ring.Ring.Unlink` | egg3/server/RWS/eggRWSMemManager.c:366-370 | the node is taken out and both its links are null |
| `Ring.Ring.Resort` | egg3/server/RWS/eggRWSMemManager.c:660-680 | sortTimeout moves one node to its place |
| `MemManager.MemServerManager.Put` | egg3/server/RWS/eggRWSMemManager.c:682-695 | the record is written, its timeout is time-to-live seconds from now, to the microsecond and at most INT_MAX, and it is in its place; no other record changes |
| `MemManager.MemServerManager.AddMemServer` | egg3/server/RWS/eggRWSMemManager.c:382-411 | the count, the record and both rings become those of Lifecycle.Add |
| `MemManager.MemServerManager.DelMemServer` | egg3/server/RWS/eggRWSMemManager.c:428-445 | likewise for removal |
| `MemManager.MemServerManager.GetNextDumping` | egg3/server/RWS/eggRWSMemManager.c:527-553 | the walk finds the first NORMAL or CLEANUP descriptor in name order, or none when there is none |
| `MemManager.MemServerManager.AskDump` | egg3/server/RWS/eggRWSMemManager.c:151-188 | the slot is taken exactly when free and the asker is first, or already its own |
| `MemManager.MemServerManager.SignalRetry` | egg3/server/RWS/eggRWSMemManager.c:733-759 | walking the name ring while the timeout ring is relinked wakes everything that is to be retried |
| `MemManager.MemServerManager.UnaskDump` | egg3/server/RWS/eggRWSMemManager.c:190-208 | the slot is given back, and retries signalled, only by its holder |
| `MemManager.MemServerManager.Trigger` | egg3/server/RWS/eggRWSMemManager.c:711-731 | whichever trigger runs, the manager becomes what that trigger makes of it on values |
| `MemManager.MemServerManager.Dumping` | egg3/server/RWS/eggRWSMemDptor.c:300-341 | granted: DUMPING, slot, one more user, due in 3 s; refused: parked with RETRY and WAITFOREVER, and not writable |
| `MemManager.MemServerManager.Halting` | egg3/server/RWS/eggRWSMemDptor.c:343-374 | parked with RETRY and WAITFOREVER while there are users; then the slot is freed, all retries are due now, and the state is HALTING |
| `MemManager.MemServerManager.CreateMemServer` | egg3/server/RWS/eggRWSMemDptor.c:613-636 | one descriptor more, with the creator's id and due at once, and the creator's id and timeout exactly one period on |
| `MemManager.MemServerManager.GetWritable` | egg3/server/RWS/eggRWSMemManager.c:570-602 | the last mem-server in name order that is writable and no creator, with one more user; or nothing changed and there is none |
| `MemManager.MemServerManager.IsTooHeavy` | egg3/server/RWS/eggRWSMemManager.c:245-280 | true exactly when the number has reached the bound; then the last writable one in name order has no time to live, and no other record changes |
| `MemManager.MemServerManager.FireDue` | egg3/server/RWS/eggRWSIntServer.c:672-691 | the loop ends, for any descriptors and any outcomes of fork; it fired only due heads, one after the other; at its end the head is not due, and nothing is due if and only if LeavesNothing held before |
| `Firing.LeavesNothingIff` | egg3/server/RWS/eggRWSIntServer.c:672-691 | for every firing of the loop, whatever fork's outcomes: at its end nothing is due if and only if LeavesNothing held before it |
| `Firing.TrigKeeps` | egg3/server/RWS/eggRWSMemDptor.c:222-394 | firing the head, whichever trigger it is, makes that condition neither true nor false |
| `Firing.StepTimes` | egg3/server/RWS/eggRWSCommon.c:115-131 | every step keeps all timeouts normalised |
| `Late.LateByMicroseconds` | egg3/server/RWS/eggRWSMemDptor.c:523-534 | from a start with nothing on disk, a period of a minute and any second of the clock, the main thread alone, firing heads in turn, gets to a state in which the loop stops although a mem-server is due |
| `Pending.StepToGo` | egg3/server/RWS/eggRWSMemDptor.c:222-394 | no step but its own trigger brings a mem-server nearer to its end, and that by one state |
| `Pending.StillThere` | egg3/server/RWS/eggRWSMemDptor.c:728-742 | after a job gives a mem-server back its descriptor is there until its trigger has fired three times, after the exporter does until it has fired twice, over any run |
| `Pending.GoneBeforeSignal` | egg3/server/RWS/eggRWSMemDptor.c:728-742 | from any state with a due mem-server whose exporter is its only user, giving back, halting and end can come before the signal, and then the descriptor is gone |
| `MainLoop.StepInv` | egg3/server/RWS/eggRWSIntServer.c:502-700 | every step of the main loop and of the threads that use its manager keeps the manager's invariant |
| `MainLoop.FireNeverStuck` | egg3/server/RWS/eggRWSIntServer.c:672-691 | whatever is due can be triggered: a descriptor to be forked always knows what comes after |
| `MainLoop.TrigLess` | egg3/server/RWS/eggRWSMemDptor.c:222-394 | each trigger fired makes (creators due, lifecycle stages to come, descriptors due) lexicographically smaller, although freeing the slot makes others due |
| `WakeUp.StepWake` | egg3/server/RWS/eggRWSMemDptor.c:311-363 | at every step each parked descriptor has a user to wait for, or waits for a slot that somebody has or is to have first, or a signal is on its way |
| `WakeUp.SomethingIsOutstanding` | egg3/server/RWS/eggRWSMemManager.c:733-773 | while there is a descriptor, a timeout that comes by itself, a user or a signal is outstanding: no deadlock |
| `BackPressure.StepBounded` | egg3/server/RWS/eggRWSIntServer.c:502-700 | each step keeps, for any b not less than the maximum: one creator, or none while cleaning up; never more mem-servers than b; room for one more below the maximum before a due creator fires |
| `BackPressure.RunBounded` | egg3/server/RWS/eggRWSIntServer.c:1009-1030 | in every state of every run there are at most b mem-servers, b being the maximum or the number at the start, and at most one creator |
| `BackPressure.WritableNeverRegained` | egg3/server/RWS/eggRWSMemDptor.c:300-341 | a mem-server that has been forked and has stopped taking writes never takes them again |
| `MemManager.MemServerManager.DeleteMemServerCreator` | egg3/server/RWS/eggRWSMemManager.c:315-342 | the first creator in name order is removed, if there is one |
| `MemManager.MemServerManager.NewMemServerCreator` | egg3/server/RWS/eggRWSMemManager.c:298-313 | a creator is added and its timeout set up |
| `IntServer.IntServer.Check` | egg3/server/RWS/eggRWSIntServer.c:502-511 | the heaviness check does the model's CheckStep and, when too heavy, its DeleteStep |
| `IntServer.CheckedExactly` | egg3/server/RWS/eggRWSIntServer.c:502-511 | these do nothing below the maximum; otherwise cleaning up begins and the only creator is gone |
| `IntServer.IntServer.CleanUp` | egg3/server/RWS/eggRWSIntServer.c:1009-1030 | nothing while a mem-server is left; then a new creator, and cleaning is over |
| `IntServer.IntServer.Pass` | egg3/server/RWS/eggRWSIntServer.c:500-700 | a pass ends, is the check, the firing of due heads until the head is not due, the call and the clock in this order, and keeps the invariant and the bound |
| `IntServer.PassKeeps` | egg3/server/RWS/eggRWSIntServer.c:500-700 | any pass keeps the manager's invariant and, from within the bound, the bound, however many triggers fire |
| `BakerPool.LoadedInv` | egg3/server/RWS/eggRWSBakerManager.c:131-168 | loading n bakers gives a pool of n idle READING ones with the given timestamp |
| `BakerPool.AllocInv` | egg3/server/RWS/eggRWSBakerManager.c:248-284 | allocation takes the first of the valid list, notes the thread and counts the request, changes nothing else, and keeps: idle and READING iff in the valid list, idle and WRITING iff in the backup list, BUSY iff in neither, each once |
| `BakerPool.FreeInv` | egg3/server/RWS/eggRWSBakerManager.c:286-325 | freeing makes the baker idle, puts it at the end of the list that the READING bit says, changes nothing else, and keeps that |
| `BakerPool.LastFreedLastTaken` | egg3/server/RWS/eggRWSBakerManager.c:248-325 | a READING baker that is freed is taken again only after all that are idle by then, in their order |
| `BakerPool.Move` | egg3/server/RWS/eggRWSBakerManager.c:334-416 | so does moving: exactly the named bakers lose READING, busy or not, and nothing else about anyone changes |
| `BakerPool.MoveAppends` | egg3/server/RWS/eggRWSBakerManager.c:334-416 | those of them that are idle stand at the end of the backup list, in the order of the ids |
| `BakerPool.AlterInv` | egg3/server/RWS/eggRWSBakerManager.c:532-563 | exchanging the groups exchanges the lists and every READING bit, gives the timestamp to those that become READING, to the valid group and to maxtime, and keeps the partition |
| `BakerPool.WToRInv` | egg3/server/RWS/eggRWSBakerManager.c:697-745 | joining puts the backup list behind the valid one, makes exactly its bakers READING with the group's timestamp, and keeps the partition |
| `BakerManager.BakerManager.constructor` | egg3/server/RWS/eggRWSBakerManager.c:96-110 | an empty pool with the given capacity |
| `BakerManager.BakerManager.LoadBakerInfo` | egg3/server/RWS/eggRWSBakerManager.c:131-168 | one baker more at the end of the valid list, or nothing when the table is full |
| `BakerManager.BakerManager.AllocBaker` | egg3/server/RWS/eggRWSBakerManager.c:248-284 | head, count, tail and status bits become those of the pool without its first idle baker |
| `BakerManager.BakerManager.FreeBaker` | egg3/server/RWS/eggRWSBakerManager.c:286-325 | the links become those of the pool with the baker at the end of its list |
| `BakerManager.BakerManager.MoveBakersByIds` | egg3/server/RWS/eggRWSBakerManager.c:334-416 | the search and the unlinking do what Move does to the pool; whatever then hangs off the backup list is a node of the valid one |
| `BakerManager.BakerManager.AlterGroup` | egg3/server/RWS/eggRWSBakerManager.c:532-563 | on a full table, which it demands because it runs over all aCnt entries: groups, bits and timestamps are exchanged as on the pool |
| `BakerManager.BakerManager.Absorb` | egg3/server/RWS/eggRWSBakerManager.c:716-740 | the walk visits exactly the bakers of the null-terminated list, in order, and leaves each READING with the group's timestamp |
| `BakerManager.BakerManager.WToRGroup` | egg3/server/RWS/eggRWSBakerManager.c:697-745 | with a null-terminated backup list the walk ends and the pool is the joined one, null-terminated |
| `WToRWalk.EndsIffEnded` | egg3/server/RWS/eggRWSBakerManager.c:716-740 | on any links that moving can leave, the walk reaches null if and only if the backup list is null-terminated; otherwise it goes round for ever |
| `WToRWalk.EndedAfterMove` | egg3/server/RWS/eggRWSBakerManager.c:334-416 | after moving, the backup list is null-terminated if and only if the valid list was and every baker behind the last idle one that is moved is moved, too |
| `WToRWalk.EndsAfterMoveIff` | egg3/server/RWS/eggRWSBakerManager.c:716-740 | straight after moving, on any links that stand for the pool, the walk reaches null if and only if that is so |
| `WToRWalk.WrongOrderNeverEnds` | egg3/server/RWS/eggRWSBakerManager.h:207-222 | after moving the first half of a pool of two or more as it is loaded, the walk of WToR_Group never reaches null |
| `WToRWalk.OtherOrderEnds` | egg3/server/RWS/eggRWSBakerManager.c:716-740 | with the list in the other order it can |
| `DumpCycle.InitInv` | egg3/server/RWS/eggRWSBakerManager.c:170-215 | the loaded pool satisfies the invariant, whatever each replica holds |
| `DumpCycle.StepInv` | egg3/server/RWS/eggRWSMemDptor.c:1227-1359 | every step of exporter and readers keeps: all READING bakers hold what they held at the start and then the published packages, and carry maxtime; WRITING ones are exactly the batch, idle as far as the scan has come, and hold the published packages up to their progress |
| `DumpCycle.HalfServes` | egg3/server/RWS/eggRWSMemDptor.c:1224-1289 | of n replicas at least n / 2 are READING in every phase: those from n / 2 on while the first half is written, the first half while the others are, and all otherwise |
| `DumpCycle.BatchesAreHalves` | egg3/server/RWS/eggRWSMemDptor.c:1224-1297 | moving makes exactly those below n / 2 WRITING, alter_group exactly the others, and the exports write to them |
| `DumpCycle.PublishedUnderId` | egg3/server/RWS/eggRWSMemDptor.c:1295-1297 | what is published is published under the mem-server's id |
| `DumpCycle.CycleNeverStuck` | egg3/server/RWS/eggRWSMemDptor.c:1227-1359 | whatever readers did, the exporter can take its next step; in particular the list WToR_Group walks is null-terminated by then |
| `DumpCycle.ExporterGetsOn` | egg3/server/RWS/eggRWSBakerManager.c:418-454 | each of its steps brings it nearer to the end of the cycle, except that the scan waits at a WRITING baker that a reader has, and then changes nothing |
| `DumpCycle.ContentStep` | egg3/server/RWS/eggRWSBakerManager.c:334-454 | a baker's content changes only while it is idle, WRITING and in the backup list |
| `DumpCycle.AllocGivesPublished` | egg3/server/RWS/eggRWSBakerManager.c:248-284 | a reader is given a baker with what it held at the start and exactly the packages published since, and their timestamp |
| `DumpCycle.ReadersSeeOneVersion` | egg3/server/RWS/eggRWSBakerManager.c:248-325 | over any run a baker shows its reader the version of the moment it was given, until it is freed |
| `DumpCycle.AlikeIffBegunAlike` | egg3/server/RWS/eggRWSMemDptor.c:1227-1359 | two READING bakers show the same if and only if they held the same at the start |
| `DumpCycle.WToRFirstIsWrong` | egg3/server/RWS/eggRWSBakerManager.h:207-222 | in the documented order, as long as a package is still to be applied, the export writes into a baker that is READING and in the valid list and that lacks published packages |
| `DumpCycle.HistoryGrows` | egg3/server/RWS/eggRWSMemDptor.c:1227-1359 | each published version is a prefix of every later one |
| `DumpCycle.IdleWritingStable` | egg3/server/RWS/eggRWSBakerManager.c:268-325 | idle and WRITING is stable under every step but the two that change READING bits |
| `DumpCycle.ScanSound` | egg3/server/RWS/eggRWSBakerManager.c:418-454 | when the one-at-a-time scan returns, no WRITING baker is busy and all are in the backup list |
| `Requests.StepInv` | egg3/server/RWS/eggRWSBakerManager.c:566-642 | every step keeps: requests answered, in hand and queued are those made, in order; exactly the unanswered are waited for; nobody sleeps through a signal; each answered reader holds a baker of its own |
| `Requests.WakeFindsOne` | egg3/server/RWS/eggRWSBakerManager.c:607-642 | when the worker is woken the head it takes without looking again is there |
| `Requests.NeverStuck` | egg3/server/RWS/eggRWSBakerManager.c:248-266 | while a request is unanswered the worker can go on unless there is no idle READING baker |
| `Requests.WorkerGetsOn` | egg3/server/RWS/eggRWSBakerManager.c:607-642 | each of its steps answers a request or brings it nearer to that, or it waits because there is nothing to take |
| `Requests.AnswerExactly` | egg3/server/RWS/eggRWSBakerManager.c:607-642 | the longest waiting request is given the baker that has been idle for longest, and nobody else is |
| `Requests.FreeExactly` | egg3/server/RWS/eggRWSBakerManager.c:286-325 | a baker that is given back is idle behind all others, and a worker that waits for one is woken |
| `Requests.ServedInOrder` | egg3/server/RWS/eggRWSBakerManager.c:566-642 | over any run what was answered is a prefix of what was asked |
| `LoopChange.StepChanged` | egg3/server/RWS/eggRWSMemDptor.c:222-394 | a step of the main thread forks, begins dumping, ends dumping, removes or adds at most one descriptor, under exactly these conditions on its state and users, and leaves the others, their names and their ids alone |
| `Names.StepUnique` | egg3/server/RWS/eggRWSMemDptor.c:613-636 | every step keeps: names distinct, one creator, its id aligned and its later ids ahead of all names, unless there are so many mem-servers that it is deleted before anything fires |
| `Names.GivesItsId` | egg3/server/RWS/eggRWSCommon.c:75-96 | the name a creator gives is that of its own id |
| `Files.ChangeTidy` | egg3/server/RWS/eggRWSMemDptor.c:447-463 | with names distinct, what a step of the main thread does to directories leaves every mem-server its own file and every log what it was, and every process that takes packages at the end of its file |
| `Files.WriteTidy` | egg3/server/RWS/eggRWSPackBuf.c:102-124 | with names distinct, adding through the process's own offset appends to the mem-server's log and changes no other |
| `Cluster.StepBase` | egg3/server/RWS/eggRWSMemDptor.c:300-374 | whatever the names, every step of every thread keeps the manager's invariant and: only the holder of the slot has an exporter, users are exactly jobs and exporter, jobs are on NORMAL mem-servers |
| `Cluster.StepInv` | egg3/server/RWS/eggRWSMemDptor.c:300-374 | from distinct names, every step of every thread keeps both parts' invariants, that, and names and files as in Names and Files |
| `Cluster.StepRefines` | egg3/server/RWS/eggRWSMemDptor.c:1126-1370 | every step of the server is a step of the main loop's model or leaves it alone, and a step of the dump cycle's model or leaves that alone |
| `Cluster.OneExporter` | egg3/server/RWS/eggRWSMemManager.c:151-208 | dump cycles never overlap, and the slot's holder is DUMPING with a user until its exporter is done |
| `Cluster.NoWriteInFlight` | egg3/server/RWS/eggRWSIntServer.c:1378-1409 | when a dump begins no job is on the mem-server and it is not writable |
| `Cluster.LogIsFrozen` | egg3/server/RWS/eggRWSMemDptor.c:1227-1359 | with names distinct, no step changes the package file that an exporter replays while it does |
| `Start.StartsWell` | egg3/server/RWS/eggRWSMemManager.c:61-109 | whatever directories are found and in whatever order, with or without cleaning up first: the manager built from them has its invariant, normalised timeouts, nobody parked, no slot taken, and is within any bound not less than the maximum and than what was found and the creator |
| `Start.FoundExactly` | egg3/server/RWS/eggRWSMemManager.c:82-109 | each directory found has a CLEANUP descriptor with its name and id, without users, due at once |
| `Start.BeginsNow` | egg3/server/RWS/eggRWSMemDptor.c:638-653 | a creator begins with the aligned instant not later than the clock and less than a period before |
| `Start.StartUniqueIff` | egg3/server/RWS/eggRWSIntServer.c:484-499 | names are as Names asks if and only if the server waits, or has so many directories that the creator is deleted at once, or none has a name that the creator will ever give |
| `ClusterRuns.BootBase` | egg3/server/RWS/eggRWSBakerManager.c:170-215 | with such a manager, whose descriptors have no users, and a loaded pool the server is in what does not depend on names, and the cycle in its invariant |
| `ClusterRuns.StartsWell` | egg3/server/RWS/eggRWSIntServer.c:484-499 | every start, clean or unclean, with any files and any contents of the replicas, is one that RunSafe starts from; and it is in the whole invariant if and only if names are all right |
| `ClusterRuns.RunSafe` | egg3/server/RWS/eggRWSIntServer.c:502-700 | at every moment of every run of the whole server from a start, whatever the names: the bound, at most one dumping, exporters only there, and something outstanding |
| `ClusterRuns.ReadersSeeOneVersion` | egg3/server/RWS/eggRWSIntServer.c:1440-1462 | over any run of the whole server from the invariant a reader sees what its baker held at the start and exactly the packages published until it was given the baker |
| `ClusterRuns.HalfServes` | egg3/server/RWS/eggRWSMemDptor.c:1224-1289 | over any such run at least half of the replicas are READING at every moment |
| `ClusterRuns.AlikeIffBegunAlike` | egg3/server/RWS/eggRWSMemDptor.c:1227-1359 | over any such run two READING replicas show the same if and only if they held the same at the start |
| `ClusterRuns.HistoryGrows` | egg3/server/RWS/eggRWSMemDptor.c:1227-1359 | versions only grow, over any run of the whole server |
| `Durability.StepConserves` | egg3/server/RWS/eggRWSMemDptor.c:300-394 | each step adds to published-plus-waiting exactly what it writes to a log: nothing lost, nothing counted twice |
| `Durability.StepAnswers` | egg3/server/RWS/eggRWSPackageSaver.c:969-989 | each step: written jobs in flight, plus every package answered as stored and what is denied although stored, are those before plus what is written; so nothing is answered as stored that was not written |
| `Durability.NothingLost` | egg3/server/RWS/eggRWSMemDptor.c:300-394 | over any run, published plus waiting is what there was at the start plus all that was written, as multisets |
| `Durability.AnsweredIsHeld` | egg3/server/RWS/eggRWSIntServer.c:1378-1408 | over any run, the server holds what it held at the start, all that was answered as stored, and besides only what is about to be answered and what was denied although stored; so what was answered is never lost, and with no job in flight and none denied it is exactly that |
| `Durability.DrainedMeansAllPublished` | egg3/server/RWS/eggRWSMemDptor.c:1227-1359 | once nothing waits, what was published is exactly that, each package as often as it was written |
| `NameClash.DistinctIff` | egg3/server/RWS/eggRWSIntServer.c:484-499 | for directories made before now: in all runs from a start names stay distinct if and only if the server waits, or has so much to clean up that the creator is deleted first, or no directory has the name the creator gives first |
| `NameClash.LosingRun` | egg3/server/RWS/eggRWSPackageSaver.c:916-988 | otherwise, with a file that is not empty: a run in which the first package is answered as stored and written over the first one found, of which nothing was published |
| `NameClash.EndTakesBoth` | egg3/server/RWS/eggRWSMemDptor.c:447-463 | the end of one of two mem-servers of one name leaves the other an empty log and no file |
| `NameClash.WritesNowhere` | egg3/server/RWS/eggRWSPackageSaver.c:969-989 | what such a mem-server then writes, and may answer as stored, is in no file |
| `NameClash.StaysOut` | egg3/server/RWS/eggRWSMemDptor.c:222-298 | and no step gives it a file again |
| `CircularQueue.PushWindow` | egg3/server/RWS/eggRWSCommon.c:340-370 | writing at the tail appends while the tail does not catch up, and then the queue is not full |
| `CircularQueue.GrowWindow` | egg3/server/RWS/eggRWSCommon.c:350-365 | when it does the queue is full, and the doubled buffer with the front copied behind the old end holds the same and the new element, in order |
| `CircularQueue.PopWindow` | egg3/server/RWS/eggRWSCommon.c:372-390 | advancing the head takes away exactly the first element |
| `CircularQueue.Queue.constructor` | egg3/server/RWS/eggRWSCommon.c:323-339 | empty, with the size asked for, or 100 |
| `CircularQueue.Queue.Push` | egg3/server/RWS/eggRWSCommon.c:340-371 | the contents gain the element at the end; the size doubles exactly when full |
| `CircularQueue.Queue.Pop` | egg3/server/RWS/eggRWSCommon.c:372-390 | the first element, and the contents without it |
| `CircularQueue.Queue.PopNoWait` | egg3/server/RWS/eggRWSCommon.c:392-413 | the same, or nothing exactly when empty |
| `CircularQueue.Queue.Look` | egg3/server/RWS/eggRWSCommon.c:414-433 | the first element, or nothing exactly when empty |
| `CircularQueue.Queue.Count` | egg3/server/RWS/eggRWSCommon.c:435-444 | the number of elements, always less than the size, so head == tail never means full |
| `PointerSet.FilterSplits` | egg3/server/RWS/eggRWSCommon.c:528-560 | what stays and what do_func is called with are together exactly what there was |
| `PointerSet.Keys.Add` | egg3/server/RWS/eggRWSCommon.c:488-521 | appended if new; the array is doubled exactly when that fills it, so there always is room for one more |
| `PointerSet.Keys.Remove` | egg3/server/RWS/eggRWSCommon.c:528-560 | in place and in order: the others stay, do_func is called once with each that is picked |
| `Sockets.StepInv` | egg3/server/RWS/eggRWSIntServer.c:631-650 | every step keeps: each socket in at most one place, and there iff accepted once more than closed |
| `Sockets.OnePlaceEach` | egg3/server/RWS/eggRWSIntServer.c:855-901 | over any run each socket is closed at most as often as accepted, and is in exactly one of set, scan, queue and hands while open |
| `Sockets.WhereItGoes` | egg3/server/RWS/eggRWSIntServer.c:855-901 | each step takes the socket it is about out of one place and puts it into exactly one other, or closes it once |
| `Sockets.PutBackIsNew` | egg3/server/RWS/eggRWSCommon.c:488-521 | a socket a worker puts back is never in the set already |
| `Sockets.ServedAlone` | egg3/server/RWS/eggRWSIntServer.c:1155-1258 | a socket in a worker's hands is in no list and in no other worker's |
| `Sockets.LimitIsOnWaiting` | egg3/server/RWS/eggRWSIntServer.c:577-583 | for any n, with any number of idle workers, a run of the empty server leaves n open sockets queued, and the next connection is still accepted |
| `Sockets.SetPassesLimit` | egg3/server/RWS/eggRWSIntServer.c:1155-1190 | for any n, with a worker or more, a run leaves n sockets in the set |
| `Sockets.DeniedIff` | egg3/server/RWS/eggRWSIntServer.c:577-583 | a new connection is denied exactly when 800 sockets are waiting or more |
| `Sockets.LimitHolds` | egg3/server/RWS/eggRWSIntServer.c:577-583 | only putting back makes the waiting ones more than the limit |
| `Sockets.ScanIsRemove` | egg3/server/RWS/eggRWSIntServer.c:631-650 | a scan taken look by look does what eggRWSSet_remove does, and hands over or closes exactly the picked ones, in order |
| `Framing.FramingLosesNothing` | egg3/server/RWS/eggRWSPackageSaver.c:234-285 | the packages and the rest, put together, are the stream |
| `Framing.FramingIsSound` | egg3/server/RWS/eggRWSPackageSaver.c:234-285 | each is a whole package and none is left in the rest |
| `Framing.FramingIsUnique` | egg3/server/RWS/eggRWSPackageSaver.c:234-285 | there is no other way to cut a stream, so it does not matter where the reads cut it |
| `Framing.FramingGrows` | egg3/server/RWS/eggRWSPackageSaver.c:234-285 | what has been framed stays framed when more arrives |
| `MemWorker.Worker.Fill` | egg3/server/RWS/eggRWSPackageSaver.c:156-193 | the bytes taken are the next ones, as many as there is room and need for; if there are none the status becomes CLOSED at the end of the connection, ERRORIO on an error, and stays when there is just nothing yet |
| `MemWorker.Worker.ReadHeader` | egg3/server/RWS/eggRWSPackageSaver.c:239-260 | header bytes are collected; when they are all there the buffer is enlarged to the size they tell, and keeps them, and the status is HADSIZE; otherwise what there is is taken and the status says why there is no more |
| `MemWorker.Worker.ReadBody` | egg3/server/RWS/eggRWSPackageSaver.c:263-283 | the package is processed exactly when its last byte is there; with an empty body whatever the read reports |
| `MemWorker.Worker.In` | egg3/server/RWS/eggRWSPackageSaver.c:234-285 | after any split into reads the packages processed are the framing of all that was read, buff_in holds exactly the rest, and the status is the one that the last read leaves: ready, waiting for a body, closed or in error |
| `MemWorker.Worker.WriteOne` | egg3/server/RWS/eggRWSPackageSaver.c:310-341 | as much is written as the socket takes; what is sent and what is queued stay together the same stream, in order; ERRORIO exactly on an error other than a full buffer |
| `MemWorker.Worker.Out` | egg3/server/RWS/eggRWSPackageSaver.c:286-351 | any partial writes keep that, sent bytes only grow, the write flag is set iff something is queued; it stops when all is out or a write takes nothing, and then ERRORIO iff that was an error |
| `MemWorker.AnsweredMore` | egg3/server/eggMemServer.c:181-220 | an answer queued by fillbuffout joins the end of the stream to be sent |
| `PackFile.PackBuf.Add` | egg3/server/RWS/eggRWSPackBuf.c:102-124 | the file with the package written at the handle's offset, the offset behind it, the size kept up; at the end of the file that is appending |
| `PackFile.WriteAtExactly` | egg3/server/RWS/eggRWSPackBuf.c:102-124 | byte by byte: what is written is where it was written, a hole is zeros, and everything else is as it was |
| `PackFile.PackBuf.Fetch` | egg3/server/RWS/eggRWSPackBuf.c:71-101 | the next whole package and the position behind it; or nothing, and the position behind a header if there is one; on a file truncated since the handle looked, the offsets and lengths that the short reads lead to |
| `PackFile.PackBuf.Replay` | egg3/server/RWS/eggRWSExportDoc.c:244-269 | fetching until nothing comes gives exactly the framing of what the handle had left |
| `PackFile.RoundTrip` | egg3/server/RWS/eggRWSPackBuf.c:71-124 | replaying a file of added packages cut at any byte gives the longest run of whole packages still there, and all of them if not cut |
| `PackFile.AddKeepsIff` | egg3/server/RWS/eggRWSPackBuf.c:102-124 | adding keeps what the file held iff at or behind its end, or the overlap agrees |
| `PackFile.FreshHandleOverwrites` | egg3/server/RWS/eggRWSPackBuf.c:3-23 | the first package added through a fresh handle becomes the beginning of the file |
| `PackFile.NothingIsFinalIff` | egg3/server/RWS/eggRWSPackBuf.c:71-101 | no number of fetches finds anything if and only if no whole package begins at a whole number of headers from here |
| `PackFile.NothingIsNotFinal` | egg3/server/RWS/eggRWSPackBuf.c:84-96 | a file where a fetch finds nothing and the next one takes part of a body for a package |
| `Scheduler.InverseRemove` | egg3/server/eggInfoServer.c:1888-1907 | moving up what is behind a vacated place, indices too, keeps schedule and indices inverse and removes exactly that unit |
| `Scheduler.InverseOnce` | egg3/server/eggInfoServer.c:1877-1907 | no unit is scheduled twice and the scheduled ones are exactly those with a positive index |
| `Scheduler.Pigeonhole` | egg3/server/eggInfoServer.c:1855-1875 | distinct units other than a given one are fewer than all units: the schedule never overflows |
| `Scheduler.Scheduler.NewProcUnit` | egg3/server/eggInfoServer.c:1823-1853 | the first unit with index 0, or the first of a new block; marked allocated, the schedule untouched |
| `Scheduler.Scheduler.AllocUnits` | egg3/server/eggInfoServer.c:1856-1875 | a block of free units and as much more room, nothing else changed |
| `Scheduler.Scheduler.AddSchEntry` | egg3/server/eggInfoServer.c:1877-1886 | appended to the schedule, for which there always is room |
| `Scheduler.Scheduler.RemoveSchEntry` | egg3/server/eggInfoServer.c:1888-1907 | the schedule without the unit, in order, and indices moved up |
| `Scheduler.Scheduler.ModProcUnit` | egg3/server/eggInfoServer.c:1703-1724 | the unit at the end of the schedule, whether it was in it or not, the others in order with their indices; touched once more |
| `Scheduler.Scheduler.DelProcUnit` | egg3/server/eggInfoServer.c:1694-1701 | out of the schedule and free, free units being exactly those with index 0; the source's assertion fails, and nothing changes, if and only if the unit is free or was never scheduled |
| `Scheduler.Scheduler.NeverScheduled` | egg3/server/eggInfoServer.c:1703-1724 | an allocated unit was never scheduled if and only if it was touched once |

## Left out

- Sockets, select, fork, exec, signals, logging and the query engine are outcomes left open: bytes that a read finds, what a write takes, whether fork succeeded, what a package is. Partial writes to the package file, whose results the source ignores, are left out with them.
- Exports are assumed to succeed: the source ignores the exit codes of the export processes. What a replica holds is what it held at the start and the sequence of packages applied to it since; that a log found at the start may be in it already is not looked into.
- With no replica at all a dump publishes nothing and the mem-server is removed all the same; `Durability` therefore speaks of pools of one replica or more.
- Spurious wake-ups of condition waits are ignored, and integers do not overflow, except where INT_MAX saturates a timeout.
- The clock: `timeval_someTimeLater` reads it again when the time is 0; the model takes a time that is not 0.
- SIGTERM shutdown and `makeFlush`: shutdown points UNFORKED descriptors at dumping, which the slot is not meant to cover.
- `eggRWSBakerManager_move_baker`: nothing calls it, and it never counts what it moves.
- `getMemServerById` and `getReadableMemServer`: their call sites are commented out.
- `EGGRWSJOBSPEC` and the FIFO list: with the reading of mem-servers commented out a job always goes to one mem-server, so the fan-out adds nothing hard; jobs appear in `Cluster` from being obtained to being answered.
- `free_baker` clears the baker's own next pointer before it locks; the model does so inside the step, which is the same because a BUSY baker is in no list.
- Descriptors are known by their address, names by their rank in strcmp order; the rank of a name formatted from an instant is that instant. So the offset of local time is fixed, and the clock is past the first period after the epoch, where an id could be 0: `Names.Named` says so of every step.
- What a file reads as after packages were written over it is left open, package by package, since packages differ in length; bytes are in `PackFile`.
- Cluster.FailStep: a job that ends with an error before its package was written is never written later; a mem-server that is a process of its own may still write it.
- While cleaning up the source answers writing clients with "try again"; the model lets them obtain a mem-server all the same, which only adds runs.
- Nodes of the two descriptor lists and of the baker lists are represented by handles and indices with maps and sequences for their link fields, so freeing memory is not modelled.
- Scheduler.Scheduler.AddSchEntry: the schedule is a sequence of fixed length with a fill count, not an allocated array, so reallocation is not modelled.
- BakerManager.BakerManager.AlterGroup: asks for a full table, which is how eggRWSBakerManager_new leaves it; the source reads an entry that was never loaded as a pointer, and the model gives it no value.
- The information server's lookup by address range depends on a comparison whose source is not part of this model.
- `eggDoubleList`, `eggIdNode.c`, `eggDocView.c`, `eggIdView.c`, `eggRWSMergePackage.c`, configuration parsing and the tools in `egg3/bin` are left out: unused, or thin layers over sources that are not part of this model.
