# Ocre: models and proofs

Ocre is a container runtime for small devices. This project models the parts of it whose correctness is
hard to see from any one function, and proves what those parts promise. `dafny verify dfyconfig.toml`
checks everything.

**Streaming SHA-256** (`Fips180`, `Fips180Facts`, `Fips180Example`, `Sha256`, `Sha256File`). `Fips180` is the one-shot function of FIPS 180-4
(sections 4.1.2, 4.2.2, 5.1.1, 5.3.3 and 6.2.2): rotations, the schedule recurrence, the padded message in
one piece. `Fips180Facts` derives its constants from the roots of primes and its bit functions bit by bit, and
`Fips180Example` follows the published example, the message "abc", through all 64 rounds to its digest. `Sha256.Sha256Buff` is the incremental program, with its
partial-block buffer and its 64-bit length counter. Its invariant `Absorbed(m)` says that the buffer holds
the last `|m| mod 64` bytes and `h` the fold over the full blocks. The main result is `Sha256File.HashPieces`: for every
message and every way of cutting it, the streaming computation gives the one-shot value. From 2^61 bytes
on the standard defines no value, and the program hashes with the bit length taken modulo 2^64
(`Sha256.Digest` says so).

**Intrusive lists** (`MergeSort`, `Utlist`, `ListOps`). Heap nodes whose `next` and `prev` are rewritten in
place; a ghost sequence says which list the links form. The three sort macros share one text here, with
the list kind as a parameter, and refine the sequence function `MergeSort.Passes`, which is proved to be
*the* stable sort: `SortIsStableSort` says it is one and `StableSortUnique` that there is no other.
Comparison functions are arbitrary total preorders.

**rm_rf** (`Paths`, `FileSystem`, `RmRfSpec`, `RmRfRecursive`, `RmRf`). The disk is a finite tree of places,
and lstat, opendir, unlink, rmdir and both allocations may fail at any place, in any combination. A directory
stream is the list of names taken at opendir, in any order. `RmRfRecursive.DeleteTree` is the recursive
best-effort deletion; `RmRfSpec.Removed` is its closed form; the loop over the explicit stack is proved
against the closed form with an invariant on every frame, and `RmRf.RmRf` states the result against the recursion.

**Events, messages and timers** (`EventQueue`, `ApiSpec`, `ApiRuns`, `ApiCounts`, `ApiMemory`, `ApiPublish`,
`ApiTheorems`, `ApiFrees`, `ApiDelivery`, `ApiClock`, `ApiTimers`, `ApiOrphans`, `ApiCalls`,
`Api`).
`ApiSpec` gives each call of the module interface as a function on a state; `Api.Interface` is the program, with tables, a ring buffer and a heap per module, and each of its methods
refines its function. `ApiRuns.Run` is any sequence of calls by any modules, timer expiries included, with
the history of what was accepted and delivered beside the state. A module begins once and ends once. One whose
container has the `ocre:api` capability is registered, and cleaned up and unregistered at its end; one whose
container lacks it can make the same calls, but just ends (src/runtime/wamr-wasip1/wamr.c:63-66, 103-111). Handles of
modules are not reused, and each call is one step.

**Container lifecycle** (`Lifecycle`, `LifecycleTheorems`, `LifecycleWaits`, `LifecycleSemaphore`, `LifecycleCalls`,
`Pthreads`, `Container`). Interleaved steps of API callers and of
the container thread over one mutex, one condition variable, one semaphore and the status field. Critical
sections of callers are single steps; that of the thread is four, since its two writes can be seen apart by
`destroy`, which takes no lock. Waiting calls may wake at any time. `Container.OcreContainer` is the program's
struct: one status, one exit code, one thread handle. It works on the objects of `Pthreads.Platform`, whose
preconditions say what POSIX leaves undefined (joining a thread twice or while it needs the mutex, using a dead
attribute or initialising a live one, unlocking someone else's mutex) and are proved at every call; each function
is proved against its step.

**Context registry** (`Names`, `Workdirs`, `ContextSpec`, `Context`). The list of containers on top of `ListOps`, and their
working directories on top of `RmRf`. What kill, wait and destroy do to a listed container follows its status, and is
proved to be what the lifecycle's steps do (`ContextSpec.AwaitedIsLifecycle`).

## What the proofs found

The lemmas named give the exact condition and, where a promise fails, a run or an input at which it does.

- A `destroy` that returns 0 can leave a running thread behind. That no `start` is rejected is not
  enough to rule it out: a `start` whose attribute initialisation fails releases the mutex before it stores ERROR,
  and another `start` may succeed in between (`OverlappingStartsLeak`, `RejectedStartLeaks`). `DestroyLeaksIff` with
  `StainedIsHistory` gives the exact condition in terms of the run: an unlocked store of ERROR hit while a thread was
  not joined, and no thread published its exit since. `DestroyIsClean` gives a rule callers can follow: no rejected
  start, and no start while another one is failing.
- With status EXITED or STOPPED the exit code is the result of the latest run, except while the thread is between
  its write of the status and its write of the exit code: there it is the result of the run before
  (`ExitCodeIsLatest`, `OlderCodeIsSeen`). Both writes are under the mutex, so `wait` never sees this
  (`WaitReportsLatest`).
- A `wait` can sleep with no thread to wake it. A `start` sets RUNNING before it creates the thread; when that fails it
  releases the mutex and stores ERROR only then, and a `wait` in between finds RUNNING (`SleepsForever`). Whenever a
  wait would sleep, some later run publishes an exit if and only if there is an unjoined thread (`SleeperIsWokenIff`);
  without one, nothing is ever published again (`LifelessForever`).
- A `start` need not be released by the post of its own thread. A thread that fails to instantiate never posts, and the
  post of the next one releases the earlier start, while the later one waits (`ReleasedByAnotherRun`). Starts waiting
  are always posts not taken plus threads that have not posted (`EveryRunSem`); `ReleasedByOwnRunIff` says exactly
  when a start is released by its own run, and that it is when it is the only one waiting.
- A PAUSED container survives a teardown, in the list and with its directory: kill refuses it, wait does not sleep,
  destroy refuses it (`Context.Context.Teardown`).
- Nothing cleans up behind a module that never was registered. Its timer slot stays in use in every later run and
  answers -EBUSY to everyone (`OrphanedForever`, `PlainModuleOrphans`), and goes on queueing events that nobody can
  take (`OrphanBlocks`). Every other slot in use belongs to a running module (`SlotsBelong`).
- Freeing event data does not check whom the blocks belong to. Memory is conserved throughout a run if and only if
  no free in it takes a block of a message still queued (`ConservedIff`, `QueuedFreeBreaks`). A module that frees only
  blocks it was handed, which it can see for itself, is safe (`EveryRunConservesMemory`).
- Once the owner of the event at the head of the queue is unregistered, nothing is delivered to anyone any more;
  while the owner runs, the event can be delivered (`DeliveryStopsIff`).
- A topic of 64 or more characters is stored cut to 63, and the search for an earlier subscription compares
  the uncut one, so a module can take several slots for it (`SubscribeUnique`, `LongTopicTwice`).
- `is_periodic` is kept in one bit, but the OS timer gets a period for every value other than zero. The two agree
  if and only if the value is zero or odd (`FlagAgrees`). For an even value other than zero the timer goes on firing and
  queueing events, while the slot counts as stopped from its first expiry on and reports 0 (`PeriodicOverRuns`,
  `StaysStopped`).
- If an expiry is lost, a timer that has run for 2^32 ms or more since its start reports the true remaining time if and
  only if the wrapped elapsed time is not inside the interval again (`RemainingExact`, `WrappedReport`). As long as
  expiries come with a bounded lag, every report is true, however long the timer is in use (`TimelyReportIsTrue`).
- A create whose mkdir fails because the directory exists deletes that directory and all it holds on its
  way out (`RollbackDeletesOldDirectory`). `RollbackExact` says when the rollback restores the tree, whatever fails in
  rm_rf. It is never the directory of another listed container.
- When rm_rf fails during a removal, the node stays in the list with a container that is already destroyed
  (`RemovalStrands`), and lookups would read it. `Context.Context.Remove` says exactly when the registry stays usable:
  the container was not listed, was in use, or left no directory behind; without allocation failures, iff no call
  fails in its directory.
- The comment in common.c says alphanumeric; the code accepts lowercase letters only. The model follows the code.

## Model

| member | source | states |
|---|---|---|
| `Sha256File.HashPieces` | src/shell/sha256/sha256.c:30-157 | For every message and every cutting into pieces, init, updates, finalize and read give the SHA-256 value of the whole; every buffer index is in range |
| `Sha256.Sha256Buff.Init` | src/shell/sha256/sha256.c:30-42 | The state that has absorbed the empty message |
| `Sha256.Sha256Buff.CalcChunk` | src/shell/sha256/sha256.c:56-97 | One block is the compression of section 6.2.2 on the old hash value |
| `Sha256.Sha256Buff.Schedule` | src/shell/sha256/sha256.c:60-72 | All 64 words are those of the schedule recurrence |
| `Sha256.Sha256Buff.Update` | src/shell/sha256/sha256.c:99-123 | From "absorbed m" to "absorbed m + data", for any data length and any fill of the buffer |
| `Sha256.Sha256Buff.Finalize` | src/shell/sha256/sha256.c:125-146 | The one- or two-block padding gives the hash of the padded message |
| `Sha256.Sha256Buff.Read` | src/shell/sha256/sha256.c:148-157 | The eight words in big-endian order |
| `Sha256.BytesRoundTrip` | src/shell/sha256/sha256.c:148-157 | Every word can be read back from its four bytes |
| `Sha256.DigestOrder` | src/shell/sha256/sha256.c:148-157 | The 32 bytes are the words a to h, in that order |
| `Sha256.Sha256Buff.ReadHex` | src/shell/sha256/sha256.c:170-175 | The digest bytes as 64 lowercase hexadecimal digits |
| `Sha256.BinToHex` | src/shell/sha256/sha256.c:159-168 | The table-driven loop produces the digits that `HexRoundTrip` decodes |
| `Sha256.HexRoundTrip` | src/shell/sha256/sha256.c:159-168 | Decoding the hexadecimal text gives the bytes back |
| `Sha256.DigestIsSha256` | src/shell/sha256/sha256.c:125-146 | Below 2^61 bytes the wrapping length counter does not matter: the value is that of FIPS 180-4 |
| `Sha256.ShiftsAreRotations` | src/shell/sha256/sha256.c:54-82 | The shift-and-or forms are the rotations of section 4.1.2 |
| `Sha256.ConstantsAreK` | src/shell/sha256/sha256.c:44-52 | The program's table of round constants is that of section 4.2.2 |
| `Fips180Facts.ConstantsAreCubeRoots` | src/shell/sha256/sha256.c:44-52 | Every round constant is the first 32 fractional bits of the cube root of its prime: c^3 <= p 2^96 < (c + 1)^3 |
| `Fips180Facts.InitialValueIsSquareRoots` | src/shell/sha256/sha256.c:30-42 | Every word of the initial value is the first 32 fractional bits of the square root of its prime |
| `Fips180Facts.ChChooses` | src/shell/sha256/sha256.c:79 | At every bit, Ch is y's where x's is set and z's otherwise |
| `Fips180Facts.MajCounts` | src/shell/sha256/sha256.c:82 | At every bit, Maj is set iff at least two of the three are |
| `Sha256.MixesAreChMaj` | src/shell/sha256/sha256.c:79-82 | The program's expressions for ch and maj are those functions |
| `Fips180Example.AbcDigest` | src/shell/sha256/sha256.c:30-146 | The digest of "abc" is the published one, by way of its schedule and all 64 rounds |
| `Fips180.PadZerosIsLeast` | src/shell/sha256/sha256.c:125-146 | The padding is the least one that section 5.1.1 allows |
| `Fips180.LengthFieldRoundTrip` | src/shell/sha256/sha256.c:138-144 | The eight length bytes read back as the length |
| `Sha256File.HashReads` | src/shell/image/sha256_file.c:52-66 | Whatever counts read gives, the state has absorbed exactly the prefix that was read; it stops short only at an empty or failing read |
| `Sha256File.HashFile` | src/shell/image/sha256_file.c:18-78 | When it returns 0, and that the text is then the hash of what was read, the whole file if reads come up empty only at its end |
| `Utlist.SortList` | src/uthash/include/uthash/utlist.h:113-311 | For the singly, doubly and circular list and every total preorder: terminates, and the same nodes form a well-linked list in stable sorted order, back links and closing link included |
| `Utlist.SortNonEmpty` | src/uthash/include/uthash/utlist.h:113-171 | The loop over run lengths is the sequence function of repeated passes; a singly linked sort leaves `prev` alone |
| `Utlist.OnePass` | src/uthash/include/uthash/utlist.h:177-235 | One pass relinks the nodes into the merge of neighbouring runs, and counts at most one merge exactly when the list is at most two runs long |
| `Utlist.MergeRuns` | src/uthash/include/uthash/utlist.h:274-299 | The inner loop appends the merge of the two runs to the output, though the circular form finds its end by the old head |
| `MergeSort.SortIsStableSort` | src/uthash/include/uthash/utlist.h:113-171 | The passes sort, permute, and keep the order within every tie |
| `MergeSort.StableSortUnique` | src/uthash/include/uthash/utlist.h:113-171 | Two lists that are stable sorts of the same list are equal |
| `MergeSort.PassDoublesRuns` | src/uthash/include/uthash/utlist.h:124-169 | After a pass with run length k every aligned run of 2k is sorted |
| `MergeSort.PassesPermute` | src/uthash/include/uthash/utlist.h:113-171 | No node is lost or duplicated |
| `ListOps.Append` | src/uthash/include/uthash/utlist.h:343-354 | The list s becomes s + [add] |
| `ListOps.Delete` | src/uthash/include/uthash/utlist.h:390-404 | The list without the node; unchanged when it is not there |
| `ListOps.WithoutAt` | src/uthash/include/uthash/utlist.h:390-404 | Deleting the node at position k removes that position and no other |
| `ListOps.LowerBound` | src/uthash/include/uthash/utlist.h:374-385 | The last node before the lower bound, or none |
| `ListOps.AppendElem` | src/uthash/include/uthash/utlist.h:496-506 | Inserts behind the given node, or in front |
| `ListOps.InsertInOrder` | src/uthash/include/uthash/utlist.h:359-369 | Inserts at the lower bound, so a sorted list stays sorted |
| `ListOps.AppendDoubly` | src/uthash/include/uthash/utlist.h:641-653 | s + [add] with all back links, the head's pointing at the new tail |
| `ListOps.ConcatDoubly` | src/uthash/include/uthash/utlist.h:690-703 | s + t with all back links, for empty lists too |
| `ListOps.DeleteDoubly` | src/uthash/include/uthash/utlist.h:708-727 | The list without position k, back links included |
| `RmRf.RmRf` | src/ocre/util/rm_rf.c:84-206 | Whatever fails: terminates, closes every stream, touches only places the recursion would remove, returns 0 exactly when the place is gone; when no allocation fails, tree and result are those of the recursive best-effort deletion `DeleteTree` |
| `RmRf.Loop` | src/ocre/util/rm_rf.c:117-197 | The loop ends, by a measure over unvisited places, stack, phase and unread names, with the invariant of the scan |
| `RmRf.Turn` | src/ocre/util/rm_rf.c:117-197 | Every turn keeps the invariant and makes the measure smaller |
| `RmRf.Pop` | src/ocre/util/rm_rf.c:48-63 | Popping a frame closes its stream if it has one |
| `RmRf.Cleanup` | src/ocre/util/rm_rf.c:199-205 | A broken-off loop leaves no stream open |
| `RmRfRecursive.RemainingIsRecursive` | src/ocre/util/rm_rf.c:84-206 | The closed form and the recursive deletion leave the same tree and give the same result |
| `RmRfRecursive.RecursionIsClosedForm` | src/ocre/util/rm_rf.c:84-206 | The recursion removes a place iff the scan reaches it and no call fails in its subtree |
| `RmRfSpec.ScanEnds` | src/ocre/util/rm_rf.c:117-205 | An empty stack means the specified tree and result |
| `RmRfSpec.RemovedDir` | src/ocre/util/rm_rf.c:117-197 | A reached directory goes iff opendir and rmdir succeed and every child goes |
| `RmRfSpec.RemovedDown` | src/ocre/util/rm_rf.c:117-197 | With a place goes its whole subtree |
| `Paths.BuildPathResolves` | src/ocre/util/rm_rf.c:67-80 | A proper name behind a slash is one step down, whatever the directory string |
| `EventQueue.Queue.Peek` | src/runtime/wamr-wasip1/ocre_api/core/core_eventq.c:30-40 | The oldest item, or -ENOMSG; nothing changes |
| `EventQueue.Queue.Get` | src/runtime/wamr-wasip1/ocre_api/core/core_eventq.c:42-54 | Takes the oldest item off the ring, across the wrap |
| `EventQueue.Queue.Put` | src/runtime/wamr-wasip1/ocre_api/core/core_eventq.c:56-69 | Appends, or refuses a full ring and changes nothing |
| `ApiTheorems.EveryRunIsFifo` | src/runtime/wamr-wasip1/ocre_api/ocre_common.c:105-181 | Over every run: accepted events = delivered events followed by the queue, every delivery to its owner |
| `ApiTheorems.EveryRunCounts` | src/runtime/wamr-wasip1/ocre_api/ocre_common.c:282-380 | Over every run, unregistered modules included: each registered module's counters and the global one equal the slots they stand for; subscriptions belong to registered modules that run, timer slots to modules that run or never were registered |
| `ApiOrphans.SlotsBelong` | src/runtime/wamr-wasip1/wamr.c:63-66 | In every reachable state a timer slot in use belongs to a running module or is orphaned by a module that never was registered |
| `ApiOrphans.OrphanedForever` | src/runtime/wamr-wasip1/ocre_api/ocre_timers/ocre_timer.c:60-72 | An orphaned slot stays in use in every later run; creating it answers -EBUSY, deleting it is refused |
| `ApiOrphans.OrphanBlocks` | src/runtime/wamr-wasip1/ocre_api/ocre_timers/ocre_timer.c:233-272 | Its expiry, at the head of the queue, stops delivery to everyone in every later run |
| `ApiOrphans.PlainModuleOrphans` | src/runtime/wamr-wasip1/wamr.c:103-111 | A run that orphans a slot |
| `ApiCounts.NoDecrementSuppressed` | src/runtime/wamr-wasip1/ocre_api/ocre_common.c:362-371 | Whenever a slot is released its counter is positive |
| `ApiCounts.CleanupTwice` | src/runtime/wamr-wasip1/ocre_api/ocre_common.c:373-380 | Cleanup is idempotent |
| `ApiCounts.CleanupEffect` | src/runtime/wamr-wasip1/ocre_api/ocre_timers/ocre_timer.c:207-230 | Cleanup frees exactly the slots of the module in both tables |
| `ApiTheorems.NothingAfterUnregister` | src/runtime/wamr-wasip1/ocre_api/ocre_common.c:282-295 | From the unregistering step of any run on, no step queues an event for the module |
| `ApiTheorems.SilentAfterUnregister` | src/runtime/wamr-wasip1/ocre_api/ocre_timers/ocre_timer.c:233-272 | The same from every state in which the module is gone |
| `ApiFrees.EveryRunConservesMemory` | src/runtime/wamr-wasip1/ocre_api/ocre_messaging/ocre_messaging.c:194-276 | Over every run whose modules free only blocks they were handed: a module's live blocks are exactly three per queued message plus those delivered and not freed |
| `ApiFrees.ConservedIff` | src/runtime/wamr-wasip1/ocre_api/ocre_messaging/ocre_messaging.c:194-276 | Memory is conserved in every state of a run iff no free in it takes a block of a queued message |
| `ApiFrees.FreeStepIff` | src/runtime/wamr-wasip1/ocre_api/ocre_messaging/ocre_messaging.c:262-276 | One free keeps the books of every module iff none of its blocks is queued |
| `ApiFrees.QueuedFreeBreaks` | src/runtime/wamr-wasip1/ocre_api/ocre_messaging/ocre_messaging.c:262-276 | A run in which a module frees a queued message and the event names dead blocks |
| `ApiDelivery.DeliveryStopsIff` | src/runtime/wamr-wasip1/ocre_api/ocre_common.c:105-121 | After every run with events queued: some further run delivers one iff the owner of the head event is registered |
| `ApiDelivery.BlockedForever` | src/runtime/wamr-wasip1/ocre_api/ocre_common.c:112-115 | From a head event whose owner is gone on, no run delivers anything to anyone |
| `ApiCalls.GetIff` | src/runtime/wamr-wasip1/ocre_api/ocre_common.c:105-121 | Exactly when reading returns 0, -EPERM or -ENOMSG, and what it then delivers |
| `ApiCalls.FreeExactly` | src/runtime/wamr-wasip1/ocre_api/ocre_messaging/ocre_messaging.c:262-276 | A free takes exactly the three blocks, from exactly that module |
| `ApiMemory.FreeConserves` | src/runtime/wamr-wasip1/ocre_api/ocre_messaging/ocre_messaging.c:262-276 | A free conserves memory iff no freed block belongs to a queued message |
| `ApiMemory.PublishConserves` | src/runtime/wamr-wasip1/ocre_api/ocre_messaging/ocre_messaging.c:194-246 | Publishing conserves memory through every partial allocation and full queue |
| `ApiMemory.GetConserves` | src/runtime/wamr-wasip1/ocre_api/ocre_common.c:117-121 | Reading hands the blocks of the event to its owner |
| `ApiPublish.PublishInSlotOrder` | src/runtime/wamr-wasip1/ocre_api/ocre_messaging/ocre_messaging.c:175-246 | The queued events are one per served slot, in slot order, each slot an active subscription whose topic is a prefix |
| `ApiPublish.SlotFate` | src/runtime/wamr-wasip1/ocre_api/ocre_messaging/ocre_messaging.c:175-246 | A slot is served iff it matches and, after the earlier slots, its allocations and the queue have room |
| `ApiPublish.AllServed` | src/runtime/wamr-wasip1/ocre_api/ocre_messaging/ocre_messaging.c:175-246 | With memory and room for all, a slot is served iff it matches |
| `ApiPublish.ServedIffPrefix` | src/runtime/wamr-wasip1/ocre_api/ocre_messaging/ocre_messaging.c:175-192 | With memory and room, a slot is served iff it is active, has an owner, and its stored topic is, character by character, how the published one begins |
| `ApiCalls.SubscriberHears` | src/runtime/wamr-wasip1/ocre_api/ocre_messaging/ocre_messaging.c:86-259 | After a successful subscribe to p, in every later run without a cleanup of the module, a publish on any p + rest returns 0 and queues a message for it, naming its three blocks in order |
| `ApiCalls.ListensOn` | src/runtime/wamr-wasip1/ocre_api/ocre_messaging/ocre_messaging.c:60-83 | A subscription lasts through every run that does not clean up its module |
| `ApiCalls.SubscribeIff` | src/runtime/wamr-wasip1/ocre_api/ocre_messaging/ocre_messaging.c:86-141 | Exactly when subscribing returns 0, -ENOMEM or -EINVAL; success means that the module listens, and no other subscription is lost |
| `ApiCalls.StoredIsCut` | src/runtime/wamr-wasip1/ocre_api/ocre_messaging/ocre_messaging.c:125-126 | The stored topic is the topic cut to 63 characters |
| `ApiCalls.PublishRefused` | src/runtime/wamr-wasip1/ocre_api/ocre_messaging/ocre_messaging.c:150-161 | Exactly which arguments are refused |
| `ApiCalls.NextMessageId` | src/runtime/wamr-wasip1/ocre_api/ocre_messaging/ocre_messaging.c:250-258 | A publication that queued something takes the next 32-bit id |
| `ApiPublish.PublishReturn` | src/runtime/wamr-wasip1/ocre_api/ocre_messaging/ocre_messaging.c:248-258 | 0 iff an event was queued; otherwise the state is unchanged |
| `ApiClock.ReportedTimeIsTrue` | src/runtime/wamr-wasip1/ocre_api/ocre_timers/ocre_timer.c:176-205 | In every run, a running timer reports max(0, interval - true elapsed) below 2^32 ms, across the wrap; always within 0..65535 |
| `ApiClock.RemainingExact` | src/runtime/wamr-wasip1/ocre_api/ocre_timers/ocre_timer.c:190-204 | Exactly when the reported time is the true one, beyond 2^32 ms too |
| `ApiClock.TimelyReportIsTrue` | src/runtime/wamr-wasip1/ocre_api/ocre_timers/ocre_timer.c:176-205 | In every run, with expiries at most a bounded lag late, a timer reports max(0, interval - true elapsed), with no bound on its time in use |
| `ApiClock.WrappedReport` | src/runtime/wamr-wasip1/ocre_api/ocre_timers/ocre_timer.c:190-204 | A run whose expiry is lost, and a moment 2^32 ms after the start at which the timer reports its full interval |
| `ApiTimers.FlagAgrees` | src/runtime/wamr-wasip1/ocre_api/ocre_timers/ocre_timer.c:137-143 | The one-bit flag agrees with the period given to the OS timer iff the argument is zero or odd |
| `ApiCalls.EveryRunSlotIds` | src/runtime/wamr-wasip1/ocre_api/ocre_timers/ocre_timer.c:74-76 | In every run, a slot in use holds the id that names it |
| `ApiCalls.ExpiryNamesTimer` | src/runtime/wamr-wasip1/ocre_api/ocre_timers/ocre_timer.c:233-272 | In every reachable state, the expiry of timer id of module m queues one event, to m and about id; on an empty queue that is what m reads next |
| `ApiCalls.CreateIff` | src/runtime/wamr-wasip1/ocre_api/ocre_timers/ocre_timer.c:60-88 | Exactly when creating returns 0, -EBUSY or -EINVAL, and who holds which timer then |
| `ApiCalls.DeleteIff` | src/runtime/wamr-wasip1/ocre_api/ocre_timers/ocre_timer.c:90-116 | Only who holds a timer can delete it; then anyone can create it again |
| `ApiCalls.StartIff` | src/runtime/wamr-wasip1/ocre_api/ocre_timers/ocre_timer.c:118-152 | Exactly when starting returns 0 |
| `ApiCalls.StopIff` | src/runtime/wamr-wasip1/ocre_api/ocre_timers/ocre_timer.c:154-174 | Exactly when stopping returns 0; then the slot does not run and the OS timer does not repeat |
| `ApiCalls.StartReports` | src/runtime/wamr-wasip1/ocre_api/ocre_timers/ocre_timer.c:137-204 | d ms after a start, below 2^32, the timer reports what is left of the interval it was given, for every interval and every clock |
| `ApiCalls.RemainingIff` | src/runtime/wamr-wasip1/ocre_api/ocre_timers/ocre_timer.c:176-188 | Exactly who is refused |
| `ApiCalls.Capacities` | src/runtime/wamr-wasip1/ocre_api/ocre_timers/ocre_timer.c:38-43 | In every run: five timers, ten subscriptions, at most 32 events |
| `ApiTimers.PeriodicOverRuns` | src/runtime/wamr-wasip1/ocre_api/ocre_timers/ocre_timer.c:118-152 | In every reachable state, for every argument and every run that leaves the slot alone: the OS timer repeats iff the argument is not zero, the slot runs iff it is odd, a slot that does not run reports 0, and every expiry queues an event about the timer that was started |
| `ApiTimers.StaysStopped` | src/runtime/wamr-wasip1/ocre_api/ocre_timers/ocre_timer.c:233-272 | A stopped slot stays stopped and reports 0 through every run that does not start it |
| `ApiTimers.StopMeansZero` | src/runtime/wamr-wasip1/ocre_api/ocre_timers/ocre_timer.c:154-174 | After a stop that returned 0, every query in every later run gives 0 or is refused, until the slot is started |
| `ApiTimers.StaysSettled` | src/runtime/wamr-wasip1/ocre_api/ocre_timers/ocre_timer.c:233-272 | Through every run that leaves it alone, a slot that has expired once changes in nothing but its start time |
| `ApiClock.SubscribeUnique` | src/runtime/wamr-wasip1/ocre_api/ocre_messaging/ocre_messaging.c:109-135 | Subscribing keeps topics distinct unless a topic of 64 or more characters is already there in its stored form |
| `ApiClock.EveryRunUniqueTopics` | src/runtime/wamr-wasip1/ocre_api/ocre_messaging/ocre_messaging.c:109-135 | With topics of at most 63 characters, a module holds at most one slot per topic in every run |
| `ApiClock.LongTopicTwice` | src/runtime/wamr-wasip1/ocre_api/ocre_messaging/ocre_messaging.c:109-135 | Any topic of 64 characters, subscribed to twice, takes two slots |
| `Api.Interface.TimerCreate` | src/runtime/wamr-wasip1/ocre_api/ocre_timers/ocre_timer.c:60-88 | Refines the create step: bad ids, busy slots and a failed initialisation included |
| `Api.Interface.TimerDelete` | src/runtime/wamr-wasip1/ocre_api/ocre_timers/ocre_timer.c:90-116 | Refines the delete step; only the owner may delete |
| `Api.Interface.TimerStart` | src/runtime/wamr-wasip1/ocre_api/ocre_timers/ocre_timer.c:118-152 | Refines the start step; the clock is cut to 32 bits, the flag to one, and the OS timer gets its period |
| `Api.Interface.TimerStop` | src/runtime/wamr-wasip1/ocre_api/ocre_timers/ocre_timer.c:154-174 | Refines the stop step; after a return of 0 the timer reports 0 at every time |
| `Api.Interface.TimerGetRemaining` | src/runtime/wamr-wasip1/ocre_api/ocre_timers/ocre_timer.c:176-205 | The value that `ReportedTimeIsTrue` speaks of, in 0..65535, or -EINVAL |
| `Api.Interface.TimerCallback` | src/runtime/wamr-wasip1/ocre_api/ocre_timers/ocre_timer.c:233-272 | Refines the expiry step; an unused slot queues nothing |
| `Api.Interface.CleanupTimers` | src/runtime/wamr-wasip1/ocre_api/ocre_timers/ocre_timer.c:207-230 | The loop over the table is the cleanup of every slot |
| `Api.Interface.CleanupSubscriptions` | src/runtime/wamr-wasip1/ocre_api/ocre_messaging/ocre_messaging.c:60-83 | The loop over the table is the cleanup of every subscription, with both counters |
| `Api.Interface.SubscribeTo` | src/runtime/wamr-wasip1/ocre_api/ocre_messaging/ocre_messaging.c:86-141 | Refines the subscribe step: the duplicate check, then the first free slot |
| `Api.Interface.PublishMessage` | src/runtime/wamr-wasip1/ocre_api/ocre_messaging/ocre_messaging.c:144-259 | Refines the publish step |
| `Api.Interface.PublishSlot` | src/runtime/wamr-wasip1/ocre_api/ocre_messaging/ocre_messaging.c:175-246 | One slot is served completely or leaves no trace, whichever allocation or queue call fails |
| `Api.Interface.FreeEventData` | src/runtime/wamr-wasip1/ocre_api/ocre_messaging/ocre_messaging.c:262-276 | Refines the free step |
| `Api.Interface.GetNextEvent` | src/runtime/wamr-wasip1/ocre_api/ocre_common.c:105-121 | Refines the read step: head only, owner only |
| `Api.Interface.UnregisterModule` | src/runtime/wamr-wasip1/ocre_api/ocre_common.c:282-295 | Refines the unregister step |
| `LifecycleTheorems.ThreadsAreJoinedOnce` | src/ocre/container.c:50-129 | Every interleaving: at most one thread unjoined, each joined at most once and only after it published EXITED; one attribute per unjoined thread |
| `LifecycleTheorems.JoinIsFirst` | src/ocre/container.c:95-129 | A join is the first of its thread |
| `LifecycleTheorems.JoinUnderMutexReturns` | src/ocre/container.c:95-129 | A join under the mutex never waits for a thread that still needs the mutex |
| `LifecycleTheorems.ExitCodeIsLatest` | src/ocre/container.c:70-73 | In every reachable state with status EXITED or STOPPED the exit code is the result of the latest run, except between the thread's two writes, where it is that of the run before |
| `LifecycleTheorems.OlderCodeIsSeen` | src/ocre/container.c:70-73 | A run that reaches that exception |
| `LifecycleTheorems.PauseIsTransparent` | src/ocre/container.c:560-648 | Pause, any steps of the thread, unpause: the same state as without the pause, even if the thread ended meanwhile |
| `LifecycleTheorems.RunningMeansThread` | src/ocre/container.c:407-459 | In every reachable state, RUNNING or PAUSED means an unjoined thread, unless a failed start is about to store ERROR |
| `LifecycleWaits.SleeperIsWokenIff` | src/ocre/container.c:671-678 | In every reachable state in which a wait would sleep: some later run publishes an exit iff there is an unjoined thread |
| `LifecycleWaits.LifelessForever` | src/ocre/container.c:384-459 | RUNNING, PAUSED or ERROR without an unjoined thread: no later run spawns, joins or publishes anything |
| `LifecycleWaits.SleepsForever` | src/ocre/container.c:407-459 | A run in which a wait sleeps on a start that failed to create its thread |
| `LifecycleSemaphore.EveryRunSem` | src/ocre/container.c:415-427 | Over every run: starts waiting = posts not taken + threads that have not posted, and each waits for a thread of its own |
| `LifecycleSemaphore.ReleasedByOwnRunIff` | src/ocre/container.c:423-427 | Exactly when a start is released by its own run; always when it is the only one waiting |
| `LifecycleSemaphore.ReleasedByAnotherRun` | src/runtime/wamr-wasip1/wamr.c:58-61 | A run in which the post of the second thread releases the first start |
| `LifecycleTheorems.WaitReportsLatest` | src/ocre/container.c:650-704 | Every value wait writes is the result of the latest run, which is over and joined, across restarts, pauses and early wake-ups |
| `LifecycleTheorems.WaitWritesIff` | src/ocre/container.c:680-695 | A wait writes a value exactly if it comes back with a container that has exited or is stopped |
| `LifecycleCalls.ForegroundStartWaits` | src/ocre/container.c:431-438 | A start that is not detached, once released, stays under way in every later run until its own wait comes back; until then no destroy |
| `LifecycleCalls.ReleaseIff` | src/ocre/container.c:423-440 | A released start returns at once iff the container is detached; otherwise it goes on to its wait |
| `LifecycleCalls.ComingBackEnds` | src/ocre/container.c:650-704 | A wait that need not sleep, or wakes up, ends its call |
| `LifecycleTheorems.DestroyLeaksIff` | src/ocre/container.c:325-367 | A successful destroy leaves an unjoined thread and its attribute iff the container is stained |
| `LifecycleTheorems.StainedIsHistory` | src/ocre/container.c:451-459 | Stained iff some unlocked store of ERROR hit an unjoined thread and nothing was published since |
| `LifecycleTheorems.DestroyIsClean` | src/ocre/container.c:325-367 | With no rejected start and none overlapping a failing one, a successful destroy leaves every thread joined and attribute released |
| `LifecycleTheorems.OverlappingStartsLeak` | src/ocre/container.c:389-459 | A run without a rejected start in which destroy succeeds on a running thread |
| `LifecycleTheorems.RejectedStartLeaks` | src/ocre/container.c:384-386 | The same by a start that is rejected |
| `Lifecycle.EveryRun` | src/ocre/container.c:50-704 | The invariant holds in every reachable state of every interleaving |
| `Lifecycle.StepInv` | src/ocre/container.c:50-704 | Every step of a caller or of the thread keeps it |
| `Lifecycle.SettleIsAStep` | src/ocre/container.c:95-129 | With the mutex free, a join waits for at most one step of the thread, which needs nothing of the caller |
| `Lifecycle.FinishIsRun` | src/ocre/container.c:64-93 | A join made without the mutex waits for the steps the thread has left, in its critical section too, and they need nothing of the caller |
| `Container.OcreContainer.StatusUnderLock` | src/ocre/container.c:95-129 | The join is the first of its thread and the attribute is live; refines the status step and keeps the invariant |
| `Container.OcreContainer.StartUnderLock` | src/ocre/container.c:369-449 | Through each of its failures: the attribute is initialised only when none is live and left only with a thread, the mutex is released; refines the start step |
| `Container.OcreContainer.StoreError` | src/ocre/container.c:457-459 | After the unlocked store a destroy succeeds, and the container is stained iff a thread is unjoined; the invariant is kept |
| `Container.OcreContainer.WaitContainer` | src/ocre/container.c:650-704 | Sleeps iff RUNNING; what it returns and writes in each status; a value written is the result of the latest run, which is joined |
| `Container.OcreContainer.WakeUp` | src/ocre/container.c:673-704 | The same behind the condition variable, whatever woke it |
| `Container.OcreContainer.DestroyContainer` | src/ocre/container.c:325-367 | Without a lock, wherever the thread is: returns 0 in STOPPED, CREATED and ERROR and once an exited thread is joined; then a thread and a live attribute are left iff the container is stained |
| `Container.OcreContainer.PublishExit` | src/ocre/container.c:64-88 | The thread's critical section is its four steps in order, ends with EXITED and its result, and releases the mutex as its owner |
| `Names.IsValidName` | src/common/common.c:27-53 | True iff not NULL, not empty, no leading dot, and only a-z, 0-9, dot, underscore, hyphen |
| `Names.NameCharacters` | src/common/common.c:43-49 | The accepted characters by their codes |
| `Names.SampleNames` | src/common/common.c:27-53 | Names that are accepted, and names that are not |
| `Names.ValidIdIsComponent` | src/common/common.c:27-53 | A valid name is one proper path component |
| `Names.RandomIdValid` | src/ocre/util/unique_random_id.c:16-33 | Whatever rand gives, a random id is a valid name |
| `Names.DigitRoundTrip` | src/ocre/util/unique_random_id.c:16-19 | The sixteen digits are different and stand for their values |
| `Names.DigitsAreEven` | src/ocre/util/unique_random_id.c:28-30 | Every digit is drawn by equally many values of rand; the few left over draw 0 |
| `Names.GenerateRandomId` | src/ocre/util/unique_random_id.c:21-33 | The loop draws one digit per call of rand |
| `ContextSpec.FirstFreeIsFree` | src/ocre/util/unique_random_id.c:35-55 | The retry gives a valid id of seven digits not in use, and gives up iff all hundred draws are taken |
| `ContextSpec.FirstFreeIsFirst` | src/ocre/util/unique_random_id.c:42-49 | It is the first draw that is free |
| `Context.Context.MakeUniqueRandomId` | src/ocre/util/unique_random_id.c:35-55 | The first draw not in use, among at most a hundred |
| `ContextSpec.AdmittedIsNew` | src/ocre/context.c:198-236 | Supplied or drawn, the id of a create is a valid name that no listed container has |
| `ContextSpec.AdmittedIff` | src/ocre/context.c:198-258 | A supplied id is taken as it is iff it is a valid name no listed container has and image and allocations are in order; without one, the first free draw, failing only without a buffer or with all hundred draws taken |
| `Workdirs.WorkdirNamesPlace` | src/ocre/context.c:273-276 | The directory of a valid id is its own child of containers/ |
| `Workdirs.PlacesDisjoint` | src/ocre/context.c:273-276 | Directories of different ids share no place |
| `Workdirs.Isolation` | src/ocre/context.c:58-67 | A change confined to one id's directory leaves every other id's subtree as it was |
| `Workdirs.RollbackExact` | src/ocre/context.c:278-310 | Exactly when the rollback of a create restores the tree, for every set of failing calls |
| `Workdirs.RollbackWithoutFaults` | src/ocre/context.c:278-310 | Without failing calls: iff nothing was at the place; and what is left is the tree outside the place |
| `Workdirs.RollbackDeletesOldDirectory` | src/ocre/context.c:278-310 | A tree in which a create that fails at mkdir deletes a file that was there before |
| `Context.Context.GetById` | src/ocre/context.c:121-139 | Null iff no listed container has the id; else the one that has it |
| `Context.Context.Create` | src/ocre/context.c:178-328 | Exactly when it succeeds, for a supplied id in terms of that id, the image, the failing calls and the tree alone; the list then has one entry more with a new valid id; on failure the list is unchanged; no other listed container's subtree changes either way, and listed directories stay present |
| `Context.Context.RemoveLocked` | src/ocre/context.c:43-79 | Removes exactly its own subtree and node; exactly when it returns 0; all other listed subtrees unchanged, even when it fails |
| `Context.Context.Remove` | src/ocre/context.c:330-357 | The same, and exactly when no destroyed container is left in the list: not listed, in use, or no directory left behind |
| `ContextSpec.RemovalStrands` | src/ocre/context.c:52-65 | A tree and a failing rmdir for which a removal leaves a destroyed container listed |
| `Context.Context.Teardown` | src/ocre/context.c:141-164 | Kills all that are RUNNING, waits for all, visits each once, in order; what is left are those whose removal failed; without allocation failures the list ends empty iff every container comes to rest and rm_rf can clear every directory; PAUSED containers stay, with their directories; nothing outside the containers' directories changes |
| `ContextSpec.AwaitedIsLifecycle` | src/ocre/container.c:527-704 | Kill, wait and destroy on a listed container are the steps of the lifecycle on its status |
| `ContextSpec.EmptiedIff` | src/ocre/context.c:161-164 | All removals of a teardown succeed iff each container stops and its directory is removable in the tree the teardown started from |
| `ContextSpec.ProgressStep` | src/ocre/context.c:161-164 | One removal of a teardown keeps the results of the earlier ones and the directories still to come |

## Left out

- strlcat, GPIO, sensors, the WAMR runtime and its calls, shell commands, downloads and platform wrappers: foreign code, hardware, user interface, or easy members.
- Progress: delivery can be blocked at the head of the queue, and a failed instantiation never posts the start semaphore, so the code promises none.
- Failures of lock, unlock, semaphore, condition variable and join calls; the unlocked store of ERROR inside another caller's critical section.
- ocre_container_stop and the runtime's own reaction to kill, pause and unpause: `Kill` is a step without effect on the container's fields.
- The marshalling of a delivered event into the reader's six words, and its checks of wasm addresses.
- The contents of the three blocks of a message, and 32-bit truncation of their offsets; allocation is an oracle that offers an offset or fails.
- Uniqueness of message ids: the counter is modelled, but nothing is claimed about it.
- Lists of more than 2^30 nodes, where the run length of the sort overflows an int; the other CDL_ and DL_ macros; variants for compilers without decltype.
- Symbolic links other than as leaves, and relative paths other than from one root: paths are resolved on their text.
- RmRf.RmRf: the stack is a sequence of frames with its top at the end, not linked nodes, so the links of the stack are not captured.
- Sha256.Sha256Buff.Update: the loop over whole blocks stands inside the branch that fills the buffer, because its guard is false otherwise.
- Sha256File.HashFile: NULL arguments are not modelled.
- Changes that others make to the tree while rm_rf runs, and a readdir that fails before the end of the directory (the code takes it for the end).
- Context.Context.Teardown: the return code of the mutex; what a wait that sleeps on a RUNNING container finds when it wakes is a parameter, because the runtime decides it.
- Context.Context.Create: the image path, which only the container itself uses, and the node before it is appended.
