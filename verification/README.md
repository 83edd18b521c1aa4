# Verified models of the sylar engines and codecs

This project models the stateful cores of the sylar C++ server framework and proves what each of
them is for.

* **ByteArray** (`Bytes`, `FlatView`, `ByteView`, `Endian`, `Varint`, `TypedCodec`, `ByteArray`): a
  class over a heap of linked nodes with a cursor, proved to behave like one flat byte string. The
  arithmetic is that of the C++ types (two's complement, reduction modulo 2^64); fresh node bytes
  are arbitrary. `ByteView` is the value a ByteArray stands for, `TypedCodec` the meaning of the
  typed readers and writers on that value, and the class in `ByteArray` is proved against both.
* **TimerManager** (`Timers`): a class over the ordered timer set, with the clock passed in, the pure
  steps that every run of calls on it is proved to follow, and the promise that no wake-up is lost.
* **IOManager** (`IoEvents`, `IoManager`): the table of event contexts, the kernel's interest set, the
  counter of pending events and what is handed to the scheduler, with a ghost history that gives
  every accepted waiter its fate. `IoEvents` holds the values and their invariants, `IoManager` the
  class, and runs of arbitrary calls are proved to follow a pure step function.
* **Scheduler and Fiber** (`Scheduler`, `SchedulerProofs`, `SchedulerEffects`, `SchedulerTrace`,
  `SchedulerMisuse`) and **do_io** (`DoIo`): state machines over workers, queue, fiber states, events and timers. One step is
  one mutex-protected section, or one segment of a fiber or callback up to the next such section; in
  do_io also every test and every setting of the mark, every lock of tinfo and every system call.
  `SchedulerMisuse` shows that the rule the scheduler asks of its clients is exactly what keeps its
  assertions from failing.
* **Text codecs and parsers** (`Base64`, `UrlCodec`, `QueryParams`, `LogPattern`, `SplitReplace`): the
  loops over index variables and buffers, proved against recursive specifications, and the round
  trips between those.

Where a property the code or its comments promise does not hold in general, the project proves the
exact condition under which it does, and an input or a run on which it does not:

* a positional read starts in the node of the cursor, not of `position`, and does not throw for a
  position beyond the size (`ByteView.FetchAtMeaning`, `ByteView.FetchAtThrows`); the read buffers at a
  position are clamped by what is left at the cursor and may run off the last node
  (`ByteView.ReadableAtMeaning`); inputs: `ByteView.PositionalMisses`;
* a read of no bytes at the very end of the last node dereferences null, so a list of values that
  ends there in an empty string is not read back (`TypedCodec.TakeAllBack`; input:
  `TypedCodec.EmptyTextLost`);
* `refresh` does not announce a timer that moves to the front, and re-arming does not either: a due
  time that overflows, or a clock that goes back, loses a wake-up (the two-way clauses of
  `Timers.TimerManager.Refresh` and `Timers.TimerManager.ListExpiredCb`; runs: `Timers.RefreshOverflow`,
  `Timers.RollbackUnannounced`);
* the dispatch loop runs into an assertion exactly when a reported event has been removed since
  epoll_wait returned it, while the report still concerns somebody who waits
  (`IoManagers.DispatchAborts`; run: `IoManagers.DispatchStops`);
* a fiber may be scheduled while it is queued, or after it has ended: the condition at
  sylar/scheduler.cc:180 joins two inequalities with "or" and so is always true. Then assertions fail
  (`SchedulerMisuse.RunExact`; runs: `SchedulerMisuse.EndedRunsAgain`, `SchedulerMisuse.QueuedTwice`).
  "Can fail" there means: in steps of the workers, with segments that park, and at most callbacks
  scheduled from outside, none of which breaks the rule;
* the stopping test does not see a fiber that came back READY and is not queued again yet, nor
  expired callbacks that are not queued yet (`SchedulerProofs.StoppingStable`; runs:
  `SchedulerProofs.ReturningWindow`, `SchedulerProofs.CollectedWindow`);
* a timeout callback that has locked its call's tinfo can end another call's wait on the same event,
  also after its own call has returned, even with a value (`DoIo.ForeignCancel`; runs:
  `DoIo.ValueInFlight`, `DoIo.ForeignCancelHappens`), or when it only starts after the return while
  another callback of the call holds tinfo (`DoIo.StaleCallback`; run: `DoIo.StaleCallbackHappens`);
  one that fires before the event is registered leaves a wait without a timeout (`DoIo.TimedWait`; run:
  `DoIo.LostTimeout`);
* `split` compares its decremented limit with 1, so the limits 0 and 1 mean "no limit"
  (`SplitReplace.SplitJoins`; input: `SplitReplace.LimitOneCuts`), and replacing an empty string never
  ends, whatever the string (`SplitReplace.EndsIff`);
* the pattern "%%", which a comment lists as an escape, leaves its second '%' to start a conversion
  (`LogPattern.DoublingEscapesNothing`; input: `LogPattern.DoubledReadsAs`).

Verify with `dafny verify dfyconfig.toml` (Dafny 4.11).

## Model

| member | source | states |
|---|---|---|
| ByteArrays.ByteArray.constructor | sylar/bytearray.cc:32-40 | an empty big-endian array of one node, whatever bytes the node holds |
| ByteArrays.ByteArray.SetIsLittleEndian | sylar/bytearray.cc:55-61 | only the byte order changes |
| ByteArrays.ByteArray.Clear | sylar/bytearray.cc:331-342 | position and size become 0, exactly the first node and its bytes are left |
| ByteArrays.ByteArray.Write | sylar/bytearray.cc:344-377 | exactly the bytes [position, position + n) of the flat contents are replaced, the size becomes max(size, position + n), the capacity grows only as needed, and the cursor node stays node number position / base |
| ByteArrays.ByteArray.CopyAll | sylar/bytearray.cc:351-372 | the node-by-node copy is one splice of the flat bytes, whatever node borders it straddles |
| ByteView.WrittenContents | sylar/bytearray.h:346-352 | after a write the readable contents are the old ones with the covered bytes replaced and nothing else |
| ByteView.WrittenTwice | sylar/bytearray.cc:344-377 | writing twice is writing the concatenation once, including where the capacity ends up |
| ByteArrays.ByteArray.Read | sylar/bytearray.cc:379-406 | delivers the flat slice at the cursor and moves behind it; out of range exactly when too little is left, null dereference exactly at the end of the last node, and then nothing changes |
| ByteView.FetchMeaning | sylar/bytearray.cc:379-406 | a read yields exactly the readable bytes at the cursor and throws exactly when fewer have been written behind it, never past the size |
| ByteArrays.ByteArray.ReadAt | sylar/bytearray.cc:408-436 | the positional read as it is: from the cursor's node at the offset of the given position, with the wrapping length check, changing nothing |
| ByteView.FetchAtMeaning | sylar/bytearray.cc:408-436 | the positional read delivers the bytes at the asked position, whatever they are, if and only if there is a cursor node and that position lies in it |
| ByteView.FetchAtThrows | sylar/bytearray.h:363-370 | it throws exactly as documented for positions up to the size, and beyond it only for lengths that wrap |
| ByteView.PositionalMisses | sylar/bytearray.cc:408-436 | inputs on which it delivers other bytes, or bytes beyond the size, and on which the read buffers at a position fall short or dereference null |
| ByteArrays.ByteArray.ToString | sylar/bytearray.cc:529-537 | the readable bytes from the cursor on, for which the positional read is always right |
| ByteArrays.ByteArray.SetPosition | sylar/bytearray.cc:438-454 | the cursor moves to any position up to the capacity, the size follows if it must, beyond that it is refused and nothing changes |
| ByteArrays.ByteArray.AddCapacity | sylar/bytearray.cc:498-527 | room for n bytes behind the cursor, with all old bytes, nodes, position and size kept |
| ByteView.GrownByDivision | sylar/bytearray.cc:508-509 | the number of nodes computed by one division is the number of single steps needed |
| ByteView.GrownLeast | sylar/bytearray.cc:498-527 | no smaller whole number of nodes would have been enough |
| ByteArrays.ByteArray.GetReadBuffers | sylar/bytearray.cc:555-584 | yields exactly the iovecs of the first min(len, readable) bytes behind the cursor |
| ByteArrays.ByteArray.GetReadBuffersAt | sylar/bytearray.cc:586-621 | from any position: the iovecs of as many bytes as the length clamped at the cursor, by the walk from the first node, or a null dereference exactly when that runs past the last node |
| ByteView.ReadableAtMeaning | sylar/bytearray.h:433-440 | the buffers are exactly the first min(len, size - position) readable bytes at the position if and only if as many are left there as at the cursor, or len is no more than either |
| ByteArrays.GatherIsFlat | sylar/bytearray.cc:555-584 | those iovecs, gathered, are the flat slice, and each stays inside its node |
| ByteArrays.ByteArray.GetWriteBuffers | sylar/bytearray.cc:623-651 | makes room and yields the iovecs of the n bytes behind the cursor, changing no byte |
| ByteArrays.ByteArray.WriteScattered | sylar/bytearray.cc:623-651 | filling the write buffers and setting the position to position + n gives the same state as writing the n bytes |
| ByteArrays.ByteArray.WriteFuint | sylar/bytearray.cc:63-110 | writes the image of the word in the byte order that is set |
| ByteArrays.ByteArray.WriteFint | sylar/bytearray.cc:70-75 | writes the image of the two's complement word |
| ByteArrays.ByteArray.WriteUint | sylar/bytearray.cc:141-165 | writes one byte for every started group of seven bits |
| ByteArrays.ByteArray.WriteInt | sylar/bytearray.cc:137-155 | writes the varint of the zigzag code |
| ByteArrays.ByteArray.WriteStringF | sylar/bytearray.cc:179-192 | writes the length, cut to the prefix, and the bytes |
| ByteArrays.ByteArray.WriteStringVint | sylar/bytearray.cc:194-197 | writes the varint of the length and the bytes |
| ByteArrays.ByteArray.ReadFuint | sylar/bytearray.cc:203-247 | reads the word that the bytes at the cursor stand for in the byte order that is set |
| ByteArrays.ByteArray.ReadUint | sylar/bytearray.cc:253-283 | reads a varint, moving the cursor over what it consumed even when the bytes run out |
| ByteArrays.ByteArray.ReadText | sylar/bytearray.cc:299-329 | reads as many bytes as the prefix says, with both errors passed on |
| ByteArrays.ByteArray.ReadDatum | sylar/bytearray.cc:203-329 | every typed reader yields what its kind takes from the flat contents |
| ByteArrays.ByteArray.RoundTrip | tests/test_bytearray.cc:7-27 | any list of typed values, written and read back from the start position, comes back equal with the cursor at the same end, if and only if every prefix can hold its length and no empty string ends where the last node ends; for every base size, byte order and straddling |
| TypedCodec.TakeBack | sylar/bytearray.cc:203-329 | one reader undoes its writer under exactly that condition |
| TypedCodec.TakeAllBack | sylar/bytearray.cc:63-329 | so does a list of readers for a list of values |
| TypedCodec.EmptyTextLost | sylar/bytearray.cc:299-305 | a list that is not read back: one empty string in a node of two bytes |
| TypedCodec.TakeVarintFits | sylar/bytearray.cc:253-283 | whatever bytes are there, what a varint reader yields fits its type |
| TypedCodec.TakeCutShort | sylar/bytearray.cc:203-329 | a value of which only the first part has been written is never misread: its reader throws, with the cursor where it was, at the end of a varint's bytes, or behind the length of a string |
| Endian.ImageAt | sylar/bytearray.cc:63-110 | byte i of a stored little-endian word is the i-th least significant one, of a big-endian word the i-th most significant one |
| Endian.FromImageSum | sylar/bytearray.cc:203-247 | what bytes are read as: their sum weighted by 256^i, or by 256^(n - 1 - i) for big-endian |
| Endian.ImageRoundTrip | sylar/bytearray.cc:70-110 | loading a stored word gives the word, in either byte order |
| Endian.SwapFlipsOrder | sylar/endian.h:20-47 | storing a byte-swapped word is storing the word in the other order |
| Endian.ByteswapTwice | sylar/endian.h:20-47 | swapping twice changes nothing |
| Endian.ByteswapDigit | sylar/endian.h:20-47 | swapping exchanges byte i with byte n - 1 - i |
| Endian.SignedValue | sylar/bytearray.cc:70-75 | a negative value is stored as that much below 2^(8n) |
| Endian.SignedRoundTrip | sylar/bytearray.cc:203-247 | a signed value survives the cast to unsigned and back |
| Endian.ZigzagValue | sylar/bytearray.cc:112-126 | the code counts 0, -1, 1, -2, 2, ... up from 0, also at the least value of the type |
| Endian.ZigzagRoundTrip | sylar/bytearray.cc:112-135 | decoding undoes encoding on every value of the type |
| Endian.ZigzagOnto | sylar/bytearray.cc:112-135 | every unsigned word is the code of exactly the value it decodes to |
| Varint.VarintLength | sylar/bytearray.cc:141-165 | the number of bytes is the number of started groups of seven bits |
| Varint.VarintAt | sylar/bytearray.cc:141-165 | byte i carries the i-th least significant group of seven bits, and the top bit is set on all but the last |
| Varint.ReadVarintMeaning | sylar/bytearray.cc:253-283 | on any bytes: the loop stops behind the first byte below 128 or after the last group of the word, throws exactly when neither comes, and yields the sum of the groups modulo 2^bits |
| Varint.VarintLimits | sylar/bytearray.h:120-140 | at most 5 bytes for 32 bits and at most 10 for 64 |
| Varint.VarintRoundTrip | sylar/bytearray.cc:253-283 | reading consumes exactly the bytes written and gives the value back, whatever follows |
| Timers.SortedMeaning | sylar/timer.cc:7-25 | the set is in order of due time, and of address where that is the same; so the callbacks come in that order |
| Timers.Find | sylar/timer.cc:46-47 | searching the set by the comparator finds the timer itself, by pointer, whenever it is in the set |
| Timers.Insert | sylar/timer.cc:187-195 | the set stays ordered, only the timer is added, and it is known when it went to the front |
| Timers.FirstNotDue | sylar/timer.cc:166-170 | lower_bound and the skip over equal due times split the set exactly at "due", however the address tie-break falls |
| Timers.TimerManager.AddTimer | sylar/timer.cc:110-115 | the timer, due at now + ms, joins the set, and no wake-up is lost |
| Timers.TimerManager.Cancel | sylar/timer.cc:41-52 | the timer leaves the set with its callback cleared, once |
| Timers.TimerManager.Refresh | sylar/timer.cc:54-69 | the timer is due at now + ms and still in the set; a wake-up is lost exactly when it came to the front unannounced, which a steady clock rules out |
| Timers.TimerManager.Reset | sylar/timer.cc:71-101 | the new period and due time on every branch, the set's members unchanged, no wake-up lost |
| Timers.TimerManager.GetNextTimer | sylar/timer.cc:130-144 | the time to the earliest timer, 0 if it is due, 2^64 - 1 if there is none; wake-ups are asked for anew |
| Timers.TimerManager.DetectClockRollover | sylar/timer.cc:215-223 | true exactly when the clock went back past the hour, in unsigned arithmetic |
| Timers.RolledMeaning | sylar/timer.cc:215-223 | that is: by more than an hour, or by any step at all while the last time seen lies within the first hour of the clock, where the subtraction wraps around |
| Timers.TimerManager.ListExpiredCb | sylar/timer.cc:146-185 | exactly the callbacks of the timers that are due (all on rollover) in order of due time; one-shot timers leave with their callback cleared, recurring ones are due at now + ms, all others are untouched; and exactly when the re-arming loses a wake-up |
| Timers.Step | sylar/timer.cc:41-223 | each call on the manager is one step of the pure step function |
| Timers.Run | sylar/timer.cc:41-223 | over every run of calls, at whatever times and whatever addresses the allocator gives: the manager and its timers are in the state the steps lead to |
| Timers.AnnouncesExactly | sylar/timer.cc:187-213 | a wake-up is asked for exactly when a new or reset timer comes before all others in the set, once until the next getNextTimer |
| Timers.SteadyAwake | sylar/timer.cc:41-223 | after every run on a steady clock a timer due earlier than the last getNextTimer saw has been announced |
| Timers.NextQuiet | sylar/timer.cc:41-223 | every single call on a steady clock keeps it so |
| Timers.RefreshOverflow | sylar/timer.cc:54-69 | a run with an overflowing due time after which such a timer has not been announced |
| Timers.RollbackUnannounced | sylar/timer.cc:175-183 | a run in which the clock goes back and a re-armed timer has not been announced |
| IoEvents.OneFate | sylar/iomanager.cc:80-97 | a waiter waits at one place, or was handed to the scheduler exactly once, or was dropped; never two of these |
| IoEvents.ArmGood | sylar/iomanager.cc:147-198 | accepting a waiter keeps: a bit is set iff its half holds a scheduler and one of fiber and callback, the counter is the number of set bits, and every fate agrees |
| IoEvents.LeaveGood | sylar/iomanager.cc:80-97 | so do waking and dropping one, and it is the accepted task that leaves |
| IoEvents.GrowGood | sylar/iomanager.cc:136-145 | so does growing the table |
| IoManagers.IOManager.ContextResize | sylar/iomanager.cc:136-145 | the table gets fresh empty contexts and keeps the others |
| IoManagers.IOManager.TriggerEvent | sylar/iomanager.cc:80-97 | the half's own waiter goes to the scheduler and the half is empty afterwards |
| IoManagers.IOManager.AddEvent | sylar/iomanager.cc:147-198 | the waiter is registered in table, kernel, counter and history, or epoll refuses and nothing changes but the table's length, or the assertion fails exactly when the event is already waited for |
| IoManagers.IOManager.DelEvent | sylar/iomanager.cc:200-232 | the waiter is dropped and never woken, the kernel's interest becomes what is left |
| IoManagers.IOManager.CancelEvent | sylar/iomanager.cc:234-264 | the waiter is woken once, the kernel's interest becomes what is left |
| IoManagers.IOManager.CancelAll | sylar/iomanager.cc:266-303 | all waiters of the fd are woken once, READ first, and the kernel forgets the fd |
| IoManagers.IOManager.TriggerMask | sylar/iomanager.cc:418-425 | fires the events of a mask; it runs into the assertion exactly when one of them is not waited for |
| IoManagers.IOManager.Dispatch | sylar/iomanager.cc:387-425 | what one reported event does on every branch and exactly when it runs into the assertion; who is woken is in IoManagers.Effects |
| IoManagers.IOManager.FireMaskKeeps | sylar/iomanager.cc:404-425 | firing leaves exactly the other events of that fd and all other fds alone, and keeps the invariant |
| IoManagers.IOManager.FireMaskInterest | sylar/iomanager.cc:284-301 | telling the kernel first or firing first comes to the same, and the kernel agrees with the table afterwards |
| IoManagers.RunOne | sylar/iomanager.cc:147-425 | each call, a wait that returns an event and its dispatch included, is one step of the pure step function, and stops the process exactly when that does |
| IoManagers.NextValid | sylar/iomanager.cc:147-425 | every step keeps: the counter is the number of set bits, the kernel watches exactly what is registered, the halves hold what was accepted there and every waiter has one fate |
| IoManagers.Effects | sylar/iomanager.cc:147-425 | for every call, by the bits of the masks and the fates of tickets: what joins is the given callback, or else the running fiber; what is deleted is dropped, what is cancelled is woken; a dispatched report wakes exactly the registered waiters that it names, and on an error or hang-up all of them, READ first; nobody else is touched |
| IoManagers.Run | sylar/iomanager.cc:147-425 | over every run: the class is in the state the steps lead to, the counter is the number of set bits, the kernel agrees, and every waiter was handed over once iff its fate says so |
| IoManagers.ReportsSeen | sylar/iomanager.cc:359-387 | over every run: an event that an outstanding report names was registered when epoll_wait returned the report |
| IoManagers.DispatchAborts | sylar/iomanager.cc:387-425 | over every run: dispatching a report stops the process if and only if epoll_ctl does not fail first, the report still concerns somebody who waits, and an event it names was registered when epoll_wait returned it and has been removed since |
| IoManagers.DispatchStops | sylar/iomanager.cc:400-425 | such a run: both events of a socket are reported and the waiter for WRITE is removed before the dispatch |
| Schedulers.FirstEligible | sylar/scheduler.cc:155-166 | the first task that is neither pinned to another thread nor one of an executing fiber |
| Schedulers.Scan | sylar/scheduler.cc:153-174 | the loop stops at the first task that is neither pinned to another thread nor one of an executing fiber, and asks for a tickle exactly when it passed over another thread's |
| SchedulerEffects.DequeueTakesFirst | sylar/scheduler.cc:153-174 | a dequeue takes the first task that is not pinned to another thread and whose fiber is not EXEC, leaves the order of the others, and takes none exactly if there is none |
| SchedulerEffects.PinRespected | sylar/scheduler.cc:157-160 | over every run, whatever the clients do: a task pinned to a thread is in the hand of no other |
| SchedulerEffects.LeavesExactly | sylar/iomanager.cc:319-325 | over every run: an idle worker leaves exactly when stop was called, no timer, event or task is left, and no worker has a task in hand or runs one |
| SchedulerEffects.Effects | sylar/scheduler.h:54-95 | what every step does to queue, timers and waiters: submitted, fired and cancelled work is queued with its pin, deleted work is not, expired callbacks are queued in their order, and of the timers that fired exactly the recurring ones stay |
| SchedulerEffects.WorkerMoves | sylar/scheduler.cc:137-234 | every step takes its own worker one place on in the loop and moves no other |
| SchedulerEffects.FiberEffects | sylar/scheduler.cc:180-209 | swapping in makes exactly the right fiber EXEC, and the end of a segment leaves it READY, HOLD, TERM or, for a finished callback, INIT |
| SchedulerProofs.CountedKept | sylar/scheduler.cc:149-231 | every step, whatever the clients do, keeps: the active count is the number of workers between dequeue and return, the idle count that of workers in idle, and accepted = queued + in hand + held + finished |
| SchedulerProofs.ConservedKept | sylar/scheduler.cc:149-231 | every step, whatever the clients do, keeps: each accepted task is in exactly one place |
| SchedulerProofs.LedgerKept | sylar/scheduler.cc:149-231 | so does every run |
| SchedulerProofs.SeparateKept | sylar/scheduler.cc:149-231 | every step that keeps the rule for clients keeps: no fiber is referred to from two places or run by two workers |
| SchedulerProofs.OneWorkerPerFiber | sylar/scheduler.cc:163-166 | a fiber executes on at most one worker |
| SchedulerProofs.ExecutingHasWorker | sylar/fiber.cc:139-146 | and is EXEC only while one runs it |
| SchedulerProofs.AssertionsHold | sylar/fiber.cc:107-220 | while that holds, so do the assertions of reset, swapIn and MainFunc at the next step |
| SchedulerTrace.TracedKept | sylar/scheduler.cc:149-231 | every step keeps: a fiber is where its reference says, in the queue, at an event or with a worker |
| SchedulerMisuse.RuleExact | sylar/scheduler.h:54-70 | after any step, workers whose segments park can run into a failing assertion if and only if the step broke the rule: a fiber was scheduled while it had ended, was kept for a callback or was referred to, waited at a second place, or ended its segment while referred to without parking |
| SchedulerMisuse.RunExact | sylar/scheduler.h:54-70 | so over whole runs from the start: no assertion can fail after any of the steps if and only if all of them kept the rule |
| SchedulerMisuse.TwiceReferred | sylar/scheduler.cc:153-182 | a fiber with two references is run by two workers at once |
| SchedulerMisuse.EndedAndReferred | sylar/fiber.cc:195-220 | a fiber that ended and is still referred to is run behind its end, with one worker too and also when it is pinned |
| SchedulerMisuse.EndedSubmitted | sylar/fiber.cc:195-220 | so scheduling an ended fiber, pinned or not, leads there whenever a single worker that is not leaving may take it |
| SchedulerMisuse.SpareAndReferred | sylar/scheduler.cc:191-198 | a fiber kept for callbacks that is scheduled besides fails the next callback |
| SchedulerMisuse.EndedRunsAgain | sylar/scheduler.cc:180-182 | a run into the assertion in MainFunc |
| SchedulerMisuse.QueuedTwice | sylar/scheduler.cc:153-182 | a run into the assertion in swapIn |
| SchedulerProofs.SpareAtHead | sylar/scheduler.cc:191-209 | at the head of the loop cb_fiber is null or INIT, and nothing else refers to it |
| SchedulerProofs.CallbackKeepsFiber | sylar/scheduler.cc:191-209 | when a callback yields, its worker's next callback gets a new fiber, and in no run afterwards, whatever the clients do, is the fiber of the one that yielded given to another callback |
| SchedulerProofs.RunInv | sylar/scheduler.cc:137-234 | all of this after every run from the start in which the clients keep the rule, with no failing assertion on the way |
| SchedulerProofs.StoppingMeansIdle | sylar/iomanager.cc:319-325 | when the stopping test holds no worker has a task in hand or runs one |
| SchedulerProofs.StoppingStable | sylar/scheduler.cc:240-243 | no step but a call from outside can falsify the test, if and only if no worker is between a READY return or a collection of callbacks and the queue |
| SchedulerProofs.QuietRun | sylar/iomanager.cc:319-325 | then it stays so, and nothing is accepted, for any number of steps |
| SchedulerProofs.ReturningWindow | sylar/scheduler.cc:182-185 | a run in which the test holds while a READY fiber is not queued yet |
| SchedulerProofs.CollectedWindow | sylar/iomanager.cc:367-373 | a run in which it holds while expired callbacks are not queued yet |
| SchedulerProofs.LastExit | sylar/scheduler.cc:210-219 | the last worker to leave leaves no task that it could have run |
| DoIo.InvKept | sylar/hook.cc:103-148 | every step keeps: a call waits exactly while the event table holds it, only the timer of its latest wait can be live, the owners of tinfo are the frame until the return and the locks its callbacks hold, and a call is marked cancelled only by a callback of its own |
| DoIo.Returned | sylar/hook.cc:103-148 | a call that has returned has no registered event and no live timer, and reported ETIMEDOUT only if it has a timeout and a timer of its own fired |
| DoIo.NoTimeout | sylar/hook.cc:103-124 | over every run a call without a timeout has no timer, is never marked and never reports ETIMEDOUT |
| DoIo.Results | sylar/hook.cc:103-148 | over every run a call returns n if and only if a system call of it said n, -1 if and only if addEvent refused it, and ETIMEDOUT only at the test of the mark |
| DoIo.CallsEntered | sylar/hook.cc:79-104 | every call keeps the fd, the event and the timeout that it was entered with |
| DoIo.CallMoves | sylar/hook.cc:103-148 | the only way of a call: try, arm, register, wait, be woken by its event, stop the timer, test the mark, try again |
| DoIo.TimerMoves | sylar/hook.cc:116-136 | the only way of a timer and its callback; a call stops the timer of its latest wait and no other |
| DoIo.Checked | sylar/hook.cc:136-142 | the test after a wait ends the call with ETIMEDOUT if and only if a callback of its own has set the mark by then, and else the system call is made again |
| DoIo.TinfoAlive | sylar/hook.cc:104-123 | after every run tinfo is alive exactly while its call has not returned or a callback of it holds a lock on it |
| DoIo.StaleCallback | sylar/timer.cc:117-128 | after every run, a timeout callback that is run after its call returned finds tinfo dead, and changes no event and no call, if and only if no other callback of the call holds tinfo |
| DoIo.DeadStays | sylar/hook.cc:116-123 | from then on, over every further run, the call stays as it is and no callback of it reaches cancelEvent |
| DoIo.ForeignCancel | sylar/hook.cc:116-123 | a callback at its cancelEvent, also one whose call has returned, ends another call's wait exactly when that call waits on the same event by then; it never marks the other call as timed out |
| DoIo.TimedWait | sylar/hook.cc:116-136 | a timed wait still has a timer or callback of its own to end it, if and only if no cancelEvent of the call has missed it or another one is on its way |
| DoIo.Misses | sylar/hook.cc:122-123 | a cancelEvent misses exactly when epoll refuses it or the call is not waiting at that moment |
| DoIo.ValueInFlight | sylar/hook.cc:116-147 | a run in which a call returns the value of the system call with its callback in flight: the callback tests the mark before the call does and sets it after |
| DoIo.ForeignCancelHappens | sylar/hook.cc:116-147 | a run in which that callback then ends the wait of another call |
| DoIo.StaleCallbackHappens | sylar/hook.cc:116-147 | a run in which a callback that starts after its call returned ends the wait of another call |
| DoIo.LostTimeout | sylar/hook.cc:116-136 | a run in which the timer fires between addConditionTimer and addEvent and the call waits without a timeout |
| DoIo.EarlierTimerHappens | sylar/hook.cc:116-140 | a run in which the timer of an earlier wait times out the next wait of the same call |
| Base64.Base64Encode | sylar/util/hash_util.cc:201-239 | the loop over the buffer yields the encoding of section 4 of RFC 4648 |
| Base64.Base64Decode | sylar/util/hash_util.cc:133-195 | the loop over the buffer yields what the quads decode to, and the empty string on every rejection |
| Base64.Alphabet | sylar/util/hash_util.cc:201-203 | the characters are those of the alphabet in section 4 of RFC 4648 in its order, and each is read as its place there |
| Base64.EncodeNumber | sylar/util/hash_util.cc:197-239 | the characters spell, to the base 64, the number that the bytes spell to the base 256, shifted to whole characters, and '=' fills the last quad |
| Base64.DecodeNumber | sylar/util/hash_util.cc:133-195 | an accepted text is decoded to the bytes of the number it spells, without the bits that make up no whole byte |
| Base64.EncodeLength | sylar/util/hash_util.cc:197-239 | the output has 4 * ceil(n / 3) characters |
| Base64.DecodeEncode | sylar/util/hash_util.cc:133-239 | decoding undoes encoding on every byte string |
| Base64.EncodeDecode | sylar/util/hash_util.cc:133-239 | encoding undoes decoding on an accepted text if and only if its unused bits are zero |
| Base64.Accepts | sylar/util/hash_util.cc:133-195 | a text is accepted if and only if it is whole quads of the alphabet with at most two '=' at the end |
| UrlCodec.UrlEncode | sylar/util.cc:429-458 | the loop with its lazily made buffer yields the encoding |
| UrlCodec.UrlDecode | sylar/util.cc:460-489 | the loop with its lazily made buffer yields the decoding |
| UrlCodec.DecodeEncode | sylar/util.cc:429-489 | decoding undoes encoding on every byte string, unless '+' stands for blanks in the encoding only and there is one; percent-encoding as in section 2.1 of RFC 3986 |
| UrlCodec.EncodedChars | sylar/util.cc:383-458 | only unreserved characters of the table, '%' and '+' are emitted |
| UrlCodec.UnreservedTable | sylar/util.cc:383-404 | which characters the table leaves as they are |
| UrlCodec.HexTable | sylar/util.cc:406-430 | escapes are written with upper-case digits and read with either |
| UrlCodec.EncodeExactly | sylar/util.cc:429-458 | the encoding is, byte for byte, the character itself if it is in the table, '+' for a blank on request, and else '%' with its two digits |
| UrlCodec.DecodeExactly | sylar/util.cc:460-489 | any text decodes to what its tokens mean: escapes where '%' is followed by two digits, '+' as a blank on request, and every other character as itself |
| QueryParams.ParseParam | sylar/http/http.cc:217-233 | the macro's loop inserts exactly the pairs of the text, in order, the first of equal keys winning |
| QueryParams.PairsOfJoined | sylar/http/http.cc:217-233 | key=UrlEncode(value) pairs joined with the separator parse to exactly those pairs, if and only if no key holds '=' or is changed by trimming |
| QueryParams.PairsExactly | sylar/http/http.cc:217-233 | of any text: keys end at the first '=' and values at the next separator, keys are trimmed on request and values decoded, and what has no '=' is dropped |
| QueryParams.TrimExactly | sylar/util.cc:491-498 | trimming leaves what is between the blanks, tabs and line ends at both ends |
| QueryParams.FoldMeaning | sylar/http/http.cc:53-56 | two keys are one exactly if up to their first NUL they have the same characters but for the case of letters |
| QueryParams.InsertedExactly | sylar/http/http.cc:53-56 | the map then holds, up to case, the first pair of every key and nothing else, and what was there before |
| QueryParams.HttpRequest.InitQueryParam | sylar/http/http.cc:212-237 | the query is taken in once |
| QueryParams.HttpRequest.InitBodyParam | sylar/http/http.cc:239-250 | the body is taken in once, and only if it is a form |
| QueryParams.HttpRequest.InitCookies | sylar/http/http.cc:252-263 | the cookie header is taken in once, with its keys trimmed |
| QueryParams.HttpRequest.GetParam | sylar/http/http.cc:79-85 | the value under the key in any case, after query and body are in |
| QueryParams.HttpRequest.GetCookie | sylar/http/http.cc:87-92 | the cookie under the key in any case, after the cookie header is in |
| QueryParams.RoundTrip | sylar/http/http.cc:79-250 | a query and a form body built from pairs answer for a key, asked for in any case of its letters, with the value of its first pair, those of the query first, and with the default if there is none; a body that is no form counts for nothing |
| QueryParams.OtherCase | sylar/http/http.cc:79-85 | the query "id=1" answers "1" when asked for "ID" |
| QueryParams.FormFirst | sylar/http/http.cc:212-263 | taken in body first, the pairs of the form come first, and cookies built from pairs answer by themselves |
| LogPattern.LogFormatter.ScanConversion | sylar/log.cc:446-480 | the inner loop finds the name and the format of a conversion, or a brace that never closes |
| LogPattern.LogFormatter.Init | sylar/log.cc:430-532 | the formatter's items are those of the pattern's parts, and its error flag is set exactly for an unclosed brace or an unknown name; it ends on every pattern |
| LogPattern.LookupTable | sylar/log.cc:501-518 | which conversion gives which item |
| LogPattern.ItemExactly | sylar/log.cc:520-534 | text becomes a string item, a known conversion its item with the format, any other the error text with its name |
| LogPattern.LettersExactly | sylar/log.cc:453-454 | names are made of the letters, and a closing brace passes |
| LogPattern.ParsePrint | sylar/log.cc:430-499 | printing a list of parts and parsing it gives the list back without an error, if and only if every part stands apart from what follows it and texts are merged |
| LogPattern.PrintParse | sylar/log.cc:430-499 | a pattern that parses without an error is printed again character by character by its parts |
| LogPattern.ErrorFreeIff | sylar/log.cc:430-532 | no error exactly when the pattern is the print of such a list of known conversions |
| LogPattern.Reprint | sylar/log.cc:430-532 | a formatter made from such a print has exactly the items of the list |
| LogPattern.DoublingEscapesNothing | sylar/log.cc:439-444 | text with its percent signs doubled is read back as that text if and only if it has none |
| LogPattern.DoubledReadsAs | sylar/log.cc:439-444 | what "%%" is read as |
| LogPattern.UnclosedReadsAs | sylar/log.cc:489-499 | what a brace that never closes is read as: the mark, and then the whole rest as text |
| SplitReplace.Split | sylar/util/hash_util.cc:509-526 | the loop yields the pieces up to the limit that the wrapping counter puts |
| SplitReplace.PiecesExactly | sylar/util/hash_util.cc:528-545 | the pieces are the only ones that, with the delimiters cut out between them, make up the string and leave no delimiter uncut but for want of room in the last |
| SplitReplace.SplitJoins | sylar/util/hash_util.cc:509-526 | joining the pieces with the delimiter gives the string back, whatever the limit; there is one piece more than delimiters, or as many as the limit, which 0 and 1 put at 2^64 and 2^64 + 1; so it is kept exactly when it is at least 2, or 1 with nothing to cut |
| SplitReplace.PieceCount | sylar/util/hash_util.cc:509-545 | for any set of delimiters: one piece more than delimiters, or as many as there is room for |
| SplitReplace.LimitOneCuts | sylar/util/hash_util.cc:509-526 | a string that the limit 1 cuts in two |
| SplitReplace.ReplaceChar | sylar/util/hash_util.cc:479-487 | exactly the occurrences are replaced, also by the same character |
| SplitReplace.Replace | sylar/util/hash_util.cc:499-507 | the result is the string between the occurrences joined with the replacement, also when that holds the pattern; the loop ends because the part not looked at shrinks |
| SplitReplace.PiecesOnExactly | sylar/util/hash_util.cc:499-507 | those pieces are the only ones that joined with the pattern give the string, each ending where the pattern first stands |
| SplitReplace.EndsIff | sylar/util/hash_util.cc:499-507 | the loop ends if and only if the pattern is not empty |
| SplitReplace.EndsWith | sylar/util/hash_util.cc:499-507 | and pass by pass it comes to the pieces joined with the replacement |
| SplitReplace.SplitIsPiecesOn | sylar/util/hash_util.cc:489-526 | for a one-character pattern the pieces are those of the unlimited split |
| SplitReplace.ReplaceIsJoin | sylar/util/hash_util.cc:489-497 | so replacing a character is joining the unlimited split with the replacement |

## Left out

- Interleavings finer than one mutex-protected section or fiber segment: `stopping` reads four
  sources without one lock (sylar/iomanager.cc:319-324), `YieldToHold` sets HOLD before it switches
  out (sylar/fiber.cc:184-188), `reset` drops the lock between erase and insert
  (sylar/timer.cc:76-97), addEvent does not look at the table's size again under the write lock
  (sylar/iomanager.cc:153-158), addTimer reads the tickled flag after its lock is gone
  (sylar/timer.cc:199-213), and what a worker does after a segment is taken with the segment.
- Scheduler, Fiber and do_io are state machines on values, not classes: their steps interleave
  across threads. Update in place and shared ownership of a Fiber object are not captured.
- Callers of the scheduler: null fibers and callbacks, which scheduleNoLock drops, are not offered.
  The thread of the caller (use_caller) is a worker like others.
- RuleExact: the direction that finds a failing assertion is stated when two workers are not leaving,
  the fiber in question is not pinned, and no leaving worker keeps it for a callback. A fiber queued
  twice for one and the same worker only runs twice in turn, and one kept by a worker that has left is
  never used again. EndedSubmitted needs none of this.
- In do_io the two locks of a callback are let go in one step, since nothing asks for more than whether
  an owner is left, and the plain int that carries the mark is read and written in program order.
- Timers: the address of a timer is not given to another one while its holder can still use it, and
  the model has holders keep every timer they were given.
- Registering where another call of do_io already waits is not a step of that model: addEvent stops
  the process there, as IoManagers.IOManager.AddEvent states.
- A timer that is due in exactly 2^64 - 1 milliseconds is taken for no timer by the stopping test; the
  Scheduler model counts it as one.
- Callbacks that throw: a fiber is left EXEC (sylar/fiber.cc:205-216).
- Liveness: tickle pipes, the clamp of epoll timeouts, and that a ready task is run in the end.
- Fds that are closed without cancelAll, through which the kernel loses interests unasked.
- More than one IOManager: the scheduler of a waiter is a flag. connect_with_timeout and the sleep
  hooks of sylar/hook.cc, and its early returns for non-sockets, are not part of this model.
- ByteArray: a base size of 0, sizes above 2^53 (where the division in addCapacity is rounded), file
  input and output, the hex dump, float and double copies, and running out of memory.
- The varint reader adds its groups; the code joins them with "or", which is the same while they do
  not overlap, and they never do.
- Base64Decode: the empty string stands for both an error and an empty input, as in the code.
- isalpha, isxdigit and strcasecmp are those of the C locale.
- HttpRequest: the header lookups are parameters (whether the content type is a form, and the cookie).
- Memory of buffers and strings is unbounded; only `split` keeps its counter to the width of size_t.
- HTTP automata, sockets, addresses, configuration, JSON, hashes and locks: plumbing, generated tables
  or easy helpers.
