# AffiniX: verified models of the event-loop core

AffiniX is a per-thread event-loop framework in C++. This project models the state machines at its
centre in Dafny and proves what they promise for every input, every run or every interleaving.

| file | what it models |
|---|---|
| `WheelPlacement.dfy`, `TimerWheel.dfy` | the 4 x 256 hierarchical timer wheel: base-256 placement, cascade, priming, bounded advance |
| `TimerHeap.dfy` | the 4-ary min-heap with removal from the middle |
| `IntrusiveList.dfy` | the pointer surgery of the circular lists behind buckets and groups |
| `TimerBook.dfy`, `TimerAgenda.dfy`, `EventManager.dfy` | arming, cancelling, groups, rescheduling, firing with re-entrant callbacks, reclamation, wakeups, and the plain agenda of appointments that wheel and heap refine |
| `TimerCalls.dfy`, `TimerLaws.dfy` | what each call and each firing means for a caller, and what stays true of a timer over whole runs |
| `FixedRate.dfy`, `SpentTimers.dfy` | fixed-rate timers over the history of a run; what rescheduling a spent timer does |
| `MpscMailbox.dfy`, `MailboxPosts.dfy` | the slot-sequence ring and the arm/block handshake, as atomic steps of any number of producers and one consumer; what becomes of every posted item |
| `HandleTable.dfy` | generation-checked handles and completion tags |
| `SimNet.dfy`, `SimRuntime.dfy` | the deterministic simulator: ordered streams under faults, event delivery, virtual time |
| `Framing.dfy`, `IoBuffer.dfy`, `ReadPath.dfy` | prefix-stable framers, the compacting buffer, the connection's read loop |
| `Http.dfy`, `HttpStandard.dfy` | the admin endpoint's HTTP/1.1 request framer, and how it compares with what RFC 9112 says about the request line and the body length |
| `EpollSend.dfy`, `WritePath.dfy` | the emulated proactor's send queue and the connection's write half above it |
| `FrameCache.dfy` | the coroutine frame cache over the bump arena |
| `Basics.dfy`, `Arith.dfy`, `Lists.dfy` | shared values and small facts |

Classes follow the source's objects. Their methods tie the new state to a pure function or predicate over
values, and the lemmas about those functions carry the proofs. What the source gets from outside becomes
a parameter: clock readings, the calls a callback makes, the kernel's answers, the simulator's random
draws, the addresses the system allocator returns.

Main results:

- **Timers.** An advance fires exactly the linked nodes due in the ticks it covers, once each, at their
  own tick, in order (`TimerWheel.Advance`). Wheel and heap together refine a plain agenda that maps every
  armed timer to its effective time: over whole runs of calls and loop iterations with re-entrant callbacks
  each step does what the agenda does, and an expiry that keeps up with the clock and whose callbacks leave
  timers alone fires exactly what is due (`EventManagers.Drive`). Every call means what it is for, in terms of deadlines
  and groups; nothing fires early, after it ended, or after its group was cancelled (`TimerLaws`), and
  fixed-rate timers neither drift nor lose a period.
- **Mailbox.** Every interleaving is a bounded queue in claim order, which is a merge of the producers' own
  orders; a post that does not give up has all its items claimed; and a sleeping consumer with something to
  take is always about to be woken.
- **Streams.** In the simulator every direction of a link is fed, at its far end, a prefix of what was sent
  into it, and every event is pending or delivered once. The read path delivers the one-shot parse of the
  stream however it is cut up, and that parse is the inverse of writing frames. The send queue puts the
  submitted bytes on the wire without loss, repetition or reordering, and completes the sends in order.
- **Memory.** A handle names its own object or nothing until its slot was released 2^32 - 1 more times, and
  the table has exactly as many slots as were occupied at once. Frame memory in use overlaps nothing, and the arena grows with the peak, not with churn.

## Where the code does not keep a promise

Each comes with the condition under which the code does keep it, which is exact wherever it says "if and
only if", and most with a concrete instance.

- **A frame error drops messages.** `include/afx/net/connection.hpp:406-411` returns without handing over
  the batch being filled. The delivered messages equal the one-shot parse if and only if the failing
  completion had framed whole batches (`ReadPath.ErrorLosesOpenBatch`, `ReadPath.CutsMatterAtAnError`).
- **A partially taken send is sent twice in part.** `src/backend/epoll.cpp:146-159` queues the tail and
  `src/backend/epoll.cpp:493-496` reports the tail's size, while
  `include/afx/net/connection.hpp:503-504` takes that for the bytes transferred, as
  `include/afx/backend/backend.hpp:88-91` documents it. What is on the wire plus what is buffered equals
  what was written if and only if the kernel took none or all of every completed send at once; otherwise
  it is longer by exactly the bytes taken at once (`WritePath.StreamIsExact`, `WritePath.ByteSentTwice`).
- **A completion is dropped.** `src/backend/epoll.cpp:500-503` forgets a finished send when the caller's
  array is full. Every completion of a call is certain to be reported, whatever the kernel answers, if and
  only if there is room for as many as requests are queued (`EpollSend.CompletionsFit`,
  `EpollSend.DroppedCompletion`).
- **Rescheduling a spent timer.** `include/afx/core/event_manager.hpp:459-467` links a timer that is in
  its callback or done; the books stay consistent if and only if it was armed
  (`TimerBook.RescheduleKeeps`). A one-shot then fires twice or is released while linked, a fixed-delay
  timer is linked twice, and appending a member of a list again, to that list or to another one, leaves no
  ring at the list's head (`SpentTimers`, `IntrusiveList.PushedTwice`, `IntrusiveList.PushedElsewhere`).
- **Loops that callbacks keep alive.** These conditions are sufficient, with a run that never ends beside
  each of them. `include/afx/core/timer_wheel.hpp:334-338` ends when callbacks make
  no exact appointment for a deadline that has passed, and never when each callback arms one for the
  current instant (`TimerAgenda.LaterShotShrinks`, `TimerAgenda.RearmingNeverEnds`).
  `src/sim/runtime.cpp:9-16` likewise ends when nothing is queued to be due at once, and never under a
  task that posts itself without delay (`SimRuntimes.SimRuntime.DeliverDueLater`,
  `SimRuntimes.SimRuntime.PostedForever`). `src/sim/runtime.cpp:6-29` ends when in addition a round without
  work always comes again, and stands still while every round reports work
  (`SimRuntimes.SimRuntime.RunUntilLater`, `SimRuntimes.SimRuntime.BusyForever`).
- **A ring of one cell.** The queue guarantee holds of every run if and only if the capacity is at least
  two (`MpscMailbox.CapacityIsExact`).
- **Compacting after a prepend.** `include/afx/core/io_buffer.hpp:68-72` writes inside the buffer if and
  only if headroom and readable bytes fit together (`IoBuffers.CompactionFits`); a prepend into the
  headroom can break that, and the unsigned subtraction at `include/afx/core/io_buffer.hpp:79` then
  suppresses the growth as well (`IoBuffers.RoomWraps`, `IoBuffers.PrependedTooFar`). Read buffers never
  prepend and are safe.
- **Request line.** `src/admin/http.cpp:60-79` splits at the first and at the last space and looks at
  nothing else. It accepts a line if and only if it has two spaces, and an accepted line has the form of
  section 3 of RFC 9112 if and only if its three parts have; `GET a b HTTP/1.1` is accepted
  (`HttpStandard.AcceptedLines`, `HttpStandard.AcceptedHasForm`, `HttpStandard.SpacesInTarget`).
- **Body length.** `src/admin/http.cpp:83-97` takes the last of several lengths, knows no transfer codings,
  refuses lengths of more than ten digits and lists, and takes `content<CR>length` for the field name.
  Where the last three do not occur it agrees with section 6.3 of RFC 9112 if and only if there is no
  transfer coding and the length fields are malformed or in agreement
  (`HttpStandard.PlainLengthIsPrescribed`); the exact condition for all header lines is
  `HttpStandard.LengthIsPrescribed`. Instances: `HttpStandard.LastLengthWins`,
  `HttpStandard.CodingIsIgnored`, `HttpStandard.ElevenDigits`, `HttpStandard.ListIsRefused`,
  `HttpStandard.CarriageReturnIsRead`.
- **Running to the past.** `src/sim/runtime.cpp:30` sets virtual time back when the target lies before it
  (`SimRuntimes.SimRuntime.RunUntil`).

## Model

| member | source | states |
|---|---|---|
| WheelPlacement.Fits | include/afx/core/timer_wheel.hpp:116-122 | the shift loop accepts exactly the deadlines less than 256^4 ticks ahead |
| WheelPlacement.LevelOf | include/afx/core/timer_wheel.hpp:268-273 | the loop finds the level whose digit range contains the distance: at least 256^level and below 256^(level+1) |
| WheelPlacement.PlacedIsHeld | include/afx/core/timer_wheel.hpp:266-277 | a node placed at the level of its distance satisfies the placement invariant and is not in a slot the sweep has passed |
| WheelPlacement.SkipCascade | include/afx/core/timer_wheel.hpp:168-170 | a level whose digit boundary is not hit holds nothing that would need to cascade |
| WheelPlacement.CascadeDescends | include/afx/core/timer_wheel.hpp:234-264 | a node in the home slot of a cascading level is due within one span of that level, so it belongs lower; any other node of the level stays placed correctly |
| WheelPlacement.CandidateIsServiceTick | include/afx/core/timer_wheel.hpp:189-198 | the candidate computed from a slot number is the tick at which the nodes of that slot are next touched |
| TimerWheels.HomeNodeIsNear | include/afx/core/timer_wheel.hpp:242-263 | every destination level of a node met by a cascade is strictly lower, so the stays-put case is unreachable |
| TimerWheels.ExtendFired | include/afx/core/timer_wheel.hpp:164-172 | draining the slot of the next tick extends an exact record of firings by exactly that tick |
| TimerWheels.TimerWheel.PushBack | include/afx/core/timer_wheel.hpp:65-70 | appends to one bucket, leaves all others, and buckets and links still agree |
| TimerWheels.TimerWheel.Detach | include/afx/core/timer_wheel.hpp:71-75 | removes the node from its own bucket only |
| TimerWheels.TimerWheel.InsertNode | include/afx/core/timer_wheel.hpp:266-277 | links the node with the given effective tick at a level below any bound its distance respects |
| TimerWheels.TimerWheel.Insert | include/afx/core/timer_wheel.hpp:125-136 | links the node under its tick clamped to the next one and changes nothing else |
| TimerWheels.TimerWheel.Unlink | include/afx/core/timer_wheel.hpp:138-143 | removes exactly that node, or nothing if it is not linked |
| TimerWheels.TimerWheel.Relink | include/afx/core/timer_wheel.hpp:258-260 | one cascade move: same effective tick, strictly lower level, one hop more |
| TimerWheels.TimerWheel.Cascade | include/afx/core/timer_wheel.hpp:234-264 | empties the home slot; each node of it moves once, to a strictly lower level; with the placement invariant this bounds cascades to three per insertion |
| TimerWheels.TimerWheel.BeginTick | include/afx/core/timer_wheel.hpp:165-170 | a clock step with its cascades keeps every node and every effective tick |
| TimerWheels.TimerWheel.PopDue | include/afx/core/timer_wheel.hpp:282-291 | the node popped from the current slot is due exactly now, so the cascaded-early reinsertion is unreachable |
| TimerWheels.TimerWheel.ExpireSlot | include/afx/core/timer_wheel.hpp:279-293 | takes out exactly the nodes due at the current tick, once each |
| TimerWheels.TimerWheel.TakeAll | include/afx/core/timer_wheel.hpp:213-222 | priming's detach loop moves every node, once, to the holding list |
| TimerWheels.TimerWheel.Rehome | include/afx/core/timer_wheel.hpp:225-231 | re-places every held node at its tick clamped to the target |
| TimerWheels.TimerWheel.Prime | include/afx/core/timer_wheel.hpp:212-232 | anchors the clock just before the target and keeps every node, clamped to the target |
| TimerWheels.TimerWheel.StepTo | include/afx/core/timer_wheel.hpp:163-172 | the stepping loop stops at the target or the step cap, having fired exactly what was due up to there |
| TimerWheels.StopTick | include/afx/core/timer_wheel.hpp:158-172 | never backwards, never past a target ahead, at most the cap further unless the wheel is empty, and short of the target only by having used the cap up |
| TimerWheels.CatchesUp | include/afx/core/timer_wheel.hpp:162-172 | a wheel that is behind is, after any number of advances, at the target or that many times the cap further |
| TimerWheels.TimerWheel.Advance | include/afx/core/timer_wheel.hpp:148-173 | fires exactly the nodes due between the clock's start and end, once each, in tick order, each at its own tick; all others stay with their ticks; the end is the target, capped at 4096 steps unless the wheel is empty |
| TimerWheels.TimerWheel.CandidateTick | include/afx/core/timer_wheel.hpp:192-198 | a non-empty slot's candidate lies ahead of the clock and is when its nodes fire or cascade |
| TimerWheels.TimerWheel.NextDueTick | include/afx/core/timer_wheel.hpp:185-203 | strictly ahead of the clock, no later than any node's effective tick, and the exact tick at which some node is touched; the largest number for an empty wheel; for all 64-bit effective ticks |
| TimerHeaps.SwapUp | include/afx/core/timer_wheel.hpp:348-352 | an upward swap moves the one violation of heap order to the parent |
| TimerHeaps.SwapDown | include/afx/core/timer_wheel.hpp:357-365 | a swap with the earliest child moves the one violation down |
| TimerHeaps.RootIsEarliest | include/afx/core/timer_wheel.hpp:328 | the root of an ordered 4-ary heap is no later than any member |
| TimerHeaps.TimerHeap.SiftUp | include/afx/core/timer_wheel.hpp:345-354 | leaves at most a violation below the start, keeps the members and their index fields |
| TimerHeaps.TimerHeap.SiftDown | include/afx/core/timer_wheel.hpp:355-367 | restores heap order, keeps the members and their index fields |
| TimerHeaps.TimerHeap.Push | include/afx/core/timer_wheel.hpp:308-313 | heap order, exact index fields, the members plus the new one |
| TimerHeaps.TimerHeap.Remove | include/afx/core/timer_wheel.hpp:314-327 | removal at any position keeps heap order and exact index fields and loses exactly that node |
| TimerHeaps.TimerHeap.Expire | include/afx/core/timer_wheel.hpp:332-339 | fires exactly the nodes with a deadline not after now, once each, in deadline order |
| IntrusiveList.PushBack | include/afx/core/timer_wheel.hpp:65-70 | four pointer writes turn a ring of members into the ring with the node appended |
| IntrusiveList.Unlink | include/afx/core/timer_wheel.hpp:71-75 | knowing only the node, the pointer writes remove exactly it from whichever ring holds it |
| IntrusiveList.IsEmpty | include/afx/core/timer_wheel.hpp:62-64 | one pointer comparison decides emptiness |
| IntrusiveList.PushedTwice | include/afx/core/timer_wheel.hpp:65-70 | appending any member of a ring to it once more leaves, whatever the members, no ring at the sentinel |
| IntrusiveList.PushedElsewhere | include/afx/core/timer_wheel.hpp:65-70 | appending a member of one ring to another leaves no ring at the first sentinel |
| TimerBook.TickIsCeiling | include/afx/core/timer_wheel.hpp:104-109 | the tick of a deadline is the least one not before it; less than two ticks before zero it is zero |
| TimerBook.TickWraps | include/afx/core/timer_wheel.hpp:108 | a deadline further in the past, rounded toward zero, wraps to exactly that many ticks below 2^64 |
| TimerBook.TickIsNotEarly | include/afx/core/timer_wheel.hpp:104-114 | the rounded-up tick is not before its deadline and less than one tick after it, and a deadline after now lies past now's tick |
| TimerBook.ArmKeeps | include/afx/core/event_manager.hpp:817-836 | a fresh identity and node, last in the known group asked for; links, groups, reclamation list and history stay consistent |
| TimerBook.CancelKeeps | include/afx/core/event_manager.hpp:447-457 | withdrawing unlinks exactly that node, leaves its group, and the history stays safe |
| TimerBook.RescheduleKeeps | include/afx/core/event_manager.hpp:459-467 | for every book and timer, consistency survives if and only if the timer was armed; for a completed one-shot reclamation then leaves a linked node without a timer |
| TimerBook.BeginFireKeeps | include/afx/core/event_manager.hpp:762-774 | a fixed-rate timer is linked under its next deadline before its callback, any other is unlinked but still in its group |
| TimerBook.EndFireKeeps | include/afx/core/event_manager.hpp:782-797 | after any callback: fixed-delay timers linked again, one-shots out of their group and queued for reclamation, withdrawn ones left alone |
| TimerBook.ReclaimKeeps | include/afx/core/event_manager.hpp:986-989 | releases exactly the withdrawn and completed timers |
| TimerBook.MissedIsUnique | include/afx/core/event_manager.hpp:765-769 | only one count of missed periods brackets now, the one the catch-up loop stops at |
| TimerBook.CancelGroupWithdraws | include/afx/core/event_manager.hpp:481-497 | cancelling a group withdraws exactly its members, queues each once, empties it, and touches no other timer |
| TimerBook.FiringRates | include/afx/core/event_manager.hpp:764-774 | a firing at fixed rate extends the history by the deadline the last one set, and the timer gets the next |
| SpentTimers.FiringAgain | include/afx/core/event_manager.hpp:757-762 | firing a one-shot that has fired always makes the history unsafe |
| SpentTimers.OneShotFiresTwice | include/afx/core/event_manager.hpp:781-797 | an exact one-shot whose callback reschedules it without delay is due again in the same poll and fires twice |
| SpentTimers.ReleasedWhileLinked | include/afx/core/event_manager.hpp:794-797 | with a delay it is released while its node is still linked |
| SpentTimers.DelayedLinkedTwice | include/afx/core/event_manager.hpp:782-786 | a coarse fixed-delay timer rescheduled by its callback is linked by that call and again after it, both times in the same bucket, which no book allows |
| TimerAgenda.PlanInsert | include/afx/core/event_manager.hpp:800-806 | insert_timer realises the effective time: the tick ceiling, never a tick already reached, or the exact deadline |
| TimerAgenda.EffectiveIsOnTime | include/afx/core/event_manager.hpp:800-806 | the effective time is the one that the deadline determines: exact if precise or beyond the horizon, the next tick if the coarse clock has reached the deadline, else the first tick not before it, less than a tick later |
| TimerCalls.CallMeans | include/afx/core/event_manager.hpp:447-497 | every call on consistent books changes timers, appointments, groups and history as its caller expects, and a call that names nothing it can change changes nothing |
| TimerCalls.ArmMeans | include/afx/core/event_manager.hpp:817-836 | exactly the timer asked for, under a new identity, last in its group if that is known, due when its deadline says; all others untouched |
| TimerCalls.CancelMeans | include/afx/core/event_manager.hpp:447-457 | that timer is withdrawn, in no group and without appointment; all others untouched |
| TimerCalls.CancelGroupMeans | include/afx/core/event_manager.hpp:481-497 | exactly the timers armed into the group that have not ended are withdrawn |
| TimerCalls.MoveMeans | include/afx/core/event_manager.hpp:459-467 | the deadline is now plus the delay, the appointment follows from it, group and everything else unchanged |
| TimerLaws.FireMeans | include/afx/core/event_manager.hpp:757-798 | whatever the callback calls: one firing is recorded, first, now and with its deadline; then a one-shot is over, a fixed-delay timer due one period from now, a withdrawn one without appointment |
| TimerLaws.RateMeans | include/afx/core/event_manager.hpp:764-774 | the next deadline at fixed rate is the first one after now that is whole periods from the old one, and is on the agenda before the callback runs |
| TimerLaws.RunCallsMean | include/afx/core/event_manager.hpp:447-836 | in every run every call means what it is for |
| TimerLaws.RunFollows | include/afx/core/event_manager.hpp:757-798 | over any stretch of any run no identity comes back, no timer changes its group, and what has ended stays so and does not fire |
| TimerLaws.CancelIsFinal | include/afx/core/event_manager.hpp:447-457 | in every run a cancelled timer has no appointment and never fires again |
| TimerLaws.GroupCancelIsFinal | include/afx/core/event_manager.hpp:481-497 | in every run, once a group is cancelled, no timer armed into it before has an appointment or fires again |
| TimerAgenda.QuietShots | include/afx/core/event_manager.hpp:757-798 | a run of quiet firings fires each timer once, settles exactly those and keeps every other appointment |
| TimerAgenda.QuietExpiry | include/afx/core/event_manager.hpp:746-755 | an expiry whose callbacks leave timers alone and which keeps up, as known beforehand, fires exactly the timers whose effective time has come and keeps every other appointment |
| TimerAgenda.LaterShotShrinks | include/afx/core/timer_wheel.hpp:332-339 | with callbacks that make no exact appointment for a passed deadline each firing leaves fewer of them due |
| TimerAgenda.RearmingNeverEnds | include/afx/core/timer_wheel.hpp:332-339 | with a callback that arms an exact timer for the current instant something is due after every firing |
| EventManagers.EventManager.InsertTimer | include/afx/core/event_manager.hpp:800-806 | the wheel takes what fits and need not be precise, under its tick or the next one; the heap the rest |
| EventManagers.EventManager.UnlinkTimer | include/afx/core/event_manager.hpp:810-815 | removes exactly that node from the structure that holds it |
| EventManagers.EventManager.Schedule | include/afx/core/event_manager.hpp:800-806 | links the timer and puts exactly its effective time on the agenda |
| EventManagers.EventManager.Arm | include/afx/core/event_manager.hpp:817-836 | exactly the timer asked for, with a new identity, last in its group if that is known, due when its deadline says; everything else unchanged |
| EventManagers.EventManager.Cancel | include/afx/core/event_manager.hpp:447-457 | succeeds exactly for known, not yet withdrawn timers; then that one is withdrawn, in no group and off the agenda, all others untouched |
| EventManagers.EventManager.Reschedule | include/afx/core/event_manager.hpp:459-467 | the deadline becomes now plus the delay and the appointment follows from it, group kept, exactly one node exchanged; the invariant holds afterwards if and only if the call failed or the timer was armed |
| EventManagers.EventManager.MakeGroup | include/afx/core/event_manager.hpp:475-479 | a new empty group |
| EventManagers.EventManager.CancelGroup | include/afx/core/event_manager.hpp:481-497 | terminates, returns the number of members and withdraws exactly the timers armed into the group that have not ended, also from inside a member's callback |
| EventManagers.EventManager.Coalesce | include/afx/core/event_manager.hpp:764-771 | the catch-up loop yields the first deadline after now and the number of periods skipped |
| EventManagers.EventManager.FireTimer | include/afx/core/event_manager.hpp:757-798 | records one firing at its deadline, runs an arbitrary re-entrant callback, and changes the agenda exactly by the firing and the callback's calls, repeated deadlines under their effective time |
| EventManagers.EventManager.DrainSlot | include/afx/core/timer_wheel.hpp:279-293 | the drain loop terminates for all callbacks; it is a run of firings of timers due at exactly this tick |
| EventManagers.EventManager.ExpireHeap | include/afx/core/event_manager.hpp:753 | any run of the loop in which finitely many callbacks make calls is a run of firings of timers past their deadline and leaves nothing due in the heap |
| EventManagers.EventManager.ExpireHeapLater | include/afx/core/timer_wheel.hpp:332-339 | with callbacks that never stop but make no exact appointment for a passed deadline the loop ends, after at most as many firings as deadlines were due |
| EventManagers.EventManager.ExpireTimers | include/afx/core/event_manager.hpp:746-755 | wheel and heap together are one run of firings of what is due, in tick order, after which nothing is due at the tick reached, which is stated exactly |
| EventManagers.EventManager.Reclaim | include/afx/core/event_manager.hpp:983-991 | afterwards every known timer is armed or in its callback |
| EventManagers.EventManager.Expire | include/afx/core/event_manager.hpp:746-755 | expiry is a step of the agenda: firings of due timers until nothing is due, the coarse clock at its exact new tick; quiet and keeping up, exactly the timers whose effective time has come |
| EventManagers.EventManager.Poll | include/afx/core/event_manager.hpp:306-342 | one iteration at any clock reading, with the calls of posted tasks before expiry and those of I/O and deferred callbacks between expiry and reclamation, is an iteration of the agenda |
| EventManagers.EventManager.NextWakeup | include/afx/core/event_manager.hpp:364-374 | rereads the clock; never after the effective time of any linked timer, and itself an instant at which something is due or cascades, while coarse appointments are representable instants |
| EventManagers.EventManager.NextDeadlineTimeout | include/afx/core/event_manager.hpp:884-893 | exactly until the earliest exact deadline or, with anything in the wheel, the next tick, for representable deadlines; never negative, never past a linked timer, a day when nothing is linked |
| EventManagers.Drive | include/afx/core/event_manager.hpp:447-836 | whole runs of calls, loop iterations and re-entrant callbacks from a fresh manager refine the plain agenda step by step; quiet expiries that keep up fire exactly what is due; nothing fires early or after it ended; fixed-rate timers stay steady |
| FixedRateRuns.NoDrift | include/afx/core/event_manager.hpp:762-774 | in the history of any run, since a fixed-rate timer was armed or moved its deadlines are whole periods after the first, and firings plus coalesced misses equal the periods elapsed |
| MpscMailbox.MaskIsModulo | include/afx/itc/mpsc_ring.hpp:53 | masking with a power of two minus one is the position modulo the capacity |
| MpscMailbox.StepKeeps | include/afx/itc/mpsc_ring.hpp:50-108 | every atomic step of producers and consumer keeps the ring invariant |
| MpscMailbox.FullIsFull | include/afx/itc/mpsc_ring.hpp:99-100 | a push sees "full" only when capacity items are claimed and not freed |
| MpscMailbox.SeenFree | include/afx/itc/mpsc_ring.hpp:95-98 | a cell whose number equals the position is free for that very lap |
| MpscMailbox.RunIsBoundedFifo | include/afx/itc/mpsc_ring.hpp:50-108 | in every interleaving of any number of producers the popped items are a prefix of the claim order, at most capacity are unfreed, and every other claimed item is in its cell or held by exactly one producer |
| MailboxPosts.PostsArrive | include/afx/itc/mailbox.hpp:97-108 | in every interleaving exactly the items of a finished post were claimed, in order, or, if it gave up at a full ring, a first part of them; of one going on, what was claimed and what is left make it up |
| MailboxPosts.ClaimsAreMerged | include/afx/itc/mpsc_ring.hpp:50-108 | the claim order is a merge: every claimed item belongs to one producer, and those of a producer are what its posts claimed, post after post |
| MpscMailbox.NoLostWake | include/afx/itc/mailbox.hpp:165-179 | in every reachable state with a sleeping consumer and a published head, a wake is pending or a producer that published has not checked the state yet |
| MpscMailbox.QuiescentIsEmpty | include/afx/core/event_manager.hpp:861-877 | when all producers are done and the consumer sleeps without a pending wake, everything ever claimed has been popped |
| MpscMailbox.OneCellOverruns | include/afx/itc/mpsc_ring.hpp:61 | with one cell a concrete run claims an unfreed cell again |
| MpscMailbox.CapacityIsExact | include/afx/itc/mpsc_ring.hpp:50-108 | the queue guarantee holds of every run if and only if there are at least two cells |
| HandleTables.EmplaceKeeps | include/afx/core/handle_table.hpp:60-76 | the new handle resolves to the new object, all other live handles as before, slots stay partitioned |
| HandleTables.ReleaseKeeps | include/afx/core/handle_table.hpp:91-101 | the handle stops resolving at once; each slot stays in exactly one of live, deferred, free |
| HandleTables.ReclaimKeeps | include/afx/core/handle_table.hpp:103-106 | makes deferred slots reusable without changing what any handle resolves to |
| HandleTables.SameGeneration | include/afx/core/handle_table.hpp:98-99 | two generations of a slot coincide exactly when the releases between them are a multiple of 2^32 - 1 |
| HandleTables.StaleHandles | include/afx/core/handle_table.hpp:61-106 | after any run a handle resolves to its own object before the release, to nothing for the next 2^32 - 2 releases, and again exactly at multiples of 2^32 - 1 |
| HandleTables.SlotsFollowPeak | include/afx/core/handle_table.hpp:60-76 | over any run the table has exactly as many slots as it started with or, if more, as were occupied at once |
| HandleTables.EmptyUntilReclaim | include/afx/core/handle_table.hpp:90-106 | a released slot holds nothing, for any handle, until the next reclamation, whatever else happens |
| HandleTables.TagRoundTrip | include/afx/backend/backend.hpp:26-41 | a tag decodes to its handle exactly when the slot index is below 2^24 |
| HandleTables.CompletionReachesSubmitter | include/afx/core/event_manager.hpp:926-930 | a completion reaches its submitter or nobody |
| HandleTables.HandleTable.EmplaceObject | include/afx/core/handle_table.hpp:60-76 | the table with the object, in the slot freed last or a new one |
| HandleTables.HandleTable.Lookup | include/afx/core/handle_table.hpp:78-83 | resolves by index, generation and liveness |
| HandleTables.HandleTable.ReleaseObject | include/afx/core/handle_table.hpp:91-101 | the table without the object, generation advanced past zero, slot deferred |
| HandleTables.HandleTable.ReclaimSlots | include/afx/core/handle_table.hpp:103-106 | the loop appends the deferred slots to the free ones |
| SimNets.EarliestIsFirst | include/afx/sim/net.hpp:102-107 | the earliest queued event is the first of its own stream |
| SimNets.PushOwn | src/sim/net.cpp:112-121 | a send scheduled at the watermark or later extends its stream in order |
| SimNets.StreamRemove | include/afx/sim/net.hpp:149-159 | popping an event takes its bytes off the front of its own stream and leaves all others |
| SimNets.FedIsPrefix | src/sim/net.cpp:112-161 | over any history a direction has been fed a prefix of what was sent into it |
| SimNets.SimNet.LandFragments | src/sim/net.cpp:126-149 | the new events are non-empty pieces 1 ns apart that make up the send, numbered in order, and the watermark lies right behind the last |
| SimNets.SimNet.LandWhole | src/sim/net.cpp:152-160 | one piece, the watermark right behind it |
| SimNets.SimNet.Land | src/sim/net.cpp:112-160 | the send's pieces are the only new events, the first at the given instant, all for the far end of the direction, which is free again right behind them |
| SimNets.SimNet.DeliverBytes | src/sim/net.cpp:67-161 | a send over a connected link is queued for the other end, at now plus the delay or right behind what that direction carries, and extends its stream by all its bytes; a reset tells both ends and unlinks them, a blackhole partitions the link; lost and partitioned sends count as dropped |
| SimNets.EndsTalk | src/sim/net.cpp:26-65 | after a dial that found a listener, what either end sends and does not lose comes out at the other |
| SimNets.SimNet.Connect | src/sim/net.cpp:26-65 | refused after one hop without a listener, else a fresh link, both descriptors on it, and the connect and accept events after one hop; every existing stream undisturbed |
| SimNets.SimNet.Detach | src/sim/net.cpp:163-194 | forgets link and listener of the descriptor and, unless partitioned, tells the far end after one hop; every stream undisturbed |
| SimNets.SimNet.Partition | src/sim/net.cpp:205-213 | sets the flag of an existing link and schedules its end; every stream undisturbed |
| SimNets.SimNet.FindEarliest | include/afx/sim/net.hpp:102-107 | the position of the least event in (due, order) |
| SimNets.SimNet.Step | src/sim/net.cpp:215-239 | pops the earliest event; bytes are fed to their own direction only and name its far end; the end of a partition lifts it, and nothing else changes a link |
| SimRuntimes.DeliverOne | src/sim/runtime.cpp:9-16 | delivering the earliest due event keeps the trace strictly increasing in (due, order), never early, at most 1 ns late |
| SimRuntimes.ThereDelivered | src/sim/runtime.cpp:9-12 | no event is lost or delivered twice: each that was ever queued is pending or in the trace |
| SimRuntimes.SimRuntime.RunShards | include/afx/sim/runtime.hpp:140-151 | a round of shard activity has exactly the effects of its network calls, one after the other |
| SimRuntimes.SimRuntime.DeliverNext | src/sim/runtime.cpp:10-12 | the earliest event leaves the queue and is recorded at the current instant; every other stays |
| SimRuntimes.SimRuntime.DeliverDue | src/sim/runtime.cpp:9-16 | any run of the loop in which finitely many rounds do something leaves nothing due now, with exactly one round after each delivered event |
| SimRuntimes.SimRuntime.DeliverDueLater | src/sim/runtime.cpp:9-16 | against shards that never fall silent but queue nothing due at once the loop ends, after exactly the events that were due and a round after each |
| SimRuntimes.SimRuntime.PostedForever | src/sim/net.cpp:196-203 | under a task that posts itself without delay something is due after any number of deliveries |
| SimRuntimes.SimRuntime.Jump | src/sim/runtime.cpp:19-26 | to the earliest of limit, timer and pending event, or by 1 ns when one of these is overdue; strictly forward, and no pending event becomes more than 1 ns late |
| SimRuntimes.SimRuntime.Pass | src/sim/runtime.cpp:6-29 | one pass of the loop, when no round queues an event due at once: everything due is delivered, and time moves on exactly when the round after that does no work |
| SimRuntimes.SimRuntime.RunUntil | src/sim/runtime.cpp:5-31 | any run of it in which finitely many rounds do something ends at the target; for a target not in the past the trace guarantee holds throughout |
| SimRuntimes.SimRuntime.RunUntilLater | src/sim/runtime.cpp:5-31 | against shards that never fall silent for good it ends at the target when no round queues an event due at once and a round without work always comes again |
| SimRuntimes.SimRuntime.BusyForever | src/sim/runtime.cpp:17 | when every round reports work, time has not moved after any number of passes |
| SimRuntimes.SimRuntime.RunUntilIdle | src/sim/runtime.cpp:33-60 | time only moves forward, the trace guarantee holds, "idle" means that no event is pending and the last round neither worked nor has a timer, and it gives up only after all its rounds |
| SimRuntimes.SimRuntime.StreamsStayOrdered | src/sim/net.cpp:116-121 | in every reachable state of a run each direction has been fed a prefix of its sends |
| Framing.ParseAllResumes | include/afx/net/protocol.hpp:18-47 | parsing a stream may stop at any cut and resume with the undecided rest; an error is final |
| Framing.FramerIsStable | include/afx/net/protocol.hpp:84-104 | the fixed-header framer never changes an answer when bytes follow and demands exactly what is missing |
| Framing.FrameRoundTrip | include/afx/net/protocol.hpp:83-105 | a frame written out is read back, header and body, whatever follows |
| Framing.MessagesAreFrames | include/afx/net/protocol.hpp:95-105 | a message is answered if and only if the input starts with a written frame, and is that frame |
| Framing.ErrorsAreRefusals | include/afx/net/protocol.hpp:88-91 | an error is answered if and only if the input starts with a header that fails validation or size, validation speaking first |
| Framing.FrameDemandIsExact | include/afx/net/protocol.hpp:84-94 | a demand completes the header or, once that is there, the frame |
| Framing.StreamRoundTrip | include/afx/net/protocol.hpp:83-105 | a stream of written frames is parsed back to those frames, in order, and what follows as if they had not been there |
| IoBuffers.IoBuffer.constructor | include/afx/core/io_buffer.hpp:19-23 | an empty buffer behind its headroom, one byte larger than it at least |
| IoBuffers.IoBuffer.Compact | include/afx/core/io_buffer.hpp:68-72 | moves the readable bytes to the headroom without changing them, exactly when the range it writes lies inside the array |
| IoBuffers.CompactionFits | include/afx/core/io_buffer.hpp:70 | the range written lies inside the array if and only if headroom and readable bytes fit together |
| IoBuffers.RoomWraps | include/afx/core/io_buffer.hpp:79 | where they do not fit, the unsigned room exceeds every request, so growth is not considered; otherwise it is the true room |
| IoBuffers.IoBuffer.Grow | include/afx/core/io_buffer.hpp:83-91 | at least doubles, holds what is needed, keeps the readable bytes |
| IoBuffers.IoBuffer.Writable | include/afx/core/io_buffer.hpp:32-35 | room for what was asked for with readable bytes unchanged, exactly when there is room already or compaction fits; always for buffers that never prepend |
| IoBuffers.IoBuffer.Commit | include/afx/core/io_buffer.hpp:37-40 | the received bytes follow the readable ones |
| IoBuffers.IoBuffer.Consume | include/afx/core/io_buffer.hpp:42-47 | drops that many bytes, or all there are |
| IoBuffers.IoBuffer.Prepend | include/afx/core/io_buffer.hpp:51-62 | the header stands in front of unchanged bytes; without moving anything when there is room |
| IoBuffers.PrependedTooFar | include/afx/core/io_buffer.hpp:75-81 | a full 100-byte buffer after a prepend: compaction would write positions 64 to 164 and growth is suppressed |
| ReadPath.RestIsUndecided | include/afx/net/connection.hpp:402-405 | what the read loop leaves in the buffer stays undecided until bytes arrive |
| ReadPath.ChunkingInvariance | include/afx/net/connection.hpp:398-421 | for every cut of a stream the delivered messages are the one-shot parse, short by exactly the open batch of a failing completion |
| ReadPath.ErrorLosesOpenBatch | include/afx/net/connection.hpp:406-411 | with an error in the stream delivery is complete if and only if the failing completion framed whole batches |
| ReadPath.CutsMatterAtAnError | include/afx/net/connection.hpp:406-421 | two bytes deliver one message in two completions and none in one |
| ReadPath.Connection.NextFrame | include/afx/net/connection.hpp:400-413 | the framer's answer on the readable bytes; a message's bytes are consumed |
| ReadPath.Connection.FrameReadable | include/afx/net/connection.hpp:398-420 | frames exactly the one-shot parse, hands over its whole batches, returns the open one |
| ReadPath.Connection.OnRecv | include/afx/net/connection.hpp:388-421 | hands over the whole parse of pending plus new bytes, or its whole batches at an error; keeps the rest and the framer's demand |
| ReadPath.Connection.Receive | include/afx/net/connection.hpp:339-343 | takes what the kernel gives, up to a room that is at least a page and at least what the framer asked for, and at least one byte |
| ReadPath.Connection.Serve | include/afx/net/connection.hpp:339-421 | for every stream and every choice of receive sizes the messages handed over are the one-shot parse of what was received, unless it fails; it stops only when stream, receives or parser give out |
| Http.Find | src/admin/http.cpp:85 | the first occurrence, or none at all |
| Http.ParseContentLength | src/admin/http.cpp:23-36 | one to ten digits with blanks around them, read as a decimal number |
| Http.EqualNames | src/admin/http.cpp:14-19 | equality up to the folded bit |
| Http.NameIsContentLength | src/admin/http.cpp:14-19 | the field name is recognised up to case, and also with a carriage return for the hyphen |
| Http.ParseFields | src/admin/http.cpp:81-97 | the header loop: the last length wins, a malformed one is final |
| Http.ScanHead | src/admin/http.cpp:41-51 | the loop finds the first blank line within the size limit |
| Http.Parse | src/admin/http.cpp:40-108 | the imperative parser computes the specification the lemmas below are about |
| Http.HeadStays | src/admin/http.cpp:43-57 | a complete head stays the same head, and an oversized one stays oversized, when bytes follow |
| Http.HttpIsStable | src/admin/http.cpp:40-108 | messages and errors are the same on every extension, and fewer bytes than demanded decide nothing |
| Http.DemandIsExact | src/admin/http.cpp:102-107 | once the head is complete, the demanded number of bytes makes the message |
| Http.HeadsAreTexts | src/admin/http.cpp:41-57 | the heads found are exactly request line, non-empty header lines and a blank line, within the size limit |
| Http.HeadRoundTrip | src/admin/http.cpp:60-97 | a head written out from lines is read back as those lines: the request its first line reads as and the length the others announce |
| Http.RequestRoundTrip | src/admin/http.cpp:40-108 | a head written out from lines and its body are read back whole, whatever follows; with the parts of the request line this is `HttpStandard.WrittenRequest` |
| Http.HeadDecides | src/admin/http.cpp:60-107 | a complete head decides: bad request line or length, a length beyond the limit, exactly the missing part of the body, or the message with all of it |
| Http.NoHeadDecides | src/admin/http.cpp:41-57 | without a head within the limit the framer waits, or gives up once that many bytes are there |
| Http.LengthRoundTrip | src/admin/http.cpp:23-36 | a number in decimal notation is read back if and only if it has at most ten digits |
| HttpStandard.RequestLineReads | src/admin/http.cpp:65-79 | method, path, query and version written with their separators are read back as those four, for every method and version without a space and every path without a question mark |
| HttpStandard.WrittenRequest | src/admin/http.cpp:40-108 | a request written out from method, path, query, version, header lines and body is read back with that method, path, query, version and body, whatever follows it |
| HttpStandard.AcceptedLines | src/admin/http.cpp:65-68 | a request line is accepted if and only if it has two spaces, and is then split at the outermost |
| HttpStandard.AcceptedHasForm | src/admin/http.cpp:60-79 | an accepted line has the form of section 3 of RFC 9112 if and only if method, target and version have theirs |
| HttpStandard.SpacesInTarget | src/admin/http.cpp:65-73 | `GET a b HTTP/1.1` is accepted, without that form |
| HttpStandard.LineReading | src/admin/http.cpp:85-96 | what the framer makes of every header line, in the standard's terms: which lines it takes for lengths, refuses, or passes over |
| HttpStandard.LengthIsPrescribed | src/admin/http.cpp:83-97 | for all header lines: length and rejection agree with section 6.3 of RFC 9112 if and only if there is no transfer coding and a length is malformed, or a line is refused while the lengths disagree, or none is and the last one read is the one agreed on |
| HttpStandard.PlainLengthIsPrescribed | src/admin/http.cpp:83-97 | for lines that both read alike: if and only if there is no transfer coding and the lengths are malformed or agree |
| HttpStandard.LastLengthWins | src/admin/http.cpp:94 | of two differing lengths, to be rejected, the last is taken |
| HttpStandard.CodingIsIgnored | src/admin/http.cpp:93-96 | a head with a transfer coding announces an empty body |
| HttpStandard.OverlongIsRefused | src/admin/http.cpp:28 | a length of more than ten digits is refused whatever its value, while the standard prescribes that value |
| HttpStandard.ElevenDigits | src/admin/http.cpp:28 | eleven digits that say five are refused |
| HttpStandard.ListIsRefused | src/admin/http.cpp:30-31 | a list that repeats one length is refused, while the standard allows it |
| HttpStandard.CarriageReturnIsRead | src/admin/http.cpp:14-19 | `content<CR>length:5` announces five bytes, while the standard sees no length |
| EpollSend.GatherTail | src/backend/epoll.cpp:146-158 | the part-by-part copy fills the buffer exactly with what the first bytes left over |
| EpollSend.SubmittedKeeps | src/backend/epoll.cpp:103-165 | a submission keeps queue, wire and history in agreement |
| EpollSend.SubmitMeans | src/backend/epoll.cpp:103-165 | behind a queue a submission joins it; a failure completes it with the error; else what the kernel took of the first 64 parts is on the wire and the rest queued, or the send completed in full |
| EpollSend.AnswerMeans | src/backend/epoll.cpp:474-504 | what the kernel took from the front is on the wire; a finished or failed request leaves the queue with one completion of its own |
| EpollSend.SettledUds | src/backend/epoll.cpp:473-505 | what a run of answers completes are the first requests in the queue, in order |
| EpollSend.TakenGrows | src/backend/epoll.cpp:492-493 | taking more of a submission with nothing taken behind it extends the wire in order |
| EpollSend.WireIsOrdered | src/backend/epoll.cpp:103-165 | unless a write failed, the wire followed by the queue is exactly the concatenation of all submissions |
| EpollSend.ResultIsTail | src/backend/epoll.cpp:493-496 | a queued send's completion reports its size less what the first write took |
| EpollSend.DroppedCompletion | src/backend/epoll.cpp:500-503 | two sends finish in one call with room for one completion: both leave the queue, the second completion is in no output |
| EpollSend.SettledOrQueued | src/backend/epoll.cpp:473-505 | after any run of answers every request is settled or still queued |
| EpollSend.CompletionsFit | src/backend/epoll.cpp:500-503 | no answers of the kernel can lose a completion if and only if there is room for as many as requests are queued |
| EpollSend.SendQueue.Submit | src/backend/epoll.cpp:103-165 | at once as far as the kernel takes the first 64 parts, the rest queued, behind anything queued already; failures and full sends completed at once |
| EpollSend.SendQueue.WriteFront | src/backend/epoll.cpp:474-504 | one kernel answer advances, finishes or gives up the front request only |
| EpollSend.SendQueue.OnWritable | src/backend/epoll.cpp:473-505 | the loop equals the run of answers; the completions returned are the first ones that fit |
| EpollSend.Drive | src/backend/epoll.cpp:103-165 | for every run of submissions, readiness events and short writes without hard errors, the wire followed by the queue is every byte submitted, in order; every submission is completed once, in order, or still queued, and all completions are reported when each call has room for as many as there are steps |
| WritePath.OneInFlight | src/backend/epoll.cpp:473-505 | any run of answers to a single queued send advances it, finishes it with one completion, or breaks it |
| WritePath.StreamIsExact | include/afx/net/connection.hpp:486-504 | at rest, wire plus buffer equals what was written if and only if every completed send was taken wholly or not at all at first; the excess is exactly what was taken at first |
| WritePath.ByteSentTwice | include/afx/net/connection.hpp:496-504 | two bytes taken one by one put three on the wire |
| WritePath.WriteHalf.FlushBuffer | include/afx/net/connection.hpp:486-494 | submits exactly the whole buffer unless a send is in flight or it is empty |
| WritePath.WriteHalf.OnSent | include/afx/net/connection.hpp:496-504 | the completion ends the send and releases the bytes it reports; an error closes, a cancelled send does not |
| WritePath.WriteHalf.OnWritable | src/backend/epoll.cpp:473-505 | the send in flight advances as the kernel answers, and its completion is consumed |
| WritePath.Drive | include/afx/net/connection.hpp:486-504 | whole runs: every write, flush, kernel answer and completion has its exact effect; while the connection is open what was written is the concatenation of the writes, and at rest wire plus buffer equals it if and only if no send was split |
| FrameCaches.InUseIsExclusive | include/afx/coro/frame_cache.hpp:51-78 | memory in use is 16-aligned, large enough, and overlaps no other block or header, in use or free |
| FrameCaches.FootprintFollowsPeak | include/afx/coro/frame_cache.hpp:3-9 | the chunks of a class never exceed its peak use rounded up to whole chunks |
| FrameCaches.ArenaFollowsPeaks | include/afx/coro/frame_cache.hpp:3-9 | the arena's offset never exceeds alignment plus the chunks that the peak use of all classes needs |
| FrameCaches.Arena.Alloc | include/afx/core/arena.hpp:34-41 | aligned new memory behind everything given out, or nothing exactly when it does not fit |
| FrameCaches.ClassIsSmallest | include/afx/coro/frame_cache.hpp:51-53 | the class of a frame is the smallest that holds it with its header |
| FrameCaches.FrameCache.CutBlocks | include/afx/coro/frame_cache.hpp:97-107 | the carve loop makes blocks that overlap nothing and all lie inside the chunk |
| FrameCaches.FrameCache.Carve | include/afx/coro/frame_cache.hpp:93-109 | one more chunk for the class and exactly one aligned chunk off the arena, or one heap block and an untouched arena exactly when the arena is used up |
| FrameCaches.FrameCache.HeapBlock | include/afx/coro/frame_cache.hpp:84-91 | a counted heap block outside the arena |
| FrameCaches.FrameCache.Alloc | include/afx/coro/frame_cache.hpp:51-60 | memory not in use before, aligned, recorded as in use, of the smallest class that fits or from the heap; reuses a free block without touching the arena, else takes at most one chunk; the heap only for oversized frames or a used-up arena; peaks follow the present use exactly |
| FrameCaches.FrameCache.Free | include/afx/coro/frame_cache.hpp:64-78 | returns the block to its class or the heap; ignores null and counts what has no header |
| FrameCaches.Drive | include/afx/coro/frame_cache.hpp:51-116 | whole runs: every step takes or gives back exactly its memory, memory in use overlaps nothing throughout, and the arena offset is bounded by the most that was in use at once over the run, class by class |

## Left out

- EventManagers.EventManager.Run: a call that reschedules a timer in its callback or a completed one-shot is passed over; `TimerBook.RescheduleKeeps` and `SpentTimers.dfy` state what the source does then.
- TimerBook.TickIsNotEarly: 64-bit overflow of nanosecond arithmetic is not modelled; the wrap of a negative tick count is.
- TimerAgenda.EffectiveIsOnTime: deadlines before the clock's zero are not covered; `TimerBook.TickIsCeiling` and `TimerBook.TickWraps` state their ticks.
- EventManagers.EventManager.NextDeadlineTimeout: the exact value is stated for deadlines up to the largest time point, as the source's type has them; likewise the limit of `SimRuntimes.SimRuntime.Jump`.
- TimerWheels.TimerWheel.NextDueTick: effective ticks are taken to be 64-bit numbers, as the source's type has them.
- EventManagers.EventManager.ExpireHeap: covers runs that end; when the loop ends is stated by `EventManagers.EventManager.ExpireHeapLater` and `TimerAgenda.RearmingNeverEnds`.
- SimRuntimes.SimRuntime.DeliverDue: covers runs that end; when the loop ends is stated by `SimRuntimes.SimRuntime.DeliverDueLater` and `SimRuntimes.SimRuntime.PostedForever`.
- SimRuntimes.SimRuntime.RunUntil: covers runs that end; when the loop ends is stated by `SimRuntimes.SimRuntime.RunUntilLater` and `SimRuntimes.SimRuntime.BusyForever`.
- SimRuntimes.SimRuntime.RunUntilLater: the condition is sufficient; a run against shards that turn busy only after the target is reached ends as well.
- EventManagers.EventManager.ExpireHeapLater: the condition is sufficient; it asks a positive delay of every reschedule, also of a coarse timer.
- IoBuffers.IoBuffer.Compact: when the move would leave the array nothing is modelled of what it overwrites.
- FrameCaches.Drive: the arena serves the frame cache alone; other users would take their own share of it.
- MpscMailbox.StepKeeps: steps are sequentially consistent, as the fences intend; weaker orders and the wrap of 64-bit positions are not modelled.
- EpollSend.WireIsOrdered: says nothing after a failed write; `EpollSend.SendQueue.WriteFront` keeps what was taken of the failed send on the wire and goes on with the next.
- FrameCaches.FrameCache.Free: freeing a block that is on a free list already is excluded, as the source's contract does.
- Timer nodes, bucket lists and group lists are values and sequences in the wheel and the manager; `IntrusiveList.dfy` proves the pointer updates that such sequences stand for. The free lists of the frame cache are sequences too.
- Timer identities are never reused in `EventManager.dfy`; that handles behave so within 2^32 - 1 releases is `HandleTable.dfy`.
- The 32-bit count of missed periods is unbounded here.
- A message handler that closes or pauses the connection in the middle of a batch, descriptor passing, idle timers, flow-control watermarks and overflow policies of connections.
- Cancelling sends on the readiness backend (a cancelled completion is handled, the cancellation itself is not), its receive and accept paths, registration with the kernel, and the completion-ring backend with its cross-ring wakes.
- The order of the end-of-stream event against bytes in flight in the simulator: the source does not put it behind the watermark.
- Coroutine tasks and combinators, typed channels, the single-producer ring, reconnect logic, the resolver, admin rendering, statistics, the flight recorder and load tools.
- System calls, NUMA placement and the random generator; their results are parameters.
