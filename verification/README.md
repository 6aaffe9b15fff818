# Verified models of MRC's concurrent and algebraic cores

This Dafny project models the parts of MRC whose correctness does not show in any single
function: the closable ring buffer that coroutines share, the service lifecycle, the barrier, the
event and the latch, the recent channel, the `expected` union, the JSON/Python converters, the
Python stream operators and the benchmark watcher's source/sink cycle.

`dafny verify dfyconfig.toml` checks everything.

## How it is organised

Every concurrent component comes in the same three layers.

1. *The object.* A class with the source's fields, updated in place (circular array, linked list,
   flags, counters). Each method is one critical section of the source.
2. *The system.* Any number of callers interleaved at the granularity of the mutex or the atomic
   word: `Enabled`, `Apply`, and runs (`IsRun`, `Exec`) over all sequences of steps. The object's
   methods are proved to take their fields where the steps take the system.
3. *The laws.* Lemmas about every run.

| file | contents |
|---|---|
| `Common.dfy` | the option type |
| `RingSpec.dfy` | the critical sections of `ClosableRingBuffer` on a bounded queue, as functions |
| `RingBuffer.dfy` | the circular array and waiter lists, refining those functions |
| `RingSystem.dfy` | interleavings, FIFO, waiter invariants |
| `RingStatus.dfy` | statuses tell the truth, nobody returns twice |
| `RingOpen.dfy` | an open ring stops nobody and serves or keeps every operation, most recent waiter first |
| `RingOrder.dfy` | order as a single writer sees it |
| `RingClose.dfy` | draining after `close`, and the gap before the writer's lock |
| `RingCompleted.dfy` | who waits in `completed()` is woken, too soon, or never |
| `RingNotify.dfy` | `notify_waiters` wakes everybody it found waiting |
| `RingMended.dfy` | the same with the test that `completed()` was meant to make |
| `ServiceLifecycle.dfy` | states, hook claims and joining of `Service` |
| `ServiceSteps.dfy` | state, claims, refusals and outcomes from the steps of a run alone |
| `ServiceDestructor.dfy` | `call_in_destructor` racing with calls that are still inside |
| `ThreadBarrier.dfy` | one-bit barrier against a generation counter |
| `EventLatch.dfy` | `Event` (in-place list reversal included) and `Latch` |
| `RecentChannel.dfy` | the lossy channel |
| `Expected.dfy` | lifetimes of the union members of `expected` |
| `JsonCast.dfy` | JSON to Python and back |
| `JsonHandler.dfy` | the handler for unserializable objects: what it sees, what becomes of its answers, which failure ends a conversion |
| `Streams.dfy` | stream operators and `pipe` |
| `SegmentWatcher.dfy` | one tracer cycle |

## Where the code and its documentation differ

The model follows the code. Each difference is a proved statement.

- `completed()` never takes its fast path: line 689 of `closable_ring_buffer.hpp` tests an unsigned
  count for `>= 0`. `RingCompleted.WakeIsExact` says exactly which waiters can still be woken,
  `StrandingReached` leads every ring to one that cannot, and `RingMended.NobodyStranded` proves that
  the test `> 0` would strand nobody.
- A write reads the stop flag before it takes the lock (line 135 against 145), so a close can catch
  it in between. `RingClose.GapIsExact` says exactly when the drain after close is bounded by what
  is in the ring and in suspended writers; `RingCompleted.TooSoonIsExact` says exactly when a
  completed-waiter can still be woken too soon, and `TooSoonInTheGap` that it happens at every
  capacity.
- `service_await_join` releases the other joiners before the state is Completed when the hook
  succeeds, although the comment at line 212 of `service.cpp` says otherwise.
  `ServiceLifecycle.ReleaseIsExact` says that it keeps the promise in all runs exactly when the hook
  never returns normally; `ReleaseGapIsExact` gives the place, `ReleasedWhileRunning` a run into it.
- For the same reason the check in the destructor can fail: `ServiceDestructor.DestructorIsExact`
  says exactly from which states.
- A non-standard exception from the join hook is not caught: the first joiner gets the exception,
  the others a broken promise. `ServiceLifecycle.JoinersAgreeIsExact` says that joiners agree in
  all runs exactly when the hook throws no such exception; `JoinersDisagree` is the run.
- The one-bit barrier agrees with a generation counter exactly for as many participants as it
  expects (`ThreadBarrier.BitIsExact`).
- `expected::swap` is declared for types whose default constructor does not throw; what it needs is
  a move that does not throw (`Expected.SwapIsExact`). Whole-object assignment overwrites the flag
  before testing it, and is defined only between two values or two errors
  (`Expected.Expected.AssignWhole`).
- `cast_from_json` reads unsigned numbers as signed, because the library's `is_number_integer` also
  holds for unsigned numbers and line 119 of `utils.cpp` is never reached
  (`JsonCast.JsonRoundTripIsExact`).
- The path that the handler for unserializable objects gets does not always tell two objects apart:
  keys are not escaped. `JsonHandler.TextsAreExact` says for which keys it does.
- The sink of `SegmentWatcher` publishes readiness before it counts, so that a sequenced cycle can
  hang after its last tracer (`SegmentWatcher.StuckIsExact`); with the three statements of the sink
  taken as one step it cannot (`SegmentWatcher.NeverStuckWhole`).

## Model

| member | source | states |
|---|---|---|
| `RingBuffer.SlotsPush` | cpp/mrc/include/mrc/coroutines/closable_ring_buffer.hpp:602-604 | writing the open slot of the circular array appends to the represented queue, and the open slot advances |
| `RingBuffer.SlotsPop` | cpp/mrc/include/mrc/coroutines/closable_ring_buffer.hpp:614-616 | stepping the back index drops the oldest element and keeps the open slot |
| `RingBuffer.ClosableRingBuffer.Create` | cpp/mrc/include/mrc/coroutines/closable_ring_buffer.hpp:91-105 | capacity zero is an error, any other gives an empty open ring |
| `RingBuffer.ClosableRingBuffer.PutSlot` | cpp/mrc/include/mrc/coroutines/closable_ring_buffer.hpp:601-604 | the queue grows by the element at its end |
| `RingBuffer.ClosableRingBuffer.TakeSlot` | cpp/mrc/include/mrc/coroutines/closable_ring_buffer.hpp:637-640 | the oldest element is returned and removed |
| `RingBuffer.ClosableRingBuffer.WriteLocked` | cpp/mrc/include/mrc/coroutines/closable_ring_buffer.hpp:593-628 | the array computes the bounded-queue write: suspend when full, else append, and hand the oldest element to a waiting reader; the ring invariant is kept and the source's check holds |
| `RingBuffer.ClosableRingBuffer.Write` | cpp/mrc/include/mrc/coroutines/closable_ring_buffer.hpp:132-160 | a write to a closed ring reports Stopped and changes nothing, any other is the locked write |
| `RingBuffer.ClosableRingBuffer.TakeLocked` | cpp/mrc/include/mrc/coroutines/closable_ring_buffer.hpp:637-684 | a read that finds an element computes the bounded-queue take: oldest out, one suspended writer in, all completed-waiters resumed when that empties a closed ring |
| `RingBuffer.ClosableRingBuffer.ReadLocked` | cpp/mrc/include/mrc/coroutines/closable_ring_buffer.hpp:630-684 | the array computes the bounded-queue read: take the oldest, refill from one suspended writer, wake all completed-waiters when a closed ring becomes empty; on an empty ring stop or suspend |
| `RingBuffer.ClosableRingBuffer.ResumeCompleted` | cpp/mrc/include/mrc/coroutines/closable_ring_buffer.hpp:675-681 | every waiter of the detached list is resumed once, in list order |
| `RingBuffer.ClosableRingBuffer.CompletedLocked` | cpp/mrc/include/mrc/coroutines/closable_ring_buffer.hpp:686-700 | `completed()` always suspends |
| `RingBuffer.ClosableRingBuffer.PopWriter` | cpp/mrc/include/mrc/coroutines/closable_ring_buffer.hpp:531-536 | the most recent suspended writer is flagged stopped and resumed |
| `RingBuffer.ClosableRingBuffer.PopReader` | cpp/mrc/include/mrc/coroutines/closable_ring_buffer.hpp:469-474 | the most recent suspended reader is flagged stopped and resumed |
| `RingBuffer.ClosableRingBuffer.PopCompleted` | cpp/mrc/include/mrc/coroutines/closable_ring_buffer.hpp:481-486 | the most recent completed-waiter is flagged stopped and resumed |
| `RingBuffer.ClosableRingBuffer.DrainLocked` | cpp/mrc/include/mrc/coroutines/closable_ring_buffer.hpp:529-560 | one trip round the draining loops between two unlocks |
| `RingBuffer.ClosableRingBuffer.CloseLocked` | cpp/mrc/include/mrc/coroutines/closable_ring_buffer.hpp:457-476 | the first locked section of `close`: sets the stop flag and, on an empty ring, dismisses one waiter or moves on |
| `RingBuffer.ClosableRingBuffer.NotifyLocked` | cpp/mrc/include/mrc/coroutines/closable_ring_buffer.hpp:526-538 | the first locked section of `notify_waiters`: sets the stop flag and dismisses one waiter or moves on |
| `RingBuffer.ClosableRingBuffer.Close` | cpp/mrc/include/mrc/coroutines/closable_ring_buffer.hpp:444-490 | an uninterrupted close dismisses all readers, then all completed-waiters, most recent first, if the ring is empty, and nobody otherwise; a second close does nothing |
| `RingBuffer.ClosableRingBuffer.NotifyWaiters` | cpp/mrc/include/mrc/coroutines/closable_ring_buffer.hpp:518-561 | an uninterrupted notify dismisses everybody and keeps the elements |
| `RingSystem.StepMoves` | cpp/mrc/include/mrc/coroutines/closable_ring_buffer.hpp:593-684 | which elements each step of any operation issues, admits and delivers |
| `RingSystem.AttendedStep` | cpp/mrc/include/mrc/coroutines/closable_ring_buffer.hpp:444-490 | no step strands a suspended reader: once stopped, readers wait only while a closer is about to wake them, also in the windows in which it has dropped the lock |
| `RingSystem.FifoAndWaiters` | cpp/mrc/include/mrc/coroutines/closable_ring_buffer.hpp:583-684 | in every run, deliveries followed by the ring contents are the admissions in order; waiting readers imply an empty ring and waiting writers a full one, so the checks never fail; no reader is lost on close |
| `RingStatus.WriteServes` | cpp/mrc/include/mrc/coroutines/closable_ring_buffer.hpp:593-628 | a write section settles or leaves untouched every operation in the system |
| `RingStatus.ReadServes` | cpp/mrc/include/mrc/coroutines/closable_ring_buffer.hpp:630-684 | a read section settles or leaves untouched every operation in the system |
| `RingStatus.DrainServes` | cpp/mrc/include/mrc/coroutines/closable_ring_buffer.hpp:529-560 | a draining section settles or leaves untouched every operation in the system |
| `RingStatus.StatusTellsTheTruth` | cpp/mrc/include/mrc/coroutines/closable_ring_buffer.hpp:132-169 | in every run: nobody returns twice; a write reports Success iff its own element entered once; a read reports a value iff one element was moved to it; a pending operation sits in one list, once |
| `RingOpen.OpenRingServes` | cpp/mrc/include/mrc/coroutines/closable_ring_buffer.hpp:593-684 | in every run, as long as the ring is open: nobody has been stopped; writes called are those that entered, are suspended or before the lock; reads called are those that got an element or are suspended; every `completed()` called waits |
| `RingOpen.LastComeFirstServed` | cpp/mrc/include/mrc/coroutines/closable_ring_buffer.hpp:583-589 | in every run, a step that resumes a reader or a completed-waiter leaves none waiting that came after it |
| `RingSystem.AskedIsWritten` | cpp/mrc/include/mrc/coroutines/closable_ring_buffer.hpp:132-147 | in every run, the writes issued are those that the steps call, in order |
| `RingOrder.SingleWriterOrder` | cpp/mrc/include/mrc/coroutines/closable_ring_buffer.hpp:583-585 | with one writer, deliveries are a prefix of admissions, and these of the elements that the run was asked to write |
| `RingOrder.TwoWritersReorder` | cpp/mrc/include/mrc/coroutines/closable_ring_buffer.hpp:583-585 | at every capacity and for any elements: with the ring full, `a` then `b` are written and `b` then `a` delivered |
| `RingClose.ReadTakesBacklog` | cpp/mrc/include/mrc/coroutines/closable_ring_buffer.hpp:251-261 | a read of a ring that holds something takes the head of the backlog, and one of a stopped empty ring reports Stopped without suspending |
| `RingClose.DrainsExactly` | cpp/mrc/include/mrc/coroutines/closable_ring_buffer.hpp:444-490 | after close, every continuation with enough reads delivers exactly the ring contents and the suspended writers' elements, in that order, and no more; from then on a read is Stopped |
| `RingClose.AtMostTheGap` | cpp/mrc/include/mrc/coroutines/closable_ring_buffer.hpp:132-147 | after close, deliveries exceed the backlog by at most the number of writes caught before the lock |
| `RingClose.GapIsExact` | cpp/mrc/include/mrc/coroutines/closable_ring_buffer.hpp:132-147 | no continuation of a stopped system delivers more than the backlog iff no write is between its stop check and the lock |
| `RingCompleted.EarlyWaitersReturn` | cpp/mrc/include/mrc/coroutines/closable_ring_buffer.hpp:479-488 | in every run and for every call of `completed()` made while the ring is not closed and drained: once it is, and the draining loops are over, that call has been resumed exactly once |
| `RingNotify.NotifyWakesAll` | cpp/mrc/include/mrc/coroutines/closable_ring_buffer.hpp:518-561 | in every run, whatever happens while it drops the lock: once a notify is over, every operation that was waiting when it took the lock has returned |
| `RingCompleted.NeverTooSoon` | cpp/mrc/include/mrc/coroutines/closable_ring_buffer.hpp:655-681 | in every run without writes caught in the gap and without notify, no step resumes a waiter while an element is in the ring or in a suspended writer |
| `RingCompleted.TooSoonIsExact` | cpp/mrc/include/mrc/coroutines/closable_ring_buffer.hpp:444-561 | in any reachable state, some continuation without a further notify resumes a given waiter too soon iff the ring is open; or somebody drains, or is about to in notify, while an element is in the ring or a write in the gap; or a close is about to lock an empty ring with a write in the gap |
| `RingCompleted.TooSoonInTheGap` | cpp/mrc/include/mrc/coroutines/closable_ring_buffer.hpp:473-487 | at every capacity and without any notify, some run resumes the first waiter of a new ring while an element is left |
| `RingCompleted.WakeIsExact` | cpp/mrc/include/mrc/coroutines/closable_ring_buffer.hpp:686-700 | some continuation wakes a given completed-waiter iff the ring is not (closed and drained, nothing on its way in, all closers gone) |
| `RingCompleted.LateCallNeverReturns` | cpp/mrc/include/mrc/coroutines/closable_ring_buffer.hpp:686-700 | `completed()` on a ring that is closed, drained and left alone waits in every continuation |
| `RingCompleted.StrandingReached` | cpp/mrc/include/mrc/coroutines/closable_ring_buffer.hpp:686-700 | at every capacity, closing a new ring and then calling `completed()` is a run into a state in which that waiter is stranded |
| `RingMended.NobodyStranded` | cpp/mrc/include/mrc/coroutines/closable_ring_buffer.hpp:686-700 | with the test `> 0`, in every run nobody waits in a drained ring that no closer attends to, some continuation of that same ring wakes every waiter, and a late call returns at once |
| `ServiceLifecycle.Service.AdvanceState` | cpp/mrc/src/internal/service.cpp:270-295 | under the forward check the state becomes the requested one; the result says whether it moved |
| `ServiceLifecycle.Service.EnsureState` | cpp/mrc/src/internal/service.cpp:297-307 | the state becomes the later of the two and the check of `advance_state` holds |
| `ServiceLifecycle.Service.StartLocked` | cpp/mrc/src/internal/service.cpp:71-83 | only a fresh service can be started, and starting claims the hook |
| `ServiceLifecycle.Service.DemandLocked` | cpp/mrc/src/internal/service.cpp:146-182 | stop and kill are refused before the start and claim their hook only when they move the state |
| `ServiceLifecycle.Service.JoinLocked` | cpp/mrc/src/internal/service.cpp:184-207 | join is refused before the start and only the first joiner claims the hook |
| `ServiceLifecycle.Service.CallInDestructor` | cpp/mrc/src/internal/service.cpp:240-263 | a service never started or already completed is left alone; any other ends Completed, except that a throwing kill hook leaves it Killing, and that with another joiner inside it ends where that joiner released the future |
| `ServiceLifecycle.SectionsAreSteps` | cpp/mrc/src/internal/service.cpp:71-207 | the steps of concurrent start, stop, kill and join calls move state, joining flag and claims as the locked sections of the object do |
| `ServiceLifecycle.NeverBackwards` | cpp/mrc/src/internal/service.cpp:270-295 | in every run, throwing hooks included, the state never goes backwards |
| `ServiceLifecycle.HooksClaimedOnce` | cpp/mrc/src/internal/service.cpp:71-182 | in every run each hook is claimed at most once, none before the start, stop never after kill |
| `ServiceLifecycle.NoLateClaim` | cpp/mrc/src/internal/service.cpp:156-181 | once the state has reached a hook's target, no continuation claims that hook |
| `ServiceSteps.StateIsExact` | cpp/mrc/src/internal/service.cpp:71-233 | for every run and state: the state has been reached or passed iff some step demands it (a start; the end of the start hook; a stop or kill after a start; a throwing start hook or the first joiner's unwinder), and Completed only by the last two |
| `ServiceSteps.CallsEndAsTheirHooks` | cpp/mrc/src/internal/service.cpp:71-182 | in every run, a start, stop or kill whose hook has ended returned as the hook did; after a start hook the service is Running at least, and Completed if it threw |
| `ServiceSteps.RefusalsAreExact` | cpp/mrc/src/internal/service.cpp:71-193 | in every run, a start is refused iff there was one before; a stop, kill or join iff there was none |
| `ServiceSteps.ClaimsAreExact` | cpp/mrc/src/internal/service.cpp:71-207 | in every run, a hook has been claimed iff some step was the first start, a join after a start, or a stop or kill after a start that nothing had overtaken |
| `ServiceLifecycle.OneJoinOutcome` | cpp/mrc/src/internal/service.cpp:184-233 | in every run all returned joiners got what the future holds, except the first after a broken promise, and the state is Completed when the first joiner is back and on every failing path |
| `ServiceLifecycle.JoinersAgreeIsExact` | cpp/mrc/src/internal/service.cpp:209-232 | for any set of ways in which the join hook may end: all joiners get the same outcome in all such runs iff a non-standard exception is not among them |
| `ServiceLifecycle.JoinersDisagree` | cpp/mrc/src/internal/service.cpp:222-227 | a run in which the first joiner gets a non-standard exception and the second a broken promise |
| `ServiceLifecycle.ReleaseIsExact` | cpp/mrc/src/internal/service.cpp:209-232 | for any set of ways in which the join hook may end: the service is Completed whenever a joiner has been released, in all such runs, iff returning normally is not among them |
| `ServiceLifecycle.ReleaseGapIsExact` | cpp/mrc/src/internal/service.cpp:209-232 | in every run, once the future is released, the state is short of Completed iff the first joiner stands between `set_value` and its unwinder and no start hook of the run threw |
| `ServiceLifecycle.ReleasedWhileRunning` | cpp/mrc/src/internal/service.cpp:211-220 | a run in which the hook returns and a second joiner is back while the state is Running |
| `ServiceDestructor.DestructorIsExact` | cpp/mrc/src/internal/service.cpp:36-46 | from any reachable state, with nobody else starting or joining from then on: the destructor's check holds in all runs in which `call_in_destructor` does not throw iff the join is unclaimed or the service Completed |
| `ServiceDestructor.DestructorFollows` | cpp/mrc/src/internal/service.cpp:240-263 | whatever the others do: the destructor kills iff it read Running, joins iff it read an unfinished state and its kill did not fail, makes no other call, and throws iff a call of its own ended badly |
| `ServiceDestructor.KillsWhatRuns` | cpp/mrc/src/internal/service.cpp:250-255 | once a destructor that read Running has moved on, the state is Killing at least, whatever the others do |
| `ThreadBarrier.Barrier.Arrive` | cpp/mrc/include/mrc/core/thread_barrier.hpp:65-81 | the last arrival flips the bit and restores the count, any other counts down and blocks; as the system step does |
| `ThreadBarrier.GenerationsAreComplete` | cpp/mrc/include/mrc/core/thread_barrier.hpp:65-81 | for any number of threads: every finished generation had exactly `initial` arrivals and one true, nobody left it before its last arrival, and the arrivals of the run are those of the finished generations and of the current one |
| `ThreadBarrier.NoStraggler` | cpp/mrc/include/mrc/core/thread_barrier.hpp:69-76 | with enough room, a generation cannot finish while a caller of the previous one is blocked |
| `ThreadBarrier.RecentRun` | cpp/mrc/include/mrc/core/thread_barrier.hpp:65-81 | in every run by no more threads than expected, every blocked caller belongs to the current or the previous generation |
| `ThreadBarrier.MissedRelease` | cpp/mrc/include/mrc/core/thread_barrier.hpp:77-79 | for every larger set of threads, a run after which a blocked caller's generation is over and the bit does not show it |
| `ThreadBarrier.BitIsExact` | cpp/mrc/include/mrc/core/thread_barrier.hpp:65-81 | the bit agrees with the generation counter in every run by a set of threads iff the set is no larger than `initial`, or `initial` is one |
| `EventLatch.ReverseInPlace` | cpp/mrc/src/public/coroutines/event.cpp:106-124 | the list reached from the result is the reverse of the given one |
| `EventLatch.Walk` | cpp/mrc/src/public/coroutines/event.cpp:95-102 | every awaiter of the list is resumed once, in list order |
| `EventLatch.Event.Attempt` | cpp/mrc/src/public/coroutines/event.cpp:53-63 | a push succeeds iff the word is still the head that was seen, and puts the awaiter in front |
| `EventLatch.Event.Set` | cpp/mrc/src/public/coroutines/event.cpp:81-104 | the first set resumes all waiters in the order of the policy, later ones nobody |
| `EventLatch.Event.Reset` | cpp/mrc/src/public/coroutines/event.cpp:126-130 | reset unsets a set event and leaves any other as it is |
| `EventLatch.ResumedOnceInOrder` | cpp/mrc/src/public/coroutines/event.cpp:45-104 | in every race of awaiters, setters and the walk: nobody is resumed and nobody passes before the set; then those resumed are a prefix of the awaiters that suspended, in registration order or reversed as the first setter asks, and all of them, once each, when the walk is over |
| `EventLatch.SeenStep` | cpp/mrc/src/public/coroutines/event.cpp:52-63 | what an awaiter has seen of an unset event stays an older part of the list, so that equal heads mean equal lists and no registered awaiter is lost |
| `EventLatch.LoopMakesProgress` | cpp/mrc/src/public/coroutines/event.cpp:53-66 | from anywhere in its loop, an awaiter that looks again passes if the event is set, and otherwise its next exchange, if undisturbed, suspends it as the last to register |
| `EventLatch.LatecomersPass` | cpp/mrc/include/mrc/coroutines/event.hpp:89-92 | an awaiter that comes when the event is set passes, and stays so |
| `EventLatch.SubtractIsExact` | cpp/mrc/include/mrc/coroutines/latch.hpp:91-97 | a count_down keeps "count at or below zero iff set or about to be" iff it does not lift an open latch above zero |
| `EventLatch.LatchOpensAtZero` | cpp/mrc/include/mrc/coroutines/latch.hpp:64-111 | with non-negative decrements racing in any order: the count is the initial one less the sum of the decrements, and the event is set or about to be iff that sum has reached the initial count |
| `EventLatch.NoSecondSet` | cpp/mrc/include/mrc/coroutines/latch.hpp:91-97 | a count_down that has set the event does not set it again in any continuation |
| `RecentChannel.RecentChannel.Write` | cpp/mrc/include/mrc/channel/recent_channel.hpp:40-54 | a full channel drops its oldest element for the new one, a closed one refuses; undefined exactly for an open empty channel of size zero |
| `RecentChannel.RecentChannel.AwaitRead` | cpp/mrc/include/mrc/channel/recent_channel.hpp:56-72 | a read past its wait returns the oldest element or Closed |
| `RecentChannel.RecentChannel.TryRead` | cpp/mrc/include/mrc/channel/recent_channel.hpp:74-88 | Closed, Empty or the oldest element |
| `RecentChannel.RecentChannel.Close` | cpp/mrc/include/mrc/channel/recent_channel.hpp:113-118 | the channel is shut down and keeps its buffer |
| `RecentChannel.InvStep` | cpp/mrc/include/mrc/channel/recent_channel.hpp:47-52 | every operation keeps the accounting, and only a write to a full channel drops |
| `RecentChannel.WritesAreAccountedFor` | cpp/mrc/include/mrc/channel/recent_channel.hpp:40-88 | in every run, from its operations alone: the buffer is the tail of what was written before closing, as long as writes and reads leave it; earlier writes split into delivered and dropped; reads come in writing order, one element for each that finds something |
| `RecentChannel.LastWriteIsKept` | cpp/mrc/include/mrc/channel/recent_channel.hpp:47-51 | whatever came before, the last write to an open channel is the last element of the buffer |
| `RecentChannel.StatusTellsTheTruth` | cpp/mrc/include/mrc/channel/recent_channel.hpp:40-88 | Closed iff shut down, and then nothing changes; a write succeeds iff its element was taken, a read iff one was handed out |
| `RecentChannel.ClosedForGood` | cpp/mrc/include/mrc/channel/recent_channel.hpp:65-68 | after close nothing is delivered any more, in any continuation |
| `Expected.Reinit` | cpp/mrc/include/mrc/core/expected.hpp:203-222 | throws exactly when constructing from the argument throws, and then nothing has changed; otherwise the members are exchanged |
| `Expected.Expected.AssignValue` | cpp/mrc/include/mrc/core/expected.hpp:423-441 | every exit leaves one live member named by the flag; a normal one holds the value, an exceptional one keeps the error it had |
| `Expected.Expected.AssignError` | cpp/mrc/include/mrc/core/expected.hpp:443-479 | every exit leaves one live member named by the flag; a normal one holds the error, an exceptional one keeps the value it had |
| `Expected.Expected.Emplace` | cpp/mrc/include/mrc/core/expected.hpp:482-493 | the value is the only live member |
| `Expected.Expected.SwapAcross` | cpp/mrc/include/mrc/core/expected.hpp:530-555 | the swap of a value with an error computes `Crossed` for every pattern of throwing moves |
| `Expected.Expected.Swap` | cpp/mrc/include/mrc/core/expected.hpp:510-561 | when T or E moves without throwing, every exit leaves both sides with one live member named by the flag; a normal exit has exchanged them; an exception across leaves the error, or the value, untouched as the branch taken promises; self-swap included |
| `Expected.SwapIsExact` | cpp/mrc/include/mrc/core/expected.hpp:519-555 | all exits of the swap leave both sides sound iff T or E moves without throwing |
| `Expected.Expected.AssignWhole` | cpp/mrc/include/mrc/core/expected.hpp:378-397 | whole-object copy assignment is defined iff both sides held the same kind of member, and then copies, or leaves that member with unknown content if the copy throws; self-assignment included |
| `JsonCast.CastFromJson` | python/mrc/_pymrc/src/utils.cpp:91-140 | the loops build exactly the Python object of the recursive definition |
| `JsonCast.CastFromPyObject` | python/mrc/_pymrc/src/utils.cpp:142-223 | result, error and handler calls are those of the recursive definition |
| `JsonCast.CastItems` | python/mrc/_pymrc/src/utils.cpp:167-178 | the loop over a list converts and calls in order, each element under its index |
| `JsonCast.CastEntries` | python/mrc/_pymrc/src/utils.cpp:153-165 | the loop over a dict inserts by key and stops at the first error |
| `JsonCast.JsonRoundTripIsExact` | python/mrc/_pymrc/src/utils.cpp:91-223 | JSON to Python and back is the identity up to the library's equality iff no unsigned number exceeds the signed range and nothing is binary or discarded |
| `JsonCast.SerializableIsExact` | python/mrc/_pymrc/src/utils.cpp:142-223 | without a handler a conversion succeeds iff keys are strings, integers fit 64 bits and no unknown object occurs |
| `JsonCast.ResultRenders` | python/mrc/_pymrc/src/utils.cpp:142-223 | every successful conversion of a legal object stands for it part by part: scalars convert back, lists and tuples in order, one member per dict key, and the handler's answer in the place of every unknown object |
| `JsonCast.InsertWrites` | python/mrc/_pymrc/src/utils.cpp:157-162 | assigning a key writes it, whether it was there or not, and keeps the order and every other member |
| `JsonCast.PyRoundTrip` | python/mrc/_pymrc/src/utils.cpp:91-223 | Python to JSON and back is an equal object, up to tuples becoming lists |
| `JsonHandler.HandlerSeesLeaves` | python/mrc/_pymrc/src/utils.cpp:200-213 | the handler is called for the unknown leaves in order, with the text of their paths: for all of them if the conversion succeeds, and for a prefix otherwise |
| `JsonHandler.HandlerAnswers` | python/mrc/_pymrc/src/utils.cpp:200-213 | a successful conversion has, at the path of every unknown leaf, exactly what the handler returned for that leaf and the text of that path |
| `JsonHandler.FirstFailureEnds` | python/mrc/_pymrc/src/utils.cpp:142-223 | calls and error of every conversion are those of one pass over the object in order that stops at the first failure: integer out of range, key not a string, unknown object without handler, or what the handler throws |
| `JsonHandler.DecimalIsRight` | python/mrc/_pymrc/src/utils.cpp:173-176 | an index is shown as the number it is, without leading zeros |
| `JsonHandler.LeavesAreExact` | python/mrc/_pymrc/src/utils.cpp:142-178 | the listed leaves are exactly the unknown objects that some path leads to |
| `JsonHandler.LeavesOnce` | python/mrc/_pymrc/src/utils.cpp:142-178 | no path is listed twice |
| `JsonHandler.UnambiguousTexts` | python/mrc/_pymrc/src/utils.cpp:155-178 | if no dict has a key that is another of its keys followed by a slash and more, the handler gets a different text for every leaf |
| `JsonHandler.TextsAreExact` | python/mrc/_pymrc/src/utils.cpp:155-178 | two keys of a dict give distinct texts to all leaves, whatever unambiguous values they have, iff neither is the other followed by a slash and more |
| `JsonHandler.SharedText` | python/mrc/_pymrc/src/utils.cpp:155-178 | for any two keys of the failing kind, a dict with two leaves of the same text |
| `Streams.FlattenNext` | python/mrc/_pymrc/src/operators.cpp:114-159 | the loops forward the elements of an iterable, unknown objects included, and the error of anything else |
| `Streams.ToListObserver.Notify` | python/mrc/_pymrc/src/operators.cpp:256-281 | the observer remembers values and hands them on as one list on completion |
| `Streams.ObserverIsTransformer` | python/mrc/_pymrc/src/operators.cpp:92-315 | fed one notification at a time, every operator puts out exactly the transformed stream |
| `Streams.AlwaysWellFormed` | python/mrc/_pymrc/src/operators.cpp:92-315 | whatever an operator is fed, its output is values and then at most one terminal notification |
| `Streams.FlattenAfterToListIsExact` | python/mrc/_pymrc/src/operators.cpp:107-315 | flatten after to_list is the identity iff the stream completes or is empty, however unknown objects iterate |
| `Streams.ElementsAreExact` | python/mrc/_pymrc/src/operators.cpp:125-135 | what is iterated over: lists and tuples as they are, a string as the characters that make it up, a dict as its keys in order, unknown objects as they say, and an error for the rest |
| `Streams.OperatorsFuse` | python/mrc/_pymrc/src/operators.cpp:92-183 | two maps are one and two filters are one, errors of callbacks included; mapping the identity and filtering by true change nothing |
| `Streams.PairsGiveBack` | python/mrc/_pymrc/src/operators.cpp:220-238 | the pairs of a stream give it back by their first components and by their second |
| `Streams.OnCompletionOnly` | python/mrc/_pymrc/src/operators.cpp:185-315 | the collected list and the final value come on completion only, and an empty stream gives no list |
| `Streams.Pipe` | python/mrc/_pymrc/src/subscriber.cpp:130-159 | a non-operator or an empty list is an error, otherwise the operators apply from left to right |
| `Streams.PipeComposes` | python/mrc/_pymrc/src/subscriber.cpp:151-158 | piping a concatenation is piping one part after the other |
| `SegmentWatcher.Watcher.SinkLambda` | cpp/mrc/include/mrc/benchmarking/segment_watcher.hpp:197-205 | the sink publishes readiness, records and counts, as the system step does |
| `SegmentWatcher.Watcher.Reset` | cpp/mrc/include/mrc/benchmarking/segment_watcher.hpp:409-417 | count and tracers are cleared |
| `SegmentWatcher.CycleIsComplete` | cpp/mrc/include/mrc/benchmarking/segment_watcher.hpp:216-275 | at every grain of interleaving: one tracer in flight at most while a sequenced source runs, the count is the number of tracers collected, and a cycle ends only with exactly the maximum emitted and collected |
| `SegmentWatcher.NeverStuckWhole` | cpp/mrc/include/mrc/benchmarking/segment_watcher.hpp:202-204 | with the sink's statements as one step, a sequenced cycle never hangs |
| `SegmentWatcher.WholeCycleCanEnd` | cpp/mrc/include/mrc/benchmarking/segment_watcher.hpp:242-275 | with the sink as one step, from every point of every run some continuation ends the cycle |
| `SegmentWatcher.StuckIsExact` | cpp/mrc/include/mrc/benchmarking/segment_watcher.hpp:242-254 | with the statements as written, some run hangs iff there is anything to emit |
| `SegmentWatcher.StuckForGood` | cpp/mrc/include/mrc/benchmarking/segment_watcher.hpp:246-252 | a hung cycle stays hung until the watcher is shut down |
| `SegmentWatcher.ShutdownFrees` | cpp/mrc/include/mrc/benchmarking/segment_watcher.hpp:246-275 | from every point of every run, with the statements as written, some continuation that begins with a shutdown ends the cycle |

## Left out

- Scheduling policies, thread pools, thread-local context and memory orderings: `resume` is an event and atomics are sequentially consistent.
- Coroutine frame lifetimes and moved-from elements of the ring's slots.
- Intrusive lists of the ring: the waiter lists are sequences with the head in front; only the event's list is modelled with its pointers.
- Integer widths of counters (`size_t`, `ptrdiff_t`): unbounded here; the 64-bit integers of JSON are modelled.
- RingBuffer.ClosableRingBuffer.Write: one call without interruption; the gap between its check and the lock is in the system layer, where WriteCheck and WriteLock are two steps.
- RingBuffer.ClosableRingBuffer.Close: one call without interruption; the windows in which it drops the lock are in the system layer, where CloseLock and DrainLock are single sections.
- RingBuffer.ClosableRingBuffer.NotifyWaiters: one call without interruption, as Close.
- `service_await_live`: the same future pattern as joining, without a state change.
- ServiceLifecycle.Service.CallInDestructor: what another joiner leaves behind is an input; the race itself is in ServiceDestructor.
- `Event.reset` racing with awaiters: the latch never resets its event; `Event.Reset` is sequential.
- `do_await_read_until` and all deadlines: no clock is modelled.
- Copy and move constructors and the monadic operations of `expected`: they construct one member and set the flag once.
- Move assignment of whole `expected` objects: the same branches as the copy, with a moved-from right-hand side.
- JsonCast.JsonRoundTripIsExact: a NaN counts as equal to itself, which the library's comparison denies.
- Byte-string keys of Python dicts: not distinguished from other keys that are not strings.
- An exception from the callback of `on_completed`, and the `build` operator: they hand control to user code outside the stream.
- The wake-up handshake around a watcher cycle (condition variable and barrier): the cycle is modelled from the test of its count to its end.
- Versioneer copies, build scripts, pybind11 definitions, codable encoders, buffered and null channels, bitmaps and address encoders.
