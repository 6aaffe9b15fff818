/**
 The critical sections of `ClosableRingBuffer`, as functions on values.

 Each function below is what one lock-protected section does to the shared state, together with
 the events it causes on operation objects.  Module `RingBuffer` proves that the circular array
 computes these functions; module `RingSystem` interleaves them.
 */
module RingSpec {
  import opened Common

  /** An operation is named by the order in which it was issued. */
  type OpId = nat

  /** A suspended write: the operation and the element it still holds. */
  datatype Writer<+T> = Writer(op: OpId, e: T)

  /** What a section does to operation objects.
      An operation that is resumed reports `Stopped` exactly when its stop flag was set before. */
  datatype Event<+T> =
    | Issued(op: OpId, e: T)     // a write was called with element e
    | Admitted(op: OpId, e: T)   // the element of write `op` was moved into a slot
    | Delivered(op: OpId, e: T)  // an element was moved out of a slot into read `op`
    | Stopped(op: OpId)          // the stop flag of `op` was set
    | Resumed(op: OpId)          // `op` returns to its caller

  /** The shared state.  Waiter lists have their head, the most recent waiter, at index 0. */
  datatype Ring<T> = Ring(
    cap: nat,
    queue: seq<T>,
    stopped: bool,
    writers: seq<Writer<T>>,
    readers: seq<OpId>,
    completed: seq<OpId>)

  datatype Effect<T> = Effect(ring: Ring<T>, events: seq<Event<T>>)

  /** What every section keeps: waiting readers mean an empty ring, waiting writers a full one. */
  ghost predicate RingInv<T>(r: Ring<T>) {
    && 0 < r.cap
    && |r.queue| <= r.cap
    && (r.readers != [] ==> r.queue == [])
    && (r.writers != [] ==> |r.queue| == r.cap)
  }

  function ResumeAll<T>(ops: seq<OpId>): (events: seq<Event<T>>)
    ensures |events| == |ops|
    ensures forall i :: 0 <= i < |ops| ==> events[i] == Resumed(ops[i])
  {
    if ops == [] then [] else [Resumed(ops[0])] + ResumeAll(ops[1..])
  }

  /** The locked part of a write, through `await_suspend` when the ring is full. */
  function WriteSection<T>(r: Ring<T>, w: OpId, e: T): Effect<T> {
    if |r.queue| == r.cap then
      Effect(r.(writers := [Writer(w, e)] + r.writers), [])
    else
      var q := r.queue + [e];
      if r.readers == [] then
        Effect(r.(queue := q), [Admitted(w, e), Resumed(w)])
      else
        var reader := r.readers[0];
        Effect(r.(queue := q[1..], readers := r.readers[1..]),
               [Admitted(w, e), Delivered(reader, q[0]), Resumed(reader), Resumed(w)])
  }

  /** A read from a non-empty ring: take the oldest element, let one suspended writer in,
      and wake the completed-waiters when that leaves a closed ring empty. */
  function TakeSection<T>(r: Ring<T>, op: OpId): Effect<T>
    requires r.queue != []
  {
    var taken := Delivered(op, r.queue[0]);
    if r.writers == [] then
      var r' := r.(queue := r.queue[1..]);
      if r'.queue == [] && r.stopped then
        Effect(r'.(completed := []), [taken] + ResumeAll(r.completed) + [Resumed(op)])
      else
        Effect(r', [taken, Resumed(op)])
    else
      var w := r.writers[0];
      Effect(r.(queue := r.queue[1..] + [w.e], writers := r.writers[1..]),
             [taken, Admitted(w.op, w.e), Resumed(w.op), Resumed(op)])
  }

  /** The locked part of a read, through `await_suspend` when the ring is empty. */
  function ReadSection<T>(r: Ring<T>, op: OpId): Effect<T> {
    if r.queue != [] then TakeSection(r, op)
    else if r.stopped then Effect(r, [Stopped(op), Resumed(op)])
    else Effect(r.(readers := [op] + r.readers), [])
  }

  /** The locked part of `completed()`: it always suspends, because the source tests an unsigned
      count for `>= 0`. */
  function CompletedSection<T>(r: Ring<T>, op: OpId): Effect<T> {
    Effect(r.(completed := [op] + r.completed), [])
  }

  /** The waiter list a draining loop is working on. */
  datatype Phase = Writers | Readers | Completed

  datatype DrainEffect<T> = DrainEffect(ring: Ring<T>, events: seq<Event<T>>, next: Option<Phase>)

  /** One iteration of the draining loops, from re-acquiring the lock to releasing it again:
      pop one waiter of the current list, or move on to the next list. */
  function DrainSection<T>(r: Ring<T>, phase: Phase): DrainEffect<T> {
    if phase == Writers && r.writers != [] then
      DrainEffect(r.(writers := r.writers[1..]), Dismiss(r.writers[0].op), Some(Writers))
    else if phase != Completed && r.readers != [] then
      DrainEffect(r.(readers := r.readers[1..]), Dismiss(r.readers[0]), Some(Readers))
    else if r.completed != [] then
      DrainEffect(r.(completed := r.completed[1..]), Dismiss(r.completed[0]), Some(Completed))
    else
      DrainEffect(r, [], None)
  }

  function Dismiss<T>(op: OpId): seq<Event<T>> {
    [Stopped(op), Resumed(op)]
  }

  /** The first locked section of `close`. */
  function CloseSection<T>(r: Ring<T>): DrainEffect<T> {
    var r' := r.(stopped := true);
    if r'.queue == [] then DrainSection(r', Readers) else DrainEffect(r', [], None)
  }

  /** The first locked section of `notify_waiters`. */
  function NotifySection<T>(r: Ring<T>): DrainEffect<T> {
    DrainSection(r.(stopped := true), Writers)
  }
}
