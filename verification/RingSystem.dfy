/**
 Any number of coroutines and threads using one ring buffer, interleaved at the granularity of
 its mutex.

 A write first reads the stop flag without the lock and only later takes the lock, so between
 the two it is `cleared`.  `close` and `notify_waiters` also read the flag first, and release
 the lock around every resume, so they are `closers` with a program counter.
 */
module RingSystem {
  import opened Common
  import opened RingSpec

  datatype OpKind<T> = WriteOp(e: T) | ReadOp | CompletedOp

  datatype CloseKind = Close | Notify

  datatype Closer =
    | Passed(kind: CloseKind)                  // found the flag unset, has not locked yet
    | Draining(kind: CloseKind, phase: Phase)  // between two critical sections of the draining loops
    | Finished

  /** `ops` lists the operations issued so far; an operation's id is its index. */
  datatype System<T> = System(
    ring: Ring<T>,
    ops: seq<OpKind<T>>,
    cleared: map<OpId, T>,
    closers: seq<Closer>,
    log: seq<Event<T>>)

  datatype Step<T> =
    | WriteCheck(e: T)         // lines 135-139
    | WriteLock(op: OpId)      // lines 145-159
    | ReadLock                 // lines 246-269
    | CompletedLock            // lines 343-359
    | CloseCheck(k: CloseKind) // lines 452-455 and 521-524
    | CloseLock(t: nat)        // from line 457 or 526 to the first unlock
    | DrainLock(t: nat)        // from one re-lock to the next unlock

  function Init<T>(cap: nat): System<T> {
    System(Ring(cap, [], false, [], [], []), [], map[], [], [])
  }

  ghost predicate Enabled<T>(s: System<T>, step: Step<T>) {
    match step
    case WriteLock(op) => op in s.cleared
    case CloseLock(t) => t < |s.closers| && s.closers[t].Passed?
    case DrainLock(t) => t < |s.closers| && s.closers[t].Draining?
    case _ => true
  }

  function ToCloser(kind: CloseKind, next: Option<Phase>): Closer {
    if next.None? then Finished else Draining(kind, next.value)
  }

  /** The elements still to be delivered once the ring is stopped: those in slots, then those of
      suspended writers in the order in which reads will let them in. */
  function Backlog<T>(r: Ring<T>): seq<T> {
    r.queue + WriterElements(r.writers)
  }

  function WriterElements<T>(ws: seq<Writer<T>>): (es: seq<T>)
    ensures |es| == |ws|
    ensures forall i :: 0 <= i < |ws| ==> es[i] == ws[i].e
  {
    if ws == [] then [] else [ws[0].e] + WriterElements(ws[1..])
  }

  /** Closed, and no element left in the ring or in a suspended writer. */
  predicate Drained<T>(r: Ring<T>) {
    r.stopped && r.queue == [] && r.writers == []
  }

  /** The events a step adds to the log. */
  function Events<T>(s: System<T>, step: Step<T>): seq<Event<T>>
    requires Enabled(s, step)
  {
    var op := |s.ops|;
    match step
    case WriteCheck(e) => if s.ring.stopped then [Issued(op, e), Stopped(op), Resumed(op)] else [Issued(op, e)]
    case WriteLock(w) => WriteSection(s.ring, w, s.cleared[w]).events
    case ReadLock => ReadSection(s.ring, op).events
    case CompletedLock => CompletedSection(s.ring, op).events
    case CloseCheck(_) => []
    case CloseLock(t) => (if s.closers[t].kind == Close then CloseSection(s.ring) else NotifySection(s.ring)).events
    case DrainLock(t) => DrainSection(s.ring, s.closers[t].phase).events
  }

  function Apply<T>(s: System<T>, step: Step<T>): System<T>
    requires Enabled(s, step)
  {
    var op := |s.ops|;
    var s := s.(log := s.log + Events(s, step));
    match step
    case WriteCheck(e) =>
      s.(ops := s.ops + [WriteOp(e)], cleared := if s.ring.stopped then s.cleared else s.cleared[op := e])
    case WriteLock(w) =>
      s.(ring := WriteSection(s.ring, w, s.cleared[w]).ring, cleared := s.cleared - {w})
    case ReadLock =>
      s.(ring := ReadSection(s.ring, op).ring, ops := s.ops + [ReadOp])
    case CompletedLock =>
      s.(ring := CompletedSection(s.ring, op).ring, ops := s.ops + [CompletedOp])
    case CloseCheck(k) =>
      s.(closers := s.closers + [if s.ring.stopped then Finished else Passed(k)])
    case CloseLock(t) =>
      var kind := s.closers[t].kind;
      var d := if kind == Close then CloseSection(s.ring) else NotifySection(s.ring);
      s.(ring := d.ring, closers := s.closers[t := ToCloser(kind, d.next)])
    case DrainLock(t) =>
      var d := DrainSection(s.ring, s.closers[t].phase);
      s.(ring := d.ring, closers := s.closers[t := ToCloser(s.closers[t].kind, d.next)])
  }

  /** A run is a sequence of steps, each enabled when its turn comes. */
  ghost predicate IsRun<T>(s: System<T>, steps: seq<Step<T>>)
    decreases |steps|
  {
    steps != [] ==> Enabled(s, steps[0]) && IsRun(Apply(s, steps[0]), steps[1..])
  }

  ghost function Exec<T>(s: System<T>, steps: seq<Step<T>>): System<T>
    requires IsRun(s, steps)
    decreases |steps|
  {
    if steps == [] then s else Exec(Apply(s, steps[0]), steps[1..])
  }

  lemma {:induction false} RunAppend<T>(s: System<T>, a: seq<Step<T>>, b: seq<Step<T>>)
    requires IsRun(s, a) && IsRun(Exec(s, a), b)
    ensures IsRun(s, a + b) && Exec(s, a + b) == Exec(Exec(s, a), b)
    decreases |a|
  {
    hide Apply, Enabled;
    if a == [] {
      assert a + b == b;
    } else {
      RunAppend(Apply(s, a[0]), a[1..], b);
      assert (a + b)[1..] == a[1..] + b;
    }
  }

  lemma {:induction false} RunSplit<T>(s: System<T>, a: seq<Step<T>>, b: seq<Step<T>>)
    requires IsRun(s, a + b)
    ensures IsRun(s, a) && IsRun(Exec(s, a), b) && Exec(s, a + b) == Exec(Exec(s, a), b)
    decreases |a|
  {
    hide Apply, Enabled;
    if a == [] {
      assert a + b == b;
    } else {
      assert (a + b)[0] == a[0] && (a + b)[1..] == a[1..] + b;
      RunSplit(Apply(s, a[0]), a[1..], b);
    }
  }

  lemma RunCons<T>(s: System<T>, step: Step<T>, rest: seq<Step<T>>)
    requires Enabled(s, step) && IsRun(Apply(s, step), rest)
    ensures IsRun(s, [step] + rest) && Exec(s, [step] + rest) == Exec(Apply(s, step), rest)
  {
    hide Apply, Enabled;
    assert ([step] + rest)[0] == step && ([step] + rest)[1..] == rest;
  }

  // ---------------------------------------------------------------- projections of the log

  datatype Move = Ask | In | Out

  function Carried<T>(m: Move, ev: Event<T>): seq<T> {
    match ev
    case Issued(_, e) => if m == Ask then [e] else []
    case Admitted(_, e) => if m == In then [e] else []
    case Delivered(_, e) => if m == Out then [e] else []
    case _ => []
  }

  /** The elements issued (Ask), admitted (In) or delivered (Out) in a log, in order. */
  function Moved<T>(m: Move, log: seq<Event<T>>): seq<T> {
    if log == [] then [] else Carried(m, log[0]) + Moved(m, log[1..])
  }

  lemma {:induction false} MovedAppend<T>(m: Move, a: seq<Event<T>>, b: seq<Event<T>>)
    ensures Moved(m, a + b) == Moved(m, a) + Moved(m, b)
  {
    hide Carried;
    if a == [] {
      assert a + b == b;
    } else {
      MovedAppend(m, a[1..], b);
      assert (a + b)[0] == a[0] && (a + b)[1..] == a[1..] + b;
      var first, rest, last := Carried(m, a[0]), Moved(m, a[1..]), Moved(m, b);
      assert first + (rest + last) == (first + rest) + last;
    }
  }

  lemma MovedNone<T>(m: Move)
    ensures Moved<T>(m, []) == []
  {
  }

  lemma MovedOne<T>(m: Move, ev: Event<T>)
    ensures Moved(m, [ev]) == Carried(m, ev)
  {
    assert Moved(m, [ev]) == Carried(m, ev) + Moved(m, []);
  }

  function CarriedAt<T>(m: Move, ev: seq<Event<T>>, i: nat): seq<T> {
    if i < |ev| then Carried(m, ev[i]) else []
  }

  /** The projection of the short event lists that the sections produce. */
  lemma MovedShort<T>(ev: seq<Event<T>>)
    requires |ev| <= 4
    ensures forall m: Move :: Moved(m, ev)
              == CarriedAt(m, ev, 0) + CarriedAt(m, ev, 1) + CarriedAt(m, ev, 2) + CarriedAt(m, ev, 3)
  {
    hide Moved;
    forall m: Move ensures Moved(m, ev)
              == CarriedAt(m, ev, 0) + CarriedAt(m, ev, 1) + CarriedAt(m, ev, 2) + CarriedAt(m, ev, 3)
    {
      MovedPrefix(m, ev, |ev|);
      assert ev[..|ev|] == ev;
    }
  }

  lemma {:induction false} MovedPrefix<T>(m: Move, ev: seq<Event<T>>, n: nat)
    requires n <= |ev| && n <= 4
    ensures Moved(m, ev[..n])
            == (if 0 < n then Carried(m, ev[0]) else []) + (if 1 < n then Carried(m, ev[1]) else [])
               + (if 2 < n then Carried(m, ev[2]) else []) + (if 3 < n then Carried(m, ev[3]) else [])
  {
    hide Moved, Carried;
    if n == 0 {
      MovedNone<T>(m);
    } else {
      MovedPrefix(m, ev, n - 1);
      MovedOne(m, ev[n - 1]);
      MovedAppend(m, ev[..n - 1], [ev[n - 1]]);
      assert ev[..n] == ev[..n - 1] + [ev[n - 1]];
    }
  }

  lemma {:induction false} ResumeAllMovesNothing<T>(m: Move, ops: seq<OpId>)
    ensures Moved<T>(m, ResumeAll(ops)) == []
  {
    if ops != [] {
      ResumeAllMovesNothing<T>(m, ops[1..]);
      assert ResumeAll<T>(ops)[1..] == ResumeAll(ops[1..]);
    }
  }

  // ---------------------------------------------------------------- invariants of every run

  /** Once stopped, nobody waits to read unless a closer is still on its way to wake them. */
  ghost predicate ReadersAttended<T>(s: System<T>) {
    s.ring.stopped && s.ring.readers != [] ==>
      exists t :: 0 <= t < |s.closers| && s.closers[t].Draining? && s.closers[t].phase != Completed
  }

  /** Who drains has stopped the ring; `close` never drains writers. */
  ghost predicate DrainersInOrder<T>(s: System<T>) {
    forall t :: 0 <= t < |s.closers| && s.closers[t].Draining? ==>
      s.ring.stopped && (s.closers[t].kind == Close ==> s.closers[t].phase != Writers)
  }

  ghost predicate Inv<T>(s: System<T>) {
    && RingInv(s.ring)
    && Moved(In, s.log) == Moved(Out, s.log) + s.ring.queue
    && ReadersAttended(s)
    && DrainersInOrder(s)
  }

  /** The elements an event list issues, admits and delivers. */
  ghost predicate Moves<T>(ev: seq<Event<T>>, asked: seq<T>, admitted: seq<T>, delivered: seq<T>) {
    Moved(Ask, ev) == asked && Moved(In, ev) == admitted && Moved(Out, ev) == delivered
  }

  lemma WriteMoves<T>(r: Ring<T>, w: OpId, e: T)
    ensures Moves(WriteSection(r, w, e).events, [], if |r.queue| == r.cap then [] else [e],
                  if |r.queue| == r.cap || r.readers == [] then [] else [(r.queue + [e])[0]])
  {
    hide Moved;
    MovedShort(WriteSection(r, w, e).events);
  }

  lemma TakeMoves<T>(r: Ring<T>, op: OpId)
    requires r.queue != []
    ensures Moves(TakeSection(r, op).events, [], if r.writers == [] then [] else [r.writers[0].e], [r.queue[0]])
  {
    hide Moved, ResumeAll;
    var ev := TakeSection(r, op).events;
    var first, all, last := [Delivered(op, r.queue[0])], ResumeAll<T>(r.completed), [Resumed(op)];
    if r.writers == [] && |r.queue| == 1 && r.stopped {
      MovedShort(first);
      MovedShort<T>(last);
      forall m: Move ensures Moved(m, ev) == Moved(m, first) {
        ResumeAllMovesNothing<T>(m, r.completed);
        MovedAppend(m, first, all);
        MovedAppend(m, first + all, last);
      }
    } else {
      MovedShort(ev);
    }
  }

  lemma ReadMoves<T>(r: Ring<T>, op: OpId)
    ensures Moves(ReadSection(r, op).events, [],
                  if r.queue == [] || r.writers == [] then [] else [r.writers[0].e],
                  if r.queue == [] then [] else [r.queue[0]])
  {
    hide Moved, TakeSection;
    if r.queue != [] {
      TakeMoves(r, op);
    } else {
      MovedShort(ReadSection(r, op).events);
    }
  }

  lemma DrainMoves<T>(r: Ring<T>, phase: Phase)
    ensures Moves(DrainSection(r, phase).events, [], [], [])
  {
    hide Moved;
    MovedShort(DrainSection(r, phase).events);
  }

  /** What one step issues, admits and delivers. */
  lemma StepMoves<T>(s: System<T>, step: Step<T>)
    requires Enabled(s, step)
    ensures var ev := Events(s, step); var r := s.ring; match step {
      case WriteCheck(e) => Moves(ev, [e], [], [])
      case WriteLock(w) => Moves(ev, [], if |r.queue| == r.cap then [] else [s.cleared[w]],
                                 if |r.queue| == r.cap || r.readers == [] then [] else [(r.queue + [s.cleared[w]])[0]])
      case ReadLock => Moves(ev, [], if r.queue == [] || r.writers == [] then [] else [r.writers[0].e],
                             if r.queue == [] then [] else [r.queue[0]])
      case _ => Moves(ev, [], [], [])
    }
  {
    hide Moved, WriteSection, ReadSection, DrainSection;
    match step
    case WriteLock(w) => WriteMoves(s.ring, w, s.cleared[w]);
    case ReadLock => ReadMoves(s.ring, |s.ops|);
    case CloseLock(t) =>
      DrainMoves(s.ring.(stopped := true), Readers);
      DrainMoves(s.ring.(stopped := true), Writers);
      MovedShort<T>([]);
    case DrainLock(t) => DrainMoves(s.ring, s.closers[t].phase);
    case _ => MovedShort(Events(s, step));
  }

  lemma LogMoves<T>(m: Move, s: System<T>, step: Step<T>)
    requires Enabled(s, step)
    ensures Moved(m, Apply(s, step).log) == Moved(m, s.log) + Moved(m, Events(s, step))
  {
    hide Moved, Events;
    MovedAppend(m, s.log, Events(s, step));
    assert Apply(s, step).log == s.log + Events(s, step);
  }

  /** The elements that a run was asked to write, in order. */
  function Written<T>(steps: seq<Step<T>>): seq<T> {
    if steps == [] then [] else (if steps[0].WriteCheck? then [steps[0].e] else []) + Written(steps[1..])
  }

  lemma {:induction false} WrittenRun<T>(s: System<T>, steps: seq<Step<T>>)
    requires IsRun(s, steps)
    ensures Moved(Ask, Exec(s, steps).log) == Moved(Ask, s.log) + Written(steps)
    decreases |steps|
  {
    hide Apply, Enabled, Moved, Events;
    if steps == [] {
      assert Moved(Ask, s.log) + [] == Moved(Ask, s.log);
    } else {
      var first := if steps[0].WriteCheck? then [steps[0].e] else [];
      StepMoves(s, steps[0]);
      LogMoves(Ask, s, steps[0]);
      WrittenRun(Apply(s, steps[0]), steps[1..]);
      assert Moved(Ask, s.log) + (first + Written(steps[1..])) == Moved(Ask, s.log) + first + Written(steps[1..]);
    }
  }

  /** What the log shows as issued is what the run was asked to write. */
  lemma AskedIsWritten<T>(cap: nat, steps: seq<Step<T>>)
    requires IsRun(Init(cap), steps)
    ensures Moved(Ask, Exec(Init(cap), steps).log) == Written(steps)
  {
    hide IsRun, Exec, Moved, Written;
    MovedShort<T>([]);
    WrittenRun(Init<T>(cap), steps);
    assert [] + Written(steps) == Written(steps);
  }

  lemma StepRingInv<T>(s: System<T>, step: Step<T>)
    requires RingInv(s.ring) && Enabled(s, step)
    ensures RingInv(Apply(s, step).ring)
  {
    hide Events, ResumeAll;
  }

  /** What a step admits and delivers accounts for the change of the queue. */
  lemma StepBalanced<T>(s: System<T>, step: Step<T>)
    requires RingInv(s.ring) && Enabled(s, step)
    ensures s.ring.queue + Moved(In, Events(s, step)) == Moved(Out, Events(s, step)) + Apply(s, step).ring.queue
  {
    hide Moved, Events, WriteSection, ReadSection;
    StepMoves(s, step);
    match step
    case WriteLock(w) => WriteQueue(s.ring, w, s.cleared[w]);
    case ReadLock => ReadQueue(s.ring, |s.ops|);
    case _ =>
      assert Apply(s, step).ring.queue == s.ring.queue;
      assert s.ring.queue + [] == s.ring.queue && [] + s.ring.queue == s.ring.queue;
  }

  lemma WriteQueue<T>(r: Ring<T>, w: OpId, e: T)
    requires RingInv(r)
    ensures |r.queue| == r.cap ==> WriteSection(r, w, e).ring.queue == r.queue
    ensures |r.queue| < r.cap && r.readers == [] ==> WriteSection(r, w, e).ring.queue == r.queue + [e]
    ensures |r.queue| < r.cap && r.readers != [] ==>
              [(r.queue + [e])[0]] + WriteSection(r, w, e).ring.queue == r.queue + [e]
  {
  }

  lemma ReadQueue<T>(r: Ring<T>, op: OpId)
    ensures r.queue == [] ==> ReadSection(r, op).ring.queue == []
    ensures r.queue != [] && r.writers == [] ==> [r.queue[0]] + ReadSection(r, op).ring.queue == r.queue
    ensures r.queue != [] && r.writers != [] ==>
              [r.queue[0]] + ReadSection(r, op).ring.queue == r.queue + [r.writers[0].e]
  {
    hide ResumeAll;
  }

  lemma AttendedStep<T>(s: System<T>, step: Step<T>)
    requires Inv(s) && Enabled(s, step)
    ensures ReadersAttended(Apply(s, step))
    ensures DrainersInOrder(Apply(s, step))
  {
    hide Moved, Events;
    var s' := Apply(s, step);
    if s'.ring.stopped && s'.ring.readers != [] {
      match step
      case CloseLock(t) =>
        assert s'.closers[t].Draining? && s'.closers[t].phase != Completed;
      case DrainLock(t) =>
        var u :| 0 <= u < |s.closers| && s.closers[u].Draining? && s.closers[u].phase != Completed;
        assert s'.closers[u].Draining? && s'.closers[u].phase != Completed;
      case _ =>
        var u :| 0 <= u < |s.closers| && s.closers[u].Draining? && s.closers[u].phase != Completed;
        assert s'.closers[u] == s.closers[u];
    }
  }

  lemma InvStep<T>(s: System<T>, step: Step<T>)
    requires Inv(s) && Enabled(s, step)
    ensures Inv(Apply(s, step))
  {
    hide Moved, Events, ReadersAttended, DrainersInOrder, WriteSection, ReadSection, DrainSection;
    var s' := Apply(s, step);
    var ev := Events(s, step);
    StepRingInv(s, step);
    StepBalanced(s, step);
    AttendedStep(s, step);
    assert s'.log == s.log + ev;
    MovedAppend(In, s.log, ev);
    MovedAppend(Out, s.log, ev);
    calc {
      Moved(In, s'.log);
      Moved(Out, s.log) + s.ring.queue + Moved(In, ev);
      Moved(Out, s.log) + (s.ring.queue + Moved(In, ev));
      Moved(Out, s.log) + (Moved(Out, ev) + s'.ring.queue);
      Moved(Out, s'.log) + s'.ring.queue;
    }
  }

  lemma {:induction false} InvRun<T>(s: System<T>, steps: seq<Step<T>>)
    requires Inv(s) && IsRun(s, steps)
    ensures Inv(Exec(s, steps))
    decreases |steps|
  {
    if steps != [] {
      InvStep(s, steps[0]);
      InvRun(Apply(s, steps[0]), steps[1..]);
    }
  }

  /** In every run, with any number of readers and writers: what was delivered, followed by what
      the ring holds, is what was admitted, in order; waiting readers mean an empty ring and waiting
      writers a full one, so the two lists are never both non-empty and the checks in the source
      (no writer waits on an empty ring, no reader on a full one) hold; and once stopped, nobody
      waits to read unless a closer is about to wake them. */
  lemma FifoAndWaiters<T>(cap: nat, steps: seq<Step<T>>)
    requires 0 < cap && IsRun(Init(cap), steps)
    ensures var s := Exec(Init(cap), steps);
      && Moved(In, s.log) == Moved(Out, s.log) + s.ring.queue
      && |s.ring.queue| <= s.ring.cap
      && (s.ring.queue == [] ==> s.ring.writers == [])
      && (|s.ring.queue| == s.ring.cap ==> s.ring.readers == [])
      && (s.ring.readers == [] || s.ring.writers == [])
      && ReadersAttended(s)
  {
    InvRun(Init<T>(cap), steps);
  }
}
