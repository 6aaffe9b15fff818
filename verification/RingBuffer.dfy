/**
 `ClosableRingBuffer` itself: a circular array with three LIFO waiter lists, updated in place.

 Every method is one critical section (or, for `Close` and `NotifyWaiters`, a whole call that
 nobody interrupts) and is proved to compute the function of the same name in `RingSpec` on the
 bounded queue that the array represents.
 */
module RingBuffer {
  import opened Common
  import opened RingSpec

  /** An index below twice the size wraps by at most one subtraction. */
  lemma Wrap(x: nat, n: nat)
    requires 0 < n && x < 2 * n
    ensures x % n == if x < n then x else x - n
  {
    var d := x / n;
    assert x == d * n + x % n;
    assert 2 <= d ==> 2 * n <= d * n;
    assert d == 0 || d == 1;
  }

  /** The slot `i` places after `back` in a circular array of `n` slots. */
  function Slot(back: nat, i: nat, n: nat): (k: nat)
    requires back < n && i <= n
    ensures k == if back + i < n then back + i else back + i - n
  {
    Wrap(back + i, n);
    (back + i) % n
  }

  /** The queue held in slots back, back + 1, ..., back + used - 1 of a circular array. */
  function Slots<T>(a: seq<T>, back: nat, used: nat): (q: seq<T>)
    requires back < |a| && used <= |a|
    ensures |q| == used
    ensures forall i :: 0 <= i < used ==> q[i] == a[Slot(back, i, |a|)]
  {
    seq(used, i requires 0 <= i < used => a[Slot(back, i, |a|)])
  }

  /** Writing the open slot appends to the queue, and the open slot moves on. */
  lemma SlotsPush<T>(a: seq<T>, back: nat, used: nat, e: T)
    requires back < |a| && used < |a|
    ensures Slots(a[Slot(back, used, |a|) := e], back, used + 1) == Slots(a, back, used) + [e]
    ensures Slot(Slot(back, used, |a|), 1, |a|) == Slot(back, used + 1, |a|)
  {
  }

  /** Stepping the back index drops the oldest element and keeps the open slot. */
  lemma SlotsPop<T>(a: seq<T>, back: nat, used: nat)
    requires back < |a| && 0 < used <= |a|
    ensures [a[back]] + Slots(a, Slot(back, 1, |a|), used - 1) == Slots(a, back, used)
    ensures Slot(Slot(back, 1, |a|), used - 1, |a|) == Slot(back, used, |a|)
  {
  }

  class WriteOperation<T> {
    const id: OpId
    var e: T
    var stopped: bool

    constructor (id: OpId, e: T)
      ensures this.id == id && this.e == e && !stopped
    {
      this.id := id;
      this.e := e;
      stopped := false;
    }
  }

  class ReadOperation<T(0)> {
    const id: OpId
    var e: T
    var stopped: bool

    constructor (id: OpId)
      ensures this.id == id && !stopped
    {
      this.id := id;
      var initial: T := *;
      e := initial;
      stopped := false;
    }
  }

  class CompletedOperation {
    const id: OpId
    var stopped: bool

    constructor (id: OpId)
      ensures this.id == id && !stopped
    {
      this.id := id;
      stopped := false;
    }
  }

  function WriterViews<T>(ws: seq<WriteOperation<T>>): (v: seq<Writer<T>>)
    reads ws`e
    ensures |v| == |ws|
    ensures forall i :: 0 <= i < |ws| ==> v[i] == Writer(ws[i].id, ws[i].e)
  {
    if ws == [] then [] else [Writer(ws[0].id, ws[0].e)] + WriterViews(ws[1..])
  }

  function WriteIds<T>(ws: seq<WriteOperation<T>>): (v: seq<OpId>)
    ensures |v| == |ws|
    ensures forall i :: 0 <= i < |ws| ==> v[i] == ws[i].id
  {
    if ws == [] then [] else [ws[0].id] + WriteIds(ws[1..])
  }

  function ReaderIds<T(0)>(rs: seq<ReadOperation<T>>): (v: seq<OpId>)
    ensures |v| == |rs|
    ensures forall i :: 0 <= i < |rs| ==> v[i] == rs[i].id
  {
    if rs == [] then [] else [rs[0].id] + ReaderIds(rs[1..])
  }

  function CompletedIds(cs: seq<CompletedOperation>): (v: seq<OpId>)
    ensures |v| == |cs|
    ensures forall i :: 0 <= i < |cs| ==> v[i] == cs[i].id
  {
    if cs == [] then [] else [cs[0].id] + CompletedIds(cs[1..])
  }

  class ClosableRingBuffer<T(0)> {
    const elements: array<T>
    var front: nat
    var back: nat
    var used: nat
    var stopped: bool
    var writeWaiters: seq<WriteOperation<T>>
    var readWaiters: seq<ReadOperation<T>>
    var completedWaiters: seq<CompletedOperation>

    ghost predicate Valid()
      reads this`front, this`back, this`used
    {
      && 0 < elements.Length
      && back < elements.Length
      && used <= elements.Length
      && front == Slot(back, used, elements.Length)
    }

    /** The queue that the circular array stands for. */
    ghost function Contents(): (q: seq<T>)
      requires Valid()
      reads this`front, this`back, this`used, elements
      ensures |q| == used
    {
      Slots(elements[..], back, used)
    }

    /** The suspended writers with the elements they hold. */
    ghost function Suspended(): (ws: seq<Writer<T>>)
      reads this`writeWaiters, writeWaiters`e
      ensures |ws| == |writeWaiters|
      ensures forall i :: 0 <= i < |ws| ==> ws[i] == Writer(writeWaiters[i].id, writeWaiters[i].e)
    {
      WriterViews(writeWaiters)
    }

    /** The bounded queue and waiter lists that the fields stand for. */
    ghost function View(): Ring<T>
      requires Valid()
      reads this, elements, writeWaiters`e
    {
      Ring(elements.Length, Contents(), stopped, Suspended(), ReaderIds(readWaiters), CompletedIds(completedWaiters))
    }

    constructor (capacity: nat)
      requires 0 < capacity
      ensures Valid() && fresh(elements)
      ensures View() == Ring(capacity, [], false, [], [], [])
    {
      elements := new T[capacity];
      front, back, used, stopped := 0, 0, 0, false;
      writeWaiters, readWaiters, completedWaiters := [], [], [];
    }

    /** The public constructor: a capacity of zero is an error. */
    static method Create(capacity: nat) returns (r: Option<ClosableRingBuffer<T>>)
      ensures r.Some? <==> capacity != 0
      ensures r.Some? ==> fresh(r.value) && r.value.Valid() && r.value.View() == Ring(capacity, [], false, [], [], [])
    {
      if capacity == 0 {
        return None;
      }
      var rb := new ClosableRingBuffer<T>(capacity);
      return Some(rb);
    }

    /** Moves `e` into the open slot. */
    method PutSlot(e: T)
      requires Valid() && used < elements.Length
      modifies this`front, this`used, elements
      ensures Valid() && used == old(used) + 1
      ensures Contents() == old(Contents()) + [e]
    {
      SlotsPush(elements[..], back, used, e);
      elements[front] := e;
      assert elements[..] == old(elements[..])[front := e];
      front := Slot(front, 1, elements.Length);
      used := used + 1;
    }

    /** Moves the oldest element out of its slot. */
    method TakeSlot() returns (e: T)
      requires Valid() && 0 < used
      modifies this`back, this`used
      ensures Valid() && used == old(used) - 1
      ensures [e] + Contents() == old(Contents())
    {
      SlotsPop(elements[..], back, used);
      e := elements[back];
      back := Slot(back, 1, elements.Length);
      used := used - 1;
    }

    method WriteLocked(op: WriteOperation<T>) returns (events: seq<Event<T>>)
      requires Valid() && RingInv(View())
      modifies this, elements, readWaiters
      ensures Valid() && RingInv(View())
      ensures Effect(View(), events) == old(WriteSection(View(), op.id, op.e))
      ensures old(readWaiters != [] && used < elements.Length) ==> old(readWaiters[0]).e == op.e
    {
      hide Contents, Suspended;
      if used == elements.Length {
        assert readWaiters == [];  // the check in the source
        writeWaiters := [op] + writeWaiters;
        return [];
      }
      PutSlot(op.e);
      events := [Admitted(op.id, op.e)];
      if readWaiters != [] {
        var reader := readWaiters[0];
        readWaiters := readWaiters[1..];
        reader.e := TakeSlot();
        events := events + [Delivered(reader.id, reader.e), Resumed(reader.id)];
      }
      events := events + [Resumed(op.id)];
    }

    /** A write that no close interrupts between its check and the lock. */
    method Write(op: WriteOperation<T>) returns (events: seq<Event<T>>)
      requires Valid() && RingInv(View())
      modifies this, elements, readWaiters, op`stopped
      ensures Valid() && RingInv(View())
      ensures old(stopped) ==> op.stopped && View() == old(View()) && events == Dismiss(op.id)
      ensures old(!stopped) ==> Effect(View(), events) == old(WriteSection(View(), op.id, op.e))
    {
      hide Contents, Suspended, WriteSection;
      if stopped {
        op.stopped := true;
        return [Stopped(op.id), Resumed(op.id)];
      }
      events := WriteLocked(op);
    }

    /** A read that finds an element. */
    method TakeLocked(op: ReadOperation<T>) returns (events: seq<Event<T>>)
      requires Valid() && RingInv(View()) && 0 < used
      modifies this, elements, op
      ensures Valid()
      ensures Effect(View(), events) == old(TakeSection(View(), op.id))
      ensures op.e == old(View().queue[0]) && op.stopped == old(op.stopped)
    {
      hide Contents, Suspended, ReaderIds, CompletedIds, ResumeAll;
      ghost var was := View();
      op.e := TakeSlot();
      events := [Delivered(op.id, op.e)];
      if writeWaiters != [] {
        var writer := writeWaiters[0];
        writeWaiters := writeWaiters[1..];
        PutSlot(writer.e);
        events := events + [Admitted(writer.id, writer.e), Resumed(writer.id)];
      }
      var done := [];
      if used == 0 && stopped {
        done, completedWaiters := completedWaiters, [];
        assert was.writers == [];  // the check in the source
      }
      var resumed := ResumeCompleted(done);
      events := events + resumed + [Resumed(op.id)];
    }

    method ReadLocked(op: ReadOperation<T>) returns (events: seq<Event<T>>)
      requires Valid() && RingInv(View())
      modifies this, elements, op
      ensures Valid() && RingInv(View())
      ensures Effect(View(), events) == old(ReadSection(View(), op.id))
      ensures old(used) > 0 ==> op.e == old(View().queue[0])
      ensures op.stopped == old(op.stopped || (used == 0 && stopped))
    {
      hide Contents, Suspended, ReaderIds, CompletedIds, ResumeAll;
      if used > 0 {
        events := TakeLocked(op);
        return;
      }
      if stopped {
        op.stopped := true;
        return [Stopped(op.id), Resumed(op.id)];
      }
      readWaiters := [op] + readWaiters;
      return [];
    }

    /** Walks a detached list of completed-waiters and resumes each. */
    static method ResumeCompleted(done: seq<CompletedOperation>) returns (events: seq<Event<T>>)
      ensures events == ResumeAll(CompletedIds(done))
    {
      events := [];
      for i := 0 to |done|
        invariant |events| == i
        invariant forall j :: 0 <= j < i ==> events[j] == Resumed(done[j].id)
      {
        events := events + [Resumed(done[i].id)];
      }
      assert events == ResumeAll(CompletedIds(done));
    }

    /** `await_ready` of a completed-operation finds the test of line 689 true, so it suspends. */
    method CompletedLocked(op: CompletedOperation) returns (events: seq<Event<T>>)
      requires Valid() && RingInv(View())
      modifies this`completedWaiters
      ensures Valid() && RingInv(View())
      ensures Effect(View(), events) == old(CompletedSection(View(), op.id))
    {
      var id := op.id;
      if !stopped || used >= 0 {
        completedWaiters := [op] + completedWaiters;
        return [];
      }
      return [Resumed(id)];
    }

    method PopWriter() returns (events: seq<Event<T>>)
      requires Valid() && writeWaiters != []
      modifies this`writeWaiters, writeWaiters`stopped
      ensures Valid() && events == Dismiss(old(writeWaiters[0]).id) && old(writeWaiters[0]).stopped
      ensures writeWaiters == old(writeWaiters[1..])
    {
      var op := writeWaiters[0];
      op.stopped := true;
      writeWaiters := writeWaiters[1..];
      events := [Stopped(op.id), Resumed(op.id)];
    }

    method PopReader() returns (events: seq<Event<T>>)
      requires Valid() && readWaiters != []
      modifies this`readWaiters, readWaiters`stopped
      ensures Valid() && events == Dismiss(old(readWaiters[0]).id) && old(readWaiters[0]).stopped
      ensures readWaiters == old(readWaiters[1..])
    {
      var op := readWaiters[0];
      op.stopped := true;
      readWaiters := readWaiters[1..];
      events := [Stopped(op.id), Resumed(op.id)];
    }

    method PopCompleted() returns (events: seq<Event<T>>)
      requires Valid() && completedWaiters != []
      modifies this`completedWaiters, completedWaiters`stopped
      ensures Valid() && events == Dismiss(old(completedWaiters[0]).id) && old(completedWaiters[0]).stopped
      ensures completedWaiters == old(completedWaiters[1..])
    {
      var op := completedWaiters[0];
      op.stopped := true;
      completedWaiters := completedWaiters[1..];
      events := [Stopped(op.id), Resumed(op.id)];
    }

    /** One trip round the draining loops of `close` and `notify_waiters`. */
    method DrainLocked(phase: Phase) returns (events: seq<Event<T>>, next: Option<Phase>)
      requires Valid()
      modifies this, writeWaiters, readWaiters, completedWaiters
      ensures Valid()
      ensures DrainEffect(View(), events, next) == old(DrainSection(View(), phase))
    {
      hide Contents, Suspended, ReaderIds, CompletedIds, WriteIds;
      if phase == Writers && writeWaiters != [] {
        events := PopWriter();
        next := Some(Writers);
      } else if phase != Completed && readWaiters != [] {
        events := PopReader();
        next := Some(Readers);
      } else if completedWaiters != [] {
        events := PopCompleted();
        next := Some(Completed);
      } else {
        events, next := [], None;
      }
    }

    method CloseLocked() returns (events: seq<Event<T>>, next: Option<Phase>)
      requires Valid() && RingInv(View())
      modifies this, writeWaiters, readWaiters, completedWaiters
      ensures Valid() && RingInv(View())
      ensures DrainEffect(View(), events, next) == old(CloseSection(View()))
    {
      stopped := true;
      events, next := [], None;
      if used == 0 {
        assert writeWaiters == [];  // the check in the source
        events, next := DrainLocked(Readers);
      }
    }

    method NotifyLocked() returns (events: seq<Event<T>>, next: Option<Phase>)
      requires Valid() && RingInv(View())
      modifies this, writeWaiters, readWaiters, completedWaiters
      ensures Valid() && RingInv(View())
      ensures DrainEffect(View(), events, next) == old(NotifySection(View()))
    {
      stopped := true;
      events, next := DrainLocked(Writers);
    }

    method DismissReaders() returns (events: seq<Event<T>>)
      requires Valid()
      modifies this`readWaiters, readWaiters`stopped
      ensures readWaiters == [] && events == DismissAll(ReaderIds(old(readWaiters)))
    {
      hide Contents, Suspended;
      events := [];
      ghost var ids := ReaderIds(readWaiters);
      ghost var k := 0;
      while readWaiters != []
        invariant k <= |ids| && readWaiters == old(readWaiters)[k..]
        invariant events == DismissAll(ids[..k])
        decreases |readWaiters|
      {
        var popped := PopReader();
        DismissAllStep<T>(ids, k);
        events := events + popped;
        k := k + 1;
      }
      assert ids[..k] == ids;
    }

    method DismissCompleted() returns (events: seq<Event<T>>)
      requires Valid()
      modifies this`completedWaiters, completedWaiters`stopped
      ensures completedWaiters == [] && events == DismissAll(CompletedIds(old(completedWaiters)))
    {
      hide Contents, Suspended;
      events := [];
      ghost var ids := CompletedIds(completedWaiters);
      ghost var k := 0;
      while completedWaiters != []
        invariant k <= |ids| && completedWaiters == old(completedWaiters)[k..]
        invariant events == DismissAll(ids[..k])
        decreases |completedWaiters|
      {
        var popped := PopCompleted();
        DismissAllStep<T>(ids, k);
        events := events + popped;
        k := k + 1;
      }
      assert ids[..k] == ids;
    }

    method DismissWriters() returns (events: seq<Event<T>>)
      requires Valid()
      modifies this`writeWaiters, writeWaiters`stopped
      ensures writeWaiters == [] && events == DismissAll(WriteIds(old(writeWaiters)))
    {
      hide Contents, Suspended;
      events := [];
      ghost var ids := WriteIds(writeWaiters);
      ghost var k := 0;
      while writeWaiters != []
        invariant k <= |ids| && writeWaiters == old(writeWaiters)[k..]
        invariant events == DismissAll(ids[..k])
        decreases |writeWaiters|
      {
        var popped := PopWriter();
        DismissAllStep<T>(ids, k);
        events := events + popped;
        k := k + 1;
      }
      assert ids[..k] == ids;
    }

    /** A `close` that no other operation interrupts: every suspended reader is dismissed, then
        every completed-waiter, most recent first, but only if the ring is empty; a second close
        does nothing. */
    method Close() returns (events: seq<Event<T>>)
      requires Valid() && RingInv(View())
      modifies this, readWaiters, completedWaiters
      ensures Valid() && RingInv(View()) && stopped
      ensures old(stopped || used > 0) ==> View() == old(View().(stopped := true)) && events == []
      ensures old(!stopped && used == 0) ==>
                && View() == old(View().(stopped := true, readers := [], completed := []))
                && events == old(DismissAll(ReaderIds(readWaiters)) + DismissAll(CompletedIds(completedWaiters)))
    {
      hide Contents, Suspended, DismissAll, WriteIds, ReaderIds, CompletedIds;
      events := [];
      if stopped {
        return;
      }
      stopped := true;
      if used == 0 {
        assert writeWaiters == [];  // the check in the source
        events := DismissReaders();
        var rest := DismissCompleted();
        events := events + rest;
      }
    }

    /** A `notify_waiters` that no other operation interrupts: everybody is dismissed, whatever
        the ring holds, and the elements stay where they are. */
    method NotifyWaiters() returns (events: seq<Event<T>>)
      requires Valid() && RingInv(View())
      modifies this, writeWaiters, readWaiters, completedWaiters
      ensures Valid() && RingInv(View()) && stopped
      ensures old(stopped) ==> View() == old(View()) && events == []
      ensures old(!stopped) ==>
                && View() == old(View().(stopped := true, writers := [], readers := [], completed := []))
                && events == old(DismissAll(WriteIds(writeWaiters)) + DismissAll(ReaderIds(readWaiters))
                                 + DismissAll(CompletedIds(completedWaiters)))
    {
      hide Contents, Suspended, DismissAll, WriteIds, ReaderIds, CompletedIds;
      events := [];
      if stopped {
        return;
      }
      stopped := true;
      events := DismissWriters();
      var readers := DismissReaders();
      var completed := DismissCompleted();
      events := events + readers + completed;
    }
  }

  function DismissAll<T>(ops: seq<OpId>): seq<Event<T>> {
    if ops == [] then [] else DismissAll(ops[..|ops| - 1]) + Dismiss(ops[|ops| - 1])
  }

  lemma DismissAllStep<T>(ops: seq<OpId>, k: nat)
    requires k < |ops|
    ensures DismissAll<T>(ops[..k + 1]) == DismissAll<T>(ops[..k]) + Dismiss<T>(ops[k])
  {
    assert ops[..k + 1][..k] == ops[..k];
  }
}
