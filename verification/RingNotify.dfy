/**
 `notify_waiters` wakes everybody who was waiting when it took the lock, whatever happens while it has
 dropped the lock again.
 */
module RingNotify {
  import opened Common
  import opened RingSpec
  import opened RingSystem
  import opened RingStatus

  /** Operation `op` has been issued and is not on its way to the lock; if it is pending, it waits. */
  ghost predicate Settling<T>(s: System<T>, op: OpId) {
    op < |s.ops| && op !in s.cleared
  }

  /** Such an operation does not start to wait again. */
  lemma SettlingStep<T>(s: System<T>, step: Step<T>, op: OpId)
    requires Settling(s, op) && Enabled(s, step)
    ensures var s' := Apply(s, step);
      && Settling(s', op)
      && (op !in WriterOps(s.ring.writers) ==> op !in WriterOps(s'.ring.writers))
      && (op !in s.ring.readers ==> op !in s'.ring.readers)
      && (op !in s.ring.completed ==> op !in s'.ring.completed)
  {
    hide Events, ResumeAll, WriterOps;
    var ws, ws' := s.ring.writers, Apply(s, step).ring.writers;
    if ws != [] {
      PopWriter(ws);
    }
    if step.WriteLock? {
      PushWriter(Writer(step.op, s.cleared[step.op]), ws);
    } else {
      assert ws' == ws || (ws != [] && ws' == ws[1..]);
    }
  }

  /** What the draining loops of closer `t` have left of the wait of `op`: when they have gone on to the
      readers it is not among the writers, and so on; when they are over it does not wait. */
  ghost predicate Swept<T>(s: System<T>, t: nat, op: OpId) {
    && Settling(s, op) && t < |s.closers| && !s.closers[t].Passed?
    && (s.closers[t].Finished? || s.closers[t].phase != Writers ==> op !in WriterOps(s.ring.writers))
    && (s.closers[t].Finished? || s.closers[t].phase == Completed ==> op !in s.ring.readers)
    && (s.closers[t].Finished? ==> op !in s.ring.completed)
  }

  /** A draining section that goes on to another list leaves the ones before it empty. */
  lemma DrainSweeps<T>(r: Ring<T>, phase: Phase)
    ensures var d := DrainSection(r, phase);
      && (phase == Writers && d.next != Some(Writers) ==> d.ring.writers == [])
      && (phase != Completed && d.next != Some(Writers) && d.next != Some(Readers) ==> d.ring.readers == [])
      && (d.next == None ==> d.ring.completed == [])
      && (d.next == Some(Writers) ==> phase == Writers) && (d.next == Some(Readers) ==> phase != Completed)
  {
  }

  lemma SweptStep<T>(s: System<T>, step: Step<T>, t: nat, op: OpId)
    requires Swept(s, t, op) && Enabled(s, step)
    ensures Swept(Apply(s, step), t, op)
  {
    hide Events, ResumeAll, WriterOps, WriteSection, ReadSection, DrainSection;
    SettlingStep(s, step, op);
    if step == DrainLock(t) {
      DrainSweeps(s.ring, s.closers[t].phase);
      NoWriters<T>([]);
    }
  }

  lemma NoWriters<T>(ws: seq<Writer<T>>)
    requires ws == []
    ensures WriterOps(ws) == []
  {
  }

  lemma SweptFirst<T>(s: System<T>, t: nat, op: OpId)
    requires Settling(s, op) && Enabled(s, CloseLock(t)) && s.closers[t] == Passed(Notify)
    ensures Swept(Apply(s, CloseLock(t)), t, op)
  {
    hide Events, WriterOps, DrainSection;
    SettlingStep(s, CloseLock(t), op);
    DrainSweeps(s.ring.(stopped := true), Writers);
    NoWriters<T>([]);
  }

  lemma {:induction false} SweptRun<T>(s: System<T>, steps: seq<Step<T>>, t: nat, op: OpId)
    requires Swept(s, t, op) && IsRun(s, steps)
    ensures Swept(Exec(s, steps), t, op)
    decreases |steps|
  {
    hide Apply, Enabled, Swept;
    if steps != [] {
      SweptStep(s, steps[0], t, op);
      SweptRun(Apply(s, steps[0]), steps[1..], t, op);
    }
  }

  /** In every run: once a `notify_waiters` is over, every operation that was waiting, or had returned, when
      it took the lock has returned. */
  lemma NotifyWakesAll<T>(cap: nat, before: seq<Step<T>>, t: nat, after: seq<Step<T>>, op: OpId)
    requires 0 < cap && IsRun(Init(cap), before)
    requires var s := Exec(Init(cap), before);
      && Enabled(s, CloseLock(t)) && s.closers[t] == Passed(Notify) && op < |s.ops| && op !in s.cleared
      && IsRun(Apply(s, CloseLock(t)), after)
    ensures var s' := Exec(Apply(Exec(Init(cap), before), CloseLock(t)), after);
      t < |s'.closers| && (s'.closers[t].Finished? ==> !Pending(s', op))
  {
    hide Apply, Enabled, IsRun, Exec, WriterOps;
    var s := Exec(Init(cap), before);
    SweptFirst(s, t, op);
    SweptRun(Apply(s, CloseLock(t)), after, t, op);
  }
}
