/**
 Draining after `close`: exactly the elements in the ring and in suspended writers are still
 delivered, provided no write was caught between its stop check and the lock; that proviso is
 exact.
 */
module RingClose {
  import opened RingSpec
  import opened RingSystem

  function Reads<T>(steps: seq<Step<T>>): nat {
    if steps == [] then 0 else (if steps[0].ReadLock? then 1 else 0) + Reads(steps[1..])
  }

  /** A `notify_waiters` is under way. */
  ghost predicate Notifying(c: Closer) {
    !c.Finished? && c.kind == Notify
  }

  /** Stopped, no write between its check and the lock, and no `notify_waiters` under way. */
  ghost predicate Quiet<T>(s: System<T>) {
    && s.ring.stopped
    && s.cleared == map[]
    && (forall t :: 0 <= t < |s.closers| ==> !Notifying(s.closers[t]))
  }

  lemma ElementsTail<T>(ws: seq<Writer<T>>)
    requires ws != []
    ensures WriterElements(ws) == [ws[0].e] + WriterElements(ws[1..])
  {
  }

  /** A read takes the head of the backlog, or, when there is none and the ring is stopped, reports
      `Stopped` without suspending. */
  lemma ReadTakesBacklog<T>(s: System<T>)
    requires RingInv(s.ring) && (s.ring.queue != [] || s.ring.stopped)
    ensures var b := Backlog(s.ring); var s' := Apply(s, ReadLock); var ev := Events(s, ReadLock);
      if b != [] then
        && Moved(Out, ev) == [b[0]] && Backlog(s'.ring) == b[1..] && ev[0] == Delivered(|s.ops|, b[0])
      else
        && ev == [Stopped(|s.ops|), Resumed(|s.ops|)] && s'.ring == s.ring
  {
    hide Moved, ResumeAll, WriterElements;
    StepMoves(s, ReadLock);
    if s.ring.writers != [] {
      ElementsTail(s.ring.writers);
    }
  }

  /** In a quiet system only reads touch the backlog, and it stays quiet. */
  lemma QuietStep<T>(s: System<T>, step: Step<T>)
    requires Inv(s) && Quiet(s) && Enabled(s, step)
    ensures Quiet(Apply(s, step))
    ensures !step.ReadLock? ==> Backlog(Apply(s, step).ring) == Backlog(s.ring) && Moved(Out, Events(s, step)) == []
  {
    hide Moved, Events, ResumeAll, WriterElements;
    StepMoves(s, step);
  }

  /** After close, in every continuation: the successful reads number exactly the backlog, or all
      reads if they are fewer, and return the backlog in order; every later read is `Stopped`. */
  lemma {:induction false} DrainsExactly<T>(s: System<T>, steps: seq<Step<T>>)
    requires Inv(s) && Quiet(s) && IsRun(s, steps)
    ensures var s' := Exec(s, steps); var b := Backlog(s.ring);
      var n := if Reads(steps) <= |b| then Reads(steps) else |b|;
      && Quiet(s')
      && Moved(Out, s'.log) == Moved(Out, s.log) + b[..n]
      && Backlog(s'.ring) == b[n..]
      && (n == |b| ==> Events(s', ReadLock) == [Stopped(|s'.ops|), Resumed(|s'.ops|)])
    decreases |steps|
  {
    hide Apply, Enabled, Moved, Inv, Backlog, Quiet;
    if steps != [] {
      var s1 := Apply(s, steps[0]);
      var b := Backlog(s.ring);
      OneStep(s, steps[0]);
      InvStep(s, steps[0]);
      DrainsExactly(s1, steps[1..]);
      if steps[0].ReadLock? && b != [] {
        var m := Reads(steps[1..]);
        var n := if m <= |b| - 1 then m else |b| - 1;
        assert [b[0]] + b[1..][..n] == b[..n + 1];
        assert b[1..][n..] == b[n + 1..];
      }
    } else if Backlog(s.ring) == [] {
      QuietReadStops(s);
    }
  }

  lemma QuietReadStops<T>(s: System<T>)
    requires Inv(s) && Quiet(s) && Backlog(s.ring) == []
    ensures Events(s, ReadLock) == [Stopped(|s.ops|), Resumed(|s.ops|)]
  {
    hide Moved;
    ReadTakesBacklog(s);
  }

  lemma OneStep<T>(s: System<T>, step: Step<T>)
    requires Inv(s) && Quiet(s) && Enabled(s, step)
    ensures var s' := Apply(s, step); var b := Backlog(s.ring);
      && Quiet(s')
      && if step.ReadLock? && b != []
         then Moved(Out, s'.log) == Moved(Out, s.log) + [b[0]] && Backlog(s'.ring) == b[1..]
         else Moved(Out, s'.log) == Moved(Out, s.log) && Backlog(s'.ring) == b
  {
    hide Moved, Events, Backlog;
    QuietStep(s, step);
    MovedAppend(Out, s.log, Events(s, step));
    assert Apply(s, step).log == s.log + Events(s, step);
    if step.ReadLock? {
      ReadTakesBacklog(s);
      if Backlog(s.ring) == [] {
        StoppedMovesNothing<T>(|s.ops|);
      }
    }
  }

  lemma StoppedMovesNothing<T>(op: OpId)
    ensures Moved<T>(Out, [Stopped(op), Resumed(op)]) == []
  {
    MovedShort<T>([Stopped(op), Resumed(op)]);
  }

  // ---------------------------------------------------------------- the gap before the lock

  function Delivery<T>(s: System<T>): nat {
    |Moved(Out, s.log)|
  }

  /** No continuation delivers more than the backlog. */
  ghost predicate NeverExceeds<T(!new)>(s: System<T>) {
    forall steps: seq<Step<T>> :: IsRun(s, steps) ==> Delivery(Exec(s, steps)) <= Delivery(s) + |Backlog(s.ring)|
  }

  lemma StoppedBalance<T>(s: System<T>, step: Step<T>)
    requires RingInv(s.ring) && s.ring.stopped && Enabled(s, step)
    ensures var after := |Moved(Out, Events(s, step))| + |Backlog(Apply(s, step).ring)|;
      if step.WriteLock? then after == |Backlog(s.ring)| + 1 else after <= |Backlog(s.ring)|
  {
    hide Moved, Events, ResumeAll;
    StepMoves(s, step);
  }

  /** Once stopped, a step can add to deliveries plus backlog only by letting in a cleared write. */
  lemma StoppedStep<T>(s: System<T>, step: Step<T>)
    requires Inv(s) && s.ring.stopped && Enabled(s, step)
    ensures var s' := Apply(s, step);
      && s'.ring.stopped
      && (if step.WriteLock?
          then Delivery(s') + |Backlog(s'.ring)| == Delivery(s) + |Backlog(s.ring)| + 1
          else Delivery(s') + |Backlog(s'.ring)| <= Delivery(s) + |Backlog(s.ring)|)
      && s'.cleared == (if step.WriteLock? then s.cleared - {step.op} else s.cleared)
  {
    hide Moved, Events, Backlog, WriteSection, ReadSection;
    StoppedBalance(s, step);
    LogMoves(Out, s, step);
    StaysStopped(s, step);
  }

  lemma StaysStopped<T>(s: System<T>, step: Step<T>)
    requires s.ring.stopped && Enabled(s, step)
    ensures Apply(s, step).ring.stopped
  {
    hide Events, ResumeAll;
  }

  /** Every cleared write adds at most one delivery, in every continuation. */
  lemma {:induction false} AtMostTheGap<T>(s: System<T>, steps: seq<Step<T>>)
    requires Inv(s) && s.ring.stopped && IsRun(s, steps)
    ensures Delivery(Exec(s, steps)) <= Delivery(s) + |Backlog(s.ring)| + |s.cleared|
    decreases |steps|
  {
    hide Apply, Enabled, Moved, Inv;
    if steps != [] {
      EnabledWrite(s, steps[0]);
      StoppedStep(s, steps[0]);
      InvStep(s, steps[0]);
      AtMostTheGap(Apply(s, steps[0]), steps[1..]);
    }
  }

  lemma EnabledWrite<T>(s: System<T>, step: Step<T>)
    requires Enabled(s, step)
    ensures step.WriteLock? ==> |s.cleared - {step.op}| == |s.cleared| - 1
  {
    if step.WriteLock? {
      assert (s.cleared - {step.op}).Keys == s.cleared.Keys - {step.op};
    }
  }

  /** Reading as often as there is backlog delivers all of it, whatever else is going on. */
  lemma {:induction false} ReadAll<T>(s: System<T>, n: nat) returns (steps: seq<Step<T>>)
    requires Inv(s) && s.ring.stopped && n == |Backlog(s.ring)|
    ensures IsRun(s, steps) && Delivery(Exec(s, steps)) == Delivery(s) + n
    decreases n
  {
    hide Apply, Moved, Inv, Backlog;
    steps := [];
    if 0 < n {
      var s1 := Apply(s, ReadLock);
      ReadStep(s);
      InvStep(s, ReadLock);
      var rest := ReadAll(s1, n - 1);
      RunCons(s, ReadLock, rest);
      steps := [ReadLock] + rest;
    }
  }

  lemma ReadStep<T>(s: System<T>)
    requires Inv(s) && s.ring.stopped && Backlog(s.ring) != []
    ensures var s' := Apply(s, ReadLock);
      s'.ring.stopped && |Backlog(s'.ring)| == |Backlog(s.ring)| - 1 && Delivery(s') == Delivery(s) + 1
  {
    hide Moved, Events, Backlog;
    ReadTakesBacklog(s);
    MovedAppend(Out, s.log, Events(s, ReadLock));
    assert Apply(s, ReadLock).log == s.log + Events(s, ReadLock);
    StoppedStep(s, ReadLock);
  }

  /** In a stopped system, continuations deliver no more than the backlog if and only if no write is
      caught between its stop check and the lock. */
  lemma GapIsExact<T(!new)>(s: System<T>)
    requires Inv(s) && s.ring.stopped
    ensures NeverExceeds(s) <==> s.cleared == map[]
  {
    hide Apply, Moved, Inv, Backlog;
    if s.cleared == map[] {
      forall steps: seq<Step<T>> | IsRun(s, steps)
        ensures Delivery(Exec(s, steps)) <= Delivery(s) + |Backlog(s.ring)|
      {
        AtMostTheGap(s, steps);
      }
    } else {
      var w :| w in s.cleared;
      var s1 := Apply(s, WriteLock(w));
      StoppedStep(s, WriteLock(w));
      InvStep(s, WriteLock(w));
      var rest := ReadAll(s1, |Backlog(s1.ring)|);
      RunCons(s, WriteLock(w), rest);
      var steps := [WriteLock(w)] + rest;
      assert IsRun(s, steps) && Delivery(Exec(s, steps)) == Delivery(s) + |Backlog(s.ring)| + 1;
    }
  }
}
