/**
 The ring with the test that `completed()` was meant to make, `m_used > 0` in place of the
 unsigned `m_used >= 0`: a late call returns at once, and no waiter is ever stranded.
 */
module RingMended {
  import opened RingSpec
  import opened RingSystem
  import opened RingCompleted

  /** A step of the mended system: only `completed()` on a stopped, empty ring differs. */
  function Mended<T>(s: System<T>, step: Step<T>): System<T>
    requires Enabled(s, step)
  {
    if step.CompletedLock? && s.ring.stopped && s.ring.queue == [] then
      s.(ops := s.ops + [CompletedOp], log := s.log + [Resumed(|s.ops|)])
    else
      Apply(s, step)
  }

  ghost predicate IsMendedRun<T>(s: System<T>, steps: seq<Step<T>>)
    decreases |steps|
  {
    steps != [] ==> Enabled(s, steps[0]) && IsMendedRun(Mended(s, steps[0]), steps[1..])
  }

  ghost function ExecMended<T>(s: System<T>, steps: seq<Step<T>>): System<T>
    requires IsMendedRun(s, steps)
    decreases |steps|
  {
    if steps == [] then s else ExecMended(Mended(s, steps[0]), steps[1..])
  }

  /** Once the ring is drained and nobody drains it any more, nobody waits for its completion. */
  ghost predicate NoneLeft<T>(s: System<T>) {
    Drained(s.ring) && !SomeoneDrains(s) ==> s.ring.completed == []
  }

  lemma NoneLeftStep<T>(s: System<T>, step: Step<T>)
    requires Inv(s) && NoneLeft(s) && Enabled(s, step)
    ensures NoneLeft(Mended(s, step))
  {
    hide Events, Moved, ResumeAll, ReadSection, DrainSection;
    if step.ReadLock? || step.CloseLock? || step.DrainLock? {
      LeftAlone(s, step);
    } else {
      SameDrainers(s, Mended(s, step));
    }
  }

  lemma MendedInv<T>(s: System<T>, step: Step<T>)
    requires Inv(s) && Enabled(s, step)
    ensures Inv(Mended(s, step))
  {
    hide Apply, Moved;
    if step.CompletedLock? && s.ring.stopped && s.ring.queue == [] {
      var ev: seq<Event<T>> := [Resumed(|s.ops|)];
      MovedShort(ev);
      MovedAppend(In, s.log, ev);
      MovedAppend(Out, s.log, ev);
    } else {
      InvStep(s, step);
    }
  }

  lemma {:induction false} NoneLeftRun<T>(s: System<T>, steps: seq<Step<T>>)
    requires Inv(s) && NoneLeft(s) && IsMendedRun(s, steps)
    ensures Inv(ExecMended(s, steps)) && NoneLeft(ExecMended(s, steps))
    decreases |steps|
  {
    hide Mended, Enabled, Inv, NoneLeft;
    if steps != [] {
      MendedInv(s, steps[0]);
      NoneLeftStep(s, steps[0]);
      NoneLeftRun(Mended(s, steps[0]), steps[1..]);
    }
  }

  /** Some continuation of the mended ring resumes completed-waiter `c`. */
  ghost predicate CanWakeMended<T(!new)>(s: System<T>, c: OpId) {
    exists steps: seq<Step<T>> :: IsMendedRun(s, steps) && c !in ExecMended(s, steps).ring.completed
  }

  /** Without calls of `completed()` the two systems run alike. */
  lemma {:induction false} RunsAlike<T>(s: System<T>, steps: seq<Step<T>>)
    requires IsRun(s, steps) && CompletedLock !in steps
    ensures IsMendedRun(s, steps) && ExecMended(s, steps) == Exec(s, steps)
    decreases |steps|
  {
    hide Apply, Enabled;
    if steps != [] {
      assert steps[0] != CompletedLock;
      RunsAlike(Apply(s, steps[0]), steps[1..]);
    }
  }

  lemma StillWakes<T(!new)>(s: System<T>, c: OpId)
    requires Inv(s) && NoneLeft(s) && c in s.ring.completed
    ensures CanWakeMended(s, c)
  {
    hide Apply, Enabled, Inv, SomeoneDrains;
    assert SomeoneDrains(s) ==> !Stranding(s) by {
      DrainerNotStranding(s);
    }
    WakeUnlessStranding(s, c);
    var steps: seq<Step<T>> :| Wakes(s, steps, c) && CompletedLock !in steps;
    RunsAlike(s, steps);
  }

  lemma DrainerNotStranding<T>(s: System<T>)
    ensures SomeoneDrains(s) ==> !Stranding(s)
  {
  }

  /** In every run of the mended ring nobody waits in a drained ring that no closer attends to; every
      waiter can still be woken; and a late call returns at once. */
  lemma NobodyStranded<T(!new)>(cap: nat, steps: seq<Step<T>>)
    requires 0 < cap && IsMendedRun(Init(cap), steps)
    ensures var s := ExecMended(Init(cap), steps);
      && (Drained(s.ring) && !SomeoneDrains(s) ==> s.ring.completed == [])
      && (forall c :: c in s.ring.completed ==> CanWakeMended(s, c))
      && (Drained(s.ring) ==>
            Mended(s, CompletedLock).ring == s.ring && Mended(s, CompletedLock).log == s.log + [Resumed(|s.ops|)])
  {
    hide Apply, Moved, CanWakeMended, IsMendedRun, ExecMended;
    InitInOrder<T>(cap);
    NoneLeftRun(Init<T>(cap), steps);
    var s := ExecMended(Init(cap), steps);
    forall c | c in s.ring.completed ensures CanWakeMended(s, c) {
      StillWakes(s, c);
    }
  }
}
