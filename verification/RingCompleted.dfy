/**
 The completed-waiters.  In every run, who waits in `completed()` before the ring is closed and
 drained has been woken once the draining is over; a waiter can be woken while an element is left,
 and one that comes late may wait forever, and for both the condition is exact.
 */
module RingCompleted {
  import opened RingSpec
  import opened RingSystem
  import opened RingStatus
  import opened RingClose

  ghost predicate SomeoneDrains<T>(s: System<T>) {
    exists t :: 0 <= t < |s.closers| && s.closers[t].Draining?
  }

  function Waiters<T>(r: Ring<T>): nat {
    |r.writers| + |r.readers| + |r.completed|
  }

  lemma SameDrainers<T>(s: System<T>, s': System<T>)
    requires s.closers <= s'.closers
    requires forall t :: |s.closers| <= t < |s'.closers| ==> !s'.closers[t].Draining?
    ensures SomeoneDrains(s') <==> SomeoneDrains(s)
  {
    if t :| 0 <= t < |s.closers| && s.closers[t].Draining? {
      assert s'.closers[t].Draining?;
    }
  }

  // ---------------------------------------------------------------- every early waiter returns

  /** Waiter `c` outlives the drained ring only while somebody is still draining. */
  ghost predicate Served<T>(s: System<T>, c: OpId) {
    c < |s.ops| && (Drained(s.ring) && !SomeoneDrains(s) ==> c !in s.ring.completed)
  }

  /** A read, or a closer's section, leaves a drained ring unattended only with nobody waiting. */
  lemma LeftAlone<T>(s: System<T>, step: Step<T>)
    requires Inv(s) && Enabled(s, step) && (step.ReadLock? || step.CloseLock? || step.DrainLock?)
    ensures var s' := Apply(s, step);
      Drained(s'.ring) && !SomeoneDrains(s') ==>
        s'.ring.completed == [] || (step.ReadLock? && s'.ring == s.ring && s'.closers == s.closers)
  {
    hide Events, Moved, ResumeAll;
    var s' := Apply(s, step);
    if !step.ReadLock? && s'.closers[step.t].Draining? {
      assert SomeoneDrains(s');
    }
  }

  lemma ServedStep<T>(s: System<T>, step: Step<T>, c: OpId)
    requires Inv(s) && Served(s, c) && Enabled(s, step)
    ensures Served(Apply(s, step), c)
  {
    hide Events, Moved, ResumeAll, ReadSection, DrainSection;
    OpsGrow(s, step);
    if step.ReadLock? || step.CloseLock? || step.DrainLock? {
      LeftAlone(s, step);
    } else {
      SameDrainers(s, Apply(s, step));
    }
  }

  lemma OpsGrow<T>(s: System<T>, step: Step<T>)
    requires Enabled(s, step)
    ensures |s.ops| <= |Apply(s, step).ops|
  {
  }

  lemma {:induction false} ServedRun<T>(s: System<T>, steps: seq<Step<T>>, c: OpId)
    requires Inv(s) && Served(s, c) && IsRun(s, steps)
    ensures Served(Exec(s, steps), c)
    decreases |steps|
  {
    hide Apply, Enabled, Inv, Served;
    if steps != [] {
      InvStep(s, steps[0]);
      ServedStep(s, steps[0], c);
      ServedRun(Apply(s, steps[0]), steps[1..], c);
    }
  }

  /** Draining happens only in a drained ring. */
  ghost predicate DrainsDry<T>(s: System<T>) {
    SomeoneDrains(s) ==> Drained(s.ring)
  }

  lemma InitInOrder<T>(cap: nat)
    requires 0 < cap
    ensures Inv(Init<T>(cap)) && Orderly(Init<T>(cap)) && DrainsDry(Init<T>(cap))
  {
  }

  /** In every run `before`, a call of `completed()` at a moment when the ring is not yet closed and
      drained, and everything that comes `after`: once the ring is closed and drained and the draining
      loops are over, that call has been resumed, exactly once. */
  lemma EarlyWaitersReturn<T>(cap: nat, before: seq<Step<T>>, after: seq<Step<T>>)
    requires 0 < cap && IsRun(Init(cap), before + ([CompletedLock] + after))
    requires IsRun(Init(cap), before) && !Drained(Exec(Init(cap), before).ring)
    ensures var s := Exec(Init(cap), before + ([CompletedLock] + after));
      Drained(s.ring) && !SomeoneDrains(s) ==> Count(Woken, |Exec(Init(cap), before).ops|, s.log) == 1
  {
    hide Enabled, Count, Pending, Inv, Orderly, DrainsDry, SomeoneDrains, Events;
    var s0 := Exec(Init(cap), before);
    var c := |s0.ops|;
    var all := before + ([CompletedLock] + after);
    RunSplit(Init<T>(cap), before, [CompletedLock] + after);
    RunSplit(s0, [CompletedLock], after);
    var s1 := Apply(s0, CompletedLock);
    assert Exec(s0, [CompletedLock]) == s1 by {
      RunCons(s0, CompletedLock, []);
    }
    InitInOrder<T>(cap);
    InvRun(Init<T>(cap), before);
    InvStep(s0, CompletedLock);
    ServedRun(s1, after, c);
    StatusTellsTheTruth(cap, all, c);
    if Drained(Exec(s1, after).ring) && !SomeoneDrains(Exec(s1, after)) {
      CompletedStays(s1, after, c);
      NotPending(Exec(s1, after), c);
    }
  }

  lemma {:induction false} CompletedStays<T>(s: System<T>, steps: seq<Step<T>>, c: OpId)
    requires IsRun(s, steps) && c < |s.ops| && s.ops[c].CompletedOp?
    ensures c < |Exec(s, steps).ops| && Exec(s, steps).ops[c].CompletedOp?
    decreases |steps|
  {
    hide Enabled, Events, WriteSection, ReadSection, DrainSection;
    if steps != [] {
      CompletedStays(Apply(s, steps[0]), steps[1..], c);
    }
  }

  lemma NotPending<T>(s: System<T>, c: OpId)
    requires Orderly(s) && c < |s.ops| && s.ops[c].CompletedOp? && c !in s.ring.completed
    ensures !Pending(s, c)
  {
    Kinds(s.ring, s.ops, c);
  }

  // ---------------------------------------------------------------- does a waiter return too soon?

  /** The step resumes completed-waiter `c` although an element is left in the ring or in a
      suspended writer. */
  ghost predicate TooSoonStep<T>(s: System<T>, step: Step<T>, c: OpId) {
    && Enabled(s, step)
    && c in s.ring.completed && c !in Apply(s, step).ring.completed
    && !Drained(Apply(s, step).ring)
  }

  /** No write is caught between its check and the lock by a stop, and nobody calls `notify_waiters`. */
  ghost predicate Calm<T>(s: System<T>) {
    && (s.ring.stopped ==> s.cleared == map[])
    && (forall t :: 0 <= t < |s.closers| ==> !Notifying(s.closers[t]))
  }

  ghost predicate CalmRun<T>(s: System<T>, steps: seq<Step<T>>)
    requires IsRun(s, steps)
    decreases |steps|
  {
    Calm(s) && (steps != [] ==> CalmRun(Apply(s, steps[0]), steps[1..]))
  }

  lemma DryStep<T>(s: System<T>, step: Step<T>)
    requires Inv(s) && DrainsDry(s) && Calm(s) && Enabled(s, step)
    ensures DrainsDry(Apply(s, step))
    ensures forall c :: !TooSoonStep(s, step, c)
  {
    hide Events, Moved, ResumeAll;
    var s' := Apply(s, step);
    if t :| 0 <= t < |s'.closers| && s'.closers[t].Draining? {
      if t < |s.closers| && s.closers[t].Draining? {
        assert SomeoneDrains(s);
      }
    }
    if step.DrainLock? {
      assert SomeoneDrains(s);
    }
  }

  lemma {:induction false} DryRun<T>(s: System<T>, steps: seq<Step<T>>, step: Step<T>, c: OpId)
    requires Inv(s) && DrainsDry(s) && IsRun(s, steps) && CalmRun(s, steps)
    ensures !TooSoonStep(Exec(s, steps), step, c)
    decreases |steps|
  {
    hide Apply, Inv, DrainsDry, Calm;
    if steps == [] {
      if Enabled(s, step) {
        DryStep(s, step);
      }
    } else {
      InvStep(s, steps[0]);
      DryStep(s, steps[0]);
      DryRun(Apply(s, steps[0]), steps[1..], step, c);
    }
  }

  /** In a calm run no step resumes a completed-waiter too soon. */
  lemma NeverTooSoon<T>(cap: nat, steps: seq<Step<T>>, step: Step<T>, c: OpId)
    requires 0 < cap && IsRun(Init(cap), steps) && CalmRun(Init(cap), steps)
    ensures !TooSoonStep(Exec(Init(cap), steps), step, c)
  {
    hide Apply, Enabled, IsRun, Exec, CalmRun, Inv, DrainsDry, TooSoonStep;
    InitInOrder<T>(cap);
    DryRun(Init<T>(cap), steps, step, c);
  }

  /** Nobody calls `notify_waiters` in these steps. */
  ghost predicate NoNotify<T>(steps: seq<Step<T>>) {
    CloseCheck(Notify) !in steps
  }

  /** Some continuation, without a further `notify_waiters`, resumes `c` too soon. */
  ghost predicate TooSoonAhead<T(!new)>(s: System<T>, c: OpId) {
    exists steps: seq<Step<T>>, step: Step<T> ::
      IsRun(s, steps) && NoNotify(steps) && TooSoonStep(Exec(s, steps), step, c)
  }

  /** The ring is not stopped yet; or somebody is in the draining loops, or about to enter those of
      `notify_waiters`, with an element in the ring or a write caught before the lock; or a `close`
      is about to lock an empty ring that such a write can still enter. */
  ghost predicate AtRisk<T>(s: System<T>) {
    || !s.ring.stopped
    || ((SomeoneDrains(s) || Passed(Notify) in s.closers) && (s.ring.queue != [] || s.cleared != map[]))
    || (Passed(Close) in s.closers && s.ring.queue == [] && s.cleared != map[])
  }

  lemma SoonNow<T(!new)>(s: System<T>, step: Step<T>, c: OpId)
    requires TooSoonStep(s, step, c)
    ensures TooSoonAhead(s, c)
  {
    hide TooSoonStep;
    var none: seq<Step<T>> := [];
    assert IsRun(s, none) && NoNotify(none) && Exec(s, none) == s;
  }

  lemma SoonAfter<T(!new)>(s: System<T>, step: Step<T>, c: OpId)
    requires Enabled(s, step) && step != CloseCheck(Notify)
    ensures TooSoonAhead(Apply(s, step), c) ==> TooSoonAhead(s, c)
  {
    hide Apply, Enabled, TooSoonStep;
    if TooSoonAhead(Apply(s, step), c) {
      var steps: seq<Step<T>>, last: Step<T> :|
        IsRun(Apply(s, step), steps) && NoNotify(steps) && TooSoonStep(Exec(Apply(s, step), steps), last, c);
      RunCons(s, step, steps);
      assert NoNotify([step] + steps);
    }
  }

  /** Whoever drains a ring that holds an element gets to `c`. */
  lemma {:induction false} SoonByDrain<T(!new)>(s: System<T>, t: nat, c: OpId)
    requires t < |s.closers| && s.closers[t].Draining? && s.ring.queue != [] && c in s.ring.completed
    ensures TooSoonAhead(s, c)
    decreases Waiters(s.ring)
  {
    hide Events, TooSoonAhead;
    var s' := Apply(s, DrainLock(t));
    if c !in s'.ring.completed {
      SoonNow(s, DrainLock(t), c);
    } else {
      SoonByDrain(s', t, c);
      SoonAfter(s, DrainLock(t), c);
    }
  }

  /** The readers of an empty ring are sent away, the caught write enters, and the draining goes on. */
  lemma {:induction false} SoonByWrite<T(!new)>(s: System<T>, t: nat, w: OpId, c: OpId)
    requires Inv(s) && s.ring.queue == [] && w in s.cleared && c in s.ring.completed
    requires t < |s.closers| && s.closers[t].Draining? && (s.ring.readers == [] || s.closers[t].phase != Completed)
    ensures TooSoonAhead(s, c)
    decreases |s.ring.readers|
  {
    hide Events, Moved, TooSoonAhead;
    if s.ring.readers == [] {
      SoonByDrain(Apply(s, WriteLock(w)), t, c);
      SoonAfter(s, WriteLock(w), c);
    } else {
      InvStep(s, DrainLock(t));
      SoonByWrite(Apply(s, DrainLock(t)), t, w, c);
      SoonAfter(s, DrainLock(t), c);
    }
  }

  lemma SoonWhileDraining<T(!new)>(s: System<T>, c: OpId)
    requires Inv(s) && SomeoneDrains(s) && (s.ring.queue != [] || s.cleared != map[]) && c in s.ring.completed
    ensures TooSoonAhead(s, c)
  {
    hide TooSoonAhead, Moved;
    var t :| 0 <= t < |s.closers| && s.closers[t].Draining?;
    if s.ring.queue != [] {
      SoonByDrain(s, t, c);
    } else {
      var w :| w in s.cleared;
      if s.ring.readers == [] {
        SoonByWrite(s, t, w, c);
      } else {
        var u :| 0 <= u < |s.closers| && s.closers[u].Draining? && s.closers[u].phase != Completed;
        SoonByWrite(s, u, w, c);
      }
    }
  }

  /** Another `completed()` comes first, so that the first locked section pops somebody else. */
  lemma SoonByClose<T(!new)>(s: System<T>, t: nat, c: OpId)
    requires Inv(s) && t < |s.closers| && s.closers[t].Passed? && c in s.ring.completed
    requires if s.closers[t].kind == Close then s.ring.queue == [] && s.cleared != map[]
             else s.ring.queue != [] || s.cleared != map[]
    ensures TooSoonAhead(s, c)
  {
    hide Events, Moved, TooSoonAhead;
    var s1 := Apply(s, CompletedLock);
    InvStep(s, CompletedLock);
    var s2 := Apply(s1, CloseLock(t));
    InvStep(s1, CloseLock(t));
    assert s2.closers[t].Draining?;
    SoonWhileDraining(s2, c);
    SoonAfter(s1, CloseLock(t), c);
    SoonAfter(s, CompletedLock, c);
  }

  /** Before the stop: the ring is read down to empty, and a write passes its check before a close. */
  lemma {:induction false} SoonUnstopped<T(!new)>(s: System<T>, c: OpId, e: T)
    requires Inv(s) && !s.ring.stopped && c in s.ring.completed
    ensures TooSoonAhead(s, c)
    decreases |Backlog(s.ring)|
  {
    hide Events, Moved, TooSoonAhead;
    if s.ring.queue != [] {
      InvStep(s, ReadLock);
      SoonUnstopped(Apply(s, ReadLock), c, e);
      SoonAfter(s, ReadLock, c);
    } else {
      var s1 := Apply(s, WriteCheck(e));
      InvStep(s, WriteCheck(e));
      assert |s.ops| in s1.cleared;
      InvStep(s1, CloseCheck(Close));
      SoonByClose(Apply(s1, CloseCheck(Close)), |s.closers|, c);
      SoonAfter(s1, CloseCheck(Close), c);
      SoonAfter(s, WriteCheck(e), c);
    }
  }

  lemma SoonAtRisk<T(!new)>(s: System<T>, c: OpId, e: T)
    requires Inv(s) && AtRisk(s) && c in s.ring.completed
    ensures TooSoonAhead(s, c)
  {
    hide TooSoonAhead, Inv, SomeoneDrains;
    if !s.ring.stopped {
      SoonUnstopped(s, c, e);
    } else if SomeoneDrains(s) && (s.ring.queue != [] || s.cleared != map[]) {
      SoonWhileDraining(s, c);
    } else if Passed(Notify) in s.closers && (s.ring.queue != [] || s.cleared != map[]) {
      var t :| 0 <= t < |s.closers| && s.closers[t] == Passed(Notify);
      SoonByClose(s, t, c);
    } else {
      var t :| 0 <= t < |s.closers| && s.closers[t] == Passed(Close);
      SoonByClose(s, t, c);
    }
  }

  /** Without risk no step is too soon, and there is no risk afterwards as long as `c` waits. */
  lemma SafeStep<T>(s: System<T>, step: Step<T>, c: OpId)
    requires Inv(s) && !AtRisk(s) && Enabled(s, step) && c in s.ring.completed
    ensures !TooSoonStep(s, step, c)
    ensures c in Apply(s, step).ring.completed ==> !AtRisk(Apply(s, step))
  {
    hide Events, Moved, ResumeAll;
    var s' := Apply(s, step);
    if step.CloseLock? || step.DrainLock? {
      assert s.closers[step.t] in s.closers;
      if step.DrainLock? {
        assert SomeoneDrains(s);
      }
      assert s.ring.queue == [] ==> s.cleared == map[];
    } else {
      SameDrainers(s, s');
    }
  }

  /** A waiter that was resumed does not come back. */
  lemma GoneForGood<T>(s: System<T>, step: Step<T>, c: OpId)
    requires Enabled(s, step) && c < |s.ops| && c !in s.ring.completed
    ensures c < |Apply(s, step).ops| && c !in Apply(s, step).ring.completed
  {
    hide Events, ResumeAll;
  }

  lemma {:induction false} SafeRun<T>(s: System<T>, steps: seq<Step<T>>, step: Step<T>, c: OpId)
    requires Inv(s) && IsRun(s, steps) && c < |s.ops| && (c in s.ring.completed ==> !AtRisk(s))
    ensures !TooSoonStep(Exec(s, steps), step, c)
    decreases |steps|
  {
    hide Apply, Inv, AtRisk;
    if steps == [] {
      if Enabled(s, step) && c in s.ring.completed {
        SafeStep(s, step, c);
      }
    } else {
      InvStep(s, steps[0]);
      OpsGrow(s, steps[0]);
      if c in s.ring.completed {
        SafeStep(s, steps[0], c);
      } else {
        GoneForGood(s, steps[0], c);
      }
      SafeRun(Apply(s, steps[0]), steps[1..], step, c);
    }
  }

  /** For a waiter in any reachable state: some continuation, without a further `notify_waiters`,
      resumes it too soon if and only if the state is at risk. */
  lemma TooSoonIsExact<T(!new)>(s: System<T>, c: OpId, e: T)
    requires Inv(s) && Orderly(s) && c in s.ring.completed
    ensures TooSoonAhead(s, c) <==> AtRisk(s)
  {
    hide Apply, Enabled, Inv, AtRisk, TooSoonStep;
    Kinds(s.ring, s.ops, c);
    if AtRisk(s) {
      SoonAtRisk(s, c, e);
    } else {
      forall steps: seq<Step<T>>, step: Step<T> | IsRun(s, steps) ensures !TooSoonStep(Exec(s, steps), step, c) {
        SafeRun(s, steps, step, c);
      }
    }
  }

  /** So it happens in a ring of any capacity, without any `notify_waiters`: the first caller of
      `completed()` on a new ring can be resumed too soon. */
  lemma TooSoonInTheGap<T(!new)>(cap: nat, e: T)
    requires 0 < cap
    ensures TooSoonAhead(Init<T>(cap), 0)
  {
    hide Events, Moved, TooSoonAhead;
    var s := Init<T>(cap);
    InitInOrder<T>(cap);
    InvStep(s, CompletedLock);
    SoonUnstopped(Apply(s, CompletedLock), 0, e);
    SoonAfter(s, CompletedLock, 0);
  }

  // ---------------------------------------------------------------- can a waiter still be woken?

  /** Closed, drained, nothing on its way in, and every closer gone. */
  ghost predicate Stranding<T>(s: System<T>) {
    && Drained(s.ring)
    && s.cleared == map[]
    && (forall t :: 0 <= t < |s.closers| ==> s.closers[t].Finished?)
  }

  /** The continuation `steps` resumes completed-waiter `c`. */
  ghost predicate Wakes<T>(s: System<T>, steps: seq<Step<T>>, c: OpId) {
    IsRun(s, steps) && c !in Exec(s, steps).ring.completed
  }

  ghost predicate CanWake<T(!new)>(s: System<T>, c: OpId) {
    exists steps: seq<Step<T>> :: Wakes(s, steps, c)
  }

  /** Some continuation without further calls of `completed()` does. */
  ghost predicate CanWakeAlone<T(!new)>(s: System<T>, c: OpId) {
    exists steps: seq<Step<T>> :: Wakes(s, steps, c) && CompletedLock !in steps
  }

  lemma WakeAfter<T(!new)>(s: System<T>, step: Step<T>, c: OpId)
    requires Enabled(s, step) && step != CompletedLock
    ensures CanWakeAlone(Apply(s, step), c) ==> CanWakeAlone(s, c)
  {
    hide Apply, Enabled;
    if CanWakeAlone(Apply(s, step), c) {
      var steps: seq<Step<T>> :| Wakes(Apply(s, step), steps, c) && CompletedLock !in steps;
      RunCons(s, step, steps);
      assert Wakes(s, [step] + steps, c) && CompletedLock !in [step] + steps;
    }
  }

  lemma WakeNow<T(!new)>(s: System<T>, c: OpId)
    requires c !in s.ring.completed
    ensures CanWakeAlone(s, c)
  {
    hide Apply, Enabled;
    var none: seq<Step<T>> := [];
    assert Wakes(s, none, c) && CompletedLock !in none;
  }

  /** Whoever drains gets to `c`. */
  lemma {:induction false} WakeByDrain<T(!new)>(s: System<T>, t: nat, c: OpId)
    requires t < |s.closers| && s.closers[t].Draining?
    ensures CanWakeAlone(s, c)
    decreases Waiters(s.ring)
  {
    hide Events, CanWakeAlone;
    var s' := Apply(s, DrainLock(t));
    if c !in s.ring.completed {
      WakeNow(s, c);
    } else {
      if c !in s'.ring.completed {
        WakeNow(s', c);
      } else {
        WakeByDrain(s', t, c);
      }
      WakeAfter(s, DrainLock(t), c);
    }
  }

  /** Reading a stopped ring down to empty wakes all completed-waiters. */
  lemma {:induction false} WakeByReads<T(!new)>(s: System<T>, c: OpId)
    requires Inv(s) && s.ring.stopped && s.ring.queue != []
    ensures CanWakeAlone(s, c)
    decreases |Backlog(s.ring)|
  {
    hide Events, CanWakeAlone, Moved, ResumeAll;
    var s' := Apply(s, ReadLock);
    InvStep(s, ReadLock);
    if s'.ring.queue == [] {
      WakeNow(s', c);
    } else {
      WakeByReads(s', c);
    }
    WakeAfter(s, ReadLock, c);
  }

  lemma WakeByClose<T(!new)>(s: System<T>, t: nat, c: OpId)
    requires Inv(s) && t < |s.closers| && s.closers[t].Passed?
    ensures CanWakeAlone(s, c)
  {
    hide Events, CanWakeAlone, Moved;
    var s' := Apply(s, CloseLock(t));
    InvStep(s, CloseLock(t));
    if c !in s'.ring.completed {
      WakeNow(s', c);
    } else if s'.closers[t].Draining? {
      WakeByDrain(s', t, c);
    } else {
      WakeByReads(s', c);
    }
    WakeAfter(s, CloseLock(t), c);
  }

  /** A write caught in the gap puts an element in a drained ring, so that a read drains it again. */
  lemma WakeByWrite<T(!new)>(s: System<T>, w: OpId, c: OpId)
    requires Inv(s) && Drained(s.ring) && s.ring.readers == [] && w in s.cleared
    ensures CanWakeAlone(s, c)
  {
    hide Events, CanWakeAlone, Moved;
    var s' := Apply(s, WriteLock(w));
    InvStep(s, WriteLock(w));
    WakeByReads(s', c);
    WakeAfter(s, WriteLock(w), c);
  }

  lemma WakeUnlessStranding<T(!new)>(s: System<T>, c: OpId)
    requires Inv(s) && !Stranding(s)
    ensures CanWakeAlone(s, c)
  {
    hide CanWakeAlone, Moved, Events;
    if t :| 0 <= t < |s.closers| && s.closers[t].Draining? {
      WakeByDrain(s, t, c);
    } else if t :| 0 <= t < |s.closers| && s.closers[t].Passed? {
      WakeByClose(s, t, c);
    } else if !s.ring.stopped {
      var s' := Apply(s, CloseCheck(Close));
      InvStep(s, CloseCheck(Close));
      WakeByClose(s', |s.closers|, c);
      WakeAfter(s, CloseCheck(Close), c);
    } else if s.ring.queue != [] {
      WakeByReads(s, c);
    } else {
      var w :| w in s.cleared;
      WakeByWrite(s, w, c);
    }
  }

  lemma StrandingStep<T>(s: System<T>, step: Step<T>)
    requires Stranding(s) && Enabled(s, step)
    ensures Stranding(Apply(s, step))
    ensures forall c :: c in s.ring.completed ==> c in Apply(s, step).ring.completed
  {
  }

  lemma {:induction false} StrandedForever<T>(s: System<T>, steps: seq<Step<T>>, c: OpId)
    requires Stranding(s) && c in s.ring.completed && IsRun(s, steps)
    ensures c in Exec(s, steps).ring.completed
    decreases |steps|
  {
    hide Apply, Enabled, Stranding;
    if steps != [] {
      StrandingStep(s, steps[0]);
      StrandedForever(Apply(s, steps[0]), steps[1..], c);
    }
  }

  /** A completed-waiter can still be woken, by some continuation, if and only if it is not the case
      that the ring is closed and drained with nothing on its way in and every closer gone. */
  lemma WakeIsExact<T(!new)>(s: System<T>, c: OpId)
    requires Inv(s) && c in s.ring.completed
    ensures CanWake(s, c) <==> !Stranding(s)
  {
    hide Apply, Enabled, Inv, Stranding;
    if Stranding(s) {
      forall steps: seq<Step<T>> | IsRun(s, steps) ensures c in Exec(s, steps).ring.completed {
        StrandedForever(s, steps, c);
      }
    } else {
      WakeUnlessStranding(s, c);
    }
  }

  /** A `completed()` called on such a ring never returns. */
  lemma LateCallNeverReturns<T>(s: System<T>, steps: seq<Step<T>>)
    requires Stranding(s) && IsRun(Apply(s, CompletedLock), steps)
    ensures |s.ops| in Exec(Apply(s, CompletedLock), steps).ring.completed
  {
    StrandedForever(Apply(s, CompletedLock), steps, |s.ops|);
  }

  /** Such a ring is soon reached, at any capacity: close a new ring, then wait for its completion. */
  lemma StrandingReached<T>(cap: nat)
    requires 0 < cap
    ensures var steps: seq<Step<T>> := [CloseCheck(Close), CloseLock(0), CompletedLock];
      && IsRun(Init(cap), steps)
      && Stranding(Exec(Init(cap), steps)) && Exec(Init(cap), steps).ring.completed == [0]
  {
  }
}
