/**
 What holds as long as the ring is open: nobody is told to stop, every operation has either moved its
 element or waits, and the waiter lists are served last come, first served.
 */
module RingOpen {
  import opened RingSpec
  import opened RingSystem
  import opened RingStatus
  import opened RingCompleted

  datatype Kind = Writes | Reads | Waits

  predicate Is<T>(k: Kind, op: OpKind<T>) {
    match k
    case Writes => op.WriteOp?
    case Reads => op.ReadOp?
    case Waits => op.CompletedOp?
  }

  /** How many operations of a kind have been issued. */
  function Issued<T>(k: Kind, ops: seq<OpKind<T>>): nat {
    if ops == [] then 0 else Issued(k, ops[..|ops| - 1]) + (if Is(k, ops[|ops| - 1]) then 1 else 0)
  }

  lemma IssuedAppend<T>(k: Kind, ops: seq<OpKind<T>>, op: OpKind<T>)
    ensures Issued(k, ops + [op]) == Issued(k, ops) + (if Is(k, op) then 1 else 0)
  {
    assert (ops + [op])[..|ops|] == ops;
  }

  predicate Asks<T>(k: Kind, step: Step<T>) {
    match k
    case Writes => step.WriteCheck?
    case Reads => step.ReadLock?
    case Waits => step.CompletedLock?
  }

  /** How many operations of a kind the steps of a run call. */
  function Called<T>(k: Kind, steps: seq<Step<T>>): nat {
    if steps == [] then 0 else (if Asks(k, steps[0]) then 1 else 0) + Called(k, steps[1..])
  }

  lemma IssuedStep<T>(k: Kind, s: System<T>, step: Step<T>)
    requires Enabled(s, step)
    ensures Issued(k, Apply(s, step).ops) == Issued(k, s.ops) + (if Asks(k, step) then 1 else 0)
  {
    hide Issued, Events, WriteSection, ReadSection, DrainSection;
    match step
    case WriteCheck(e) => IssuedAppend(k, s.ops, WriteOp(e));
    case ReadLock => IssuedAppend(k, s.ops, ReadOp);
    case CompletedLock => IssuedAppend(k, s.ops, CompletedOp);
    case _ =>
  }

  lemma {:induction false} IssuedRun<T>(k: Kind, s: System<T>, steps: seq<Step<T>>)
    requires IsRun(s, steps)
    ensures Issued(k, Exec(s, steps).ops) == Issued(k, s.ops) + Called(k, steps)
    decreases |steps|
  {
    hide Apply, Enabled, Issued, Asks;
    if steps != [] {
      IssuedStep(k, s, steps[0]);
      IssuedRun(k, Apply(s, steps[0]), steps[1..]);
    }
  }

  ghost predicate NobodyStopped<T>(log: seq<Event<T>>) {
    forall i :: 0 <= i < |log| ==> !log[i].Stopped?
  }

  /** Every write has entered or is still on its way, every read has got an element or waits, and
      every `completed()` waits. */
  ghost predicate AllServed<T>(s: System<T>) {
    && Issued(Writes, s.ops) == |Moved(In, s.log)| + |s.ring.writers| + |s.cleared|
    && Issued(Reads, s.ops) == |Moved(Out, s.log)| + |s.ring.readers|
    && Issued(Waits, s.ops) == |s.ring.completed|
  }

  lemma OpenStep<T>(s: System<T>, step: Step<T>)
    requires Inv(s) && Enabled(s, step) && !Apply(s, step).ring.stopped
    ensures !s.ring.stopped && !step.CloseLock? && !step.DrainLock?
  {
    hide Events, ResumeAll, Moved;
  }

  lemma StoppedNobody<T>(s: System<T>, step: Step<T>)
    requires Enabled(s, step) && !s.ring.stopped && !step.CloseLock? && !step.DrainLock?
    ensures NobodyStopped(Events(s, step))
  {
  }

  lemma ServesAll<T>(s: System<T>, step: Step<T>)
    requires RingInv(s.ring) && Orderly(s) && AllServed(s)
    requires Enabled(s, step) && !s.ring.stopped && !step.CloseLock? && !step.DrainLock?
    ensures AllServed(Apply(s, step))
  {
    hide Moved, Events, Issued, ResumeAll, Listed;
    var s' := Apply(s, step);
    StepMoves(s, step);
    LogMoves(In, s, step);
    LogMoves(Out, s, step);
    assert |s.ops| !in s.cleared;
    if |s.ops| < |s'.ops| {
      forall k: Kind ensures Issued(k, s'.ops) == Issued(k, s.ops) + (if Is(k, s'.ops[|s.ops|]) then 1 else 0) {
        IssuedAppend(k, s.ops, s'.ops[|s.ops|]);
      }
    }
    if step.WriteLock? {
      assert (s.cleared - {step.op}).Keys == s.cleared.Keys - {step.op};
    }
  }

  lemma {:induction false} OpenRun<T>(s: System<T>, steps: seq<Step<T>>)
    requires Inv(s) && Orderly(s) && IsRun(s, steps) && !Exec(s, steps).ring.stopped
    requires NobodyStopped(s.log) && AllServed(s)
    ensures NobodyStopped(Exec(s, steps).log) && AllServed(Exec(s, steps))
    decreases |steps|
  {
    hide Apply, Enabled, Inv, Orderly, AllServed, Events;
    if steps != [] {
      var s' := Apply(s, steps[0]);
      StillOpen(s', steps[1..]);
      OpenStep(s, steps[0]);
      StoppedNobody(s, steps[0]);
      LogGrows(s, steps[0]);
      RingInvOf(s);
      ServesAll(s, steps[0]);
      InvStep(s, steps[0]);
      OrderlyStep(s, steps[0]);
      OpenRun(s', steps[1..]);
    }
  }

  lemma LogGrows<T>(s: System<T>, step: Step<T>)
    requires Enabled(s, step)
    ensures Apply(s, step).log == s.log + Events(s, step)
  {
    hide Events;
  }

  lemma {:induction false} StillOpen<T>(s: System<T>, steps: seq<Step<T>>)
    requires IsRun(s, steps) && !Exec(s, steps).ring.stopped
    ensures !s.ring.stopped
    decreases |steps|
  {
    hide Events, ResumeAll;
    if steps != [] {
      StillOpen(Apply(s, steps[0]), steps[1..]);
    }
  }

  /** In every run, as long as the ring is open: nobody has been told to stop; the writes called are those whose
      element entered the ring, those suspended and those before the lock; the reads are those that
      got an element and those suspended; and every `completed()` waits. */
  lemma OpenRingServes<T>(cap: nat, steps: seq<Step<T>>)
    requires 0 < cap && IsRun(Init(cap), steps) && !Exec(Init(cap), steps).ring.stopped
    ensures var s := Exec(Init(cap), steps);
      && (forall i :: 0 <= i < |s.log| ==> !s.log[i].Stopped?)
      && Called(Writes, steps) == |Moved(In, s.log)| + |s.ring.writers| + |s.cleared|
      && Called(Reads, steps) == |Moved(Out, s.log)| + |s.ring.readers|
      && Called(Waits, steps) == |s.ring.completed|
  {
    hide Apply, Enabled, IsRun, Exec, Moved, Inv, Orderly, Called;
    IssuedRun(Writes, Init<T>(cap), steps);
    IssuedRun(Reads, Init<T>(cap), steps);
    IssuedRun(Waits, Init<T>(cap), steps);
    InitInOrder<T>(cap);
    MovedShort<T>([]);
    OpenRun(Init<T>(cap), steps);
  }

  // ---------------------------------------------------------------- last come, first served

  ghost predicate Falling(ops: seq<OpId>) {
    forall i, j :: 0 <= i < j < |ops| ==> ops[j] < ops[i]
  }

  /** A list of operations below `n`, most recent first. */
  ghost predicate Recent(ops: seq<OpId>, n: nat) {
    Falling(ops) && forall i :: 0 <= i < |ops| ==> ops[i] < n
  }

  /** What a step may do to such a list: nothing, push the newest operation, pop, or take them all. */
  ghost predicate Stacks(before: seq<OpId>, after: seq<OpId>, n: nat) {
    after == before || after == [n] + before || (before != [] && after == before[1..]) || after == []
  }

  /** Whoever went, the ones that stay came before. */
  ghost predicate ServesLast(before: seq<OpId>, after: seq<OpId>) {
    forall r, q :: r in before && r !in after && q in after ==> q < r
  }

  lemma StacksServe(before: seq<OpId>, after: seq<OpId>, n: nat)
    requires Recent(before, n) && Stacks(before, after, n)
    ensures Recent(after, n + 1) && ServesLast(before, after)
    ensures after != [n] + before ==> Recent(after, n)
  {
    if before != [] && after == before[1..] {
      assert before == [before[0]] + after;
    }
  }

  ghost predicate RecentFirst<T>(s: System<T>) {
    Recent(s.ring.readers, |s.ops|) && Recent(s.ring.completed, |s.ops|)
  }

  lemma StepStacks<T>(s: System<T>, step: Step<T>)
    requires Enabled(s, step)
    ensures Stacks(s.ring.readers, Apply(s, step).ring.readers, |s.ops|)
    ensures Stacks(s.ring.completed, Apply(s, step).ring.completed, |s.ops|)
    ensures if step.ReadLock? || step.CompletedLock? || step.WriteCheck? then |Apply(s, step).ops| == |s.ops| + 1
            else Apply(s, step).ops == s.ops && Apply(s, step).ring.readers != [|s.ops|] + s.ring.readers
                 && Apply(s, step).ring.completed != [|s.ops|] + s.ring.completed
  {
    hide Events, ResumeAll;
  }

  lemma RecentFirstStep<T>(s: System<T>, step: Step<T>)
    requires RecentFirst(s) && Enabled(s, step)
    ensures RecentFirst(Apply(s, step))
    ensures ServesLast(s.ring.readers, Apply(s, step).ring.readers)
    ensures ServesLast(s.ring.completed, Apply(s, step).ring.completed)
  {
    hide Apply, Enabled, Recent, Stacks, ServesLast;
    StepStacks(s, step);
    StacksServe(s.ring.readers, Apply(s, step).ring.readers, |s.ops|);
    StacksServe(s.ring.completed, Apply(s, step).ring.completed, |s.ops|);
  }

  lemma {:induction false} RecentFirstRun<T>(s: System<T>, steps: seq<Step<T>>)
    requires RecentFirst(s) && IsRun(s, steps)
    ensures RecentFirst(Exec(s, steps))
    decreases |steps|
  {
    hide Apply, Enabled, RecentFirst;
    if steps != [] {
      RecentFirstStep(s, steps[0]);
      RecentFirstRun(Apply(s, steps[0]), steps[1..]);
    }
  }

  /** In every run, a step that resumes a reader, or a completed-waiter, leaves none waiting that came
      after it. */
  lemma LastComeFirstServed<T>(cap: nat, steps: seq<Step<T>>, step: Step<T>, r: OpId, q: OpId)
    requires IsRun(Init(cap), steps) && Enabled(Exec(Init(cap), steps), step)
    ensures var s := Exec(Init(cap), steps); var s' := Apply(s, step);
      && (r in s.ring.readers && r !in s'.ring.readers && q in s'.ring.readers ==> q < r)
      && (r in s.ring.completed && r !in s'.ring.completed && q in s'.ring.completed ==> q < r)
  {
    hide Apply, Enabled, IsRun, Exec;
    RecentFirstRun(Init<T>(cap), steps);
    RecentFirstStep(Exec(Init(cap), steps), step);
  }
}
