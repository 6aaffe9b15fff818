/**
 Order as the writer sees it: with one writer, what readers get is a prefix of what it wrote;
 with two, the LIFO list of suspended writers can reorder.
 */
module RingOrder {
  import opened RingSpec
  import opened RingSystem
  import opened RingClose

  /** A write is called only when no earlier write is still pending. */
  ghost predicate OneWriter<T>(s: System<T>, steps: seq<Step<T>>)
    requires IsRun(s, steps)
    decreases |steps|
  {
    steps != [] ==>
      && (steps[0].WriteCheck? ==> s.cleared == map[] && s.ring.writers == [])
      && OneWriter(Apply(s, steps[0]), steps[1..])
  }

  /** At most one write is pending; what was admitted is a prefix of what was issued, and falls
      short by the pending element only, unless the ring is stopped. */
  ghost predicate Solo<T>(s: System<T>) {
    var asked, admitted := Moved(Ask, s.log), Moved(In, s.log);
    && |s.ring.writers| <= 1
    && (s.ring.writers != [] ==> s.cleared == map[] && asked == admitted + [s.ring.writers[0].e])
    && (forall op :: op in s.cleared ==> asked == admitted + [s.cleared[op]] && s.cleared == map[op := s.cleared[op]])
    && (s.cleared == map[] && s.ring.writers == [] ==> admitted <= asked && (admitted == asked || s.ring.stopped))
  }

  lemma SoloCheck<T>(s: System<T>, e: T)
    requires Solo(s) && s.cleared == map[] && s.ring.writers == []
    ensures Solo(Apply(s, WriteCheck(e)))
  {
    hide Moved, Events;
    var s' := Apply(s, WriteCheck(e));
    StepMoves(s, WriteCheck(e));
    LogMoves(Ask, s, WriteCheck(e));
    LogMoves(In, s, WriteCheck(e));
    var asked, admitted := Moved(Ask, s.log), Moved(In, s.log);
    if s.ring.stopped {
      assert admitted <= asked + [e];
    } else {
      assert s'.cleared == map[|s.ops| := e] && |s.ops| in s'.cleared;
    }
  }

  lemma SoloLock<T>(s: System<T>, w: OpId)
    requires RingInv(s.ring) && Solo(s) && w in s.cleared
    ensures Solo(Apply(s, WriteLock(w)))
  {
    hide Moved, Events;
    StepMoves(s, WriteLock(w));
    LogMoves(Ask, s, WriteLock(w));
    LogMoves(In, s, WriteLock(w));
    assert s.cleared == map[w := s.cleared[w]];
    assert s.cleared - {w} == map[];
  }

  lemma SoloRead<T>(s: System<T>)
    requires RingInv(s.ring) && Solo(s)
    ensures Solo(Apply(s, ReadLock))
  {
    hide Moved, Events, ResumeAll;
    StepMoves(s, ReadLock);
    LogMoves(Ask, s, ReadLock);
    LogMoves(In, s, ReadLock);
  }

  lemma SoloStep<T>(s: System<T>, step: Step<T>)
    requires Inv(s) && Solo(s) && Enabled(s, step)
    requires step.WriteCheck? ==> s.cleared == map[] && s.ring.writers == []
    ensures Solo(Apply(s, step))
  {
    hide Moved, Events, WriteSection, ReadSection;
    match step
    case WriteCheck(e) => SoloCheck(s, e);
    case WriteLock(w) => SoloLock(s, w);
    case ReadLock => SoloRead(s);
    case _ =>
      StepMoves(s, step);
      LogMoves(Ask, s, step);
      LogMoves(In, s, step);
  }

  lemma {:induction false} SoloRun<T>(s: System<T>, steps: seq<Step<T>>)
    requires Inv(s) && Solo(s) && IsRun(s, steps) && OneWriter(s, steps)
    ensures Solo(Exec(s, steps))
    decreases |steps|
  {
    hide Apply, Enabled, Solo, Moved;
    if steps != [] {
      InvStep(s, steps[0]);
      SoloStep(s, steps[0]);
      SoloRun(Apply(s, steps[0]), steps[1..]);
    }
  }

  /** With a single writer, what has been delivered is a prefix of what it has written. */
  lemma SingleWriterOrder<T>(cap: nat, steps: seq<Step<T>>)
    requires 0 < cap && IsRun(Init(cap), steps) && OneWriter(Init(cap), steps)
    ensures var s := Exec(Init(cap), steps); Moved(Out, s.log) <= Moved(In, s.log) <= Written(steps)
  {
    hide IsRun, Exec, OneWriter, Moved, Written;
    AskedIsWritten(cap, steps);
    SoloInit<T>(cap);
    SoloRun(Init<T>(cap), steps);
    InvRun(Init<T>(cap), steps);
    SoloPrefix(Exec(Init(cap), steps));
  }

  lemma SoloInit<T>(cap: nat)
    requires 0 < cap
    ensures Inv(Init<T>(cap)) && Solo(Init<T>(cap))
  {
  }

  lemma SoloPrefix<T>(s: System<T>)
    requires Inv(s) && Solo(s)
    ensures Moved(Out, s.log) <= Moved(In, s.log) <= Moved(Ask, s.log)
  {
    hide Moved;
    if s.cleared != map[] {
      var op :| op in s.cleared;
    }
  }

  // ---------------------------------------------------------------- two writers

  /** Open, nobody waiting to read, and no write between its check and the lock. */
  ghost predicate Plain<T>(s: System<T>) {
    RingInv(s.ring) && !s.ring.stopped && s.ring.readers == [] && s.cleared == map[]
  }

  /** A whole write, uninterrupted. */
  lemma OneWrite<T>(s: System<T>, e: T) returns (s': System<T>, steps: seq<Step<T>>)
    requires Plain(s)
    ensures IsRun(s, steps) && Exec(s, steps) == s' && Plain(s')
    ensures s'.ring == WriteSection(s.ring, |s.ops|, e).ring
    ensures Moved(Ask, s'.log) == Moved(Ask, s.log) + [e] && Moved(Out, s'.log) == Moved(Out, s.log)
  {
    hide Moved, Events;
    var w := |s.ops|;
    var s1 := Apply(s, WriteCheck(e));
    s' := Apply(s1, WriteLock(w));
    assert s1.cleared == map[w := e] && s'.cleared == map[];
    RunCons(s1, WriteLock(w), []);
    RunCons(s, WriteCheck(e), [WriteLock(w)] + []);
    steps := [WriteCheck(e)] + ([WriteLock(w)] + []);
    Logged(s, WriteCheck(e));
    Logged(s1, WriteLock(w));
  }

  /** What a step adds to the projections of the log. */
  lemma Logged<T>(s: System<T>, step: Step<T>)
    requires Enabled(s, step)
    ensures Moved(Ask, Apply(s, step).log) == Moved(Ask, s.log) + Moved(Ask, Events(s, step))
    ensures Moved(Out, Apply(s, step).log) == Moved(Out, s.log) + Moved(Out, Events(s, step))
    ensures step.WriteCheck? ==> Moved(Ask, Events(s, step)) == [step.e] && Moved(Out, Events(s, step)) == []
    ensures step.WriteLock? && s.ring.readers == [] ==> Moved(Ask, Events(s, step)) == [] == Moved(Out, Events(s, step))
    ensures step.ReadLock? ==> Moved(Ask, Events(s, step)) == []
  {
    hide Moved, Events;
    StepMoves(s, step);
    LogMoves(Ask, s, step);
    LogMoves(Out, s, step);
  }

  /** Writes that find room. */
  lemma {:induction false} FillUp<T>(s: System<T>, es: seq<T>) returns (s': System<T>, steps: seq<Step<T>>)
    requires Plain(s) && |s.ring.queue| + |es| <= s.ring.cap
    ensures IsRun(s, steps) && Exec(s, steps) == s' && Plain(s') && s'.ring == s.ring.(queue := s.ring.queue + es)
    ensures Moved(Ask, s'.log) == Moved(Ask, s.log) + es && Moved(Out, s'.log) == Moved(Out, s.log)
    decreases |es|
  {
    hide Apply, Enabled, Moved;
    s', steps := s, [];
    if es != [] {
      var s1, first := OneWrite(s, es[0]);
      var s2, rest := FillUp(s1, es[1..]);
      RunAppend(s, first, rest);
      s', steps := s2, first + rest;
      assert s.ring.queue + [es[0]] + es[1..] == s.ring.queue + es;
      assert Moved(Ask, s.log) + [es[0]] + es[1..] == Moved(Ask, s.log) + es;
    }
  }

  /** Reads that find something deliver the backlog. */
  lemma {:induction false} ReadDown<T>(s: System<T>) returns (steps: seq<Step<T>>)
    requires RingInv(s.ring)
    ensures IsRun(s, steps)
    ensures var s' := Exec(s, steps);
      Moved(Ask, s'.log) == Moved(Ask, s.log) && Moved(Out, s'.log) == Moved(Out, s.log) + Backlog(s.ring)
    decreases |Backlog(s.ring)|
  {
    hide Apply, Moved, Events, Backlog;
    steps := [];
    NoBacklog(s.ring);
    if s.ring.queue != [] {
      var b := Backlog(s.ring);
      ReadTakesBacklog(s);
      Logged(s, ReadLock);
      StepRingInv(s, ReadLock);
      var rest := ReadDown(Apply(s, ReadLock));
      RunCons(s, ReadLock, rest);
      steps := [ReadLock] + rest;
      assert Moved(Out, s.log) + [b[0]] + b[1..] == Moved(Out, s.log) + b;
    }
  }

  lemma NoBacklog<T>(r: Ring<T>)
    requires RingInv(r)
    ensures r.queue == [] <==> Backlog(r) == []
  {
  }

  ghost predicate Reorders<T>(cap: nat, steps: seq<Step<T>>, es: seq<T>, a: T, b: T) {
    && IsRun(Init(cap), steps)
    && Written(steps) == es + [a, b]
    && Moved(Out, Exec(Init(cap), steps).log) == es + [b, a]
  }

  /** Two suspended writers are let in last come, first served, at any capacity: once the ring is full
      of any elements, `a` and `b` are written in this order and delivered in the other. */
  lemma TwoWritersReorder<T(!new)>(es: seq<T>, a: T, b: T)
    requires es != []
    ensures exists steps: seq<Step<T>> :: Reorders(|es|, steps, es, a, b)
  {
    hide Apply, Enabled, Moved;
    var s0 := Init<T>(|es|);
    assert Moved(Ask, s0.log) == [] == Moved(Out, s0.log) by {
      MovedShort<T>([]);
    }
    var s1, fill := FillUp(s0, es);
    var s2, first := OneWrite(s1, a);
    var s3, second := OneWrite(s2, b);
    var reading := ReadDown(s3);
    assert Backlog(s3.ring) == es + [b, a];
    RunAppend(s2, second, reading);
    RunAppend(s1, first, second + reading);
    RunAppend(s0, fill, first + (second + reading));
    AskedIsWritten(|es|, fill + (first + (second + reading)));
    assert es + [a] + [b] == es + [a, b];
    assert Reorders(|es|, fill + (first + (second + reading)), es, a, b);
  }
}
