/**
 One test cycle of `SegmentWatcher`: a source that emits tracers, in sequence or freely, and a
 sink that publishes readiness, then records and counts each tracer.
 */
module SegmentWatcher {

  /** Where the source is: testing the count, spinning on readiness, about to claim it, about to emit,
      or out of the cycle. */
  datatype Place = Test | Spin | Claim | Emit | Over

  /** `inFlight` tracers have not reached the sink; `recording` ones have had their readiness published
      but are not counted yet. */
  datatype Cycle = Cycle(
    max: nat,
    sequenced: bool,
    running: bool,
    place: Place,
    ready: bool,
    emitted: nat,
    count: nat,
    inFlight: nat,
    recording: nat)

  datatype Step =
    | SourceStep
    | Publish   // the first statement of the sink's bookkeeping
    | Record    // the other two
    | Sink      // all three at once
    | Shutdown

  /** A cycle that starts just after `reset`, with no tracer on its way. */
  function Start(max: nat, sequenced: bool): Cycle {
    Cycle(max, sequenced, true, Test, true, 0, 0, 0, 0)
  }

  ghost predicate Enabled(c: Cycle, step: Step) {
    match step
    case SourceStep => c.place != Over && (c.place == Spin ==> c.ready || !c.running)
    case Publish => 0 < c.inFlight
    case Record => 0 < c.recording
    case Sink => 0 < c.inFlight
    case Shutdown => true
  }

  function Apply(c: Cycle, step: Step): Cycle
    requires Enabled(c, step)
  {
    match step
    case SourceStep =>
      (match c.place
       case Test => c.(place := if c.count >= c.max then Over else if c.sequenced then Spin else Emit)
       case Spin => c.(place := Claim)
       case Claim => c.(place := Emit, ready := false)
       case Emit =>
         if c.emitted < c.max then c.(place := Test, emitted := c.emitted + 1, inFlight := c.inFlight + 1)
         else c.(place := Test)
       case Over => c)
    case Publish => c.(ready := true, inFlight := c.inFlight - 1, recording := c.recording + 1)
    case Record => c.(count := c.count + 1, recording := c.recording - 1)
    case Sink => c.(ready := true, inFlight := c.inFlight - 1, count := c.count + 1)
    case Shutdown => c.(running := false)
  }

  ghost predicate IsRun(c: Cycle, steps: seq<Step>)
    decreases |steps|
  {
    steps != [] ==> Enabled(c, steps[0]) && IsRun(Apply(c, steps[0]), steps[1..])
  }

  ghost function Exec(c: Cycle, steps: seq<Step>): Cycle
    requires IsRun(c, steps)
    decreases |steps|
  {
    if steps == [] then c else Exec(Apply(c, steps[0]), steps[1..])
  }

  // ---------------------------------------------------------------- the object

  class Watcher {
    const max: nat
    var ready: bool
    var count: nat
    var tracers: seq<nat>

    constructor (max: nat)
      ensures this.max == max && ready && count == 0 && tracers == []
    {
      this.max := max;
      ready, count, tracers := true, 0, [];
    }

    method Reset()
      modifies this`count, this`tracers
      ensures count == 0 && tracers == []
    {
      count := 0;
      tracers := [];
    }

    /** The bookkeeping of the sink lambda. */
    method SinkLambda(tracer: nat)
      modifies this
      ensures ready && count == old(count) + 1 && tracers == old(tracers) + [tracer]
      ensures forall c: Cycle :: Enabled(c, Sink) && c.ready == old(ready) && c.count == old(count) ==>
                Apply(c, Sink).ready == ready && Apply(c, Sink).count == count
    {
      ready := true;
      tracers := tracers + [tracer];
      count := count + 1;
    }
  }

  // ---------------------------------------------------------------- what holds at every grain

  /** One right to emit goes round: it is published, claimed by the source, or in flight. */
  function Tokens(c: Cycle): nat {
    (if c.ready then 1 else 0) + (if c.place == Emit then 1 else 0) + c.inFlight
  }

  ghost predicate Inv(c: Cycle) {
    && c.emitted <= c.max
    && c.emitted == c.count + c.inFlight + c.recording
    && (c.sequenced && c.running ==> Tokens(c) <= 1 && (c.place == Claim ==> c.ready))
    && (c.place == Over ==> c.count >= c.max)
    && (c.place == Spin || c.place == Claim ==> c.sequenced)
    && (c.place == Spin || c.place == Claim || c.place == Emit ==> 0 < c.max)
  }

  lemma InvStep(c: Cycle, step: Step)
    requires Inv(c) && Enabled(c, step)
    ensures Inv(Apply(c, step)) && Apply(c, step).max == c.max && Apply(c, step).sequenced == c.sequenced
  {
  }

  lemma {:induction false} InvRun(c: Cycle, steps: seq<Step>)
    requires Inv(c) && IsRun(c, steps)
    ensures Inv(Exec(c, steps)) && Exec(c, steps).max == c.max && Exec(c, steps).sequenced == c.sequenced
    decreases |steps|
  {
    hide Apply, Enabled, Inv;
    if steps != [] {
      InvStep(c, steps[0]);
      InvRun(Apply(c, steps[0]), steps[1..]);
    }
  }

  /** In every run, even when the sink's statements interleave with the source: while running, a
      sequenced source has at most one tracer in flight; a cycle is over only when exactly `max`
      tracers have been emitted and all of them collected. */
  lemma CycleIsComplete(max: nat, sequenced: bool, steps: seq<Step>)
    requires IsRun(Start(max, sequenced), steps)
    ensures var c := Exec(Start(max, sequenced), steps);
      && (sequenced && c.running ==> c.inFlight <= 1)
      && c.emitted <= max
      && c.count == Collected(steps)
      && (c.place == Over ==> c.emitted == c.count == max && c.inFlight == 0 && c.recording == 0)
  {
    hide Apply, Enabled, IsRun, Exec;
    CountsTracers(Start(max, sequenced), steps);
    InvRun(Start(max, sequenced), steps);
  }

  /** How many tracers the steps of a run collect. */
  function Collected(steps: seq<Step>): nat {
    if steps == [] then 0
    else (if steps[0] == Sink || steps[0] == Record then 1 else 0) + Collected(steps[1..])
  }

  /** The count is the number of tracers collected. */
  lemma {:induction false} CountsTracers(c: Cycle, steps: seq<Step>)
    requires IsRun(c, steps)
    ensures Exec(c, steps).count == c.count + Collected(steps)
    decreases |steps|
  {
    if steps != [] {
      CountsTracers(Apply(c, steps[0]), steps[1..]);
    }
  }

  // ---------------------------------------------------------------- does the cycle end?

  /** The source spins on readiness, and nothing is left that would publish it. */
  ghost predicate Stuck(c: Cycle) {
    c.running && c.place == Spin && !c.ready && c.inFlight == 0
  }

  /** The sink's bookkeeping was done in one step throughout. */
  ghost predicate Whole(steps: seq<Step>) {
    forall i :: 0 <= i < |steps| ==> steps[i] != Publish && steps[i] != Record
  }

  /** With a whole sink, the right to emit is lost only when everything has been counted. */
  ghost predicate WholeInv(c: Cycle) {
    && c.recording == 0
    && (c.sequenced && c.running ==>
          && (c.place == Spin || c.place == Claim || c.place == Emit ==> Tokens(c) == 1)
          && (c.place == Test ==> Tokens(c) == 1 || c.count == c.max))
  }

  lemma {:induction false} WholeRun(c: Cycle, steps: seq<Step>)
    requires Inv(c) && WholeInv(c) && IsRun(c, steps) && Whole(steps)
    ensures Inv(Exec(c, steps)) && WholeInv(Exec(c, steps))
    decreases |steps|
  {
    if steps != [] {
      InvStep(c, steps[0]);
      WholeStep(c, steps[0]);
      WholeRun(Apply(c, steps[0]), steps[1..]);
    }
  }

  lemma WholeStep(c: Cycle, step: Step)
    requires Inv(c) && WholeInv(c) && Enabled(c, step) && step != Publish && step != Record
    ensures WholeInv(Apply(c, step))
  {
  }

  /** With a whole sink a sequenced cycle never gets stuck. */
  lemma NeverStuckWhole(max: nat, steps: seq<Step>)
    requires IsRun(Start(max, true), steps) && Whole(steps)
    ensures !Stuck(Exec(Start(max, true), steps))
  {
    hide Apply, Enabled, IsRun, Exec;
    WholeRun(Start(max, true), steps);
    InvRun(Start(max, true), steps);
  }

  /** How far a cycle is from the next tracer counted, or from its end. */
  function Distance(c: Cycle): nat {
    if 0 < c.inFlight then 0
    else match c.place
      case Over => 0
      case Test => if c.count < c.max then 4 else 1
      case Emit => if c.count < c.max then 1 else 2
      case Claim => if c.count < c.max then 2 else 3
      case Spin => if c.count < c.max then 3 else 4
  }

  /** With a whole sink, every cycle can be brought to its end. */
  lemma {:induction false} CanFinish(c: Cycle) returns (steps: seq<Step>)
    requires Inv(c) && WholeInv(c)
    ensures IsRun(c, steps) && Whole(steps) && Exec(c, steps).place == Over
    decreases c.max - c.count, Distance(c)
  {
    hide IsRun, Exec;
    if c.place == Over {
      steps := [];
      NoSteps(c);
    } else {
      var step := if 0 < c.inFlight then Sink else SourceStep;
      InvStep(c, step);
      WholeStep(c, step);
      var rest := CanFinish(Apply(c, step));
      RunCons(c, step, rest);
      steps := [step] + rest;
    }
  }

  /** Once the watcher is shut down, every cycle can be brought to its end, with the sink as written. */
  lemma {:induction false} CanWindDown(c: Cycle) returns (steps: seq<Step>)
    requires Inv(c) && !c.running
    ensures IsRun(c, steps) && Exec(c, steps).place == Over
    decreases c.max - c.count, Distance(c)
  {
    hide IsRun, Exec;
    if c.place == Over {
      steps := [];
      NoSteps(c);
    } else {
      var step := if 0 < c.recording then Record else if 0 < c.inFlight then Sink else SourceStep;
      InvStep(c, step);
      var rest := CanWindDown(Apply(c, step));
      RunCons(c, step, rest);
      steps := [step] + rest;
    }
  }

  lemma NoSteps(c: Cycle)
    ensures IsRun(c, []) && Exec(c, []) == c
  {
  }

  lemma RunCons(c: Cycle, step: Step, rest: seq<Step>)
    requires Enabled(c, step) && IsRun(Apply(c, step), rest)
    ensures IsRun(c, [step] + rest) && Exec(c, [step] + rest) == Exec(Apply(c, step), rest)
  {
    hide Apply, Enabled;
    assert ([step] + rest)[0] == step && ([step] + rest)[1..] == rest;
  }

  /** From every point of every run with a whole sink, sequenced or not, some continuation ends the cycle. */
  lemma WholeCycleCanEnd(max: nat, sequenced: bool, steps: seq<Step>)
    requires IsRun(Start(max, sequenced), steps) && Whole(steps)
    ensures exists rest :: IsRun(Exec(Start(max, sequenced), steps), rest) && Whole(rest)
                           && Exec(Exec(Start(max, sequenced), steps), rest).place == Over
  {
    hide Apply, Enabled, IsRun, Exec;
    WholeRun(Start(max, sequenced), steps);
    var rest := CanFinish(Exec(Start(max, sequenced), steps));
  }

  lemma {:induction false} RunAppend(c: Cycle, a: seq<Step>, b: seq<Step>)
    requires IsRun(c, a) && IsRun(Exec(c, a), b)
    ensures IsRun(c, a + b) && Exec(c, a + b) == Exec(Exec(c, a), b)
    decreases |a|
  {
    hide Apply, Enabled;
    if a == [] {
      assert a + b == b;
    } else {
      RunAppend(Apply(c, a[0]), a[1..], b);
      assert (a + b)[1..] == a[1..] + b;
    }
  }

  /** Between rounds: everything emitted so far has been counted, and readiness is published. */
  ghost predicate Between(c: Cycle) {
    c.sequenced && c.running && c.place == Test && c.ready && c.inFlight == c.recording == 0 && c.emitted == c.count
  }

  /** As written, a sequenced cycle of any positive size can get stuck: readiness is published before
      the tracer is counted, so after the last tracer the source can claim readiness, find everything
      emitted and the count still short, and spin on. */
  lemma {:induction false} StuckAsWritten(c: Cycle) returns (steps: seq<Step>)
    requires Between(c) && c.count < c.max
    ensures IsRun(c, steps) && Stuck(Exec(c, steps))
    decreases c.max - c.count
  {
    hide Apply, Enabled, IsRun, Exec;
    var round := [SourceStep, SourceStep, SourceStep, SourceStep];
    FourSteps(c);
    var c1 := Exec(c, round);
    if c.count + 1 < c.max {
      OneStep(c1, Sink);
      var rest := StuckAsWritten(Exec(c1, [Sink]));
      RunAppend(c1, [Sink], rest);
      steps := round + ([Sink] + rest);
      RunAppend(c, round, [Sink] + rest);
    } else {
      OneStep(c1, Publish);
      var c2 := Exec(c1, [Publish]);
      FourSteps(c2);
      var c3 := Exec(c2, round);
      OneStep(c3, SourceStep);
      RunAppend(c2, round, [SourceStep]);
      RunAppend(c1, [Publish], round + [SourceStep]);
      steps := round + ([Publish] + (round + [SourceStep]));
      RunAppend(c, round, [Publish] + (round + [SourceStep]));
    }
  }

  lemma OneStep(c: Cycle, step: Step)
    requires match step {
      case SourceStep => c.place == Test && c.count < c.max && c.sequenced
      case Publish => 0 < c.inFlight
      case Sink => 0 < c.inFlight
      case _ => false
    }
    ensures IsRun(c, [step])
    ensures Exec(c, [step]) == match step {
      case SourceStep => c.(place := Spin)
      case Publish => c.(ready := true, inFlight := c.inFlight - 1, recording := c.recording + 1)
      case Sink => c.(ready := true, inFlight := c.inFlight - 1, count := c.count + 1)
      case _ => c
    }
  {
    assert [step][1..] == [];
  }

  /** A round of the source, from the test of the count to the next. */
  lemma FourSteps(c: Cycle)
    requires c.sequenced && c.place == Test && c.count < c.max && c.ready
    ensures var steps := [SourceStep, SourceStep, SourceStep, SourceStep];
      && IsRun(c, steps)
      && Exec(c, steps) == (if c.emitted < c.max
                            then c.(ready := false, emitted := c.emitted + 1, inFlight := c.inFlight + 1)
                            else c.(ready := false))
  {
    var d: seq<Step> := [SourceStep];
    assert d[1..] == [];
    var e: seq<Step> := [SourceStep, SourceStep];
    assert e[1..] == d;
    var f: seq<Step> := [SourceStep, SourceStep, SourceStep];
    assert f[1..] == e;
    var g: seq<Step> := [SourceStep, SourceStep, SourceStep, SourceStep];
    assert g[1..] == f;
    var c1 := Apply(c, SourceStep);
    var c2 := Apply(c1, SourceStep);
    var c3 := Apply(c2, SourceStep);
    var c4 := Apply(c3, SourceStep);
    assert IsRun(c3, d) && Exec(c3, d) == c4;
    assert IsRun(c2, e) && Exec(c2, e) == c4;
    assert IsRun(c1, f) && Exec(c1, f) == c4;
  }

  ghost predicate CanGetStuck(max: nat) {
    exists steps :: IsRun(Start(max, true), steps) && Stuck(Exec(Start(max, true), steps))
  }

  /** As written, a sequenced cycle can get stuck if and only if it has anything to emit. */
  lemma StuckIsExact(max: nat)
    ensures CanGetStuck(max) <==> 0 < max
  {
    if 0 < max {
      var steps := StuckAsWritten(Start(max, true));
    } else {
      forall steps | IsRun(Start(max, true), steps) ensures !Stuck(Exec(Start(max, true), steps)) {
        InvRun(Start(max, true), steps);
      }
    }
  }

  /** A shutdown frees every cycle, a stuck one too: from every point of every run, some continuation
      that begins with it ends the cycle. */
  lemma ShutdownFrees(max: nat, sequenced: bool, steps: seq<Step>)
    requires IsRun(Start(max, sequenced), steps)
    ensures var c := Exec(Start(max, sequenced), steps);
      exists rest :: IsRun(c, [Shutdown] + rest) && Exec(c, [Shutdown] + rest).place == Over
  {
    hide IsRun, Exec;
    InvRun(Start(max, sequenced), steps);
    var c := Exec(Start(max, sequenced), steps);
    InvStep(c, Shutdown);
    var rest := CanWindDown(Apply(c, Shutdown));
    RunCons(c, Shutdown, rest);
  }

  /** Who is stuck stays stuck, whatever else happens, until the watcher is shut down. */
  lemma {:induction false} StuckForGood(c: Cycle, steps: seq<Step>)
    requires Stuck(c) && IsRun(c, steps) && Shutdown !in steps
    ensures Stuck(Exec(c, steps))
    decreases |steps|
  {
    if steps != [] {
      assert steps[0] != Shutdown;
      StuckForGood(Apply(c, steps[0]), steps[1..]);
    }
  }
}
