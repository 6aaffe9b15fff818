/**
 What a run of a service does, from its steps alone: the state it ends in, the hooks it claims, and
 what its calls return.
 */
module ServiceSteps {
  import opened Common
  import opened ServiceLifecycle

  /** The step completes the service: the start hook throws, or the first joiner's unwinder runs, at
      once if the join hook throws. */
  predicate Completes(step: Step) {
    || (step.StartEnds? && step.throws)
    || (step.JoinHookEnds? && step.end != Returns)
    || step.Unwind?
  }

  /** The step takes a service to `state` or beyond, if it was started before. */
  predicate TakesTo(step: Step, state: State, started: bool) {
    || Completes(step)
    || (Rank(state) <= Rank(Starting) && step == CallStart)
    || (Rank(state) <= Rank(Running) && step.StartEnds?)
    || (started && Rank(state) <= Rank(Stopping) && step == CallDemand(StopHook))
    || (started && Rank(state) <= Rank(Killing) && step == CallDemand(KillHook))
  }

  /** Some step of the run does; `started` says whether the service was started before the run. */
  ghost predicate Demanded(steps: seq<Step>, state: State, started: bool) {
    exists i :: 0 <= i < |steps| && TakesTo(steps[i], state, started || CallStart in steps[..i])
  }

  lemma StepDemanded(s: System, step: Step, state: State)
    requires Enabled(s, step) && state != Initialized && (step.StartEnds? ==> s.state != Initialized)
    ensures Rank(state) <= Rank(Apply(s, step).state) <==>
            Rank(state) <= Rank(s.state) || TakesTo(step, state, s.state != Initialized)
    ensures Apply(s, step).state != Initialized <==> s.state != Initialized || step == CallStart || Completes(step)
  {
  }

  lemma DemandedCons(steps: seq<Step>, state: State, started: bool)
    requires steps != []
    ensures Demanded(steps, state, started) <==>
            TakesTo(steps[0], state, started) || Demanded(steps[1..], state, started || steps[0] == CallStart)
  {
    hide TakesTo;
    var rest, begun := steps[1..], started || steps[0] == CallStart;
    assert forall i :: 0 <= i < |rest| ==>
        (CallStart in steps[..i + 1] <==> steps[0] == CallStart || CallStart in rest[..i]) by {
      forall i | 0 <= i < |rest| ensures steps[..i + 1] == [steps[0]] + rest[..i] {
      }
    }
    if i :| 0 <= i < |rest| && TakesTo(rest[i], state, begun || CallStart in rest[..i]) {
      assert TakesTo(steps[i + 1], state, started || CallStart in steps[..i + 1]);
    }
    if i :| 0 < i < |steps| && TakesTo(steps[i], state, started || CallStart in steps[..i]) {
      assert TakesTo(rest[i - 1], state, begun || CallStart in rest[..i - 1]);
    }
    if TakesTo(steps[0], state, started) {
      assert steps[..0] == [];
      assert TakesTo(steps[0], state, started || CallStart in steps[..0]);
    }
  }

  lemma StartingStarted(s: System, step: Step)
    requires Inv(s) && Enabled(s, step)
    ensures step.StartEnds? || Completes(step) ==> s.state != Initialized
  {
    hide ClaimsInOrder, JoinInv;
  }

  lemma {:induction false} DemandedRun(s: System, steps: seq<Step>, state: State)
    requires Inv(s) && IsRun(s, steps) && state != Initialized
    ensures Rank(state) <= Rank(Exec(s, steps).state) <==>
            Rank(state) <= Rank(s.state) || Demanded(steps, state, s.state != Initialized)
    decreases |steps|
  {
    hide Apply, Enabled, Inv, Demanded, TakesTo, Rank, Completes;
    if steps == [] {
      NotDemanded(state, s.state != Initialized);
    } else {
      StartingStarted(s, steps[0]);
      StepDemanded(s, steps[0], state);
      DemandedCons(steps, state, s.state != Initialized);
      InvStep(s, steps[0]);
      DemandedRun(Apply(s, steps[0]), steps[1..], state);
    }
  }

  lemma NotDemanded(state: State, started: bool)
    ensures !Demanded([], state, started)
  {
  }

  /** The state after any run, from its steps alone: a state has been reached or passed if and only if
      some step demands it, whatever the order.  Starting is demanded by a start; Running by the end
      of the start hook; Stopping and Killing by a stop and a kill that come after a start; and all of
      them, and Completed, by a start hook that throws or by the first joiner's unwinder. */
  lemma StateIsExact(steps: seq<Step>, state: State)
    requires IsRun(Init(), steps) && state != Initialized
    ensures Rank(state) <= Rank(Exec(Init(), steps).state) <==> Demanded(steps, state, false)
  {
    hide Apply, Enabled, IsRun, Exec, Demanded;
    StartsInOrder();
    DemandedRun(Init(), steps, state);
  }

  /** A call that has returned keeps its outcome, and one that was let in is not refused later. */
  lemma {:induction false} ReturnedStays(s: System, steps: seq<Step>, t: nat)
    requires IsRun(s, steps) && t < |s.calls|
    ensures t < |Exec(s, steps).calls|
    ensures s.calls[t].Returned? ==> Exec(s, steps).calls[t] == s.calls[t]
    ensures s.calls[t] != Returned(false, Refused) ==> Exec(s, steps).calls[t] != Returned(false, Refused)
    decreases |steps|
  {
    if steps != [] {
      ReturnedStays(Apply(s, steps[0]), steps[1..], t);
    }
  }

  /** A start, stop or kill whose hook has ended returns as the hook did; and if it was the start hook,
      the service is then Running at least, or Completed if it threw. */
  lemma CallsEndAsTheirHooks(steps: seq<Step>, i: nat)
    requires IsRun(Init(), steps) && i < |steps| && (steps[i].StartEnds? || steps[i].DemandEnds?)
    ensures var s := Exec(Init(), steps); var t := steps[i].t;
      && t < |s.calls| && s.calls[t] == Returned(false, if steps[i].throws then HookThrew else Ok)
      && (steps[i].StartEnds? ==> Rank(if steps[i].throws then Completed else Running) <= Rank(s.state))
  {
    RunAt(steps, i);
    var s := Apply(Exec(Init(), steps[..i]), steps[i]);
    ReturnedStays(s, steps[i + 1..], steps[i].t);
    NeverBackwards(s, steps[i + 1..]);
  }

  predicate IsCall(step: Step) {
    step.CallStart? || step.CallDemand? || step.CallJoin?
  }

  /** Calls are numbered in the order in which they are made. */
  function Calls(steps: seq<Step>): nat {
    if steps == [] then 0 else Calls(steps[..|steps| - 1]) + (if IsCall(steps[|steps| - 1]) then 1 else 0)
  }

  lemma {:induction false} CallsCount(steps: seq<Step>)
    requires IsRun(Init(), steps)
    ensures |Exec(Init(), steps).calls| == Calls(steps)
    ensures Exec(Init(), steps).state != Initialized <==> CallStart in steps
    decreases |steps|
  {
    if steps != [] {
      var n := |steps| - 1;
      var before := steps[..n];
      RunAt(steps, n);
      CallsCount(before);
      assert steps == before + [steps[n]];
      StartsInOrder();
      InvRun(Init(), before);
      StartingStarted(Exec(Init(), before), steps[n]);
    }
  }

  /** A start is refused if and only if there was one before; a stop, a kill and a join if and only if
      there was none. */
  lemma RefusalsAreExact(steps: seq<Step>, i: nat)
    requires IsRun(Init(), steps) && i < |steps| && IsCall(steps[i])
    ensures var s := Exec(Init(), steps); var t := Calls(steps[..i]);
      && t < |s.calls|
      && (s.calls[t] == Returned(false, Refused) <==> (steps[i] == CallStart <==> CallStart in steps[..i]))
  {
    hide Calls, IsRun, Exec;
    RunAt(steps, i);
    CallsCount(steps[..i]);
    ReturnedStays(Apply(Exec(Init(), steps[..i]), steps[i]), steps[i + 1..], Calls(steps[..i]));
  }

  /** Step `i` claims the hook: the first start; a stop or a kill after a start, when neither has gone
      that far; the first join after a start. */
  ghost predicate ClaimedAt(steps: seq<Step>, i: nat, hook: Hook)
    requires i < |steps|
  {
    var before := steps[..i];
    match hook
    case StartHook => steps[i] == CallStart && CallStart !in before
    case JoinHook => steps[i] == CallJoin && CallStart in before
    case _ =>
      steps[i] == CallDemand(hook) && Demanded(before, Starting, false) && !Demanded(before, Target(hook), false)
  }

  /** The hooks that have been claimed, from the steps alone. */
  lemma {:induction false} ClaimsAreExact(steps: seq<Step>, hook: Hook)
    requires IsRun(Init(), steps)
    ensures hook in Exec(Init(), steps).claims <==> exists i :: 0 <= i < |steps| && ClaimedAt(steps, i, hook)
    decreases |steps|
  {
    hide Demanded, IsRun, Exec;
    if steps == [] {
      InitClaims();
    } else {
      var n := |steps| - 1;
      var before := steps[..n];
      RunAt(steps, n);
      EmptyRest(Apply(Exec(Init(), before), steps[n]), steps[n + 1..]);
      ClaimsAreExact(before, hook);
      ClaimStep(before, steps[n], hook);
      assert steps == before + [steps[n]];
      forall i | 0 <= i < n ensures ClaimedAt(steps, i, hook) <==> ClaimedAt(before, i, hook) {
        assert steps[..i] == before[..i];
      }
      if i :| 0 <= i < n && ClaimedAt(before, i, hook) {
        assert ClaimedAt(steps, i, hook);
      }
      assert ClaimedAt(steps, n, hook) ==> exists i :: 0 <= i < |steps| && ClaimedAt(steps, i, hook);
    }
  }

  lemma InitClaims()
    ensures IsRun(Init(), []) && Exec(Init(), []).claims == []
  {
  }

  lemma EmptyRest(s: System, rest: seq<Step>)
    requires rest == []
    ensures IsRun(s, rest) && Exec(s, rest) == s
  {
  }

  lemma ClaimStep(before: seq<Step>, step: Step, hook: Hook)
    requires IsRun(Init(), before) && Enabled(Exec(Init(), before), step)
    ensures var s := Exec(Init(), before);
      hook in Apply(s, step).claims <==> hook in s.claims || ClaimedAt(before + [step], |before|, hook)
  {
    hide Demanded, IsRun, Exec;
    var s := Exec(Init(), before);
    assert (before + [step])[..|before|] == before;
    StartsInOrder();
    InvRun(Init(), before);
    CallsCount(before);
    StateIsExact(before, Starting);
    StateIsExact(before, Stopping);
    StateIsExact(before, Killing);
    JoinedAfterStart(s, step);
  }

  /** A second join claims nothing new, because the hook has been claimed. */
  lemma JoinedAfterStart(s: System, step: Step)
    requires Inv(s) && Enabled(s, step)
    ensures s.owner.Some? ==> JoinHook in s.claims
  {
    hide JoinInv, ActiveStarted, Ordered;
  }
}
