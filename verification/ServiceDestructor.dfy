/**
 `call_in_destructor` racing with the calls that are still inside the service: it reads the state,
 kills a running service, joins an unfinished one, and the destructor then checks that the state is
 Initialized or Completed.
 */
module ServiceDestructor {
  import opened Common
  import opened ServiceLifecycle
  import opened ServiceSteps

  /** Where the destructor is: it has read the state; its kill or its join is call `t` of the system;
      or it is through, with or without an exception, having made these calls. */
  datatype Place =
    | NotYet
    | Saw(seen: State)
    | Kills(t: nat)
    | Joins(kill: Option<nat>, t: nat)
    | Gone(threw: bool, kill: Option<nat>, join: Option<nat>)

  datatype Teardown = Teardown(sys: System, place: Place)

  datatype Move = Other(step: Step) | Own

  ghost predicate CanMove(d: Teardown, m: Move) {
    match m
    case Other(step) => Enabled(d.sys, step)
    case Own =>
      match d.place
      case Kills(t) => t < |d.sys.calls| && d.sys.calls[t].Returned?
      case Joins(_, t) => t < |d.sys.calls| && d.sys.calls[t].Returned?
      case Gone(_, _, _) => false
      case _ => true
  }

  function Join(s: System, kill: Option<nat>): Teardown {
    Teardown(Apply(s, CallJoin), Joins(kill, |s.calls|))
  }

  function Next(d: Teardown, m: Move): Teardown
    requires CanMove(d, m)
  {
    match m
    case Other(step) => d.(sys := Apply(d.sys, step))
    case Own =>
      match d.place
      case NotYet => d.(place := Saw(d.sys.state))
      case Saw(seen) =>
        if seen == Initialized || seen == Completed then d.(place := Gone(false, None, None))
        else if seen == Running then Teardown(Apply(d.sys, CallDemand(KillHook)), Kills(|d.sys.calls|))
        else Join(d.sys, None)
      case Kills(t) =>
        if d.sys.calls[t].outcome == Ok then Join(d.sys, Some(t)) else d.(place := Gone(true, Some(t), None))
      case Joins(kill, t) => d.(place := Gone(d.sys.calls[t].outcome != Ok, kill, Some(t)))
  }

  ghost predicate IsTeardown(d: Teardown, ms: seq<Move>)
    decreases |ms|
  {
    ms != [] ==> CanMove(d, ms[0]) && IsTeardown(Next(d, ms[0]), ms[1..])
  }

  ghost function Finish(d: Teardown, ms: seq<Move>): Teardown
    requires IsTeardown(d, ms)
    decreases |ms|
  {
    if ms == [] then d else Finish(Next(d, ms[0]), ms[1..])
  }

  /** Nobody else starts or joins the service any more; calls that are inside go on, and hooks may stop
      and kill. */
  ghost predicate LeftAlone(ms: seq<Move>) {
    Other(CallStart) !in ms && Other(CallJoin) !in ms
  }

  /** The check of the destructor, if `call_in_destructor` has not thrown. */
  ghost predicate CheckHolds(d: Teardown) {
    d.place.Gone? && !d.place.threw ==> d.sys.state == Initialized || d.sys.state == Completed
  }

  // ---------------------------------------------------------------- nobody else joins

  /** Nobody has claimed the join, unless the service is completed. */
  ghost predicate Unclaimed(s: System) {
    s.owner.None? || s.state == Completed
  }

  ghost predicate Good(d: Teardown) {
    var s := d.sys;
    match d.place
    case NotYet => Unclaimed(s)
    case Saw(seen) =>
      Unclaimed(s) && (seen == Initialized <==> s.state == Initialized) && (seen == Completed ==> s.state == Completed)
    case Kills(t) => Unclaimed(s) && s.state != Initialized
    case Joins(_, t) => s.state != Initialized && (s.state == Completed || s.owner == Some(t))
    case Gone(threw, _, _) => threw || s.state == Initialized || s.state == Completed
  }

  lemma OtherStep(s: System, step: Step)
    requires Inv(s) && Enabled(s, step) && !step.CallStart? && !step.CallJoin?
    ensures var s' := Apply(s, step);
      && s'.owner == s.owner
      && (s'.state == Initialized <==> s.state == Initialized) && (s.state == Completed ==> s'.state == Completed)
  {
    hide ClaimsInOrder, JoinInv;
  }

  lemma GoodStep(d: Teardown, m: Move)
    requires Inv(d.sys) && Good(d) && CanMove(d, m) && m != Other(CallStart) && m != Other(CallJoin)
    ensures Inv(Next(d, m).sys) && Good(Next(d, m))
  {
    hide Inv;
    if m.Other? {
      InvStep(d.sys, m.step);
      OtherStep(d.sys, m.step);
    } else {
      InvStep(d.sys, CallJoin);
      InvStep(d.sys, CallDemand(KillHook));
      if d.place.Joins? {
        OwnerDone(d.sys, d.place.t);
      }
    }
  }

  lemma OwnerDone(s: System, t: nat)
    requires Inv(s) && t < |s.calls| && s.calls[t].Returned?
    ensures s.owner == Some(t) ==> s.state == Completed
  {
    hide ClaimsInOrder;
  }

  lemma {:induction false} GoodRun(d: Teardown, ms: seq<Move>)
    requires Inv(d.sys) && Good(d) && IsTeardown(d, ms) && LeftAlone(ms)
    ensures Good(Finish(d, ms))
    decreases |ms|
  {
    hide Inv, Good, CanMove, Next;
    if ms != [] {
      GoodStep(d, ms[0]);
      GoodRun(Next(d, ms[0]), ms[1..]);
    }
  }

  // ---------------------------------------------------------------- a running service is killed

  lemma NextForward(d: Teardown, m: Move)
    requires CanMove(d, m)
    ensures Rank(d.sys.state) <= Rank(Next(d, m).sys.state)
  {
  }

  lemma {:induction false} StaysKilled(d: Teardown, ms: seq<Move>)
    requires IsTeardown(d, ms)
    ensures Rank(d.sys.state) <= Rank(Finish(d, ms).sys.state)
    decreases |ms|
  {
    hide Next, CanMove, Rank;
    if ms != [] {
      NextForward(d, ms[0]);
      StaysKilled(Next(d, ms[0]), ms[1..]);
    }
  }

  /** A destructor that has read Running kills the service: whatever the others do, once it has moved on
      the state is Killing at least. */
  lemma {:induction false} KillsWhatRuns(d: Teardown, ms: seq<Move>)
    requires d.place == Saw(Running) && d.sys.state != Initialized && IsTeardown(d, ms)
    ensures Finish(d, ms).place == Saw(Running) || Rank(Killing) <= Rank(Finish(d, ms).sys.state)
    decreases |ms|
  {
    if ms != [] {
      if ms[0].Other? {
        KillsWhatRuns(Next(d, ms[0]), ms[1..]);
      } else {
        StaysKilled(Next(d, ms[0]), ms[1..]);
      }
    }
  }

  // ---------------------------------------------------------------- what the destructor does

  /** The state when the destructor reads it, if it has: the one before its first move. */
  ghost function Read(d: Teardown, ms: seq<Move>): Option<State>
    requires IsTeardown(d, ms)
    decreases |ms|
  {
    if ms == [] then None else if ms[0].Own? then Some(d.sys.state) else Read(Next(d, ms[0]), ms[1..])
  }

  /** How many calls the others make. */
  function OtherCalls(ms: seq<Move>): nat {
    if ms == [] then 0 else (if ms[0].Other? && IsCall(ms[0].step) then 1 else 0) + OtherCalls(ms[1..])
  }

  /** How many calls the destructor has made. */
  function OwnCalls(place: Place): nat {
    match place
    case Kills(_) => 1
    case Joins(kill, _) => if kill.Some? then 2 else 1
    case Gone(_, kill, join) => (if kill.Some? then 1 else 0) + (if join.Some? then 1 else 0)
    case _ => 0
  }

  lemma CountsStep(d: Teardown, m: Move)
    requires CanMove(d, m)
    ensures |Next(d, m).sys.calls| == |d.sys.calls| + OwnCalls(Next(d, m).place) - OwnCalls(d.place) + OtherCalls([m])
  {
  }

  lemma {:induction false} CountsRun(d: Teardown, ms: seq<Move>)
    requires IsTeardown(d, ms)
    ensures var d' := Finish(d, ms);
      |d'.sys.calls| == |d.sys.calls| + OwnCalls(d'.place) - OwnCalls(d.place) + OtherCalls(ms)
    decreases |ms|
  {
    hide CanMove, Next, OwnCalls;
    if ms != [] {
      CountsStep(d, ms[0]);
      CountsRun(Next(d, ms[0]), ms[1..]);
    }
  }

  ghost predicate EndedOk(s: System, t: nat) {
    t < |s.calls| && s.calls[t].Returned? && s.calls[t].outcome == Ok
  }

  ghost predicate EndedBadly(s: System, t: nat) {
    t < |s.calls| && s.calls[t].Returned? && s.calls[t].outcome != Ok
  }

  /** What the destructor has done, given the state that it has read: a running service is killed, an
      unfinished one joined unless that kill has failed; and an exception means that its last call did
      not end well. */
  ghost predicate Follows(d: Teardown, seen: State) {
    var s := d.sys;
    match d.place
    case NotYet => false
    case Saw(x) => x == seen
    case Kills(t) => seen == Running
    case Joins(kill, _) =>
      && seen != Initialized && seen != Completed && (kill.Some? <==> seen == Running)
      && (kill.Some? ==> EndedOk(s, kill.value))
    case Gone(threw, kill, join) =>
      && (kill.Some? <==> seen == Running)
      && (join.Some? <==> seen != Initialized && seen != Completed && (kill.Some? ==> EndedOk(s, kill.value)))
      && (kill.Some? ==> EndedOk(s, kill.value) || EndedBadly(s, kill.value))
      && (join.Some? ==> EndedOk(s, join.value) || EndedBadly(s, join.value))
      && (threw <==> (kill.Some? && EndedBadly(s, kill.value)) || (join.Some? && EndedBadly(s, join.value)))
  }

  lemma EndsStay(s: System, step: Step)
    requires Enabled(s, step)
    ensures forall t: nat :: EndedOk(s, t) ==> EndedOk(Apply(s, step), t)
    ensures forall t: nat :: EndedBadly(s, t) ==> EndedBadly(Apply(s, step), t)
  {
  }

  lemma FollowsStep(d: Teardown, m: Move, seen: State)
    requires CanMove(d, m) && Follows(d, seen)
    ensures Follows(Next(d, m), seen)
  {
    hide Apply, Enabled, EndedOk, EndedBadly;
    NeverBoth(d.sys);
    if m.Other? {
      EndsStay(d.sys, m.step);
      NeverBoth(Apply(d.sys, m.step));
    } else if d.place.Kills? || d.place.Joins? {
      EndsStay(d.sys, CallJoin);
      Ended(d.sys, d.place.t);
    }
  }

  lemma NeverBoth(s: System)
    ensures forall t: nat :: !(EndedOk(s, t) && EndedBadly(s, t))
  {
  }

  lemma Ended(s: System, t: nat)
    requires t < |s.calls| && s.calls[t].Returned?
    ensures if s.calls[t].outcome == Ok then EndedOk(s, t) else EndedBadly(s, t)
  {
  }

  lemma {:induction false} FollowsRun(d: Teardown, ms: seq<Move>, seen: State)
    requires IsTeardown(d, ms) && Follows(d, seen)
    ensures Follows(Finish(d, ms), seen)
    decreases |ms|
  {
    hide CanMove, Next, Follows;
    if ms != [] {
      FollowsStep(d, ms[0], seen);
      FollowsRun(Next(d, ms[0]), ms[1..], seen);
    }
  }

  /** Whatever the others do meanwhile: the destructor kills the service if and only if it has read
      Running; it joins if and only if it has read an unfinished state and its kill, if it made one,
      has ended well; it makes no other calls; and it throws if and only if a call of its own ended
      badly. */
  lemma {:induction false} DestructorFollows(d: Teardown, ms: seq<Move>)
    requires d.place == NotYet && IsTeardown(d, ms)
    ensures |Finish(d, ms).sys.calls| == |d.sys.calls| + OtherCalls(ms) + OwnCalls(Finish(d, ms).place)
    ensures if Read(d, ms).Some? then Follows(Finish(d, ms), Read(d, ms).value) else Finish(d, ms).place == NotYet
    decreases |ms|
  {
    hide CanMove, OtherCalls;
    CountsRun(d, ms);
    if ms != [] {
      if ms[0].Own? {
        FollowsRun(Next(d, ms[0]), ms[1..], d.sys.state);
      } else {
        DestructorFollows(Next(d, ms[0]), ms[1..]);
      }
    }
  }

  // ---------------------------------------------------------------- another joiner is inside

  ghost predicate CanFail(d: Teardown) {
    exists ms :: IsTeardown(d, ms) && LeftAlone(ms) && !CheckHolds(Finish(d, ms))
  }

  lemma FailNow(d: Teardown)
    requires !CheckHolds(d)
    ensures CanFail(d)
  {
    hide CheckHolds;
    var none: seq<Move> := [];
    assert IsTeardown(d, none) && LeftAlone(none) && Finish(d, none) == d;
  }

  lemma FailAfter(d: Teardown, m: Move)
    requires CanMove(d, m) && m != Other(CallStart) && m != Other(CallJoin)
    ensures CanFail(Next(d, m)) ==> CanFail(d)
  {
    hide CheckHolds, CanMove, Next;
    if CanFail(Next(d, m)) {
      var ms :| IsTeardown(Next(d, m), ms) && LeftAlone(ms) && !CheckHolds(Finish(Next(d, m), ms));
      var all := [m] + ms;
      assert all[0] == m && all[1..] == ms;
      assert IsTeardown(d, all) && LeftAlone(all);
    }
  }

  ghost predicate Unfinished(s: System) {
    s.owner.Some? && s.state != Initialized && s.state != Completed
  }

  /** The value is set, so the destructor's join returns. */
  lemma FailReleased(d: Teardown)
    requires Unfinished(d.sys) && d.sys.future == Value
    requires d.place.Joins? && d.place.t < |d.sys.calls| && d.sys.calls[d.place.t].AwaitingFuture?
    ensures CanFail(d)
  {
    hide CanFail;
    var m := Other(Get(d.place.t));
    var d1 := Next(d, m);
    FailNow(Next(d1, Own));
    FailAfter(d1, Own);
    FailAfter(d, m);
  }

  /** The other joiner's hook returns, if it has not yet. */
  lemma FailJoining(s: System, kill: Option<nat>)
    requires Inv(s) && Unfinished(s)
    ensures CanFail(Join(s, kill))
  {
    hide CanFail, ClaimsInOrder;
    var d := Join(s, kill);
    var t := s.owner.value;
    assert CallInOrder(s, t);
    assert s.calls[t].InJoin? || s.calls[t].Unwinding?;
    if s.calls[t].InJoin? {
      var m := Other(JoinHookEnds(t, Returns));
      FailReleased(Next(d, m));
      FailAfter(d, m);
    } else {
      FailReleased(d);
    }
  }

  lemma FailKilling(s: System)
    requires Inv(s) && Unfinished(s) && s.state == Running
    ensures CanFail(Teardown(Apply(s, CallDemand(KillHook)), Kills(|s.calls|)))
  {
    hide CanFail, Inv;
    var t := |s.calls|;
    var d := Teardown(Apply(s, CallDemand(KillHook)), Kills(t));
    InvStep(s, CallDemand(KillHook));
    var m := Other(DemandEnds(t, false));
    InvStep(d.sys, m.step);
    var d1 := Next(d, m);
    FailJoining(d1.sys, Some(t));
    FailAfter(d1, Own);
    FailAfter(d, m);
  }

  lemma FailFromStart(s: System)
    requires Inv(s) && Unfinished(s)
    ensures CanFail(Teardown(s, NotYet))
  {
    hide CanFail, Inv, Apply;
    var d := Teardown(s, NotYet);
    var d1 := Next(d, Own);
    if s.state == Running {
      FailKilling(s);
    } else {
      FailJoining(s, None);
    }
    FailAfter(d1, Own);
    FailAfter(d, Own);
  }

  /** A destructor that begins in any reachable state, with nobody else starting or joining from then on:
      its check holds in all runs in which `call_in_destructor` does not throw, if and only if nobody
      has claimed the join yet or the service is completed. */
  lemma DestructorIsExact(steps: seq<Step>)
    requires IsRun(Init(), steps)
    ensures var s := Exec(Init(), steps); var d := Teardown(s, NotYet);
      (forall ms :: IsTeardown(d, ms) && LeftAlone(ms) ==> CheckHolds(Finish(d, ms)))
      <==> (s.owner.Some? ==> s.state == Completed)
  {
    hide Apply, Enabled, IsRun, Exec, Inv, IsTeardown, Finish;
    StartsInOrder();
    InvRun(Init(), steps);
    var s := Exec(Init(), steps);
    var d := Teardown(s, NotYet);
    if s.owner.Some? ==> s.state == Completed {
      forall ms | IsTeardown(d, ms) && LeftAlone(ms) ensures CheckHolds(Finish(d, ms)) {
        GoodRun(d, ms);
      }
    } else {
      ClaimedIsStarted(s);
      FailFromStart(s);
    }
  }

  lemma ClaimedIsStarted(s: System)
    requires Inv(s)
    ensures s.owner.Some? ==> s.state != Initialized
  {
    hide JoinInv, ActiveStarted, Ordered;
  }
}
