/**
 The lifecycle of `Service`: six ordered states, advanced under a recursive mutex by concurrent
 start, stop, kill and join calls.  The mutex is never held while a user hook runs, so hooks (and
 calls they make) interleave freely with everything else.
 */
module ServiceLifecycle {
  import opened Common

  datatype State = Initialized | Starting | Running | Stopping | Killing | Completed

  function Rank(s: State): nat {
    match s
    case Initialized => 0
    case Starting => 1
    case Running => 2
    case Stopping => 3
    case Killing => 4
    case Completed => 5
  }

  /** `advance_state`: its precondition is the check that the state only moves forward. */
  function Advance(s: State, to: State): State
    requires Rank(s) <= Rank(to)
  {
    to
  }

  /** `ensure_state`. */
  function Ensure(s: State, desired: State): State {
    if Rank(s) < Rank(desired) then Advance(s, desired) else s
  }

  datatype Hook = StartHook | StopHook | KillHook | JoinHook

  /** How a hook ends: `service_await_join` catches only what derives from `std::exception`. */
  datatype HookEnd = Returns | ThrowsStd | ThrowsOther

  function Target(hook: Hook): State
    requires hook == StopHook || hook == KillHook
  {
    if hook == StopHook then Stopping else Killing
  }

  /** What a locked section leaves behind: the state, whether the join has been claimed, and the hook
      that the caller goes on to run. */
  datatype Section = Section(state: State, joined: bool, claim: Option<Hook>)

  function StartSection(state: State, joined: bool): Section {
    if state == Initialized then Section(Starting, joined, Some(StartHook)) else Section(state, joined, None)
  }

  function DemandSection(hook: Hook, state: State, joined: bool): Section
    requires hook == StopHook || hook == KillHook
  {
    if state != Initialized && Rank(state) < Rank(Target(hook)) then Section(Target(hook), joined, Some(hook))
    else Section(state, joined, None)
  }

  function JoinSection(state: State, joined: bool): Section {
    if state != Initialized && !joined then Section(state, true, Some(JoinHook)) else Section(state, joined, None)
  }

  // ---------------------------------------------------------------- the object

  class Service {
    var state: State
    var joinCalled: bool
    var destructorCalled: bool

    constructor ()
      ensures state == Initialized && !joinCalled && !destructorCalled
    {
      state, joinCalled, destructorCalled := Initialized, false, false;
    }

    method AdvanceState(to: State) returns (moved: bool)
      requires Rank(state) <= Rank(to)
      modifies this`state
      ensures state == Advance(old(state), to) && moved == (old(state) != to)
    {
      moved := false;
      if Rank(state) < Rank(to) {
        state := to;
        moved := true;
      }
    }

    method EnsureState(desired: State) returns (moved: bool)
      modifies this`state
      ensures state == Ensure(old(state), desired) && moved == (Rank(old(state)) < Rank(desired))
    {
      moved := false;
      if Rank(desired) > Rank(state) {
        moved := AdvanceState(desired);
      }
    }

    /** The locked part of `service_start`; None is the error "already started". */
    method StartLocked() returns (claim: Option<Hook>)
      modifies this`state
      ensures Section(state, joinCalled, claim) == old(StartSection(state, joinCalled))
    {
      if state != Initialized {
        return None;
      }
      var moved := AdvanceState(Starting);
      return if moved then Some(StartHook) else None;
    }

    /** The locked part of `service_stop` and `service_kill`; `started` is false for the error
        "must be started before". */
    method DemandLocked(hook: Hook) returns (started: bool, claim: Option<Hook>)
      requires hook == StopHook || hook == KillHook
      modifies this`state
      ensures started == (old(state) != Initialized)
      ensures Section(state, joinCalled, claim) == old(DemandSection(hook, state, joinCalled))
    {
      if state == Initialized {
        return false, None;
      }
      var moved := EnsureState(Target(hook));
      return true, if moved then Some(hook) else None;
    }

    /** The locked part of `service_await_join`. */
    method JoinLocked() returns (started: bool, claim: Option<Hook>)
      modifies this`joinCalled
      ensures started == (state != Initialized)
      ensures Section(state, joinCalled, claim) == old(JoinSection(state, joinCalled))
    {
      if state == Initialized {
        return false, None;
      }
      if joinCalled {
        return true, None;
      }
      joinCalled := true;
      return true, Some(JoinHook);
    }

    /** `call_in_destructor`: a running service is killed, an unfinished one joined.  If another joiner
        is inside, the destructor waits for its future, and `released` is how far the state has come
        when the future is released with `future`.  So the state is one that the destructor's check
        accepts, if neither hook throws, unless that joiner has released it short of Completed. */
    method CallInDestructor(killEnd: HookEnd, joinEnd: HookEnd, released: State, future: Future) returns (threw: bool)
      modifies this
      ensures destructorCalled
      ensures old(state == Initialized || state == Completed) ==> state == old(state) && !threw
      ensures old(state) == Running && killEnd != Returns ==> threw && state == Killing
      ensures old(state != Initialized && state != Completed) && !(old(state) == Running && killEnd != Returns) ==>
                if old(joinCalled)
                then state == Ensure(old(if state == Running then Killing else state), released)
                     && threw == (Got(future) != Ok)
                else state == Completed && threw == (joinEnd != Returns)
    {
      threw := false;
      var seen := state;
      if Rank(seen) > Rank(Initialized) {
        if seen == Running {
          var started, claim := DemandLocked(KillHook);
          if killEnd != Returns {
            destructorCalled := true;
            return true;
          }
        }
        if seen != Completed {
          var started, claim := JoinLocked();
          if claim.Some? {
            var moved := AdvanceState(Completed);
            threw := joinEnd != Returns;
          } else {
            state := Ensure(state, released);
            threw := Got(future) != Ok;
          }
        }
      }
      destructorCalled := true;
    }
  }

  /** What a joiner can find in the shared future. */
  datatype Future = Absent | Unset | Value | Exception | Broken

  datatype Outcome = Ok | Refused | HookThrew | Rethrown | BrokenPromise

  /** What a joiner gets from the shared future. */
  function Got(f: Future): Outcome {
    match f
    case Exception => Rethrown
    case Broken => BrokenPromise
    case _ => Ok
  }

  // ---------------------------------------------------------------- concurrent calls

  /** Where a call is.  `InJoin`, `Unwinding` and `Failing` are positions of the first joiner: its
      hook is running; it has set the value but its unwinder has not run yet; its unwinder has run
      but the exception is not stored yet. */
  datatype Call =
    | InStart
    | InDemand(hook: Hook)
    | InJoin
    | Unwinding
    | Failing(end: HookEnd)
    | AwaitingFuture
    | Returned(joiner: bool, outcome: Outcome)

  /** `claims` lists hooks in the order in which they were claimed; `owner` is the first joiner. */
  datatype System = System(
    state: State,
    owner: Option<nat>,
    future: Future,
    calls: seq<Call>,
    claims: seq<Hook>,
    startThrew: bool)

  datatype Step =
    | CallStart
    | CallDemand(hook: Hook)
    | CallJoin
    | StartEnds(t: nat, throws: bool)
    | DemandEnds(t: nat, throws: bool)
    | JoinHookEnds(t: nat, end: HookEnd)
    | Unwind(t: nat)
    | Store(t: nat)
    | Get(t: nat)

  function Init(): System {
    System(Initialized, None, Absent, [], [], false)
  }

  ghost predicate Enabled(s: System, step: Step) {
    match step
    case CallStart => true
    case CallDemand(hook) => hook == StopHook || hook == KillHook
    case CallJoin => true
    case StartEnds(t, _) => t < |s.calls| && s.calls[t].InStart?
    case DemandEnds(t, _) => t < |s.calls| && s.calls[t].InDemand?
    case JoinHookEnds(t, _) => t < |s.calls| && s.calls[t].InJoin?
    case Unwind(t) => t < |s.calls| && s.calls[t].Unwinding?
    case Store(t) => t < |s.calls| && s.calls[t].Failing?
    case Get(t) => t < |s.calls| && s.calls[t].AwaitingFuture? && s.future != Absent && s.future != Unset
  }

  function Apply(s: System, step: Step): System
    requires Enabled(s, step)
  {
    match step
    case CallStart =>
      if s.state != Initialized then s.(calls := s.calls + [Returned(false, Refused)])
      else s.(state := Advance(s.state, Starting), calls := s.calls + [InStart], claims := s.claims + [StartHook])
    case CallDemand(hook) =>
      if s.state == Initialized then s.(calls := s.calls + [Returned(false, Refused)])
      else if Rank(s.state) < Rank(Target(hook)) then
        s.(state := Ensure(s.state, Target(hook)), calls := s.calls + [InDemand(hook)], claims := s.claims + [hook])
      else s.(calls := s.calls + [Returned(false, Ok)])
    case CallJoin =>
      if s.state == Initialized then s.(calls := s.calls + [Returned(false, Refused)])
      else if s.owner.None? then
        s.(owner := Some(|s.calls|), future := Unset, calls := s.calls + [InJoin], claims := s.claims + [JoinHook])
      else s.(calls := s.calls + [AwaitingFuture])
    case StartEnds(t, throws) =>
      if throws then
        s.(state := Advance(s.state, Completed), calls := s.calls[t := Returned(false, HookThrew)], startThrew := true)
      else s.(state := Ensure(s.state, Running), calls := s.calls[t := Returned(false, Ok)])
    case DemandEnds(t, throws) =>
      s.(calls := s.calls[t := Returned(false, if throws then HookThrew else Ok)])
    case JoinHookEnds(t, end) =>
      if end == Returns then s.(future := Value, calls := s.calls[t := Unwinding])
      else s.(state := Advance(s.state, Completed), calls := s.calls[t := Failing(end)])
    case Unwind(t) =>
      s.(state := Advance(s.state, Completed), calls := s.calls[t := AwaitingFuture])
    case Store(t) =>
      if s.calls[t].end == ThrowsStd then s.(future := Exception, calls := s.calls[t := AwaitingFuture])
      else s.(future := Broken, calls := s.calls[t := Returned(true, HookThrew)])
    case Get(t) =>
      s.(calls := s.calls[t := Returned(true, Got(s.future))])
  }

  /** The step of a call takes the system where the locked section takes the object, with the same
      claim. */
  ghost predicate TakenBy(s: System, step: Step, x: Section)
    requires Enabled(s, step)
  {
    && Apply(s, step).state == x.state
    && Apply(s, step).owner.Some? == x.joined
    && Apply(s, step).claims == s.claims + (if x.claim.Some? then [x.claim.value] else [])
  }

  lemma SectionsAreSteps(s: System, hook: Hook)
    requires hook == StopHook || hook == KillHook
    ensures TakenBy(s, CallStart, StartSection(s.state, s.owner.Some?))
    ensures TakenBy(s, CallDemand(hook), DemandSection(hook, s.state, s.owner.Some?))
    ensures TakenBy(s, CallJoin, JoinSection(s.state, s.owner.Some?))
  {
  }

  ghost predicate IsRun(s: System, steps: seq<Step>)
    decreases |steps|
  {
    steps != [] ==> Enabled(s, steps[0]) && IsRun(Apply(s, steps[0]), steps[1..])
  }

  ghost function Exec(s: System, steps: seq<Step>): System
    requires IsRun(s, steps)
    decreases |steps|
  {
    if steps == [] then s else Exec(Apply(s, steps[0]), steps[1..])
  }

  lemma RunCons(s: System, step: Step, rest: seq<Step>)
    requires Enabled(s, step) && IsRun(Apply(s, step), rest)
    ensures IsRun(s, [step] + rest) && Exec(s, [step] + rest) == Exec(Apply(s, step), rest)
  {
    hide Apply, Enabled;
    assert ([step] + rest)[0] == step && ([step] + rest)[1..] == rest;
  }

  lemma TwoSteps(s: System, x: Step, y: Step) returns (steps: seq<Step>)
    requires Enabled(s, x) && Enabled(Apply(s, x), y)
    ensures steps == [x, y] && IsRun(s, steps) && Exec(s, steps) == Apply(Apply(s, x), y)
  {
    hide Apply, Enabled;
    RunCons(Apply(s, x), y, []);
    RunCons(s, x, [y] + []);
    steps := [x] + ([y] + []);
  }

  lemma {:induction false} RunAppend(s: System, a: seq<Step>, b: seq<Step>)
    requires IsRun(s, a) && IsRun(Exec(s, a), b)
    ensures IsRun(s, a + b) && Exec(s, a + b) == Exec(Exec(s, a), b)
    decreases |a|
  {
    hide Apply, Enabled;
    if a == [] {
      assert a + b == b;
    } else {
      RunAppend(Apply(s, a[0]), a[1..], b);
      assert (a + b)[1..] == a[1..] + b;
    }
  }

  lemma {:induction false} RunSplit(s: System, a: seq<Step>, b: seq<Step>)
    requires IsRun(s, a + b)
    ensures IsRun(s, a) && IsRun(Exec(s, a), b) && Exec(s, a + b) == Exec(Exec(s, a), b)
    decreases |a|
  {
    hide Apply, Enabled;
    if a == [] {
      assert a + b == b;
    } else {
      assert (a + b)[0] == a[0] && (a + b)[1..] == a[1..] + b;
      RunSplit(Apply(s, a[0]), a[1..], b);
    }
  }

  /** The run up to step `i`, that step, and the rest. */
  lemma RunAt(steps: seq<Step>, i: nat)
    requires IsRun(Init(), steps) && i < |steps|
    ensures IsRun(Init(), steps[..i]) && Enabled(Exec(Init(), steps[..i]), steps[i])
    ensures var s := Apply(Exec(Init(), steps[..i]), steps[i]);
      IsRun(s, steps[i + 1..]) && Exec(Init(), steps) == Exec(s, steps[i + 1..])
  {
    hide Apply, Enabled;
    assert steps == steps[..i] + steps[i..];
    RunSplit(Init(), steps[..i], steps[i..]);
    assert steps[i..][0] == steps[i] && steps[i..][1..] == steps[i + 1..];
  }

  /** The state never goes backwards, in any run from any point. */
  lemma {:induction false} NeverBackwards(s: System, steps: seq<Step>)
    requires IsRun(s, steps)
    ensures Rank(s.state) <= Rank(Exec(s, steps).state)
    decreases |steps|
  {
    if steps != [] {
      NeverBackwards(Apply(s, steps[0]), steps[1..]);
    }
  }

  // ---------------------------------------------------------------- hook claims

  /** Each hook appears once at most, the start hook first, the stop hook not after the kill hook. */
  ghost predicate Ordered(claims: seq<Hook>) {
    && (forall i, j :: 0 <= i < j < |claims| ==>
          claims[i] != claims[j] && !(claims[i] == KillHook && claims[j] == StopHook))
    && (claims != [] ==> claims[0] == StartHook)
  }

  lemma OrderedAppend(claims: seq<Hook>, hook: Hook)
    requires Ordered(claims) && hook !in claims
    requires claims == [] <==> hook == StartHook
    requires hook == StopHook ==> KillHook !in claims
    ensures Ordered(claims + [hook])
    ensures forall h :: h in claims + [hook] <==> h in claims || h == hook
  {
  }

  /** The claims are in order, and the state is at least as far as they imply. */
  ghost predicate ClaimsInOrder(s: System) {
    && Ordered(s.claims)
    && (s.claims == [] <==> s.state == Initialized)
    && (StopHook in s.claims ==> Rank(Stopping) <= Rank(s.state))
    && (KillHook in s.claims ==> Rank(Killing) <= Rank(s.state))
    && (JoinHook in s.claims <==> s.owner.Some?)
  }

  ghost predicate ActiveStarted(s: System) {
    forall t :: 0 <= t < |s.calls| && !s.calls[t].Returned? ==> s.state != Initialized
  }

  // ---------------------------------------------------------------- joining

  /** The first joiner's position tells what the future holds. */
  ghost predicate OwnerInOrder(c: Call, f: Future) {
    match c
    case InJoin => f == Unset
    case Unwinding => f == Value
    case Failing(end) => f == Unset && end != Returns
    case AwaitingFuture => f == Value || f == Exception
    case Returned(joiner, outcome) => joiner && f != Absent && f != Unset
                                      && outcome == (if f == Broken then HookThrew else Got(f))
    case _ => false
  }

  /** Any other call has no business with the join hook; if it waited for the future, it got what
      the future holds. */
  ghost predicate OtherInOrder(c: Call, f: Future) {
    match c
    case InJoin => false
    case Unwinding => false
    case Failing(_) => false
    case AwaitingFuture => f != Absent
    case Returned(joiner, outcome) => joiner ==> f != Absent && f != Unset && outcome == Got(f)
    case _ => true
  }

  ghost predicate CallInOrder(s: System, t: nat)
    requires t < |s.calls|
  {
    if s.owner == Some(t) then OwnerInOrder(s.calls[t], s.future) else OtherInOrder(s.calls[t], s.future)
  }

  /** The first joiner's unwinder has set the state. */
  ghost predicate Unwound(s: System) {
    s.owner.Some? && s.owner.value < |s.calls|
    && var c := s.calls[s.owner.value]; c.Failing? || c.AwaitingFuture? || c.Returned?
  }

  ghost predicate JoinInv(s: System) {
    && (s.owner.None? <==> s.future == Absent)
    && (s.owner.Some? ==> s.owner.value < |s.calls|)
    && (forall t :: 0 <= t < |s.calls| ==> CallInOrder(s, t))
    && (s.state == Completed <==> s.startThrew || Unwound(s))
  }

  ghost predicate Inv(s: System) {
    ClaimsInOrder(s) && ActiveStarted(s) && JoinInv(s)
  }

  lemma ClaimsStep(s: System, step: Step)
    requires Inv(s) && Enabled(s, step)
    ensures ClaimsInOrder(Apply(s, step))
  {
    hide JoinInv, Ordered;
    match step
    case CallStart =>
      if s.state == Initialized {
        OrderedAppend(s.claims, StartHook);
      }
    case CallDemand(hook) =>
      if s.state != Initialized && Rank(s.state) < Rank(Target(hook)) {
        OrderedAppend(s.claims, hook);
      }
    case CallJoin =>
      if s.state != Initialized && s.owner.None? {
        OrderedAppend(s.claims, JoinHook);
      }
    case _ =>
      assert s.calls[Mover(s, step)] in s.calls;
  }

  lemma ActiveStep(s: System, step: Step)
    requires Inv(s) && Enabled(s, step)
    ensures ActiveStarted(Apply(s, step))
  {
    hide JoinInv, Ordered;
  }

  /** The call that moves; the others keep their position. */
  ghost function Mover(s: System, step: Step): nat {
    match step
    case StartEnds(t, _) => t
    case DemandEnds(t, _) => t
    case JoinHookEnds(t, _) => t
    case Unwind(t) => t
    case Store(t) => t
    case Get(t) => t
    case _ => |s.calls|
  }

  lemma CallsStep(s: System, step: Step, u: nat)
    requires Inv(s) && Enabled(s, step) && u < |Apply(s, step).calls|
    ensures CallInOrder(Apply(s, step), u)
  {
    var t := Mover(s, step);
    if t < |s.calls| {
      assert CallInOrder(s, t);
    }
    if u < |s.calls| {
      assert CallInOrder(s, u);
    }
  }

  lemma CompletedStep(s: System, step: Step)
    requires Inv(s) && Enabled(s, step)
    ensures var s' := Apply(s, step); s'.state == Completed <==> s'.startThrew || Unwound(s')
  {
    var t := Mover(s, step);
    if t < |s.calls| {
      assert CallInOrder(s, t);
    }
  }

  lemma JoinStep(s: System, step: Step)
    requires Inv(s) && Enabled(s, step)
    ensures JoinInv(Apply(s, step))
  {
    var s' := Apply(s, step);
    CompletedStep(s, step);
    forall u | 0 <= u < |s'.calls| ensures CallInOrder(s', u) {
      CallsStep(s, step, u);
    }
    if Mover(s, step) < |s.calls| {
      assert CallInOrder(s, Mover(s, step));
    }
  }

  lemma InvStep(s: System, step: Step)
    requires Inv(s) && Enabled(s, step)
    ensures Inv(Apply(s, step))
  {
    hide Apply, ClaimsInOrder, ActiveStarted, JoinInv;
    ClaimsStep(s, step);
    ActiveStep(s, step);
    JoinStep(s, step);
  }

  lemma {:induction false} InvRun(s: System, steps: seq<Step>)
    requires Inv(s) && IsRun(s, steps)
    ensures Inv(Exec(s, steps))
    decreases |steps|
  {
    hide Apply, Enabled, Inv;
    if steps != [] {
      InvStep(s, steps[0]);
      InvRun(Apply(s, steps[0]), steps[1..]);
    }
  }

  lemma StartsInOrder()
    ensures Inv(Init())
  {
  }

  /** In every run each hook is claimed by one caller at most, none before the successful start, and
      the stop hook not after the kill hook. */
  lemma HooksClaimedOnce(steps: seq<Step>)
    requires IsRun(Init(), steps)
    ensures var claims := Exec(Init(), steps).claims;
      && (claims != [] ==> claims[0] == StartHook)
      && (forall i, j :: 0 <= i < j < |claims| ==>
            claims[i] != claims[j] && !(claims[i] == KillHook && claims[j] == StopHook))
  {
    hide Apply, Enabled, JoinInv;
    StartsInOrder();
    InvRun(Init(), steps);
  }

  /** Once the state has reached Stopping (or Killing), no continuation claims the stop (or kill)
      hook again; so the stop hook is never claimed in Killing or Completed. */
  lemma {:induction false} NoLateClaim(s: System, steps: seq<Step>, hook: Hook)
    requires IsRun(s, steps) && (hook == StopHook || hook == KillHook) && Rank(Target(hook)) <= Rank(s.state)
    ensures var s' := Exec(s, steps); s.claims <= s'.claims && hook !in s'.claims[|s.claims|..]
    decreases |steps|
  {
    if steps != [] {
      var s1 := Apply(s, steps[0]);
      NoLateClaim(s1, steps[1..], hook);
      var s' := Exec(s, steps);
      assert s'.claims[|s.claims|..] == s1.claims[|s.claims|..] + s'.claims[|s1.claims|..];
    }
  }

  /** In every run: the join hook is claimed at most once (above), and every joiner that has returned
      got the outcome of that one hook call, except that after a non-standard exception the first
      joiner gets the exception itself and the others a broken promise; the state is Completed once
      the first joiner has returned, and on the failing paths before anybody is released. */
  lemma OneJoinOutcome(steps: seq<Step>, t: nat)
    requires IsRun(Init(), steps)
    ensures var s := Exec(Init(), steps); t < |s.calls| && s.calls[t].Returned? && s.calls[t].joiner ==>
      && s.owner.Some?
      && s.calls[t].outcome == (if s.future == Broken && s.owner == Some(t) then HookThrew else Got(s.future))
      && (s.owner == Some(t) || s.future != Value ==> s.state == Completed)
  {
    hide Apply, Enabled, ClaimsInOrder;
    StartsInOrder();
    InvRun(Init(), steps);
    var s := Exec(Init(), steps);
    if t < |s.calls| && s.calls[t].Returned? && s.calls[t].joiner {
      assert CallInOrder(s, t);
      assert CallInOrder(s, s.owner.value);
    }
  }

  /** The join hook ends only in the given ways. */
  ghost predicate HookEndsIn(steps: seq<Step>, ends: set<HookEnd>) {
    forall i :: 0 <= i < |steps| && steps[i].JoinHookEnds? ==> steps[i].end in ends
  }

  ghost predicate HasJoined(s: System, t: nat) {
    t < |s.calls| && s.calls[t].Returned? && s.calls[t].joiner
  }

  /** All joiners that have returned got the same outcome. */
  ghost predicate JoinersAgree(s: System) {
    forall t: nat, u: nat :: HasJoined(s, t) && HasJoined(s, u) ==> s.calls[t].outcome == s.calls[u].outcome
  }

  /** What the future holds after the join hook has ended so, and where the first joiner is before. */
  function FutureAfter(end: HookEnd): Future {
    match end
    case Returns => Value
    case ThrowsStd => Exception
    case ThrowsOther => Broken
  }

  function PlaceAfter(end: HookEnd): Call {
    if end == Returns then Unwinding else Failing(end)
  }

  /** The join hook has not ended in this way. */
  ghost predicate Avoids(s: System, end: HookEnd) {
    s.future != FutureAfter(end) && PlaceAfter(end) !in s.calls
  }

  lemma AvoidsStep(s: System, step: Step, end: HookEnd)
    requires Inv(s) && Avoids(s, end) && Enabled(s, step) && (step.JoinHookEnds? ==> step.end != end)
    ensures Avoids(Apply(s, step), end)
  {
    hide ClaimsInOrder, ActiveStarted;
    var t := Mover(s, step);
    if t < |s.calls| {
      assert CallInOrder(s, t);
      assert s.calls[t] in s.calls;
    }
  }

  lemma {:induction false} AvoidsRun(s: System, steps: seq<Step>, ends: set<HookEnd>, end: HookEnd)
    requires Inv(s) && Avoids(s, end) && IsRun(s, steps) && HookEndsIn(steps, ends) && end !in ends
    ensures Avoids(Exec(s, steps), end)
    decreases |steps|
  {
    hide Apply, Enabled, Inv, Avoids;
    if steps != [] {
      assert steps[0].JoinHookEnds? ==> steps[0].end in ends;
      InvStep(s, steps[0]);
      AvoidsStep(s, steps[0], end);
      AvoidsRun(Apply(s, steps[0]), steps[1..], ends, end);
    }
  }

  /** The service is started, and two callers join. */
  lemma TwoJoiners() returns (s: System, steps: seq<Step>)
    ensures IsRun(Init(), steps) && Exec(Init(), steps) == s && HookEndsIn(steps, {})
    ensures s == System(Running, Some(1), Unset, [Returned(false, Ok), InJoin, AwaitingFuture],
                        [StartHook, JoinHook], false)
  {
    var s2 := Apply(Apply(Init(), CallStart), StartEnds(0, false));
    assert s2 == System(Running, None, Absent, [Returned(false, Ok)], [StartHook], false);
    s := Apply(Apply(s2, CallJoin), CallJoin);
    var a := TwoSteps(Init(), CallStart, StartEnds(0, false));
    var b := TwoSteps(s2, CallJoin, CallJoin);
    RunAppend(Init(), a, b);
    steps := a + b;
  }

  /** After a non-standard exception the first joiner gets it, and the second a broken promise. */
  lemma JoinersDisagree() returns (steps: seq<Step>)
    ensures IsRun(Init(), steps) && HookEndsIn(steps, {ThrowsOther}) && !JoinersAgree(Exec(Init(), steps))
  {
    var s4, first := TwoJoiners();
    var s5 := Apply(s4, JoinHookEnds(1, ThrowsOther));
    var s6 := Apply(s5, Store(1));
    assert s6.calls[1] == Returned(true, HookThrew) && s6.calls[2] == AwaitingFuture && s6.future == Broken;
    var s7 := Apply(s6, Get(2));
    var last := TwoSteps(s5, Store(1), Get(2));
    var all := [JoinHookEnds(1, ThrowsOther)] + last;
    assert all[1..] == last;
    RunAppend(Init(), first, all);
    steps := first + all;
    assert s7.calls[1] == Returned(true, HookThrew) && s7.calls[2] == Returned(true, BrokenPromise);
    assert HasJoined(s7, 1) && HasJoined(s7, 2);
  }

  /** In every run in which the join hook ends in one of the given ways, all joiners get the same
      outcome, if and only if a non-standard exception is not among them. */
  lemma JoinersAgreeIsExact(ends: set<HookEnd>)
    ensures (forall steps :: IsRun(Init(), steps) && HookEndsIn(steps, ends) ==> JoinersAgree(Exec(Init(), steps)))
            <==> ThrowsOther !in ends
  {
    hide Apply, Enabled, JoinersAgree;
    if ThrowsOther in ends {
      var steps := JoinersDisagree();
      assert HookEndsIn(steps, ends);
    } else {
      forall steps | IsRun(Init(), steps) && HookEndsIn(steps, ends) ensures JoinersAgree(Exec(Init(), steps)) {
        AgreeUnbroken(steps, ends);
      }
    }
  }

  lemma AgreeUnbroken(steps: seq<Step>, ends: set<HookEnd>)
    requires IsRun(Init(), steps) && HookEndsIn(steps, ends) && ThrowsOther !in ends
    ensures JoinersAgree(Exec(Init(), steps))
  {
    hide Apply, Enabled, Inv, IsRun, Exec;
    StartsInOrder();
    AvoidsRun(Init(), steps, ends, ThrowsOther);
    var s := Exec(Init(), steps);
    forall t: nat | HasJoined(s, t) ensures s.calls[t].outcome == Got(s.future) {
      OneJoinOutcome(steps, t);
    }
  }

  /** Whoever has joined, the service is completed. */
  ghost predicate ReleasedCompleted(s: System) {
    forall t: nat :: HasJoined(s, t) ==> s.state == Completed
  }

  /** In every run in which the join hook ends in one of the given ways, the service is Completed
      before any joiner is released, if and only if the hook never returns normally. */
  lemma ReleaseIsExact(ends: set<HookEnd>)
    ensures (forall steps :: IsRun(Init(), steps) && HookEndsIn(steps, ends) ==> ReleasedCompleted(Exec(Init(), steps)))
            <==> Returns !in ends
  {
    hide Apply, Enabled, ReleasedCompleted;
    if Returns in ends {
      var steps := ReleasedWhileRunning();
      assert HookEndsIn(steps, ends);
    } else {
      forall steps | IsRun(Init(), steps) && HookEndsIn(steps, ends) ensures ReleasedCompleted(Exec(Init(), steps)) {
        CompletedFirst(steps, ends);
      }
    }
  }

  lemma CompletedFirst(steps: seq<Step>, ends: set<HookEnd>)
    requires IsRun(Init(), steps) && HookEndsIn(steps, ends) && Returns !in ends
    ensures ReleasedCompleted(Exec(Init(), steps))
  {
    hide Apply, Enabled, Inv, IsRun, Exec;
    StartsInOrder();
    AvoidsRun(Init(), steps, ends, Returns);
    var s := Exec(Init(), steps);
    forall t: nat | HasJoined(s, t) ensures s.state == Completed {
      OneJoinOutcome(steps, t);
    }
  }

  /** A second joiner returns successfully while the state is still Running. */
  lemma ReleasedWhileRunning() returns (steps: seq<Step>)
    ensures IsRun(Init(), steps) && HookEndsIn(steps, {Returns})
    ensures var s := Exec(Init(), steps);
      s.state == Running && |s.calls| == 3 && s.calls[2] == Returned(true, Ok) && !ReleasedCompleted(s)
  {
    var s4, first := TwoJoiners();
    var last := TwoSteps(s4, JoinHookEnds(1, Returns), Get(2));
    RunAppend(Init(), first, last);
    steps := first + last;
    assert HasJoined(Exec(Init(), steps), 2);
  }

  /** Whether the start hook has thrown, from the steps alone. */
  ghost predicate StartThrows(steps: seq<Step>) {
    exists i :: 0 <= i < |steps| && steps[i].StartEnds? && steps[i].throws
  }

  lemma {:induction false} StartThrewRun(s: System, steps: seq<Step>)
    requires IsRun(s, steps)
    ensures Exec(s, steps).startThrew <==> s.startThrew || StartThrows(steps)
    decreases |steps|
  {
    if steps != [] {
      var s' := Apply(s, steps[0]);
      StartThrewRun(s', steps[1..]);
      if i :| 0 <= i < |steps[1..]| && steps[1..][i].StartEnds? && steps[1..][i].throws {
        assert steps[i + 1].throws;
      }
      if i :| 0 < i < |steps| && steps[i].StartEnds? && steps[i].throws {
        assert steps[1..][i - 1].throws;
      }
    }
  }

  /** Where in a run that happens: a caller released with the state short of Completed has met the one
      gap, in which the hook has succeeded, the first joiner has set the value, its unwinder has not
      run, and the start hook did not throw. */
  lemma ReleaseGapIsExact(steps: seq<Step>)
    requires IsRun(Init(), steps)
    ensures var s := Exec(Init(), steps); s.future != Absent && s.future != Unset ==>
      s.owner.Some? && s.owner.value < |s.calls|
      && (s.state != Completed <==> s.calls[s.owner.value] == Unwinding && !StartThrows(steps))
  {
    hide Apply, Enabled, ClaimsInOrder, StartThrows;
    StartsInOrder();
    InvRun(Init(), steps);
    StartThrewRun(Init(), steps);
    var s := Exec(Init(), steps);
    if s.owner.Some? {
      assert CallInOrder(s, s.owner.value);
    }
  }
}
