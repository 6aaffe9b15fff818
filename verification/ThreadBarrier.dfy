/**
 `thread_barrier`: a reusable barrier whose one-bit `cycle_` stands in for an unbounded
 generation counter.  What holds for any number of threads, and the exact number of participants
 for which the bit and the counter agree.
 */
module ThreadBarrier {

  class Barrier {
    const initial: nat
    var current: nat
    var cycle: bool

    ghost predicate Valid()
      reads this
    {
      0 < current <= initial
    }

    constructor (initial: nat)
      requires initial != 0
      ensures Valid() && this.initial == initial && current == initial && cycle
    {
      this.initial := initial;
      current, cycle := initial, true;
    }

    /** `wait` up to the point where the caller returns true or blocks; a blocked caller keeps the
        bit it saw, and may return once that differs from the barrier's. */
    method Arrive() returns (last: bool, saved: bool)
      requires Valid()
      modifies this
      ensures Valid()
      ensures saved == old(cycle)
      ensures last == (old(current) == 1)
      ensures current == (if last then initial else old(current) - 1)
      ensures cycle == (if last then !old(cycle) else old(cycle))
      ensures ArrivesLike(initial, old(current), old(cycle), last, current, cycle)
    {
      saved := cycle;
      current := current - 1;
      if 0 == current {
        cycle := !cycle;
        current := initial;
        return true, saved;
      }
      last := false;
    }
  }

  // ---------------------------------------------------------------- threads around one barrier

  type Tid = nat

  /** A blocked caller: the bit it saved, and the generation in which it arrived. */
  datatype Wait = Wait(saved: bool, gen: nat)

  datatype Event =
    | Arrived(t: Tid, gen: nat)
    | Left(t: Tid, gen: nat, result: bool)

  /** `gen` counts the generations that the bit can only alternate through. */
  datatype System = System(
    n: nat,
    current: nat,
    cycle: bool,
    waiting: map<Tid, Wait>,
    gen: nat,
    log: seq<Event>)

  datatype Step = Arrive(t: Tid) | Leave(t: Tid)

  function Init(n: nat): System {
    System(n, n, true, map[], 0, [])
  }

  ghost predicate Enabled(s: System, step: Step) {
    match step
    case Arrive(t) => t !in s.waiting && 0 < s.current
    case Leave(t) => t in s.waiting && s.waiting[t].saved != s.cycle
  }

  function Apply(s: System, step: Step): System
    requires Enabled(s, step)
  {
    match step
    case Arrive(t) =>
      if s.current == 1 then
        s.(current := s.n, cycle := !s.cycle, gen := s.gen + 1,
           log := s.log + [Arrived(t, s.gen), Left(t, s.gen, true)])
      else
        s.(current := s.current - 1, waiting := s.waiting[t := Wait(s.cycle, s.gen)],
           log := s.log + [Arrived(t, s.gen)])
    case Leave(t) =>
      s.(waiting := s.waiting - {t}, log := s.log + [Left(t, s.waiting[t].gen, false)])
  }

  /** The object's `Arrive` takes its fields where the step takes the system's. */
  ghost predicate ArrivesLike(n: nat, current: nat, cycle: bool, last: bool, current': nat, cycle': bool) {
    forall s: System, t: Tid :: s.n == n && s.current == current && s.cycle == cycle && Enabled(s, Arrive(t)) ==>
      && Apply(s, Arrive(t)).current == current'
      && Apply(s, Arrive(t)).cycle == cycle'
      && (t in Apply(s, Arrive(t)).waiting <==> !last)
  }

  ghost predicate IsRun(s: System, steps: seq<Step>)
    decreases |steps|
  {
    steps != [] ==> Enabled(s, steps[0]) && IsRun(Apply(s, steps[0]), steps[1..])
  }

  ghost function Exec(s: System, steps: seq<Step>): System
    requires IsRun(s, steps)
    decreases |steps|
  {
    if steps == [] then s else Exec(Apply(s, steps[0]), steps[1..])
  }

  // ---------------------------------------------------------------- any number of threads

  function Arrivals(log: seq<Event>, g: nat): nat {
    if log == [] then 0
    else Arrivals(log[..|log| - 1], g) + (if log[|log| - 1].Arrived? && log[|log| - 1].gen == g then 1 else 0)
  }

  predicate Wins(ev: Event, g: nat) {
    ev.Left? && ev.result && ev.gen == g
  }

  function Winners(log: seq<Event>, g: nat): nat {
    if log == [] then 0 else Winners(log[..|log| - 1], g) + (if Wins(log[|log| - 1], g) then 1 else 0)
  }

  /** Nobody leaves a generation before all `n` arrivals in it. */
  ghost predicate LeftAfterAll(log: seq<Event>, n: nat) {
    forall i :: 0 <= i < |log| && log[i].Left? ==> Arrivals(log[..i], log[i].gen) == n
  }

  /** The callers blocked in the current generation. */
  ghost function Blocked(s: System): set<Tid> {
    set t | t in s.waiting && s.waiting[t].gen == s.gen
  }

  ghost predicate Even(g: nat) {
    g % 2 == 0
  }

  ghost predicate Inv(s: System) {
    && 0 < s.current <= s.n
    && s.cycle == Even(s.gen)
    && (forall t :: t in s.waiting ==> s.waiting[t].gen <= s.gen && s.waiting[t].saved == Even(s.waiting[t].gen))
    && |Blocked(s)| == s.n - s.current
    && (s.n == 1 ==> s.waiting == map[])
  }

  ghost predicate LogInv(s: System) {
    && (forall g: nat :: Arrivals(s.log, g) == (if g < s.gen then s.n else if g == s.gen then s.n - s.current else 0))
    && (forall g: nat :: Winners(s.log, g) == (if g < s.gen then 1 else 0))
    && LeftAfterAll(s.log, s.n)
  }

  /** How many arrivals there are in a run. */
  function Arriving(steps: seq<Step>): nat {
    if steps == [] then 0 else (if steps[0].Arrive? then 1 else 0) + Arriving(steps[1..])
  }

  /** Every `n` arrivals make a generation; the count is what is missing from the current one. */
  lemma {:induction false} EveryNth(s: System, steps: seq<Step>)
    requires Inv(s) && IsRun(s, steps)
    ensures var s' := Exec(s, steps);
      s'.n == s.n && s'.gen * s.n - s'.current == s.gen * s.n - s.current + Arriving(steps)
    decreases |steps|
  {
    hide Inv, Blocked;
    if steps != [] {
      InvStep(s, steps[0]);
      EveryNthStep(s, steps[0]);
      EveryNth(Apply(s, steps[0]), steps[1..]);
    }
  }

  lemma EveryNthStep(s: System, step: Step)
    requires Enabled(s, step)
    ensures var s' := Apply(s, step);
      s'.n == s.n && s'.gen * s.n - s'.current == s.gen * s.n - s.current + (if step.Arrive? then 1 else 0)
  {
  }

  lemma LogAppend(log: seq<Event>, ev: Event)
    ensures forall g: nat :: Arrivals(log + [ev], g) == Arrivals(log, g) + (if ev.Arrived? && ev.gen == g then 1 else 0)
    ensures forall g: nat :: Winners(log + [ev], g) == Winners(log, g) + (if Wins(ev, g) then 1 else 0)
  {
    assert (log + [ev])[..|log|] == log;
  }

  lemma LeftAppend(log: seq<Event>, ev: Event, n: nat)
    requires LeftAfterAll(log, n) && (ev.Left? ==> Arrivals(log, ev.gen) == n)
    ensures LeftAfterAll(log + [ev], n)
  {
    var l := log + [ev];
    forall i | 0 <= i < |l| && l[i].Left? ensures Arrivals(l[..i], l[i].gen) == n {
      assert l[..i] == log[..i];
      assert i == |log| ==> log[..i] == log;
    }
  }

  lemma BlockedArrive(s: System, t: Tid)
    requires Inv(s) && Enabled(s, Arrive(t))
    ensures Blocked(Apply(s, Arrive(t))) == if s.current == 1 then {} else Blocked(s) + {t}
    ensures t !in Blocked(s)
  {
    hide Even;
  }

  lemma BlockedLeave(s: System, t: Tid)
    requires Inv(s) && Enabled(s, Leave(t))
    ensures Blocked(Apply(s, Leave(t))) == Blocked(s)
  {
  }

  lemma BlockedStep(s: System, step: Step)
    requires Inv(s) && Enabled(s, step)
    ensures var s' := Apply(s, step); |Blocked(s')| == s'.n - s'.current
  {
    hide Blocked, Even;
    match step
    case Arrive(t) => BlockedArrive(s, t);
    case Leave(t) => BlockedLeave(s, t);
  }

  lemma InvStep(s: System, step: Step)
    requires Inv(s) && Enabled(s, step)
    ensures Inv(Apply(s, step))
  {
    hide Blocked;
    BlockedStep(s, step);
  }

  lemma LogStep(s: System, step: Step)
    requires Inv(s) && LogInv(s) && Enabled(s, step)
    ensures LogInv(Apply(s, step))
  {
    hide Arrivals, Winners, LeftAfterAll, Blocked;
    var s' := Apply(s, step);
    match step
    case Arrive(t) =>
      var a := Arrived(t, s.gen);
      LogAppend(s.log, a);
      LeftAppend(s.log, a, s.n);
      if s.current == 1 {
        var b := Left(t, s.gen, true);
        LogAppend(s.log + [a], b);
        LeftAppend(s.log + [a], b, s.n);
        assert s'.log == s.log + [a] + [b];
      }
    case Leave(t) =>
      var b := Left(t, s.waiting[t].gen, false);
      LogAppend(s.log, b);
      LeftAppend(s.log, b, s.n);
  }

  lemma SameSize(s: System, step: Step)
    requires Enabled(s, step)
    ensures Apply(s, step).n == s.n
  {
  }

  lemma {:induction false} InvRun(s: System, steps: seq<Step>)
    requires Inv(s) && LogInv(s) && IsRun(s, steps)
    ensures Inv(Exec(s, steps)) && LogInv(Exec(s, steps)) && Exec(s, steps).n == s.n
    decreases |steps|
  {
    hide Apply, Enabled, Inv, LogInv;
    if steps != [] {
      SameSize(s, steps[0]);
      InvStep(s, steps[0]);
      LogStep(s, steps[0]);
      InvRun(Apply(s, steps[0]), steps[1..]);
    }
  }

  /** For any number of threads and every run: finished generations had exactly `n` arrivals and
      exactly one caller that got `true`, the current one has fewer than `n` and none, and nobody
      left a generation before its `n`-th arrival. */
  lemma GenerationsAreComplete(n: nat, steps: seq<Step>)
    requires 0 < n && IsRun(Init(n), steps)
    ensures var s := Exec(Init(n), steps);
      && (forall g: nat :: Winners(s.log, g) == if g < s.gen then 1 else 0)
      && (forall g: nat :: g < s.gen ==> Arrivals(s.log, g) == n)
      && (forall g: nat :: s.gen <= g ==> Arrivals(s.log, g) < n)
      && LeftAfterAll(s.log, n)
      && s.gen * n + (n - s.current) == Arriving(steps)
  {
    EveryNth(Init(n), steps);
    assert Blocked(Init(n)) == {};
    InvRun(Init(n), steps);
  }

  // ---------------------------------------------------------------- when the bit is enough

  /** A blocked caller can leave, by the bit, exactly when its generation is over. */
  ghost predicate BitAgrees(s: System) {
    forall t :: t in s.waiting ==> (s.waiting[t].saved != s.cycle <==> s.waiting[t].gen < s.gen)
  }

  /** Every blocked caller belongs to the current or the previous generation. */
  ghost predicate Recent(s: System) {
    forall t :: t in s.waiting ==> s.waiting[t].gen + 1 >= s.gen
  }

  ghost predicate By(steps: seq<Step>, threads: set<Tid>) {
    forall i :: 0 <= i < |steps| ==> steps[i].t in threads
  }

  lemma RecentAgrees(s: System)
    requires Inv(s) && Recent(s)
    ensures BitAgrees(s)
  {
  }

  /** With at most `n` participants a generation cannot finish while a caller of the previous one is
      still blocked: it and the `n` arrivals would be `n + 1` different threads. */
  lemma NoStraggler(s: System, threads: set<Tid>, t: Tid, late: Tid)
    requires Inv(s) && s.waiting.Keys <= threads && |threads| <= s.n
    requires t in threads && t !in s.waiting && s.current == 1
    requires late in s.waiting
    ensures s.waiting[late].gen == s.gen
  {
    if s.waiting[late].gen != s.gen {
      var all := Blocked(s) + {late} + {t};
      assert all <= threads;
      SubsetSize(all, threads);
    }
  }

  lemma SubsetSize(a: set<Tid>, b: set<Tid>)
    requires a <= b
    ensures |a| <= |b|
  {
    assert b == a + (b - a);
  }

  lemma RecentStep(s: System, step: Step, threads: set<Tid>)
    requires Inv(s) && Recent(s) && Enabled(s, step) && step.t in threads
    requires s.waiting.Keys <= threads && (|threads| <= s.n || s.n == 1)
    ensures Recent(Apply(s, step)) && Apply(s, step).waiting.Keys <= threads
  {
    if step.Arrive? && s.current == 1 {
      forall u | u in s.waiting ensures s.waiting[u].gen == s.gen {
        NoStraggler(s, threads, step.t, u);
      }
    }
  }

  lemma {:induction false} RecentRun(s: System, steps: seq<Step>, threads: set<Tid>)
    requires Inv(s) && Recent(s) && IsRun(s, steps) && By(steps, threads)
    requires s.waiting.Keys <= threads && (|threads| <= s.n || s.n == 1)
    ensures Inv(Exec(s, steps)) && Recent(Exec(s, steps))
    decreases |steps|
  {
    hide Apply, Enabled, Inv, Recent;
    if steps != [] {
      SameSize(s, steps[0]);
      InvStep(s, steps[0]);
      RecentStep(s, steps[0], threads);
      RecentRun(Apply(s, steps[0]), steps[1..], threads);
    }
  }

  // ---------------------------------------------------------------- when it is not

  lemma RunCons(s: System, step: Step, rest: seq<Step>)
    requires Enabled(s, step) && IsRun(Apply(s, step), rest)
    ensures IsRun(s, [step] + rest) && Exec(s, [step] + rest) == Exec(Apply(s, step), rest)
  {
    hide Apply, Enabled;
    assert ([step] + rest)[0] == step && ([step] + rest)[1..] == rest;
  }

  lemma {:induction false} RunAppend(s: System, a: seq<Step>, b: seq<Step>)
    requires IsRun(s, a) && IsRun(Exec(s, a), b)
    ensures IsRun(s, a + b) && Exec(s, a + b) == Exec(Exec(s, a), b)
    decreases |a|
  {
    hide Apply, Enabled;
    if a == [] {
      assert a + b == b;
    } else {
      RunAppend(Apply(s, a[0]), a[1..], b);
      assert (a + b)[1..] == a[1..] + b;
    }
  }

  /** Two systems with the same fields, whatever their logs. */
  ghost predicate Same(s: System, n: nat, current: nat, cycle: bool, waiting: map<Tid, Wait>, gen: nat) {
    s.n == n && s.current == current && s.cycle == cycle && s.waiting == waiting && s.gen == gen
  }

  function Joining(ts: set<Tid>, w: Wait): map<Tid, Wait> {
    map t | t in ts :: w
  }

  /** Fewer threads than it takes to finish the generation arrive and block. */
  lemma {:induction false} ArriveAll(s: System, ts: set<Tid>) returns (steps: seq<Step>)
    requires ts !! s.waiting.Keys && |ts| < s.current
    ensures IsRun(s, steps) && By(steps, ts)
    ensures Same(Exec(s, steps), s.n, s.current - |ts|, s.cycle, s.waiting + Joining(ts, Wait(s.cycle, s.gen)), s.gen)
    decreases |ts|
  {
    steps := [];
    if ts == {} {
      assert s.waiting + Joining(ts, Wait(s.cycle, s.gen)) == s.waiting;
    } else {
      var t :| t in ts;
      var s1 := Apply(s, Arrive(t));
      JoinOne(s.waiting, ts, t, Wait(s.cycle, s.gen));
      var rest := ArriveAll(s1, ts - {t});
      RunCons(s, Arrive(t), rest);
      steps := [Arrive(t)] + rest;
    }
  }

  lemma JoinOne(waiting: map<Tid, Wait>, ts: set<Tid>, t: Tid, w: Wait)
    requires t in ts
    ensures waiting[t := w] + Joining(ts - {t}, w) == waiting + Joining(ts, w)
  {
  }

  lemma {:induction false} LeaveAll(s: System, ts: set<Tid>) returns (steps: seq<Step>)
    requires forall t :: t in ts ==> t in s.waiting && s.waiting[t].saved != s.cycle
    ensures IsRun(s, steps) && By(steps, ts)
    ensures Same(Exec(s, steps), s.n, s.current, s.cycle, s.waiting - ts, s.gen)
    decreases |ts|
  {
    steps := [];
    if ts == {} {
      assert s.waiting - ts == s.waiting;
    } else {
      var t :| t in ts;
      var s1 := Apply(s, Leave(t));
      var rest := LeaveAll(s1, ts - {t});
      RunCons(s, Leave(t), rest);
      steps := [Leave(t)] + rest;
      assert s1.waiting - (ts - {t}) == s.waiting - ts;
    }
  }

  /** A whole generation: all of `ts` arrive, `last` after the others, who stay blocked. */
  lemma Generation(s: System, ts: set<Tid>, last: Tid) returns (steps: seq<Step>)
    requires s.current == s.n == |ts| + 1 && last !in ts && last !in s.waiting && ts !! s.waiting.Keys
    ensures IsRun(s, steps) && By(steps, ts + {last})
    ensures Same(Exec(s, steps), s.n, s.n, !s.cycle, s.waiting + Joining(ts, Wait(s.cycle, s.gen)), s.gen + 1)
  {
    var a := ArriveAll(s, ts);
    var s1 := Exec(s, a);
    var b := [Arrive(last)];
    RunCons(s1, Arrive(last), []);
    assert b == b + [];
    RunAppend(s, a, b);
    steps := a + b;
  }

  lemma Subset(ts: set<Tid>, k: nat) returns (sub: set<Tid>)
    requires k <= |ts|
    ensures sub <= ts && |sub| == k
    decreases |ts|
  {
    if |ts| == k {
      sub := ts;
    } else {
      var t :| t in ts;
      sub := Subset(ts - {t}, k);
    }
  }

  /** The others finish the first generation and leave, `slow` does not look. */
  lemma FirstRound(n: nat, slow: Tid, y: Tid, early: set<Tid>) returns (steps: seq<Step>)
    requires |early| + 2 == n && slow != y && slow !in early && y !in early
    ensures IsRun(Init(n), steps) && By(steps, early + {slow, y})
    ensures Same(Exec(Init(n), steps), n, n, false, map[slow := Wait(true, 0)], 1)
  {
    hide By, Apply, Enabled, IsRun, Exec;
    var s0 := Init(n);
    var a := Generation(s0, early + {slow}, y);
    var s1 := Exec(s0, a);
    assert s1.waiting == Joining(early + {slow}, Wait(true, 0));
    var b := LeaveAll(s1, early);
    assert s1.waiting - early == map[slow := Wait(true, 0)];
    RunAppend(s0, a, b);
    ByAppend(a, early + {slow} + {y}, b, early, early + {slow, y});
    steps := a + b;
  }

  /** Then they finish another generation. */
  lemma TwiceRound(n: nat, slow: Tid, x: Tid, y: Tid, early: set<Tid>) returns (steps: seq<Step>)
    requires |early| + 2 == n && early !! {slow, x, y} && slow != x && slow != y && x != y
    ensures IsRun(Init(n), steps) && By(steps, early + {slow, x, y})
    ensures var s := Exec(Init(n), steps);
      s.cycle && s.gen == 2 && slow in s.waiting && s.waiting[slow] == Wait(true, 0)
  {
    hide By, Apply, Enabled, IsRun, Exec;
    var a := FirstRound(n, slow, y, early);
    var s2 := Exec(Init(n), a);
    var c := Generation(s2, early + {y}, x);
    RunAppend(Init(n), a, c);
    ByAppend(a, early + {slow, y}, c, early + {y} + {x}, early + {slow, x, y});
    steps := a + c;
  }

  /** With more than `n` participants, `n` at least two, a caller that is slow to wake up misses its
      release: by the time it looks, the others have been round twice and the bit is back. */
  lemma MissedRelease(n: nat, threads: set<Tid>) returns (steps: seq<Step>)
    requires 2 <= n < |threads|
    ensures IsRun(Init(n), steps) && By(steps, threads) && !BitAgrees(Exec(Init(n), steps))
  {
    hide By, Apply, Enabled;
    var slow :| slow in threads;
    var others := Subset(threads - {slow}, n);
    var x :| x in others;
    assert |others - {x}| == n - 1;
    var y :| y in others - {x};
    var early := others - {x} - {y};
    steps := TwiceRound(n, slow, x, y, early);
    ByAppend(steps, early + {slow, x, y}, [], {}, threads) by { NobodyActs(); }
    assert steps + [] == steps;
  }

  lemma NobodyActs()
    ensures By([], {})
  {
  }

  lemma ByAppend(a: seq<Step>, p: set<Tid>, b: seq<Step>, q: set<Tid>, threads: set<Tid>)
    requires By(a, p) && By(b, q) && p <= threads && q <= threads
    ensures By(a + b, threads)
  {
  }

  /** The bit agrees with the generation counter, in every run by the given threads, if and only if
      there are at most as many of them as the barrier expects, or it expects just one. */
  lemma BitIsExact(n: nat, threads: set<Tid>)
    requires 0 < n
    ensures (forall steps :: IsRun(Init(n), steps) && By(steps, threads) ==> BitAgrees(Exec(Init(n), steps)))
            <==> |threads| <= n || n == 1
  {
    hide BitAgrees, By;
    if |threads| <= n || n == 1 {
      forall steps | IsRun(Init(n), steps) && By(steps, threads) ensures BitAgrees(Exec(Init(n), steps)) {
        assert Blocked(Init(n)) == {};
        RecentRun(Init(n), steps, threads);
        RecentAgrees(Exec(Init(n), steps));
      }
    } else {
      var steps := MissedRelease(n, threads);
      assert IsRun(Init(n), steps);
    }
  }
}
