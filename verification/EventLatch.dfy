/**
 `Event` and `Latch`: one atomic word that is unset, the head of a list of awaiters, or set, and a
 counter that sets it.
 */
module EventLatch {

  datatype Policy = Lifo | Fifo

  function Reverse<T>(s: seq<T>): (r: seq<T>)
    ensures |r| == |s|
    ensures forall i :: 0 <= i < |s| ==> r[i] == s[|s| - 1 - i]
  {
    if s == [] then [] else Reverse(s[1..]) + [s[0]]
  }

  /** The order in which awaiters are resumed, given the order in which they registered. */
  function ResumeOrder<T>(policy: Policy, registered: seq<T>): seq<T> {
    if policy == Fifo then registered else Reverse(registered)
  }

  // ---------------------------------------------------------------- the object

  class Awaiter {
    var next: Awaiter?

    constructor ()
      ensures next == null
    {
      next := null;
    }
  }

  function Nth(list: seq<Awaiter>, i: int): Awaiter? {
    if 0 <= i < |list| then list[i] else null
  }

  ghost predicate Distinct<T>(list: seq<T>) {
    forall i, j :: 0 <= i < j < |list| ==> list[i] != list[j]
  }

  /** `list` is the null-terminated list that starts at `head`. */
  ghost predicate Linked(head: Awaiter?, list: seq<Awaiter>)
    reads list
  {
    && head == Nth(list, 0)
    && (forall i {:trigger list[i].next} :: 0 <= i < |list| ==> list[i].next == Nth(list, i + 1))
  }

  /** Reverses a linked list in place. */
  method ReverseInPlace(head: Awaiter?, ghost list: seq<Awaiter>) returns (prev: Awaiter?)
    requires Linked(head, list) && Distinct(list)
    modifies list
    ensures Linked(prev, Reverse(list)) && Distinct(Reverse(list))
  {
    hide Reverse;
    if head == null || head.next == null {
      assert |list| <= 1;
      assert Reverse(list) == list;
      return head;
    }
    prev := null;
    var curr := head;
    ghost var k := 0;
    while curr != null
      invariant k <= |list|
      invariant curr == Nth(list, k) && prev == Nth(list, k - 1)
      invariant forall i {:trigger list[i].next} :: 0 <= i < k ==> list[i].next == Nth(list, i - 1)
      invariant forall i {:trigger list[i].next} :: k <= i < |list| ==> list[i].next == Nth(list, i + 1)
      decreases |list| - k
    {
      assert curr == list[k];
      var next := curr.next;
      curr.next := prev;
      prev := curr;
      curr := next;
      k := k + 1;
    }
    ghost var r := Reverse(list);
    forall i | 0 <= i < |r| ensures r[i].next == Nth(r, i + 1) {
      assert r[i] == list[|list| - 1 - i];
    }
  }

  /** Walks a list, resuming each awaiter after reading its successor. */
  method Walk(head: Awaiter?, ghost list: seq<Awaiter>) returns (resumed: seq<Awaiter>)
    requires Linked(head, list)
    ensures resumed == list
  {
    resumed := [];
    var waiter := head;
    ghost var k := 0;
    while waiter != null
      invariant k <= |list| && waiter == Nth(list, k) && resumed == list[..k]
      decreases |list| - k
    {
      assert waiter == list[k];
      var next := waiter.next;
      resumed := resumed + [waiter];
      waiter := next;
      k := k + 1;
    }
  }

  class Event {
    var isSet: bool
    var head: Awaiter?
    ghost var waiters: seq<Awaiter>  // most recent first

    ghost predicate Valid()
      reads this, waiters
    {
      Linked(head, waiters) && Distinct(waiters) && (isSet ==> waiters == [])
    }

    constructor (initiallySet: bool)
      ensures Valid() && isSet == initiallySet && waiters == []
    {
      isSet, head, waiters := initiallySet, null, [];
    }

    /** One attempt of `await_suspend` to push itself: it succeeds only if the word is still the head
        that was loaded, or set by the last failed attempt. */
    method Attempt(a: Awaiter, seen: Awaiter?) returns (pushed: bool)
      requires Valid() && a !in waiters
      modifies this, a
      ensures Valid() && isSet == old(isSet)
      ensures pushed == (!old(isSet) && old(head) == seen)
      ensures waiters == (if pushed then [a] + old(waiters) else old(waiters))
    {
      a.next := seen;
      assert forall i :: 0 <= i < |waiters| ==> waiters[i] in waiters;
      pushed := false;
      if !isSet && head == seen {
        head := a;
        waiters := [a] + waiters;
        pushed := true;
      }
    }

    /** `set`: the first caller takes the list, reverses it under `Fifo`, and resumes each awaiter
        once; registration order is the reverse of the list. */
    method Set(policy: Policy) returns (resumed: seq<Awaiter>)
      requires Valid()
      modifies this, waiters
      ensures Valid() && isSet && waiters == []
      ensures resumed == (if old(isSet) then [] else ResumeOrder(policy, Reverse(old(waiters))))
    {
      hide Reverse, Linked, Distinct;
      resumed := [];
      var first := !isSet;
      var list := head;
      ghost var was := waiters;
      ReverseTwice(was);
      NothingLinked();
      isSet, head, waiters := true, null, [];
      if first {
        if policy == Fifo {
          list := ReverseInPlace(list, was);
          resumed := Walk(list, Reverse(was));
        } else {
          resumed := Walk(list, was);
        }
      }
    }

    /** `reset` has an effect only on an event that is set. */
    method Reset()
      requires Valid()
      modifies this`isSet
      ensures Valid() && !isSet && waiters == old(waiters)
    {
      if isSet {
        isSet := false;
      }
    }
  }

  lemma NothingLinked()
    ensures Linked(null, []) && Distinct<Awaiter>([])
  {
  }

  lemma ReverseTwice<T>(s: seq<T>)
    ensures Reverse(Reverse(s)) == s
  {
  }

  // ---------------------------------------------------------------- awaiters and counters racing

  type Id = nat

  /** The atomic word. */
  datatype Word = Waiting(list: seq<Id>) | Set

  /** Where an awaiter is: it has found the event unset; it has loaded the word and is about to
      compare and exchange; it is suspended; or it never suspended. */
  datatype Place = Checked | Loaded(seen: seq<Id>) | Suspended | Passed

  /** `registered` and `resumed` list awaiters in the order in which that happened; `setting` holds,
      for every `count_down`, whether it still has to set the event; `detached` is what is left of the
      list that the one who set the event has taken and is walking. */
  datatype System = System(
    count: int,
    word: Word,
    setting: seq<bool>,
    places: seq<Place>,
    registered: seq<Id>,
    detached: seq<Id>,
    resumed: seq<Id>,
    policy: Policy)

  datatype Step =
    | Check                         // await_ready
    | Load(a: Id)                   // the load before the loop
    | Exchange(a: Id, fails: bool)  // compare_exchange_weak, which may fail spuriously
    | Subtract(n: int)              // fetch_sub
    | SetEvent(t: nat, policy: Policy)  // the exchange, and the reversal of the list, which is now private
    | Resume                        // one round of the walk

  function Init(count: int): System {
    System(count, if count <= 0 then Set else Waiting([]), [], [], [], [], [], Lifo)
  }

  ghost predicate Enabled(s: System, step: Step) {
    match step
    case Load(a) => a < |s.places| && s.places[a].Checked?
    case Exchange(a, _) => a < |s.places| && s.places[a].Loaded?
    case SetEvent(t, _) => t < |s.setting| && s.setting[t]
    case Resume => s.detached != []
    case _ => true
  }

  function Head(list: seq<Id>): int {
    if list == [] then -1 else list[0]
  }

  /** The place of an awaiter that has just seen the word. */
  function Seen(w: Word): Place {
    match w
    case Set => Passed
    case Waiting(list) => Loaded(list)
  }

  function Apply(s: System, step: Step): System
    requires Enabled(s, step)
  {
    match step
    case Check => s.(places := s.places + [if s.word.Set? then Passed else Checked])
    case Load(a) => s.(places := s.places[a := Seen(s.word)])
    case Exchange(a, fails) =>
      // the exchange compares heads only, and the awaiter's successor is the head that it has seen
      if s.word.Waiting? && Head(s.word.list) == Head(s.places[a].seen) && !fails then
        s.(word := Waiting([a] + s.places[a].seen), places := s.places[a := Suspended],
           registered := s.registered + [a])
      else
        s.(places := s.places[a := Seen(s.word)])
    case Subtract(n) => s.(count := s.count - n, setting := s.setting + [s.count <= n])
    case SetEvent(t, policy) =>
      var s := s.(setting := s.setting[t := false]);
      if s.word.Set? then s
      else s.(word := Set, policy := policy, detached := ResumeOrder(policy, Reverse(s.word.list)))
    case Resume => s.(detached := s.detached[1..], resumed := s.resumed + [s.detached[0]])
  }

  ghost predicate IsRun(s: System, steps: seq<Step>)
    decreases |steps|
  {
    steps != [] ==> Enabled(s, steps[0]) && IsRun(Apply(s, steps[0]), steps[1..])
  }

  ghost function Exec(s: System, steps: seq<Step>): System
    requires IsRun(s, steps)
    decreases |steps|
  {
    if steps == [] then s else Exec(Apply(s, steps[0]), steps[1..])
  }

  /** The waiting list is what registered, latest first; once set, those resumed and those still to be
      resumed are exactly the registered awaiters, in the order of the policy. */
  ghost predicate ListInv(s: System) {
    && (s.word.Waiting? ==> s.word.list == Reverse(s.registered) && s.detached == [] && s.resumed == [])
    && (s.word.Set? ==> s.resumed + s.detached == ResumeOrder(s.policy, s.registered))
  }

  /** What an awaiter has seen of an unset event is an older part of the list. */
  ghost predicate SeenInv(s: System) {
    && (s.word.Waiting? ==> Distinct(s.word.list))
    && forall a :: 0 <= a < |s.places| && s.places[a].Loaded? && s.word.Waiting? ==>
         IsTail(s.places[a].seen, s.word.list)
  }

  ghost predicate IsTail(tail: seq<Id>, list: seq<Id>) {
    |tail| <= |list| && list[|list| - |tail|..] == tail
  }

  /** Equal heads mean equal lists: nobody who has registered leaves the list or comes back to it. */
  lemma SameHead(tail: seq<Id>, list: seq<Id>)
    requires IsTail(tail, list) && Distinct(list) && Head(tail) == Head(list)
    ensures tail == list
  {
    if tail != [] {
      assert tail[0] == list[|list| - |tail|];
    }
  }

  lemma TailGrows(tail: seq<Id>, list: seq<Id>, a: Id)
    requires IsTail(tail, list)
    ensures IsTail(tail, [a] + list)
  {
  }

  lemma SeenStep(s: System, step: Step)
    requires SeenInv(s) && ListInv(s) && PlaceInv(s) && Enabled(s, step)
    ensures SeenInv(Apply(s, step))
  {
    hide IsTail, Reverse, ResumeOrder;
    var s' := Apply(s, step);
    WholeTail(s.word);
    if step.Exchange? && s'.word != s.word {
      var a := step.a;
      SameHead(s.places[a].seen, s.word.list);
      forall i | 0 <= i < |s.word.list| ensures s.word.list[i] != a {
        assert s.word.list[i] == s.registered[|s.registered| - 1 - i];
      }
      forall b | 0 <= b < |s'.places| && s'.places[b].Loaded? ensures IsTail(s'.places[b].seen, s'.word.list) {
        TailGrows(s.places[b].seen, s.word.list, a);
      }
    }
  }

  lemma WholeTail(w: Word)
    ensures w.Waiting? ==> IsTail(w.list, w.list)
  {
  }

  /** Exactly the suspended awaiters are registered, each once; nobody has passed an unset event. */
  ghost predicate PlaceInv(s: System) {
    && (forall a :: 0 <= a < |s.places| && s.places[a].Passed? ==> s.word.Set?)
    && Distinct(s.registered)
    && (forall i :: 0 <= i < |s.registered| ==> s.registered[i] < |s.places| && s.places[s.registered[i]].Suspended?)
    && (forall a :: 0 <= a < |s.places| && s.places[a].Suspended? ==> a in s.registered)
  }

  lemma ReverseSnoc<T>(x: T, s: seq<T>)
    ensures Reverse(s + [x]) == [x] + Reverse(s)
  {
  }

  lemma ListStep(s: System, step: Step)
    requires ListInv(s) && SeenInv(s) && Enabled(s, step)
    ensures ListInv(Apply(s, step))
  {
    hide Reverse, ResumeOrder;
    var s' := Apply(s, step);
    match step
    case Exchange(a, _) =>
      ReverseSnoc(a, s.registered);
      if s.word.Waiting? && Head(s.word.list) == Head(s.places[a].seen) {
        SameHead(s.places[a].seen, s.word.list);
      }
    case SetEvent(_, _) =>
      ReverseTwice(s.registered);
      assert [] + s'.detached == s'.detached;
    case Resume =>
      assert s'.resumed + s'.detached == s.resumed + s.detached;
    case _ =>
  }

  lemma PlaceStep(s: System, step: Step)
    requires PlaceInv(s) && Enabled(s, step)
    ensures PlaceInv(Apply(s, step))
  {
    hide Reverse, ResumeOrder;
  }

  lemma {:induction false} AwaitersRun(s: System, steps: seq<Step>)
    requires ListInv(s) && PlaceInv(s) && SeenInv(s) && IsRun(s, steps)
    ensures ListInv(Exec(s, steps)) && PlaceInv(Exec(s, steps)) && SeenInv(Exec(s, steps))
    decreases |steps|
  {
    hide Apply, Enabled, ListInv, PlaceInv, SeenInv;
    if steps != [] {
      ListStep(s, steps[0]);
      SeenStep(s, steps[0]);
      PlaceStep(s, steps[0]);
      AwaitersRun(Apply(s, steps[0]), steps[1..]);
    }
  }

  /** The policy of the first call that sets the event. */
  function FirstPolicy(steps: seq<Step>): Policy {
    if steps == [] then Lifo else if steps[0].SetEvent? then steps[0].policy else FirstPolicy(steps[1..])
  }

  lemma {:induction false} PolicyRun(s: System, steps: seq<Step>)
    requires IsRun(s, steps)
    ensures Exec(s, steps).word.Set? ==> Exec(s, steps).policy == if s.word.Set? then s.policy else FirstPolicy(steps)
    decreases |steps|
  {
    if steps != [] {
      PolicyRun(Apply(s, steps[0]), steps[1..]);
    }
  }

  /** Awaiters register, and are resumed, at the end of the record. */
  lemma {:induction false} RecordsGrow(s: System, steps: seq<Step>)
    requires IsRun(s, steps)
    ensures s.registered <= Exec(s, steps).registered && s.resumed <= Exec(s, steps).resumed
    decreases |steps|
  {
    if steps != [] {
      RecordsGrow(Apply(s, steps[0]), steps[1..]);
    }
  }

  lemma {:induction false} NobodyRegisters(s: System, steps: seq<Step>)
    requires IsRun(s, steps) && s.word.Set?
    ensures Exec(s, steps).word.Set? && Exec(s, steps).registered == s.registered
    decreases |steps|
  {
    if steps != [] {
      NobodyRegisters(Apply(s, steps[0]), steps[1..]);
    }
  }

  /** In every run, however many counters cross zero and whoever arrives during the walk: nobody is
      resumed, and nobody passes, before the event is set; from then on those resumed are a prefix of
      the awaiters that suspended, in the order of registration if the first call to set it asks for
      `Fifo`, and in the reverse order otherwise; and once the walk is over they are all of them, once
      each. */
  lemma ResumedOnceInOrder(count: int, steps: seq<Step>)
    requires IsRun(Init(count), steps)
    ensures var s := Exec(Init(count), steps); var order := ResumeOrder(FirstPolicy(steps), s.registered);
      && (s.word.Waiting? ==> s.resumed == [])
      && (s.word.Set? ==> s.resumed <= order)
      && (s.word.Set? && s.detached == [] ==> s.resumed == order)
      && Distinct(s.registered)
      && (forall a :: 0 <= a < |s.places| ==> (s.places[a].Suspended? <==> a in s.registered))
      && (forall a :: 0 <= a < |s.places| && s.places[a].Passed? ==> s.word.Set?)
  {
    hide Apply, Enabled, IsRun, Exec, Reverse;
    AwaitersRun(Init(count), steps);
    PolicyRun(Init(count), steps);
    if count <= 0 {
      NobodyRegisters(Init(count), steps);
    }
  }

  /** An awaiter that comes when the event is set passes, and stays so whatever follows. */
  lemma LatecomersPass(s: System, steps: seq<Step>)
    requires s.word.Set? && IsRun(Apply(s, Check), steps)
    ensures var s' := Exec(Apply(s, Check), steps); |s.places| < |s'.places| && s'.places[|s.places|] == Passed
  {
    PassedStays(Apply(s, Check), steps, |s.places|);
  }

  lemma {:induction false} PassedStays(s: System, steps: seq<Step>, a: Id)
    requires IsRun(s, steps) && a < |s.places| && s.places[a].Passed?
    ensures a < |Exec(s, steps).places| && Exec(s, steps).places[a].Passed?
    decreases |steps|
  {
    if steps != [] {
      PassedStays(Apply(s, steps[0]), steps[1..], a);
    }
  }

  /** The next look of an awaiter at the word: the load before its loop, or an exchange that fails. */
  function Look(s: System, a: Id): Step
    requires a < |s.places|
  {
    if s.places[a].Checked? then Load(a) else Exchange(a, true)
  }

  /** Wherever an awaiter is in its loop, and whatever has happened to the word since it last looked: once it
      has looked again it passes if the event is set; otherwise its next exchange, if it meets the same
      word and does not fail, suspends it as the last to register. */
  lemma LoopMakesProgress(s: System, a: Id)
    requires a < |s.places| && (s.places[a].Checked? || s.places[a].Loaded?)
    ensures s.word.Set? ==> Apply(s, Look(s, a)).places[a].Passed?
    ensures s.word.Waiting? ==> Apply(s, Look(s, a)).places[a].Loaded?
    ensures s.word.Waiting? ==>
              var s' := Apply(Apply(s, Look(s, a)), Exchange(a, false));
              s'.places[a].Suspended? && s'.registered == s.registered + [a]
  {
  }

  // ---------------------------------------------------------------- the counter

  ghost predicate SomeoneSets(s: System) {
    exists t :: 0 <= t < |s.setting| && s.setting[t]
  }

  /** The count is at or below zero exactly when the event is set or about to be. */
  ghost predicate CountInv(s: System) {
    s.count <= 0 <==> s.word.Set? || SomeoneSets(s)
  }

  /** A `count_down(n)` keeps that, if and only if it does not lift a latch that is already down to
      zero or below back above zero. */
  lemma SubtractIsExact(s: System, n: int)
    requires CountInv(s)
    ensures CountInv(Apply(s, Subtract(n))) <==> !(s.count <= 0 && s.count - n > 0)
  {
    var s' := Apply(s, Subtract(n));
    if SomeoneSets(s) {
      var t :| 0 <= t < |s.setting| && s.setting[t];
      assert s'.setting[t];
    }
    if s.count <= n {
      assert s'.setting[|s.setting|];
    }
    if SomeoneSets(s') {
      var t :| 0 <= t < |s'.setting| && s'.setting[t];
      assert t == |s.setting| || s.setting[t];
    }
  }

  lemma CountStep(s: System, step: Step)
    requires CountInv(s) && Enabled(s, step) && (step.Subtract? ==> 0 <= step.n)
    ensures CountInv(Apply(s, step))
  {
    var s' := Apply(s, step);
    match step
    case Subtract(n) => SubtractIsExact(s, n);
    case SetEvent(t, _) => assert SomeoneSets(s);
    case _ => assert s'.setting == s.setting;
  }

  ghost predicate NonNegative(steps: seq<Step>) {
    forall i :: 0 <= i < |steps| && steps[i].Subtract? ==> 0 <= steps[i].n
  }

  lemma {:induction false} CountRun(s: System, steps: seq<Step>)
    requires CountInv(s) && IsRun(s, steps) && NonNegative(steps)
    ensures CountInv(Exec(s, steps))
    decreases |steps|
  {
    hide Apply, Enabled, CountInv;
    if steps != [] {
      CountStep(s, steps[0]);
      CountRun(Apply(s, steps[0]), steps[1..]);
    }
  }

  /** A `count_down` sets the event once at most. */
  lemma {:induction false} SetsOnce(s: System, steps: seq<Step>, t: nat)
    requires IsRun(s, steps) && t < |s.setting| && !s.setting[t]
    ensures forall i :: 0 <= i < |steps| && steps[i].SetEvent? ==> steps[i].t != t
    decreases |steps|
  {
    if steps != [] {
      SetsOnce(Apply(s, steps[0]), steps[1..], t);
      assert forall i :: 0 < i < |steps| ==> steps[i] == steps[1..][i - 1];
    }
  }

  lemma NoSecondSet(s: System, t: nat, policy: Policy, steps: seq<Step>)
    requires Enabled(s, SetEvent(t, policy)) && IsRun(Apply(s, SetEvent(t, policy)), steps)
    ensures forall i :: 0 <= i < |steps| && steps[i].SetEvent? ==> steps[i].t != t
  {
    SetsOnce(Apply(s, SetEvent(t, policy)), steps, t);
  }

  /** What the decrements of a run add up to. */
  function Total(steps: seq<Step>): int {
    if steps == [] then 0 else (if steps[0].Subtract? then steps[0].n else 0) + Total(steps[1..])
  }

  /** The count is what the decrements have left of it. */
  lemma {:induction false} CountIsTheRest(s: System, steps: seq<Step>)
    requires IsRun(s, steps)
    ensures Exec(s, steps).count == s.count - Total(steps)
    decreases |steps|
  {
    if steps != [] {
      CountIsTheRest(Apply(s, steps[0]), steps[1..]);
    }
  }

  /** With non-negative decrements racing in any order: the event is set, or some `count_down` is about
      to set it, if and only if the decrements have added up to the initial count. */
  lemma LatchOpensAtZero(count: int, steps: seq<Step>)
    requires IsRun(Init(count), steps) && NonNegative(steps)
    ensures var s := Exec(Init(count), steps);
      s.count == count - Total(steps) && (s.word.Set? || SomeoneSets(s) <==> count <= Total(steps))
  {
    hide Apply, Enabled, IsRun, Exec, Total, SomeoneSets;
    InitCount(count);
    CountRun(Init(count), steps);
    CountIsTheRest(Init(count), steps);
  }

  lemma InitCount(count: int)
    ensures CountInv(Init(count))
  {
  }
}
