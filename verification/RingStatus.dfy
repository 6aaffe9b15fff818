/**
 Status tells the truth: in every run of the ring buffer a write returns `Success` exactly when
 its own element was admitted once, a read returns a value exactly when one element was moved to
 it, and nobody is resumed twice.
 */
module RingStatus {
  import opened RingSpec
  import opened RingSystem

  datatype Mark = Entered | Received | Flagged | Woken

  function Hit<T>(k: Mark, op: OpId, ev: Event<T>): nat {
    if ev.op != op then 0
    else if k == Entered then if ev.Admitted? then 1 else 0
    else if k == Received then if ev.Delivered? then 1 else 0
    else if k == Flagged then if ev.Stopped? then 1 else 0
    else if ev.Resumed? then 1 else 0
  }

  /** How often operation `op` is marked in a log. */
  function Count<T>(k: Mark, op: OpId, log: seq<Event<T>>): nat {
    if log == [] then 0 else Hit(k, op, log[0]) + Count(k, op, log[1..])
  }

  lemma {:induction false} CountAppend<T>(k: Mark, op: OpId, a: seq<Event<T>>, b: seq<Event<T>>)
    ensures Count(k, op, a + b) == Count(k, op, a) + Count(k, op, b)
  {
    if a == [] {
      assert a + b == b;
    } else {
      CountAppend(k, op, a[1..], b);
      assert (a + b)[1..] == a[1..] + b;
    }
  }

  lemma CountOne<T>(k: Mark, op: OpId, ev: Event<T>)
    ensures Count(k, op, [ev]) == Hit(k, op, ev)
    ensures Count<T>(k, op, []) == 0
  {
    assert Count(k, op, [ev]) == Hit(k, op, ev) + Count<T>(k, op, []);
  }

  function HitAt<T>(k: Mark, op: OpId, ev: seq<Event<T>>, i: nat): nat {
    if i < |ev| then Hit(k, op, ev[i]) else 0
  }

  /** Counting the short event lists that the sections produce. */
  lemma CountShort<T>(op: OpId, ev: seq<Event<T>>)
    requires |ev| <= 4
    ensures forall k: Mark :: Count(k, op, ev)
              == HitAt(k, op, ev, 0) + HitAt(k, op, ev, 1) + HitAt(k, op, ev, 2) + HitAt(k, op, ev, 3)
  {
    hide Count;
    forall k: Mark ensures Count(k, op, ev)
              == HitAt(k, op, ev, 0) + HitAt(k, op, ev, 1) + HitAt(k, op, ev, 2) + HitAt(k, op, ev, 3)
    {
      CountPrefix(k, op, ev, |ev|);
      assert ev[..|ev|] == ev;
    }
  }

  lemma {:induction false} CountPrefix<T>(k: Mark, op: OpId, ev: seq<Event<T>>, n: nat)
    requires n <= |ev| && n <= 4
    ensures Count(k, op, ev[..n])
            == (if 0 < n then Hit(k, op, ev[0]) else 0) + (if 1 < n then Hit(k, op, ev[1]) else 0)
               + (if 2 < n then Hit(k, op, ev[2]) else 0) + (if 3 < n then Hit(k, op, ev[3]) else 0)
  {
    hide Count;
    if n == 0 {
      CountOne<T>(k, op, Resumed(op));
    } else {
      CountPrefix(k, op, ev, n - 1);
      CountOne(k, op, ev[n - 1]);
      CountAppend(k, op, ev[..n - 1], [ev[n - 1]]);
      assert ev[..n] == ev[..n - 1] + [ev[n - 1]];
    }
  }

  ghost predicate Distinct(ops: seq<OpId>) {
    forall i, j :: 0 <= i < j < |ops| ==> ops[i] != ops[j]
  }

  lemma {:induction false} CountResumeAll<T>(k: Mark, op: OpId, ops: seq<OpId>)
    requires Distinct(ops)
    ensures Count<T>(k, op, ResumeAll(ops)) == if k == Woken && op in ops then 1 else 0
  {
    if ops != [] {
      CountResumeAll<T>(k, op, ops[1..]);
      assert ResumeAll<T>(ops)[1..] == ResumeAll(ops[1..]);
      assert forall x :: x in ops <==> x == ops[0] || x in ops[1..];
    }
  }

  // ---------------------------------------------------------------- one critical section

  function WriterOps<T>(ws: seq<Writer<T>>): (ops: seq<OpId>)
    ensures |ops| == |ws|
    ensures forall i :: 0 <= i < |ws| ==> ops[i] == ws[i].op
  {
    seq(|ws|, i requires 0 <= i < |ws| => ws[i].op)
  }

  /** The waiter lists hold each operation once, in the list of its kind. */
  ghost predicate Listed<T>(r: Ring<T>, ops: seq<OpKind<T>>) {
    && (forall i :: 0 <= i < |r.writers| ==> r.writers[i].op < |ops| && ops[r.writers[i].op] == WriteOp(r.writers[i].e))
    && (forall i :: 0 <= i < |r.readers| ==> r.readers[i] < |ops| && ops[r.readers[i]].ReadOp?)
    && (forall i :: 0 <= i < |r.completed| ==> r.completed[i] < |ops| && ops[r.completed[i]].CompletedOp?)
    && Distinct(WriterOps(r.writers)) && Distinct(r.readers) && Distinct(r.completed)
  }

  ghost predicate Waiting<T>(r: Ring<T>, op: OpId) {
    op in WriterOps(r.writers) || op in r.readers || op in r.completed
  }

  /** No event of `log` touches `op`. */
  ghost predicate Untouched<T>(log: seq<Event<T>>, op: OpId) {
    Count(Entered, op, log) == 0 && Count(Received, op, log) == 0
    && Count(Flagged, op, log) == 0 && Count(Woken, op, log) == 0
  }

  /** The events `log` see operation `op` through: it returns once, and its stop flag, which is
      what it reports, is set exactly when no element moved for it. */
  ghost predicate Settled<T>(log: seq<Event<T>>, op: OpId, kind: OpKind<T>) {
    && Count(Woken, op, log) == 1
    && Count(Flagged, op, log) <= 1
    && Count(Entered, op, log) == (if kind.WriteOp? then 1 - Count(Flagged, op, log) else 0)
    && Count(Received, op, log) == (if kind.ReadOp? then 1 - Count(Flagged, op, log) else 0)
  }

  /** What a section does for operation `op`, given whether it was pending before and still is
      afterwards: a pending operation stays untouched or is settled, the others are untouched. */
  ghost predicate Serves<T>(ev: seq<Event<T>>, op: OpId, kind: OpKind<T>, before: bool, after: bool) {
    if before && !after then Settled(ev, op, kind) else Untouched(ev, op) && before == after
  }

  /** An operation waits only in the list of its kind. */
  lemma Kinds<T>(r: Ring<T>, ops: seq<OpKind<T>>, op: OpId)
    requires Listed(r, ops)
    ensures op in WriterOps(r.writers) ==> op < |ops| && ops[op].WriteOp?
    ensures op in r.readers ==> op < |ops| && ops[op].ReadOp?
    ensures op in r.completed ==> op < |ops| && ops[op].CompletedOp?
  {
  }

  lemma Pop(xs: seq<OpId>, op: OpId)
    requires xs != []
    ensures op in xs <==> op == xs[0] || op in xs[1..]
    ensures Distinct(xs) ==> Distinct(xs[1..]) && xs[0] !in xs[1..]
  {
  }

  lemma PopWriter<T>(ws: seq<Writer<T>>)
    requires ws != []
    ensures WriterOps(ws)[1..] == WriterOps(ws[1..]) && WriterOps(ws)[0] == ws[0].op
  {
  }

  lemma PushWriter<T>(w: Writer<T>, ws: seq<Writer<T>>)
    ensures WriterOps([w] + ws) == [w.op] + WriterOps(ws)
  {
  }

  /** Dropping list heads, or adding a new operation in front of its list, keeps the lists in order. */
  lemma StillListed<T>(r: Ring<T>, ops: seq<OpKind<T>>, r': Ring<T>)
    requires Listed(r, ops)
    requires r'.writers == r.writers || (r.writers != [] && r'.writers == r.writers[1..])
    requires r'.readers == r.readers || (r.readers != [] && r'.readers == r.readers[1..])
    requires || r'.completed == r.completed || r'.completed == []
             || (r.completed != [] && r'.completed == r.completed[1..])
    ensures Listed(r', ops)
  {
    if r.writers != [] {
      PopWriter(r.writers);
    }
  }

  lemma WriteServes<T>(r: Ring<T>, ops: seq<OpKind<T>>, w: OpId, e: T, op: OpId)
    requires RingInv(r) && Listed(r, ops) && w < |ops| && op < |ops|
    requires ops[w] == WriteOp(e) && w !in WriterOps(r.writers)
    ensures Listed(WriteSection(r, w, e).ring, ops)
    ensures var x := WriteSection(r, w, e);
            Serves(x.events, op, ops[op], Waiting(r, op) || op == w, Waiting(x.ring, op))
  {
    hide Count, Listed, WriterOps, Distinct;
    WriteListed(r, ops, w, e);
    var x := WriteSection(r, w, e);
    Kinds(r, ops, op);
    Kinds(r, ops, w);
    DistinctLists(r, ops);
    if |r.queue| == r.cap {
      PushWriter(Writer(w, e), r.writers);
      CountShort(op, x.events);
    } else if r.readers != [] {
      Pop(r.readers, op);
      Kinds(r, ops, r.readers[0]);
      CountShort(op, x.events);
    } else {
      CountShort(op, x.events);
    }
  }

  lemma WriteListed<T>(r: Ring<T>, ops: seq<OpKind<T>>, w: OpId, e: T)
    requires Listed(r, ops) && w < |ops| && ops[w] == WriteOp(e) && w !in WriterOps(r.writers)
    ensures Listed(WriteSection(r, w, e).ring, ops)
  {
    PushWriter(Writer(w, e), r.writers);
    if |r.queue| != r.cap {
      StillListed(r, ops, WriteSection(r, w, e).ring);
    }
  }

  lemma DistinctLists<T>(r: Ring<T>, ops: seq<OpKind<T>>)
    requires Listed(r, ops)
    ensures Distinct(WriterOps(r.writers)) && Distinct(r.readers) && Distinct(r.completed)
  {
  }

  lemma TakeServes<T>(r: Ring<T>, ops: seq<OpKind<T>>, a: OpId, op: OpId)
    requires RingInv(r) && Listed(r, ops) && a < |ops| && op < |ops| && r.queue != []
    requires ops[a].ReadOp? && a !in r.readers
    ensures Listed(TakeSection(r, a).ring, ops)
    ensures var x := TakeSection(r, a);
            Serves(x.events, op, ops[op], Waiting(r, op) || op == a, Waiting(x.ring, op))
  {
    hide Count, Listed, WriterOps, Distinct, ResumeAll;
    var x := TakeSection(r, a);
    StillListed(r, ops, x.ring);
    DistinctLists(r, ops);
    Kinds(r, ops, op);
    Kinds(r, ops, a);
    if r.writers != [] {
      PopWriter(r.writers);
      Pop(WriterOps(r.writers), op);
      Kinds(r, ops, r.writers[0].op);
      CountShort(op, x.events);
    } else if |r.queue| == 1 && r.stopped {
      CountWakeAll(r, a, op);
    } else {
      CountShort(op, x.events);
    }
  }

  /** The read that empties a closed ring wakes every completed-waiter once. */
  lemma CountWakeAll<T>(r: Ring<T>, a: OpId, op: OpId)
    requires |r.queue| == 1 && r.stopped && r.writers == [] && Distinct(r.completed)
    ensures forall k: Mark :: Count(k, op, TakeSection(r, a).events)
              == Hit(k, op, Delivered(a, r.queue[0])) + (if k == Woken && op in r.completed then 1 else 0)
                 + Hit<T>(k, op, Resumed(a))
  {
    hide Count, ResumeAll, Distinct;
    var first := [Delivered(a, r.queue[0])];
    var all := ResumeAll<T>(r.completed);
    var last := [Resumed(a)];
    assert TakeSection(r, a).events == first + all + last;
    forall k: Mark ensures Count(k, op, first + all + last) == Hit(k, op, Delivered(a, r.queue[0]))
        + (if k == Woken && op in r.completed then 1 else 0) + Hit<T>(k, op, Resumed(a)) {
      CountOne(k, op, first[0]);
      CountOne<T>(k, op, last[0]);
      CountResumeAll<T>(k, op, r.completed);
      CountAppend(k, op, first, all);
      CountAppend(k, op, first + all, last);
    }
  }

  lemma ReadServes<T>(r: Ring<T>, ops: seq<OpKind<T>>, a: OpId, op: OpId)
    requires RingInv(r) && Listed(r, ops) && a < |ops| && op < |ops|
    requires ops[a].ReadOp? && a !in r.readers
    ensures Listed(ReadSection(r, a).ring, ops)
    ensures var x := ReadSection(r, a);
            Serves(x.events, op, ops[op], Waiting(r, op) || op == a, Waiting(x.ring, op))
  {
    hide Count, TakeSection, WriterOps;
    if r.queue != [] {
      TakeServes(r, ops, a, op);
    } else {
      CountShort(op, ReadSection(r, a).events);
    }
  }

  /** A dismissal settles the dismissed operation, whatever its kind, and touches no other. */
  lemma DismissSettles<T>(d: OpId, op: OpId, kind: OpKind<T>)
    ensures if op == d then Settled(Dismiss(d), op, kind) else Untouched<T>(Dismiss(d), op)
  {
    CountShort<T>(op, Dismiss(d));
  }

  lemma NothingTouches<T>(op: OpId)
    ensures Untouched<T>([], op)
  {
  }

  lemma DrainServes<T>(r: Ring<T>, ops: seq<OpKind<T>>, phase: Phase, op: OpId)
    requires Listed(r, ops) && op < |ops|
    ensures Listed(DrainSection(r, phase).ring, ops)
    ensures var x := DrainSection(r, phase);
            Serves(x.events, op, ops[op], Waiting(r, op), Waiting(x.ring, op))
  {
    hide Count, Listed, WriterOps, Distinct, Settled, Untouched, Dismiss;
    StillListed(r, ops, DrainSection(r, phase).ring);
    DistinctLists(r, ops);
    Kinds(r, ops, op);
    if phase == Writers && r.writers != [] {
      PopWriter(r.writers);
      Pop(WriterOps(r.writers), op);
      DismissSettles(r.writers[0].op, op, ops[op]);
    } else if phase != Completed && r.readers != [] {
      Pop(r.readers, op);
      DismissSettles(r.readers[0], op, ops[op]);
    } else if r.completed != [] {
      Pop(r.completed, op);
      DismissSettles(r.completed[0], op, ops[op]);
    } else {
      NothingTouches<T>(op);
    }
  }

  // ---------------------------------------------------------------- every run

  /** Operation `op` has been issued and has not returned. */
  ghost predicate Pending<T>(s: System<T>, op: OpId) {
    op in s.cleared || Waiting(s.ring, op)
  }

  /** A cleared write holds the element it was issued with and waits nowhere else; the log holds
      only admissions of the issued elements. */
  ghost predicate Orderly<T>(s: System<T>) {
    && Listed(s.ring, s.ops)
    && (forall op :: op in s.cleared ==>
          op < |s.ops| && s.ops[op] == WriteOp(s.cleared[op]) && op !in WriterOps(s.ring.writers))
    && (forall i :: 0 <= i < |s.log| && s.log[i].Admitted? ==>
          s.log[i].op < |s.ops| && s.ops[s.log[i].op] == WriteOp(s.log[i].e))
  }

  /** Where operation `op` stands: not yet issued or pending and untouched, or settled. */
  ghost predicate Truthful<T>(s: System<T>, op: OpId) {
    && (op < |s.ops| && !Pending(s, op) ==> Settled(s.log, op, s.ops[op]))
    && (op < |s.ops| && Pending(s, op) ==> Untouched(s.log, op))
    && (|s.ops| <= op ==> Untouched(s.log, op))
  }

  lemma CountLog<T>(op: OpId, log: seq<Event<T>>, ev: seq<Event<T>>)
    ensures forall k: Mark :: Count(k, op, log + ev) == Count(k, op, log) + Count(k, op, ev)
  {
    hide Count;
    forall k: Mark ensures Count(k, op, log + ev) == Count(k, op, log) + Count(k, op, ev) {
      CountAppend(k, op, log, ev);
    }
  }

  /** A section run on behalf of `before` keeps every operation's standing. */
  lemma Continue<T>(log: seq<Event<T>>, ev: seq<Event<T>>, op: OpId, kind: OpKind<T>, before: bool, after: bool)
    requires Serves(ev, op, kind, before, after)
    requires if before then Untouched(log, op) else Settled(log, op, kind)
    ensures if after then Untouched(log + ev, op) else Settled(log + ev, op, kind)
  {
    hide Count;
    CountLog(op, log, ev);
  }

  /** What a step does for operation `op`, issued or not; `ops` is any continuation of the list of
      operations long enough to give `op` a kind. */
  lemma StepServes<T>(s: System<T>, step: Step<T>, ops: seq<OpKind<T>>, op: OpId)
    requires RingInv(s.ring) && Orderly(s) && Enabled(s, step)
    requires Apply(s, step).ops <= ops && op < |ops|
    ensures var s' := Apply(s, step);
      Serves(Events(s, step), op, ops[op], Pending(s, op) || |s.ops| <= op < |s'.ops|, Pending(s', op))
  {
    hide Count, Settled, Untouched, WriteSection, ReadSection, DrainSection, Listed, WriterOps;
    ListedMore(s, ops);
    Kinds(s.ring, s.ops, |s.ops|);
    match step
    case WriteCheck(e) =>
      IssueServes(|s.ops|, e, op, ops[op]);
    case WriteLock(w) =>
      WriteServes(s.ring, ops, w, s.cleared[w], op);
    case ReadLock =>
      ReadServes(s.ring, ops, |s.ops|, op);
    case CloseLock(t) =>
      NothingTouches<T>(op);
      DrainServes(s.ring.(stopped := true), ops, Readers, op);
      DrainServes(s.ring.(stopped := true), ops, Writers, op);
    case DrainLock(t) =>
      DrainServes(s.ring, ops, s.closers[t].phase, op);
    case _ =>
      NothingTouches<T>(op);
  }

  lemma TruthfulStep<T>(s: System<T>, step: Step<T>, op: OpId)
    requires RingInv(s.ring) && Orderly(s) && Truthful(s, op) && Enabled(s, step)
    ensures Truthful(Apply(s, step), op)
  {
    hide Count, Settled, Untouched, Events, Enabled, Listed, WriterOps, WriteSection, ReadSection, DrainSection;
    var s' := Apply(s, step);
    var ev := Events(s, step);
    var ops := s'.ops + seq(op + 1, _ => ReadOp);
    var before := Pending(s, op) || |s.ops| <= op;
    StepServes(s, step, ops, op);
    Kinds(s.ring, s.ops, op);
    if op < |s'.ops| {
      Continue(s.log, ev, op, ops[op], before, Pending(s', op));
    } else {
      UntouchedLog(op, s.log, ev);
    }
  }

  lemma UntouchedLog<T>(op: OpId, log: seq<Event<T>>, ev: seq<Event<T>>)
    requires Untouched(log, op) && Untouched(ev, op)
    ensures Untouched(log + ev, op)
  {
    hide Count;
    CountLog(op, log, ev);
  }

  lemma IssueServes<T>(w: OpId, e: T, op: OpId, kind: OpKind<T>)
    requires op == w ==> kind.WriteOp?
    ensures Untouched([Issued(w, e)], op)
    ensures if op == w then Settled([Issued(w, e), Stopped(w), Resumed(w)], op, kind)
            else Untouched([Issued(w, e), Stopped(w), Resumed(w)], op)
  {
    CountShort(op, [Issued(w, e)]);
    CountShort(op, [Issued(w, e), Stopped(w), Resumed(w)]);
  }

  /** Issuing another operation leaves the lists in order. */
  lemma ListedMore<T>(s: System<T>, ops: seq<OpKind<T>>)
    requires Listed(s.ring, s.ops) && s.ops <= ops
    ensures Listed(s.ring, ops)
    ensures Listed(s.ring.(stopped := true), ops)
  {
  }

  lemma OrderlyStep<T>(s: System<T>, step: Step<T>)
    requires RingInv(s.ring) && Orderly(s) && Enabled(s, step)
    ensures Orderly(Apply(s, step))
  {
    ListedStep(s, step);
    ClearedStep(s, step);
    AdmissionsStep(s, step);
  }

  lemma ListedStep<T>(s: System<T>, step: Step<T>)
    requires RingInv(s.ring) && Orderly(s) && Enabled(s, step)
    ensures Listed(Apply(s, step).ring, Apply(s, step).ops)
  {
    hide Listed, WriterOps, WriteSection, ReadSection, DrainSection, Serves, Waiting, Events;
    var s' := Apply(s, step);
    ListedMore(s, s'.ops);
    Kinds(s.ring, s.ops, |s.ops|);
    match step
    case WriteLock(w) => WriteListed(s.ring, s.ops, w, s.cleared[w]);
    case ReadLock => ReadServes(s.ring, s'.ops, |s.ops|, 0);
    case CompletedLock => CompletedListed(s.ring, s'.ops, |s.ops|);
    case CloseLock(t) =>
      StopListed(s.ring.(stopped := true), s.ops, Readers);
      StopListed(s.ring.(stopped := true), s.ops, Writers);
    case DrainLock(t) => StopListed(s.ring, s.ops, s.closers[t].phase);
    case _ =>
  }

  lemma StopListed<T>(r: Ring<T>, ops: seq<OpKind<T>>, phase: Phase)
    requires Listed(r, ops)
    ensures Listed(DrainSection(r, phase).ring, ops)
  {
    hide Listed;
    StillListed(r, ops, DrainSection(r, phase).ring);
  }

  lemma CompletedListed<T>(r: Ring<T>, ops: seq<OpKind<T>>, a: OpId)
    requires Listed(r, ops) && a < |ops| && ops[a].CompletedOp? && a !in r.completed
    ensures Listed(CompletedSection(r, a).ring, ops)
  {
  }

  lemma ClearedStep<T>(s: System<T>, step: Step<T>)
    requires RingInv(s.ring) && Orderly(s) && Enabled(s, step)
    ensures var s' := Apply(s, step); forall op :: op in s'.cleared ==>
      op < |s'.ops| && s'.ops[op] == WriteOp(s'.cleared[op]) && op !in WriterOps(s'.ring.writers)
  {
    hide Listed, Events, WriterOps;
    var s' := Apply(s, step);
    var ws, ws' := s.ring.writers, s'.ring.writers;
    Kinds(s.ring, s.ops, |s.ops|);
    if ws != [] {
      PopWriter(ws);
    }
    if step.WriteLock? {
      PushWriter(Writer(step.op, s.cleared[step.op]), ws);
    } else {
      assert ws' == ws || (ws != [] && ws' == ws[1..]);
    }
  }

  lemma StepAdmits<T>(s: System<T>, step: Step<T>)
    requires RingInv(s.ring) && Orderly(s) && Enabled(s, step)
    ensures var ev := Events(s, step); forall i :: 0 <= i < |ev| && ev[i].Admitted? ==>
      ev[i].op < |s.ops| && s.ops[ev[i].op] == WriteOp(ev[i].e)
  {
    hide WriterOps, Distinct;
  }

  lemma AdmissionsStep<T>(s: System<T>, step: Step<T>)
    requires RingInv(s.ring) && Orderly(s) && Enabled(s, step)
    ensures var s' := Apply(s, step); forall i :: 0 <= i < |s'.log| && s'.log[i].Admitted? ==>
      s'.log[i].op < |s'.ops| && s'.ops[s'.log[i].op] == WriteOp(s'.log[i].e)
  {
    hide Listed, Events, WriteSection, ReadSection, DrainSection;
    var s' := Apply(s, step);
    StepAdmits(s, step);
    assert s'.log == s.log + Events(s, step) && s.ops <= s'.ops;
  }

  lemma {:induction false} TruthfulRun<T>(s: System<T>, steps: seq<Step<T>>, op: OpId)
    requires Inv(s) && Orderly(s) && Truthful(s, op) && IsRun(s, steps)
    ensures Orderly(Exec(s, steps)) && Truthful(Exec(s, steps), op)
    decreases |steps|
  {
    hide Apply, Enabled, Inv, Orderly, Truthful;
    if steps != [] {
      var s' := Apply(s, steps[0]);
      RingInvOf(s);
      InvStep(s, steps[0]);
      OrderlyStep(s, steps[0]);
      TruthfulStep(s, steps[0], op);
      TruthfulRun(s', steps[1..], op);
    }
  }

  lemma RingInvOf<T>(s: System<T>)
    requires Inv(s)
    ensures RingInv(s.ring)
  {
  }

  /** In every run: an operation returns at most once, and has returned exactly when it is no longer
      pending; a returned write reports `Success` (its flag was never set) if and only if its own
      element entered the ring, once; a returned read reports a value if and only if one element
      was moved to it; every admission is of the element the write was issued with; and a pending
      operation sits in one waiter list, once. */
  lemma StatusTellsTheTruth<T>(cap: nat, steps: seq<Step<T>>, op: OpId)
    requires 0 < cap && IsRun(Init(cap), steps)
    ensures var s := Exec(Init(cap), steps); op < |s.ops| ==>
      && Count(Woken, op, s.log) == (if Pending(s, op) then 0 else 1)
      && (Pending(s, op) ==> Count(Entered, op, s.log) == 0 && Count(Received, op, s.log) == 0)
      && (s.ops[op].WriteOp? && !Pending(s, op) ==>
            Count(Entered, op, s.log) == (if Count(Flagged, op, s.log) == 0 then 1 else 0))
      && (s.ops[op].ReadOp? && !Pending(s, op) ==>
            Count(Received, op, s.log) == (if Count(Flagged, op, s.log) == 0 then 1 else 0))
    ensures Orderly(Exec(Init(cap), steps))
  {
    var s0 := Init<T>(cap);
    NothingTouches<T>(op);
    TruthfulRun(s0, steps, op);
  }
}
