/**
 `RecentChannel`: a lossy bounded queue that keeps the most recent writes.
 */
module RecentChannel {

  datatype Status = Success | Empty | Closed

  /** The channel with its history: everything written, and the positions in it of what was
      delivered and of what was dropped.  `got` is what readers received. */
  datatype Channel<T> = Channel(
    max: nat,
    deque: seq<T>,
    shutdown: bool,
    written: seq<T>,
    delivered: seq<nat>,
    dropped: seq<nat>,
    got: seq<T>)

  function Open<T>(max: nat): Channel<T> {
    Channel(max, [], false, [], [], [], [])
  }

  /** The position of the oldest write that is still buffered. */
  function Front<T>(c: Channel<T>): int {
    |c.written| - |c.deque|
  }

  datatype Op<T> = Write(x: T) | AwaitRead | TryRead | Close

  /** A blocking read takes effect only when there is something to read or the channel is closed. */
  predicate Enabled<T>(c: Channel<T>, op: Op<T>) {
    op.AwaitRead? ==> c.deque != [] || c.shutdown
  }

  function StatusOf<T>(c: Channel<T>, op: Op<T>): Status {
    match op
    case Close => Success
    case Write(_) => if c.shutdown then Closed else Success
    case _ => if c.shutdown then Closed else if c.deque == [] then Empty else Success
  }

  ghost function Apply<T>(c: Channel<T>, op: Op<T>): Channel<T> {
    match op
    case Write(x) =>
      if c.shutdown then c
      else if |c.deque| >= c.max && c.deque != [] then
        c.(deque := c.deque[1..] + [x], written := c.written + [x], dropped := c.dropped + [Nat(Front(c))])
      else
        c.(deque := c.deque + [x], written := c.written + [x])
    case Close => c.(shutdown := true)
    case _ =>
      if c.shutdown || c.deque == [] then c
      else c.(deque := c.deque[1..], delivered := c.delivered + [Nat(Front(c))], got := c.got + [c.deque[0]])
  }

  function Nat(i: int): nat {
    if i < 0 then 0 else i
  }

  ghost predicate IsRun<T>(c: Channel<T>, ops: seq<Op<T>>)
    decreases |ops|
  {
    ops != [] ==> Enabled(c, ops[0]) && IsRun(Apply(c, ops[0]), ops[1..])
  }

  ghost function Exec<T>(c: Channel<T>, ops: seq<Op<T>>): Channel<T>
    decreases |ops|
  {
    if ops == [] then c else Exec(Apply(c, ops[0]), ops[1..])
  }

  // ---------------------------------------------------------------- the object

  class RecentChannel<T> {
    const max: nat
    var deque: seq<T>
    var shutdown: bool

    ghost predicate Shows(c: Channel<T>)
      reads this
    {
      max == c.max && deque == c.deque && shutdown == c.shutdown
    }

    constructor (max: nat)
      ensures Shows(Open(max))
    {
      this.max := max;
      deque, shutdown := [], false;
    }

    /** A channel of size zero makes the source pop an empty deque, which is not defined. */
    method Write(x: T, ghost c: Channel<T>) returns (status: Status, defined: bool)
      requires Shows(c)
      modifies this
      ensures defined <==> old(shutdown || deque != []) || max != 0
      ensures defined ==> Shows(Apply(c, Op.Write(x))) && status == StatusOf(c, Op.Write(x))
    {
      if shutdown {
        return Closed, true;
      }
      if |deque| >= max {
        if deque == [] {
          return Success, false;
        }
        deque := deque[1..];
      }
      deque := deque + [x];
      return Success, true;
    }

    /** A blocking read, from the moment its wait is over. */
    method AwaitRead(ghost c: Channel<T>, fallback: T) returns (status: Status, x: T)
      requires Shows(c) && Enabled(c, Op.AwaitRead)
      modifies this
      ensures Shows(Apply(c, Op.AwaitRead)) && status == StatusOf(c, Op.AwaitRead) && status != Empty
      ensures status == Success ==> Apply(c, Op.AwaitRead).got == c.got + [x]
    {
      if shutdown {
        return Closed, fallback;
      }
      x := deque[0];
      deque := deque[1..];
      status := Success;
    }

    method TryRead(ghost c: Channel<T>, fallback: T) returns (status: Status, x: T)
      requires Shows(c)
      modifies this
      ensures Shows(Apply(c, Op.TryRead)) && status == StatusOf(c, Op.TryRead)
      ensures status == Success ==> Apply(c, Op.TryRead).got == c.got + [x]
    {
      if shutdown {
        return Closed, fallback;
      }
      if deque == [] {
        return Empty, fallback;
      }
      x := deque[0];
      deque := deque[1..];
      status := Success;
    }

    method Close(ghost c: Channel<T>)
      requires Shows(c)
      modifies this
      ensures Shows(Apply(c, Op.Close))
    {
      shutdown := true;
    }
  }

  // ---------------------------------------------------------------- every run

  ghost predicate Increasing(s: seq<nat>) {
    forall i, j :: 0 <= i < j < |s| ==> s[i] < s[j]
  }

  /** The buffer is the tail of what was written; the positions before it were each either delivered
      or dropped, and both happen in the order of writing. */
  ghost predicate Inv<T>(c: Channel<T>) {
    && 1 <= c.max && |c.deque| <= c.max
    && |c.deque| <= |c.written| && c.deque == c.written[Front(c)..]
    && Increasing(c.delivered) && Increasing(c.dropped)
    && (forall i :: i in c.delivered ==> i < Front(c))
    && (forall i :: i in c.dropped ==> i < Front(c))
    && (forall i: nat :: i < Front(c) ==> (i in c.delivered <==> i !in c.dropped))
    && |c.got| == |c.delivered|
    && (forall k :: 0 <= k < |c.got| ==> c.delivered[k] < |c.written| && c.got[k] == c.written[c.delivered[k]])
  }

  lemma InvStep<T>(c: Channel<T>, op: Op<T>)
    requires Inv(c)
    ensures Inv(Apply(c, op))
    ensures Apply(c, op).dropped != c.dropped ==> |c.deque| == c.max && op.Write?
  {
    hide Increasing;
    if c.deque != [] {
      IncreasingAppend(c.delivered, Front(c));
      IncreasingAppend(c.dropped, Front(c));
    }
  }

  lemma IncreasingAppend(s: seq<nat>, x: nat)
    requires Increasing(s) && forall i :: i in s ==> i < x
    ensures Increasing(s + [x])
    ensures forall i :: i in s + [x] <==> i in s || i == x
  {
    forall i | 0 <= i < |s| ensures s[i] < x {
      assert s[i] in s;
    }
  }

  lemma {:induction false} InvRun<T>(c: Channel<T>, ops: seq<Op<T>>)
    requires Inv(c)
    ensures Inv(Exec(c, ops))
    decreases |ops|
  {
    hide Apply, Inv;
    if ops != [] {
      InvStep(c, ops[0]);
      InvRun(Apply(c, ops[0]), ops[1..]);
    }
  }

  lemma OpenInv<T>(max: nat)
    requires 1 <= max
    ensures Inv(Open<T>(max))
  {
  }

  lemma BufferIsTail<T>(c: Channel<T>)
    requires Inv(c)
    ensures |c.deque| <= |c.written| && c.deque == c.written[|c.written| - |c.deque|..]
  {
  }

  // ---------------------------------------------------------------- from the operations alone

  /** What was written before the channel was closed. */
  function Issued<T>(ops: seq<Op<T>>): seq<T> {
    if ops == [] || ops[0].Close? then []
    else (if ops[0].Write? then [ops[0].x] else []) + Issued(ops[1..])
  }

  /** The number of buffered elements after an operation on `n` of them: a write adds one up to `max`,
      a read takes one if there is one. */
  function After<T>(max: nat, n: nat, op: Op<T>): nat {
    if op.Write? then (if n < max then n + 1 else n) else if n == 0 then 0 else n - 1
  }

  /** The same after all operations up to closing. */
  function Level<T>(max: nat, n: nat, ops: seq<Op<T>>): nat
    decreases |ops|
  {
    if ops == [] || ops[0].Close? then n else Level(max, After(max, n, ops[0]), ops[1..])
  }

  /** How many reads find something. */
  function Reads<T>(max: nat, n: nat, ops: seq<Op<T>>): nat
    decreases |ops|
  {
    if ops == [] || ops[0].Close? then 0
    else (if ops[0].Write? || n == 0 then 0 else 1) + Reads(max, After(max, n, ops[0]), ops[1..])
  }

  lemma FromOp<T>(c: Channel<T>, op: Op<T>)
    requires Inv(c) && !c.shutdown && !op.Close?
    ensures var c' := Apply(c, op);
      && !c'.shutdown && c'.max == c.max
      && c'.written == c.written + (if op.Write? then [op.x] else [])
      && |c'.deque| == After(c.max, |c.deque|, op)
      && |c'.got| == |c.got| + (if op.Write? || |c.deque| == 0 then 0 else 1)
  {
  }

  lemma {:induction false} FromOps<T>(c: Channel<T>, ops: seq<Op<T>>)
    requires Inv(c) && !c.shutdown
    ensures var c' := Exec(c, ops);
      && c'.written == c.written + Issued(ops)
      && |c'.deque| == Level(c.max, |c.deque|, ops)
      && |c'.got| == |c.got| + Reads(c.max, |c.deque|, ops)
    decreases |ops|
  {
    hide Inv, After, Apply, Enabled;
    if ops == [] {
      assert c.written + [] == c.written;
    } else if ops[0].Close? {
      CloseOnly(c);
      ClosedForGood(Apply(c, ops[0]), ops[1..]);
      assert c.written + [] == c.written;
    } else {
      var first := if ops[0].Write? then [ops[0].x] else [];
      InvStep(c, ops[0]);
      FromOp(c, ops[0]);
      FromOps(Apply(c, ops[0]), ops[1..]);
      assert c.written + (first + Issued(ops[1..])) == c.written + first + Issued(ops[1..]);
    }
  }

  lemma CloseOnly<T>(c: Channel<T>)
    ensures Apply(c, Close) == c.(shutdown := true)
  {
  }

  /** In every run of a channel of size at least one, from its operations alone: the buffer is the most
      recent part of what was written, as long as the level says; every earlier write was delivered or
      dropped and not both; and what readers got is a subsequence of the writes, in order, with one
      element for every read that finds something. */
  lemma WritesAreAccountedFor<T>(max: nat, ops: seq<Op<T>>)
    requires 1 <= max && IsRun(Open(max), ops)
    ensures var c := Exec(Open(max), ops); var xs := Issued(ops);
      && Inv(c) && c.written == xs
      && |c.deque| == Level(max, 0, ops) <= |xs| && c.deque == xs[|xs| - Level(max, 0, ops)..]
      && |c.got| == Reads(max, 0, ops)
  {
    hide Inv, Exec, IsRun, Issued, Level, Reads;
    OpenInv<T>(max);
    InvRun(Open<T>(max), ops);
    FromOps(Open<T>(max), ops);
    BufferIsTail(Exec(Open<T>(max), ops));
    assert [] + Issued(ops) == Issued(ops);
  }

  lemma {:induction false} ExecAppend<T>(c: Channel<T>, a: seq<Op<T>>, b: seq<Op<T>>)
    ensures Exec(c, a + b) == Exec(Exec(c, a), b)
    decreases |a|
  {
    if a == [] {
      assert a + b == b;
    } else {
      assert (a + b)[1..] == a[1..] + b;
      ExecAppend(Apply(c, a[0]), a[1..], b);
    }
  }

  /** The reported status tells what happened: Closed if and only if the channel is shut down, and then
      nothing changes; Success of a write if and only if the element was taken, and of a read if and only
      if one was handed out. */
  lemma StatusTellsTheTruth<T>(c: Channel<T>, op: Op<T>)
    requires Inv(c) && Enabled(c, op) && !op.Close?
    ensures var c' := Apply(c, op); var status := StatusOf(c, op);
      && (status == Closed <==> c.shutdown) && (c.shutdown ==> c' == c)
      && (op.Write? ==> (status == Success <==> c'.written == c.written + [op.x]))
      && (!op.Write? ==> (status == Success <==> |c'.got| == |c.got| + 1))
      && (status == Empty ==> op.TryRead? && c' == c)
  {
  }

  /** The last write of an open channel is at the end of the buffer, whatever came before. */
  lemma LastWriteIsKept<T>(max: nat, ops: seq<Op<T>>, x: T)
    requires 1 <= max && !Exec(Open(max), ops).shutdown
    ensures var c := Exec(Open(max), ops + [Write(x)]); c.deque != [] && c.deque[|c.deque| - 1] == x
  {
    ExecAppend(Open<T>(max), ops, [Write(x)]);
    InvRun(Open<T>(max), ops);
    var c := Exec(Open<T>(max), ops);
    assert Exec(c, [Write(x)]) == Apply(c, Write(x));
  }

  /** Closing abandons what is still buffered: from then on nothing is delivered. */
  lemma {:induction false} ClosedForGood<T>(c: Channel<T>, ops: seq<Op<T>>)
    requires c.shutdown
    ensures Exec(c, ops) == c
    decreases |ops|
  {
    if ops != [] {
      ClosedForGood(Apply(c, ops[0]), ops[1..]);
    }
  }
}
