/**
 The Python stream operators: observers that react to one notification at a time, the stream
 transformers they amount to, and `pipe`.
 */
module Streams {
  import opened Common
  import opened JsonCast

  type Exn = nat

  /** What a Python iteration over a non-iterable object raises. */
  const TYPE_ERROR: Exn := 0

  datatype Event = Next(v: Py) | Fail(e: Exn) | Done

  datatype End = Open | Completed | Failed(e: Exn)

  /** A well-formed stream: values, then at most one terminal notification. */
  datatype Stream = Stream(values: seq<Py>, end: End)

  /** The result of a user callback. */
  datatype Callback<T> = Value(value: T) | Raised(e: Exn)

  /** `Flatten` carries how the interpreter iterates over objects of an unknown type: what they yield,
      or what the attempt raises.  `OnCompleted` carries what its callback returns; None stands for
      no value. */
  datatype Operator =
    | Map(f: Py -> Callback<Py>)
    | Filter(p: Py -> Callback<bool>)
    | Flatten(iterate: nat -> Callback<seq<Py>>)
    | ToList
    | Pairwise
    | OnCompleted(final: Option<Py>)

  function KeyObject(key: Key): Py {
    if key.StrKey? then PStr(key.s) else PObject(key.id)
  }

  /** What `list(v)` holds, or what it raises. */
  function Elements(iterate: nat -> Callback<seq<Py>>, v: Py): Callback<seq<Py>> {
    match v
    case PList(items) => Value(items)
    case PTuple(items) => Value(items)
    case PStr(s) => Value(seq(|s|, i requires 0 <= i < |s| => PStr([s[i]])))
    case PDict(es) => Value(seq(|es|, i requires 0 <= i < |es| => KeyObject(es[i].key)))
    case PObject(id) => iterate(id)
    case _ => Raised(TYPE_ERROR)
  }

  function Joined(items: seq<Py>): string {
    if items == [] then "" else (if items[0].PStr? then items[0].s else "") + Joined(items[1..])
  }

  lemma {:induction false} CharactersJoin(s: string)
    ensures Joined(seq(|s|, i requires 0 <= i < |s| => PStr([s[i]]))) == s
  {
    var items := seq(|s|, i requires 0 <= i < |s| => PStr([s[i]]));
    if s != "" {
      CharactersJoin(s[1..]);
      assert items[1..] == seq(|s[1..]|, i requires 0 <= i < |s[1..]| => PStr([s[1..][i]]));
      assert s == [s[0]] + s[1..];
    }
  }

  /** What is iterated over: a tuple as the list of its elements, a string as the one-character strings that
      make it up, a dict as its keys in order, an unknown object as it likes, and nothing else. */
  lemma ElementsAreExact(iterate: nat -> Callback<seq<Py>>, v: Py)
    ensures v.PList? || v.PTuple? ==> Elements(iterate, v) == Value(v.items)
    ensures v.PStr? ==>
              var e := Elements(iterate, v);
              e.Value? && Joined(e.value) == v.s
              && forall i :: 0 <= i < |e.value| ==> e.value[i].PStr? && |e.value[i].s| == 1
    ensures v.PDict? ==>
              var e := Elements(iterate, v);
              e.Value? && |e.value| == |v.entries|
              && forall i :: 0 <= i < |e.value| ==> e.value[i] == KeyObject(v.entries[i].key)
    ensures v.PObject? ==> Elements(iterate, v) == iterate(v.id)
    ensures v.PNone? || v.PBool? || v.PInt? || v.PFloat? ==> Elements(iterate, v) == Raised(TYPE_ERROR)
  {
    if v.PStr? {
      CharactersJoin(v.s);
    }
  }

  function Nexts(vs: seq<Py>): (evs: seq<Event>)
    ensures |evs| == |vs|
    ensures forall i :: 0 <= i < |vs| ==> evs[i] == Next(vs[i])
  {
    seq(|vs|, i requires 0 <= i < |vs| => Next(vs[i]))
  }

  function Terminal(end: End): seq<Event> {
    match end
    case Open => []
    case Completed => [Done]
    case Failed(e) => [Fail(e)]
  }

  function Events(s: Stream): seq<Event> {
    Nexts(s.values) + Terminal(s.end)
  }

  // ---------------------------------------------------------------- one notification at a time

  /** The state of an observer: what it remembers, and whether its subscriber is closed. */
  datatype Observer = Observer(seen: seq<Py>, closed: bool)

  datatype Reaction = Reaction(obs: Observer, out: seq<Event>)

  /** What `on_next` forwards; a closed subscriber forwards nothing. */
  function OnNext(op: Operator, o: Observer, v: Py): Reaction {
    match op
    case Map(f) =>
      (match f(v)
       case Value(w) => Reaction(o, [Next(w)])
       case Raised(e) => Reaction(o.(closed := true), [Fail(e)]))
    case Filter(p) =>
      (match p(v)
       case Value(keep) => Reaction(o, if keep then [Next(v)] else [])
       case Raised(e) => Reaction(o.(closed := true), [Fail(e)]))
    case Flatten(iterate) =>
      (match Elements(iterate, v)
       case Value(items) => Reaction(o, Nexts(items))
       case Raised(e) => Reaction(o.(closed := true), [Fail(e)]))
    case ToList => Reaction(o.(seen := o.seen + [v]), [])
    case Pairwise => Reaction(o.(seen := [v]), if o.seen == [] then [] else [Next(PTuple([o.seen[|o.seen| - 1], v]))])
    case OnCompleted(_) => Reaction(o, [Next(v)])
  }

  function OnDone(op: Operator, o: Observer): seq<Event> {
    match op
    case ToList => if o.seen == [] then [Done] else [Next(PList(o.seen)), Done]
    case OnCompleted(final) => if final.Some? && final.value != PNone then [Next(final.value), Done] else [Done]
    case _ => [Done]
  }

  function React(op: Operator, o: Observer, ev: Event): Reaction {
    if o.closed then Reaction(o, [])
    else
      match ev
      case Next(v) => OnNext(op, o, v)
      case Fail(e) => Reaction(o.(closed := true), [Fail(e)])
      case Done => Reaction(o.(closed := true), OnDone(op, o))
  }

  function ReactAll(op: Operator, o: Observer, evs: seq<Event>): Reaction
    decreases |evs|
  {
    if evs == [] then Reaction(o, [])
    else
      var first := React(op, o, evs[0]);
      var rest := ReactAll(op, first.obs, evs[1..]);
      Reaction(rest.obs, first.out + rest.out)
  }

  const FRESH := Observer([], false)

  /** The observer of `flatten` as written: fill a vector from the list, then forward its elements. */
  method FlattenNext(iterate: nat -> Callback<seq<Py>>, v: Py) returns (out: seq<Event>, raised: bool)
    ensures Reaction(FRESH.(closed := raised), out) == OnNext(Flatten(iterate), FRESH, v)
  {
    var items := Elements(iterate, v);
    if items.Raised? {
      return [Fail(items.e)], true;
    }
    out, raised := [], false;
    for i := 0 to |items.value|
      invariant out == Nexts(items.value[..i])
    {
      out := out + [Next(items.value[i])];
    }
    assert items.value[..|items.value|] == items.value;
  }

  /** The observer of `to_list` as written. */
  class ToListObserver {
    var remembered: seq<Py>
    var closed: bool

    ghost function View(): Observer
      reads this
    {
      Observer(remembered, closed)
    }

    constructor ()
      ensures View() == FRESH
    {
      remembered, closed := [], false;
    }

    method Notify(ev: Event) returns (out: seq<Event>)
      modifies this
      ensures Reaction(View(), out) == old(React(ToList, View(), ev))
    {
      if closed {
        return [];
      }
      match ev
      case Next(v) =>
        remembered := remembered + [v];
        out := [];
      case Fail(e) =>
        closed := true;
        out := [Fail(e)];
      case Done =>
        out := [];
        if remembered != [] {
          out := [Next(PList(remembered))];
        }
        out := out + [Done];
        closed := true;
    }
  }

  // ---------------------------------------------------------------- whole streams

  function MapStream(f: Py -> Callback<Py>, vs: seq<Py>, end: End): Stream {
    if vs == [] then Stream([], end)
    else match f(vs[0])
      case Raised(e) => Stream([], Failed(e))
      case Value(w) => var rest := MapStream(f, vs[1..], end); rest.(values := [w] + rest.values)
  }

  function FilterStream(p: Py -> Callback<bool>, vs: seq<Py>, end: End): Stream {
    if vs == [] then Stream([], end)
    else match p(vs[0])
      case Raised(e) => Stream([], Failed(e))
      case Value(keep) =>
        var rest := FilterStream(p, vs[1..], end);
        if keep then rest.(values := [vs[0]] + rest.values) else rest
  }

  function FlattenStream(iterate: nat -> Callback<seq<Py>>, vs: seq<Py>, end: End): Stream {
    if vs == [] then Stream([], end)
    else match Elements(iterate, vs[0])
      case Raised(e) => Stream([], Failed(e))
      case Value(items) => var rest := FlattenStream(iterate, vs[1..], end); rest.(values := items + rest.values)
  }

  /** The stream that an operator makes of a stream. */
  function Transform(op: Operator, s: Stream): Stream {
    match op
    case Map(f) => MapStream(f, s.values, s.end)
    case Filter(p) => FilterStream(p, s.values, s.end)
    case Flatten(iterate) => FlattenStream(iterate, s.values, s.end)
    case ToList => Stream(if s.end.Completed? && s.values != [] then [PList(s.values)] else [], s.end)
    case Pairwise =>
      var vs := s.values;
      Stream(if vs == [] then [] else seq(|vs| - 1, i requires 0 <= i < |vs| - 1 => PTuple([vs[i], vs[i + 1]])), s.end)
    case OnCompleted(final) =>
      if s.end.Completed? && final.Some? && final.value != PNone then s.(values := s.values + [final.value]) else s
  }

  lemma NextsAppend(a: seq<Py>, b: seq<Py>)
    ensures Nexts(a + b) == Nexts(a) + Nexts(b)
  {
  }

  lemma {:induction false} ClosedReacts(op: Operator, o: Observer, evs: seq<Event>)
    requires o.closed
    ensures ReactAll(op, o, evs) == Reaction(o, [])
    decreases |evs|
  {
    if evs != [] {
      ClosedReacts(op, o, evs[1..]);
    }
  }

  /** The first value of a stream, then the rest. */
  lemma EventsCons(v: Py, vs: seq<Py>, end: End)
    ensures Events(Stream([v] + vs, end)) == [Next(v)] + Events(Stream(vs, end))
  {
    NextsAppend([v], vs);
    assert Nexts([v]) == [Next(v)];
  }

  lemma EventsPrefix(ws: seq<Py>, s: Stream)
    ensures Events(s.(values := ws + s.values)) == Nexts(ws) + Events(s)
  {
    NextsAppend(ws, s.values);
  }

  lemma ReactCons(op: Operator, o: Observer, ev: Event, evs: seq<Event>)
    ensures var first := React(op, o, ev); var rest := ReactAll(op, first.obs, evs);
      ReactAll(op, o, [ev] + evs) == Reaction(rest.obs, first.out + rest.out)
  {
    assert ([ev] + evs)[1..] == evs;
  }

  /** What is still to come out when an observer that remembers `o.seen` meets the stream `s`. */
  function Remaining(op: Operator, o: Observer, s: Stream): Stream {
    match op
    case ToList => Transform(ToList, Stream(o.seen + s.values, s.end))
    case Pairwise =>
      var last := if o.seen == [] then [] else [o.seen[|o.seen| - 1]];
      Transform(Pairwise, Stream(last + s.values, s.end))
    case _ => Transform(op, s)
  }

  lemma {:induction false} RunsOn(op: Operator, o: Observer, vs: seq<Py>, end: End)
    requires !o.closed
    ensures ReactAll(op, o, Events(Stream(vs, end))).out == Events(Remaining(op, o, Stream(vs, end)))
    decreases |vs|
  {
    if vs == [] {
      EndsRight(op, o, end);
    } else {
      var v, rest := vs[0], vs[1..];
      assert vs == [v] + rest;
      EventsCons(v, rest, end);
      ReactCons(op, o, Next(v), Events(Stream(rest, end)));
      var first := OnNext(op, o, v);
      if first.obs.closed {
        ClosedReacts(op, first.obs, Events(Stream(rest, end)));
      } else {
        RunsOn(op, first.obs, rest, end);
      }
      StepsRight(op, o, v, rest, end);
    }
  }

  lemma EndsRight(op: Operator, o: Observer, end: End)
    requires !o.closed
    ensures ReactAll(op, o, Events(Stream([], end))).out == Events(Remaining(op, o, Stream([], end)))
  {
    var evs := Events(Stream([], end));
    assert evs == Terminal(end);
    if end.Open? {
      assert Remaining(op, o, Stream([], end)).values == [];
    } else {
      ReactCons(op, o, evs[0], []);
      assert evs == [evs[0]] + [];
      assert o.seen + [] == o.seen;
      if op.ToList? && o.seen != [] {
        assert Nexts([PList(o.seen)]) == [Next(PList(o.seen))];
      }
    }
  }

  /** One value through the observer, then what remains: the same as what remained before. */
  lemma StepsRight(op: Operator, o: Observer, v: Py, vs: seq<Py>, end: End)
    requires !o.closed
    ensures var first := OnNext(op, o, v); var all := Events(Remaining(op, o, Stream([v] + vs, end)));
      if first.obs.closed then all == first.out
      else all == first.out + Events(Remaining(op, first.obs, Stream(vs, end)))
  {
    match op
    case Map(f) => MapSteps(f, o, v, vs, end);
    case Filter(p) => FilterSteps(p, o, v, vs, end);
    case Flatten(iterate) => FlattenSteps(iterate, o, v, vs, end);
    case ToList => assert o.seen + ([v] + vs) == (o.seen + [v]) + vs;
    case Pairwise => PairwiseSteps(o, v, vs, end);
    case OnCompleted(final) =>
      var r := Remaining(op, o, Stream(vs, end));
      assert Remaining(op, o, Stream([v] + vs, end)) == r.(values := [v] + r.values);
      EventsPrefix([v], r);
  }

  lemma MapSteps(f: Py -> Callback<Py>, o: Observer, v: Py, vs: seq<Py>, end: End)
    requires !o.closed
    ensures var first := OnNext(Map(f), o, v); var all := Events(MapStream(f, [v] + vs, end));
      if first.obs.closed then all == first.out else all == first.out + Events(MapStream(f, vs, end))
  {
    assert ([v] + vs)[1..] == vs;
    if f(v).Value? {
      EventsPrefix([f(v).value], MapStream(f, vs, end));
    }
  }

  lemma FilterSteps(p: Py -> Callback<bool>, o: Observer, v: Py, vs: seq<Py>, end: End)
    requires !o.closed
    ensures var first := OnNext(Filter(p), o, v); var all := Events(FilterStream(p, [v] + vs, end));
      if first.obs.closed then all == first.out else all == first.out + Events(FilterStream(p, vs, end))
  {
    hide Elements, Nexts;
    assert ([v] + vs)[1..] == vs;
    if p(v).Value? && p(v).value {
      EventsPrefix([v], FilterStream(p, vs, end));
    }
  }

  lemma FlattenSteps(iterate: nat -> Callback<seq<Py>>, o: Observer, v: Py, vs: seq<Py>, end: End)
    requires !o.closed
    ensures var first := OnNext(Flatten(iterate), o, v); var all := Events(FlattenStream(iterate, [v] + vs, end));
      if first.obs.closed then all == first.out else all == first.out + Events(FlattenStream(iterate, vs, end))
  {
    assert ([v] + vs)[1..] == vs;
    var items := Elements(iterate, v);
    if items.Value? {
      EventsPrefix(items.value, FlattenStream(iterate, vs, end));
    }
  }

  lemma PairwiseSteps(o: Observer, v: Py, vs: seq<Py>, end: End)
    ensures Events(Remaining(Pairwise, o, Stream([v] + vs, end)))
            == OnNext(Pairwise, o, v).out + Events(Remaining(Pairwise, o.(seen := [v]), Stream(vs, end)))
  {
    var r := Remaining(Pairwise, o.(seen := [v]), Stream(vs, end));
    var all := Remaining(Pairwise, o, Stream([v] + vs, end));
    if o.seen == [] {
      assert [] + ([v] + vs) == [v] + vs;
      assert all == r;
    } else {
      var x := o.seen[|o.seen| - 1];
      assert [x] + ([v] + vs) == [x, v] + vs;
      assert all.values == [PTuple([x, v])] + r.values;
      EventsPrefix([PTuple([x, v])], r);
      assert Nexts([PTuple([x, v])]) == [Next(PTuple([x, v]))];
    }
  }

  /** Fed one notification at a time, an operator's observer puts out exactly the transformed stream. */
  lemma ObserverIsTransformer(op: Operator, s: Stream)
    ensures ReactAll(op, FRESH, Events(s)).out == Events(Transform(op, s))
  {
    RunsOn(op, FRESH, s.values, s.end);
    assert [] + s.values == s.values;
  }

  /** Values, then at most one terminal notification, and nothing after it. */
  ghost predicate IsStream(evs: seq<Event>) {
    forall i :: 0 <= i < |evs| - 1 ==> evs[i].Next?
  }

  /** Whatever notifications an observer is given, even after a terminal one, what it puts out is a
      well-formed stream. */
  lemma {:induction false} AlwaysWellFormed(op: Operator, o: Observer, evs: seq<Event>)
    ensures IsStream(ReactAll(op, o, evs).out)
    decreases |evs|
  {
    if evs != [] {
      var first := React(op, o, evs[0]);
      AlwaysWellFormed(op, first.obs, evs[1..]);
      if first.obs.closed {
        ClosedReacts(op, first.obs, evs[1..]);
      }
    }
  }

  /** `flatten` after `to_list` gives the stream back if and only if it completes or holds no value. */
  lemma FlattenAfterToListIsExact(iterate: nat -> Callback<seq<Py>>, s: Stream)
    ensures Transform(Flatten(iterate), Transform(ToList, s)) == s <==> s.end.Completed? || s.values == []
  {
    if s.end.Completed? && s.values != [] {
      var l := Transform(ToList, s);
      assert l.values[1..] == [];
      assert FlattenStream(iterate, l.values[1..], Completed).values == [];
      assert s.values + [] == s.values;
    }
  }

  // ---------------------------------------------------------------- pipe

  datatype Argument = AnOperator(op: Operator) | SomethingElse

  datatype PipeResult = Piped(s: Stream) | NotAnOperator | NoArguments

  function TransformAll(ops: seq<Operator>, s: Stream): Stream
    decreases |ops|
  {
    if ops == [] then s else TransformAll(ops[1..], Transform(ops[0], s))
  }

  ghost predicate AllOperators(args: seq<Argument>) {
    forall i :: 0 <= i < |args| ==> args[i].AnOperator?
  }

  function Operators(args: seq<Argument>): (ops: seq<Operator>)
    requires forall i :: 0 <= i < |args| ==> args[i].AnOperator?
    ensures |ops| == |args|
    ensures forall i :: 0 <= i < |args| ==> ops[i] == args[i].op
  {
    seq(|args|, i requires 0 <= i < |args| => args[i].op)
  }

  lemma {:induction false} TransformAllAppend(a: seq<Operator>, b: seq<Operator>, s: Stream)
    ensures TransformAll(a + b, s) == TransformAll(b, TransformAll(a, s))
    decreases |a|
  {
    if a == [] {
      assert a + b == b;
    } else {
      TransformAllAppend(a[1..], b, Transform(a[0], s));
      assert (a + b)[1..] == a[1..] + b;
    }
  }

  /** `pipe`: every argument must be an operator and there must be one; then the operators are applied
      from left to right. */
  method Pipe(s: Stream, args: seq<Argument>) returns (r: PipeResult)
    ensures !AllOperators(args) ==> r == NotAnOperator
    ensures args == [] ==> r == NoArguments
    ensures args != [] && AllOperators(args) ==> r == Piped(TransformAll(Operators(args), s))
  {
    var ops: seq<Operator> := [];
    for i := 0 to |args|
      invariant forall k :: 0 <= k < i ==> args[k].AnOperator?
      invariant |ops| == i && forall k :: 0 <= k < i ==> ops[k] == args[k].op
    {
      if args[i].SomethingElse? {
        return NotAnOperator;
      }
      ops := ops + [args[i].op];
    }
    if ops == [] {
      return NoArguments;
    }
    assert ops == Operators(args);
    var result := Transform(ops[0], s);
    for i := 1 to |ops|
      invariant TransformAll(ops, s) == TransformAll(ops[i..], result)
    {
      assert ops[i..][1..] == ops[i + 1..];
      result := Transform(ops[i], result);
    }
    assert ops[|ops|..] == [];
    r := Piped(result);
  }

  /** Piping two non-empty lists of operators one after the other is piping their concatenation. */
  lemma PipeComposes(s: Stream, a: seq<Argument>, b: seq<Argument>)
    requires AllOperators(a) && AllOperators(b)
    ensures AllOperators(a + b)
    ensures TransformAll(Operators(a + b), s) == TransformAll(Operators(b), TransformAll(Operators(a), s))
  {
    assert Operators(a + b) == Operators(a) + Operators(b);
    TransformAllAppend(Operators(a), Operators(b), s);
  }

  // ---------------------------------------------------------------- laws of the operators

  /** One callback after another; the second is not called when the first raises. */
  function Then<T>(f: Py -> Callback<Py>, g: Py -> Callback<T>): Py -> Callback<T> {
    v => match f(v) case Value(w) => g(w) case Raised(e) => Raised(e)
  }

  function Both(p: Py -> Callback<bool>, q: Py -> Callback<bool>): Py -> Callback<bool> {
    v => match p(v) case Value(keep) => if keep then q(v) else Value(false) case Raised(e) => Raised(e)
  }

  lemma {:induction false} MapsFuse(f: Py -> Callback<Py>, g: Py -> Callback<Py>, vs: seq<Py>, end: End)
    ensures var s := MapStream(f, vs, end); MapStream(g, s.values, s.end) == MapStream(Then(f, g), vs, end)
  {
    if vs != [] {
      MapsFuse(f, g, vs[1..], end);
      if f(vs[0]).Value? {
        var rest := MapStream(f, vs[1..], end).values;
        assert ([f(vs[0]).value] + rest)[1..] == rest;
      }
    }
  }

  lemma {:induction false} FiltersFuse(p: Py -> Callback<bool>, q: Py -> Callback<bool>, vs: seq<Py>, end: End)
    ensures var s := FilterStream(p, vs, end); FilterStream(q, s.values, s.end) == FilterStream(Both(p, q), vs, end)
  {
    if vs != [] {
      FiltersFuse(p, q, vs[1..], end);
      var rest := FilterStream(p, vs[1..], end).values;
      assert ([vs[0]] + rest)[1..] == rest;
    }
  }

  lemma {:induction false} MapAndFilterNothing(vs: seq<Py>, end: End)
    ensures MapStream(v => Value(v), vs, end) == Stream(vs, end)
    ensures FilterStream(v => Value(true), vs, end) == Stream(vs, end)
    ensures FilterStream(v => Value(false), vs, end) == Stream([], end)
  {
    if vs != [] {
      MapAndFilterNothing(vs[1..], end);
      assert vs == [vs[0]] + vs[1..];
    }
  }

  /** Two maps are one, and two filters are one, errors of the callbacks included; mapping the identity
      and filtering by what always holds change nothing, and filtering by what never holds leaves nothing. */
  lemma OperatorsFuse(s: Stream, f: Py -> Callback<Py>, g: Py -> Callback<Py>,
                      p: Py -> Callback<bool>, q: Py -> Callback<bool>)
    ensures Transform(Map(g), Transform(Map(f), s)) == Transform(Map(Then(f, g)), s)
    ensures Transform(Filter(q), Transform(Filter(p), s)) == Transform(Filter(Both(p, q)), s)
    ensures Transform(Map(v => Value(v)), s) == s == Transform(Filter(v => Value(true)), s)
    ensures Transform(Filter(v => Value(false)), s) == Stream([], s.end)
  {
    MapsFuse(f, g, s.values, s.end);
    FiltersFuse(p, q, s.values, s.end);
    MapAndFilterNothing(s.values, s.end);
  }

  function Component(vs: seq<Py>, k: nat): (r: seq<Py>)
    ensures |r| == |vs|
  {
    seq(|vs|, i requires 0 <= i < |vs| => if vs[i].PTuple? && k < |vs[i].items| then vs[i].items[k] else PNone)
  }

  /** The pairs of a stream give it back: their first components, and then the last value; or the first
      value, and then their second components. */
  lemma PairsGiveBack(s: Stream)
    requires s.values != []
    ensures var pairs := Transform(Pairwise, s).values;
      && s.values == Component(pairs, 0) + [s.values[|s.values| - 1]] == [s.values[0]] + Component(pairs, 1)
      && forall i :: 0 <= i < |pairs| ==> pairs[i].PTuple? && |pairs[i].items| == 2
  {
  }

  /** Collecting and a final value take effect on completion only, and an empty stream is not collected
      into an empty list. */
  lemma OnCompletionOnly(s: Stream, final: Option<Py>)
    ensures Transform(ToList, s).end == s.end == Transform(OnCompleted(final), s).end
    ensures Transform(ToList, s).values != [] <==> s.end.Completed? && s.values != []
    ensures s.values <= Transform(OnCompleted(final), s).values
    ensures Transform(OnCompleted(final), s) != s <==> s.end.Completed? && final.Some? && final.value != PNone
    ensures Transform(OnCompleted(final), s) != s ==>
              Transform(OnCompleted(final), s).values == s.values + [final.value]
  {
    if s.end.Completed? && final.Some? && final.value != PNone {
      assert |s.values + [final.value]| != |s.values|;
    }
  }
}
