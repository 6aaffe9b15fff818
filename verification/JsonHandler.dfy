/**
 The handler for unserializable objects: which objects it gets to see and under which paths, what
 becomes of its answers, and which failure ends a conversion.
 */
module JsonHandler {
  import opened Common
  import opened JsonCast

  datatype PathStep = AtKey(s: string) | AtIndex(n: nat)

  /** The object of an unknown type that sits at the end of a path into `p`. */
  datatype Leaf = Leaf(id: nat, path: seq<PathStep>)

  /** Follows a path into `p`. */
  function At(p: Py, path: seq<PathStep>): Option<Py>
    decreases |path|
  {
    if path == [] then Some(p)
    else
      match (p, path[0])
      case (PList(items), AtIndex(n)) => if n < |items| then At(items[n], path[1..]) else None
      case (PTuple(items), AtIndex(n)) => if n < |items| then At(items[n], path[1..]) else None
      case (PDict(entries), AtKey(s)) =>
        var k := Find(entries, s);
        if k < |entries| then At(entries[k].value, path[1..]) else None
      case _ => None
  }

  /** The position of a key in a dict, or its size. */
  function Find(entries: seq<Entry>, s: string): (k: nat)
    ensures k <= |entries|
    ensures k < |entries| ==> entries[k].key == StrKey(s)
    ensures forall i :: 0 <= i < k ==> entries[i].key != StrKey(s)
  {
    if entries == [] || entries[0].key == StrKey(s) then 0 else 1 + Find(entries[1..], s)
  }

  /** The text of a path, as the converter builds it. */
  function Text(path: seq<PathStep>): string {
    if path == [] then ""
    else "/" + (if path[0].AtKey? then path[0].s else Decimal(path[0].n)) + Text(path[1..])
  }

  function Under(step: PathStep, leaves: seq<Leaf>): (r: seq<Leaf>)
    ensures |r| == |leaves|
    ensures forall i :: 0 <= i < |r| ==> r[i] == Leaf(leaves[i].id, [step] + leaves[i].path)
  {
    seq(|leaves|, i requires 0 <= i < |leaves| => Leaf(leaves[i].id, [step] + leaves[i].path))
  }

  /** The leaves of an unknown type, in the order in which the converter meets them. */
  function Leaves(p: Py): seq<Leaf>
    decreases p, 1
  {
    match p
    case PObject(id) => [Leaf(id, [])]
    case PList(items) => LeavesOfItems(items, 0)
    case PTuple(items) => LeavesOfItems(items, 0)
    case PDict(entries) => LeavesOfEntries(entries)
    case _ => []
  }

  function LeavesOfItems(items: seq<Py>, n: nat): seq<Leaf>
    decreases items, 0
  {
    if items == [] then [] else Under(AtIndex(n), Leaves(items[0])) + LeavesOfItems(items[1..], n + 1)
  }

  function LeavesOfEntries(entries: seq<Entry>): seq<Leaf>
    decreases entries, 0
  {
    if entries == [] then [] else LeavesOfEntry(entries[0]) + LeavesOfEntries(entries[1..])
  }

  function LeavesOfEntry(e: Entry): seq<Leaf>
    decreases e, 2
  {
    if e.key.StrKey? then Under(AtKey(e.key.s), Leaves(e.value)) else []
  }

  /** The calls that show the handler the given leaves, below `path`. */
  function Shown(leaves: seq<Leaf>, path: string): (calls: seq<Call>)
    ensures |calls| == |leaves|
    ensures forall i :: 0 <= i < |calls| ==> calls[i] == Call(leaves[i].id, Rooted(path + Text(leaves[i].path)))
  {
    seq(|leaves|, i requires 0 <= i < |leaves| => Call(leaves[i].id, Rooted(path + Text(leaves[i].path))))
  }

  lemma ShownUnder(step: PathStep, leaves: seq<Leaf>, path: string)
    ensures Shown(Under(step, leaves), path)
            == Shown(leaves, path + "/" + (if step.AtKey? then step.s else Decimal(step.n)))
  {
    var here := path + "/" + (if step.AtKey? then step.s else Decimal(step.n));
    forall i | 0 <= i < |leaves| ensures path + Text([step] + leaves[i].path) == here + Text(leaves[i].path) {
      assert ([step] + leaves[i].path)[1..] == leaves[i].path;
    }
  }

  lemma ShownAppend(a: seq<Leaf>, b: seq<Leaf>, path: string)
    ensures Shown(a + b, path) == Shown(a, path) + Shown(b, path)
  {
  }

  /** A conversion calls the handler for the leaves of an unknown type, in order, with the text of the
      path that leads to each: for all of them if it succeeds, and otherwise up to where it fails. */
  lemma {:induction false} HandlerSeesLeaves(p: Py, f: (nat, string) -> Result<Json>, path: string)
    ensures var c := ToJson(p, Handler(f), path);
      c.calls <= Shown(Leaves(p), path) && (c.result.Ok? ==> c.calls == Shown(Leaves(p), path))
    decreases p, 1
  {
    match p
    case PList(items) => HandlerSeesItems(items, 0, f, path);
    case PTuple(items) => HandlerSeesItems(items, 0, f, path);
    case PDict(entries) => HandlerSeesEntries(entries, [], f, path);
    case PObject(id) => assert path + Text([]) == path;
    case _ =>
  }

  lemma {:induction false} HandlerSeesItems(items: seq<Py>, n: nat, f: (nat, string) -> Result<Json>, path: string)
    ensures var c := ToItems(items, n, Handler(f), path); var all := Shown(LeavesOfItems(items, n), path);
      c.calls <= all && (c.result.Ok? ==> c.calls == all)
    decreases items, 0
  {
    hide Decimal, Text, ToJson, Leaves, Rooted;
    if items != [] {
      HandlerSeesLeaves(items[0], f, path + "/" + Decimal(n));
      HandlerSeesItems(items[1..], n + 1, f, path);
      ShownUnder(AtIndex(n), Leaves(items[0]), path);
      ShownAppend(Under(AtIndex(n), Leaves(items[0])), LeavesOfItems(items[1..], n + 1), path);
    }
  }

  lemma {:induction false} HandlerSeesEntries(entries: seq<Entry>, ms: seq<Member>,
                                              f: (nat, string) -> Result<Json>, path: string)
    ensures var c := ToMembers(entries, ms, Handler(f), path); var all := Shown(LeavesOfEntries(entries), path);
      c.calls <= all && (c.result.Ok? ==> c.calls == all)
    decreases entries, 0
  {
    if entries != [] {
      var e := entries[0];
      if e.key.StrKey? {
        HandlerSeesEntry(e, f, path);
        ShownAppend(LeavesOfEntry(e), LeavesOfEntries(entries[1..]), path);
        var c := ToMember(e, Handler(f), path);
        if c.result.Ok? {
          HandlerSeesEntries(entries[1..], Insert(ms, e.key.s, c.result.value), f, path);
        }
      }
    }
  }

  lemma {:induction false} HandlerSeesEntry(e: Entry, f: (nat, string) -> Result<Json>, path: string)
    requires e.key.StrKey?
    ensures var c := ToMember(e, Handler(f), path);
      c.calls <= Shown(LeavesOfEntry(e), path) && (c.result.Ok? ==> c.calls == Shown(LeavesOfEntry(e), path))
    decreases e, 2
  {
    HandlerSeesLeaves(e.value, f, path + "/" + e.key.s);
    ShownUnder(AtKey(e.key.s), Leaves(e.value), path);
  }

  lemma UnderHas(step: PathStep, leaves: seq<Leaf>, id: nat, path: seq<PathStep>)
    ensures Leaf(id, path) in Under(step, leaves) <==> path != [] && path[0] == step && Leaf(id, path[1..]) in leaves
  {
    var under := Under(step, leaves);
    if path != [] && path[0] == step && Leaf(id, path[1..]) in leaves {
      var i :| 0 <= i < |leaves| && leaves[i] == Leaf(id, path[1..]);
      assert path == [step] + path[1..];
      assert under[i] == Leaf(id, path);
    }
  }

  /** The leaves are exactly the objects of an unknown type that some path leads to. */
  lemma {:induction false} LeavesAreExact(p: Py, id: nat, path: seq<PathStep>)
    requires Legal(p)
    ensures Leaf(id, path) in Leaves(p) <==> At(p, path) == Some(PObject(id))
    decreases p, 1
  {
    match p
    case PList(items) =>
      LeavesOfItemsExact(items, 0, id, path);
    case PTuple(items) =>
      LeavesOfItemsExact(items, 0, id, path);
    case PDict(entries) =>
      LeavesOfEntriesExact(entries, id, path);
    case _ =>
      assert path == [] || At(p, path) == None;
  }

  lemma {:induction false} LeavesOfItemsExact(items: seq<Py>, n: nat, id: nat, path: seq<PathStep>)
    requires forall i :: 0 <= i < |items| ==> Legal(items[i])
    ensures Leaf(id, path) in LeavesOfItems(items, n) <==>
            && path != [] && path[0].AtIndex? && n <= path[0].n < n + |items|
            && At(items[path[0].n - n], path[1..]) == Some(PObject(id))
    decreases items, 0
  {
    hide Under, At, Leaves, Legal;
    if items != [] {
      UnderHas(AtIndex(n), Leaves(items[0]), id, path);
      LeavesOfItemsExact(items[1..], n + 1, id, path);
      if path != [] {
        LeavesAreExact(items[0], id, path[1..]);
        if path[0].AtIndex? && n + 1 <= path[0].n < n + |items| {
          assert items[1..][path[0].n - (n + 1)] == items[path[0].n - n];
        }
      }
    }
  }

  lemma {:induction false} LeavesOfEntriesExact(entries: seq<Entry>, id: nat, path: seq<PathStep>)
    requires KeysDistinct(entries) && forall i :: 0 <= i < |entries| ==> Legal(entries[i].value)
    ensures Leaf(id, path) in LeavesOfEntries(entries) <==>
            && path != [] && path[0].AtKey? && Find(entries, path[0].s) < |entries|
            && At(entries[Find(entries, path[0].s)].value, path[1..]) == Some(PObject(id))
    decreases entries, 0
  {
    if entries != [] {
      LeavesOfEntryExact(entries[0], id, path);
      LeavesOfEntriesExact(entries[1..], id, path);
      if path != [] && path[0].AtKey? {
        var k := Find(entries[1..], path[0].s);
        assert k < |entries| - 1 ==> entries[k + 1].key == StrKey(path[0].s);
      }
    }
  }

  lemma {:induction false} LeavesOfEntryExact(e: Entry, id: nat, path: seq<PathStep>)
    requires Legal(e.value)
    ensures Leaf(id, path) in LeavesOfEntry(e) <==>
            path != [] && path[0].AtKey? && e.key == StrKey(path[0].s) && At(e.value, path[1..]) == Some(PObject(id))
    decreases e, 2
  {
    if e.key.StrKey? {
      UnderHas(AtKey(e.key.s), Leaves(e.value), id, path);
      if path != [] {
        LeavesAreExact(e.value, id, path[1..]);
      }
    }
  }

  ghost predicate PathsDistinct(leaves: seq<Leaf>) {
    forall i, j :: 0 <= i < j < |leaves| ==> leaves[i].path != leaves[j].path
  }

  ghost predicate StartWith(leaves: seq<Leaf>, steps: set<PathStep>) {
    forall i :: 0 <= i < |leaves| ==> leaves[i].path != [] && leaves[i].path[0] in steps
  }

  lemma UnderDistinct(step: PathStep, leaves: seq<Leaf>)
    requires PathsDistinct(leaves)
    ensures PathsDistinct(Under(step, leaves)) && StartWith(Under(step, leaves), {step})
  {
    forall i, j | 0 <= i < j < |leaves| ensures [step] + leaves[i].path != [step] + leaves[j].path {
      assert ([step] + leaves[i].path)[1..] == leaves[i].path && ([step] + leaves[j].path)[1..] == leaves[j].path;
    }
  }

  lemma AppendDistinct(a: seq<Leaf>, s: set<PathStep>, b: seq<Leaf>, t: set<PathStep>)
    requires PathsDistinct(a) && PathsDistinct(b) && StartWith(a, s) && StartWith(b, t) && s !! t
    ensures PathsDistinct(a + b) && StartWith(a + b, s + t)
  {
  }

  /** No path is listed twice: the handler sees each such object once. */
  lemma {:induction false} LeavesOnce(p: Py)
    requires Legal(p)
    ensures PathsDistinct(Leaves(p))
    decreases p, 1
  {
    match p
    case PList(items) => ItemsOnce(items, 0);
    case PTuple(items) => ItemsOnce(items, 0);
    case PDict(entries) => EntriesOnce(entries);
    case _ =>
  }

  function Indices(n: nat, k: nat): set<PathStep> {
    set i | n <= i < n + k :: AtIndex(i)
  }

  lemma {:induction false} ItemsOnce(items: seq<Py>, n: nat)
    requires forall i :: 0 <= i < |items| ==> Legal(items[i])
    ensures PathsDistinct(LeavesOfItems(items, n)) && StartWith(LeavesOfItems(items, n), Indices(n, |items|))
    decreases items, 0
  {
    if items != [] {
      LeavesOnce(items[0]);
      UnderDistinct(AtIndex(n), Leaves(items[0]));
      ItemsOnce(items[1..], n + 1);
      var rest := LeavesOfItems(items[1..], n + 1);
      AppendDistinct(Under(AtIndex(n), Leaves(items[0])), {AtIndex(n)}, rest, Indices(n + 1, |items| - 1));
      assert {AtIndex(n)} + Indices(n + 1, |items| - 1) == Indices(n, |items|);
    }
  }

  function KeySteps(entries: seq<Entry>): set<PathStep> {
    set i | 0 <= i < |entries| && entries[i].key.StrKey? :: AtKey(entries[i].key.s)
  }

  lemma {:induction false} EntriesOnce(entries: seq<Entry>)
    requires KeysDistinct(entries) && forall i :: 0 <= i < |entries| ==> Legal(entries[i].value)
    ensures PathsDistinct(LeavesOfEntries(entries)) && StartWith(LeavesOfEntries(entries), KeySteps(entries))
    decreases entries, 0
  {
    if entries != [] {
      EntryOnce(entries[0]);
      EntriesOnce(entries[1..]);
      var first := KeySteps([entries[0]]);
      forall step | step in KeySteps(entries[1..]) ensures step !in first {
        var i :| 0 <= i < |entries[1..]| && entries[1..][i].key.StrKey? && step == AtKey(entries[1..][i].key.s);
        assert entries[i + 1].key != entries[0].key;
      }
      AppendDistinct(LeavesOfEntry(entries[0]), first, LeavesOfEntries(entries[1..]), KeySteps(entries[1..]));
      assert first + KeySteps(entries[1..]) <= KeySteps(entries) by {
        forall step | step in KeySteps(entries[1..]) ensures step in KeySteps(entries) {
          var i :| 0 <= i < |entries[1..]| && entries[1..][i].key.StrKey? && step == AtKey(entries[1..][i].key.s);
          assert entries[i + 1] == entries[1..][i];
        }
      }
    }
  }

  lemma {:induction false} EntryOnce(e: Entry)
    requires Legal(e.value)
    ensures PathsDistinct(LeavesOfEntry(e)) && StartWith(LeavesOfEntry(e), KeySteps([e]))
    decreases e, 2
  {
    if e.key.StrKey? {
      LeavesOnce(e.value);
      UnderDistinct(AtKey(e.key.s), Leaves(e.value));
      assert [e][0] == e && AtKey(e.key.s) in KeySteps([e]);
    }
  }

  // ---------------------------------------------------------------- what becomes of its answers

  /** The position of a key in an object, or its size. */
  function FindMember(ms: seq<Member>, s: string): (k: nat)
    ensures k <= |ms|
    ensures k < |ms| ==> ms[k].key == s
    ensures forall i :: 0 <= i < k ==> ms[i].key != s
  {
    if ms == [] || ms[0].key == s then 0 else 1 + FindMember(ms[1..], s)
  }

  /** Follows a path into a JSON value. */
  function JsonAt(j: Json, path: seq<PathStep>): Option<Json>
    decreases |path|
  {
    if path == [] then Some(j)
    else
      match (j, path[0])
      case (JArr(items), AtIndex(n)) => if n < |items| then JsonAt(items[n], path[1..]) else None
      case (JObj(ms), AtKey(s)) =>
        var k := FindMember(ms, s);
        if k < |ms| then JsonAt(ms[k].value, path[1..]) else None
      case _ => None
  }

  /** The member found under an entry's key stands for it. */
  lemma MemberFound(ms: seq<Member>, e: Entry, h: Handler, path: string)
    requires Sorted(ms) && e.key.StrKey? && HasMember(ms, e, h, path)
    ensures var k := FindMember(ms, e.key.s);
      k < |ms| && Renders(ms[k].value, e.value, h, path + "/" + e.key.s)
  {
    hide Renders, Less;
    var i :| 0 <= i < |ms| && ms[i].key == e.key.s && Renders(ms[i].value, e.value, h, path + "/" + e.key.s);
    var k := FindMember(ms, e.key.s);
    if k < i {
      LessTotal(ms[k].key, ms[i].key);
    }
  }

  /** What stands for `p` has, at every path into `p`, what stands for the part found there. */
  lemma {:induction false} PartsRender(j: Json, p: Py, h: Handler, path: string, steps: seq<PathStep>)
    requires Renders(j, p, h, path) && At(p, steps).Some?
    ensures JsonAt(j, steps).Some?
    ensures Renders(JsonAt(j, steps).value, At(p, steps).value, h, path + Text(steps))
    decreases |steps|
  {
    if steps == [] {
      assert path + "" == path;
    } else {
      var here := path + "/" + Segment(steps[0]);
      assert path + Text(steps) == here + Text(steps[1..]);
      if p.PDict? {
        var e := p.entries[Find(p.entries, steps[0].s)];
        MemberFound(j.members, e, h, path);
        PartsRender(j.members[FindMember(j.members, steps[0].s)].value, e.value, h, here, steps[1..]);
      } else {
        PartsRender(j.items[steps[0].n], p.items[steps[0].n], h, here, steps[1..]);
      }
    }
  }

  /** A conversion that succeeds has put, at the path of every leaf of an unknown type, exactly what the
      handler returned for that leaf and that path. */
  lemma HandlerAnswers(p: Py, f: (nat, string) -> Result<Json>, path: string, leaf: Leaf)
    requires Legal(p) && ToJson(p, Handler(f), path).result.Ok? && leaf in Leaves(p)
    ensures var answer := f(leaf.id, Rooted(path + Text(leaf.path)));
      answer.Ok? && JsonAt(ToJson(p, Handler(f), path).result.value, leaf.path) == Some(answer.value)
  {
    hide Leaves, At, JsonAt, ToJson;
    ResultRenders(p, Handler(f), path);
    assert leaf == Leaf(leaf.id, leaf.path);
    LeavesAreExact(p, leaf.id, leaf.path);
    PartsRender(ToJson(p, Handler(f), path).result.value, p, Handler(f), path, leaf.path);
  }

  // ---------------------------------------------------------------- which failure ends a conversion

  /** What a conversion can stumble over, in the order in which it gets there. */
  datatype Visit = TooBig | OddKey | Unknown(id: nat, text: string)

  function Visits(p: Py, path: string): seq<Visit>
    decreases p, 1
  {
    match p
    case PInt(i) => if -TWO_63 <= i < TWO_63 then [] else [TooBig]
    case PObject(id) => [Unknown(id, Rooted(path))]
    case PList(items) => VisitItems(items, 0, path)
    case PTuple(items) => VisitItems(items, 0, path)
    case PDict(entries) => VisitEntries(entries, path)
    case _ => []
  }

  function VisitItems(items: seq<Py>, n: nat, path: string): seq<Visit>
    decreases items, 0
  {
    if items == [] then [] else Visits(items[0], path + "/" + Decimal(n)) + VisitItems(items[1..], n + 1, path)
  }

  function VisitEntries(entries: seq<Entry>, path: string): seq<Visit>
    decreases entries, 0
  {
    if entries == [] then [] else VisitEntry(entries[0], path) + VisitEntries(entries[1..], path)
  }

  function VisitEntry(e: Entry, path: string): seq<Visit>
    decreases e, 2
  {
    if e.key.StrKey? then Visits(e.value, path + "/" + e.key.s) else [OddKey]
  }

  /** The error that a visit raises, if any. */
  function Raises(v: Visit, h: Handler): Option<Error> {
    match v
    case TooBig => Some(IntOutOfRange)
    case OddKey => Some(BadKey)
    case Unknown(id, text) =>
      if h.NoHandler? then Some(NotSerializable(text))
      else if h.f(id, text).Err? then Some(h.f(id, text).error) else None
  }

  /** The calls of a scan that stops at the first error, and that error. */
  datatype Scanned = Scanned(calls: seq<Call>, error: Option<Error>)

  function Scan(vs: seq<Visit>, h: Handler): Scanned {
    if vs == [] then Scanned([], None)
    else
      var call := if vs[0].Unknown? && h.Handler? then [Call(vs[0].id, vs[0].text)] else [];
      if Raises(vs[0], h).Some? then Scanned(call, Raises(vs[0], h))
      else var rest := Scan(vs[1..], h); Scanned(call + rest.calls, rest.error)
  }

  lemma {:induction false} ScanAppend(a: seq<Visit>, b: seq<Visit>, h: Handler)
    ensures Scan(a + b, h) == if Scan(a, h).error.Some? then Scan(a, h)
                              else Scanned(Scan(a, h).calls + Scan(b, h).calls, Scan(b, h).error)
  {
    hide Raises;
    if a == [] {
      assert a + b == b && [] + Scan(b, h).calls == Scan(b, h).calls;
    } else {
      assert (a + b)[0] == a[0] && (a + b)[1..] == a[1..] + b;
      ScanAppend(a[1..], b, h);
      var call := if a[0].Unknown? && h.Handler? then [Call(a[0].id, a[0].text)] else [];
      assert call + (Scan(a[1..], h).calls + Scan(b, h).calls) == call + Scan(a[1..], h).calls + Scan(b, h).calls;
    }
  }

  /** The calls and the error of a conversion are those of a scan. */
  ghost predicate Agrees<T>(c: Cast<T>, scan: Scanned) {
    c.calls == scan.calls && scan.error == if c.result.Err? then Some(c.result.error) else None
  }

  /** A conversion goes through the object in order, calls the handler, if there is one, for every object of
      an unknown type, and ends with the first failure: an integer out of range, a key that is not a
      string, an unknown object without a handler, or whatever the handler throws. */
  lemma {:induction false} FirstFailureEnds(p: Py, h: Handler, path: string)
    ensures Agrees(ToJson(p, h, path), Scan(Visits(p, path), h))
    decreases p, 1
  {
    match p
    case PList(items) => ItemsScan(items, 0, h, path);
    case PTuple(items) => ItemsScan(items, 0, h, path);
    case PDict(entries) => EntriesScan(entries, [], h, path);
    case _ =>
  }

  lemma {:induction false} ItemsScan(items: seq<Py>, n: nat, h: Handler, path: string)
    ensures Agrees(ToItems(items, n, h, path), Scan(VisitItems(items, n, path), h))
    decreases items, 0
  {
    hide Scan, Visits, ToJson, Decimal;
    if items == [] {
      ScanNothing(h);
    } else {
      FirstFailureEnds(items[0], h, path + "/" + Decimal(n));
      ItemsScan(items[1..], n + 1, h, path);
      ScanAppend(Visits(items[0], path + "/" + Decimal(n)), VisitItems(items[1..], n + 1, path), h);
    }
  }

  lemma {:induction false} EntriesScan(entries: seq<Entry>, ms: seq<Member>, h: Handler, path: string)
    ensures Agrees(ToMembers(entries, ms, h, path), Scan(VisitEntries(entries, path), h))
    decreases entries, 0
  {
    hide Scan, VisitEntry, ToMember, Insert;
    if entries == [] {
      ScanNothing(h);
    } else {
      var e := entries[0];
      EntryScan(e, h, path);
      ScanAppend(VisitEntry(e, path), VisitEntries(entries[1..], path), h);
      if e.key.StrKey? && ToMember(e, h, path).result.Ok? {
        EntriesScan(entries[1..], Insert(ms, e.key.s, ToMember(e, h, path).result.value), h, path);
      }
    }
  }

  lemma {:induction false} EntryScan(e: Entry, h: Handler, path: string)
    ensures e.key.StrKey? ==> Agrees(ToMember(e, h, path), Scan(VisitEntry(e, path), h))
    ensures e.key.OtherKey? ==> Scan(VisitEntry(e, path), h) == Scanned([], Some(BadKey))
    decreases e, 2
  {
    if e.key.StrKey? {
      FirstFailureEnds(e.value, h, path + "/" + e.key.s);
    }
  }

  lemma ScanNothing(h: Handler)
    ensures Scan([], h) == Scanned([], None)
  {
  }

  // ---------------------------------------------------------------- the text of a path

  function Segment(step: PathStep): string {
    if step.AtKey? then step.s else Decimal(step.n)
  }

  /** One key is another, followed by a slash and more. */
  predicate Extends(long: string, short: string) {
    short + "/" <= long
  }

  /** No dict in `p` has a key that extends another of its keys. */
  ghost predicate Unambiguous(p: Py) {
    match p
    case PList(items) => forall i :: 0 <= i < |items| ==> Unambiguous(items[i])
    case PTuple(items) => forall i :: 0 <= i < |items| ==> Unambiguous(items[i])
    case PDict(entries) => KeysApart(entries) && forall i :: 0 <= i < |entries| ==> Unambiguous(entries[i].value)
    case _ => true
  }

  ghost predicate KeysApart(entries: seq<Entry>) {
    forall i, j :: 0 <= i < |entries| && 0 <= j < |entries| && entries[i].key.StrKey? && entries[j].key.StrKey? ==>
      !Extends(entries[i].key.s, entries[j].key.s)
  }

  lemma {:induction false} DecimalDigits(n: nat)
    ensures '/' !in Decimal(n)
  {
    if 10 <= n {
      DecimalDigits(n / 10);
    }
  }

  function DigitValue(c: char): nat {
    if '0' <= c <= '9' then c as nat - '0' as nat else 0
  }

  /** The number that a string of digits denotes. */
  function Parsed(s: string): nat {
    if s == "" then 0 else 10 * Parsed(s[..|s| - 1]) + DigitValue(s[|s| - 1])
  }

  /** An index is shown as the number it is, without leading zeros. */
  lemma {:induction false} DecimalIsRight(n: nat)
    ensures Decimal(n) != "" && Parsed(Decimal(n)) == n && (0 < n ==> Decimal(n)[0] != '0')
  {
    var d := Decimal(n);
    assert d[|d| - 1] == Digit(n % 10) && DigitValue(Digit(n % 10)) == n % 10;
    if n < 10 {
      assert d[..|d| - 1] == "";
    } else {
      DecimalIsRight(n / 10);
      assert d[..|d| - 1] == Decimal(n / 10);
    }
  }

  lemma ExtendsBySlash(long: string, short: string)
    ensures Extends(long, short) ==> '/' in long
  {
    if Extends(long, short) {
      assert (short + "/")[|short|] == long[|short|];
    }
  }

  /** What follows a segment is nothing, or begins with a slash. */
  ghost predicate Tail(t: string) {
    t != [] ==> t[0] == '/'
  }

  lemma SplitOnce(a: string, s: string, b: string, t: string)
    requires a + s == b + t && Tail(s) && Tail(t) && !Extends(a, b) && !Extends(b, a)
    ensures a == b && s == t
  {
    if |a| < |b| {
      LongerExtends(a, s, b, t);
    } else if |b| < |a| {
      LongerExtends(b, t, a, s);
    } else {
      assert a == (a + s)[..|a|] == (b + t)[..|b|] == b;
      assert s == (a + s)[|a|..] == (b + t)[|b|..] == t;
    }
  }

  lemma LongerExtends(a: string, s: string, b: string, t: string)
    requires a + s == b + t && Tail(s) && |a| < |b|
    ensures Extends(b, a)
  {
    assert a == (a + s)[..|a|] == (b + t)[..|a|] == b[..|a|];
    assert s[0] == (a + s)[|a|] == (b + t)[|a|] == b[|a|];
  }

  lemma TextTail(path: seq<PathStep>)
    ensures Tail(Text(path))
  {
  }

  lemma TextSplit(path: seq<PathStep>)
    requires path != []
    ensures Text(path) == "/" + (Segment(path[0]) + Text(path[1..]))
  {
  }

  /** Two paths into `p` to objects of an unknown type have different texts. */
  lemma {:induction false} TextOnce(p: Py, x: seq<PathStep>, y: seq<PathStep>)
    requires Unambiguous(p) && LeadsToObject(p, x) && LeadsToObject(p, y) && Text(x) == Text(y)
    ensures x == y
    decreases |x|
  {
    if x != [] && y != [] {
      hide Text, Decimal, Extends, LeadsToObject;
      TextSplit(x);
      TextSplit(y);
      TextTail(x[1..]);
      TextTail(y[1..]);
      assert Segment(x[0]) + Text(x[1..]) == Text(x)[1..] == Text(y)[1..] == Segment(y[0]) + Text(y[1..]);
      var q := SameStep(p, x, y);
      TextOnce(q, x[1..], y[1..]);
      assert x == [x[0]] + x[1..] && y == [y[0]] + y[1..];
    }
  }

  ghost predicate LeadsToObject(p: Py, path: seq<PathStep>) {
    At(p, path).Some? && At(p, path).value.PObject?
  }

  lemma SameStep(p: Py, x: seq<PathStep>, y: seq<PathStep>) returns (q: Py)
    requires Unambiguous(p) && LeadsToObject(p, x) && LeadsToObject(p, y) && x != [] && y != []
    requires Segment(x[0]) + Text(x[1..]) == Segment(y[0]) + Text(y[1..]) && Tail(Text(x[1..])) && Tail(Text(y[1..]))
    ensures x[0] == y[0] && Text(x[1..]) == Text(y[1..])
    ensures Unambiguous(q) && LeadsToObject(q, x[1..]) && LeadsToObject(q, y[1..])
  {
    hide Text, Decimal;
    if p.PDict? {
      var i, j := Find(p.entries, x[0].s), Find(p.entries, y[0].s);
      assert !Extends(p.entries[i].key.s, p.entries[j].key.s) && !Extends(p.entries[j].key.s, p.entries[i].key.s);
      SplitOnce(x[0].s, Text(x[1..]), y[0].s, Text(y[1..]));
      q := p.entries[i].value;
    } else {
      DecimalDigits(x[0].n);
      DecimalDigits(y[0].n);
      ExtendsBySlash(Segment(x[0]), Segment(y[0]));
      ExtendsBySlash(Segment(y[0]), Segment(x[0]));
      SplitOnce(Segment(x[0]), Text(x[1..]), Segment(y[0]), Text(y[1..]));
      DecimalIsRight(x[0].n);
      DecimalIsRight(y[0].n);
      q := p.items[x[0].n];
    }
  }

  /** The handler gets a different text for every leaf. */
  ghost predicate TextsDistinct(p: Py) {
    forall i, j :: 0 <= i < j < |Leaves(p)| ==> Text(Leaves(p)[i].path) != Text(Leaves(p)[j].path)
  }

  lemma UnambiguousTexts(p: Py)
    requires Legal(p) && Unambiguous(p)
    ensures TextsDistinct(p)
  {
    hide Leaves, At, Text, Legal, Unambiguous;
    var leaves := Leaves(p);
    LeavesOnce(p);
    forall i, j | 0 <= i < j < |leaves| ensures Text(leaves[i].path) != Text(leaves[j].path) {
      if Text(leaves[i].path) == Text(leaves[j].path) {
        LeavesAreExact(p, leaves[i].id, leaves[i].path);
        LeavesAreExact(p, leaves[j].id, leaves[j].path);
        assert leaves[i] == Leaf(leaves[i].id, leaves[i].path) && leaves[j] == Leaf(leaves[j].id, leaves[j].path);
        TextOnce(p, leaves[i].path, leaves[j].path);
      }
    }
  }

  function Two(j: string, v: Py, k: string, w: Py): Py {
    PDict([Entry(StrKey(j), v), Entry(StrKey(k), w)])
  }

  /** An object below `rest`, for a dict with keys "short" and "short/rest". */
  function Below(rest: string): Py {
    PDict([Entry(StrKey(rest), PObject(0))])
  }

  ghost predicate IsTwo(p: Py, j: string, v: Py, k: string, w: Py) {
    p == Two(j, v, k, w) || p == Two(k, w, j, v)
  }

  lemma FindTwo(j: string, v: Py, k: string, w: Py)
    requires j != k
    ensures Find(Two(j, v, k, w).entries, j) == 0 && Find(Two(j, v, k, w).entries, k) == 1
  {
    assert Two(j, v, k, w).entries[1..] == [Entry(StrKey(k), w)];
  }

  lemma TwoLeaves(p: Py, short: string, long: string, rest: string)
    requires short != long && IsTwo(p, short, Below(rest), long, PObject(1))
    ensures Leaf(0, [AtKey(short), AtKey(rest)]) in Leaves(p) && Leaf(1, [AtKey(long)]) in Leaves(p)
  {
    hide Leaves;
    var v := Below(rest);
    var x, y := [AtKey(short), AtKey(rest)], [AtKey(long)];
    assert x[1..] == [AtKey(rest)] && x[1..][1..] == [] && y[1..] == [];
    FindTwo(short, v, long, PObject(1));
    FindTwo(long, PObject(1), short, v);
    assert Find(v.entries, rest) == 0;
    assert At(v, x[1..]) == Some(PObject(0));
    assert At(p, x) == Some(PObject(0)) && At(p, y) == Some(PObject(1));
    LeavesAreExact(p, 0, x);
    LeavesAreExact(p, 1, y);
  }

  /** If one key extends the other, two leaves can share a text: one at the longer key, the other at the
      rest of it below the shorter key. */
  lemma SharedText(p: Py, short: string, rest: string)
    requires IsTwo(p, short, Below(rest), short + "/" + rest, PObject(1))
    ensures !TextsDistinct(p)
  {
    hide Leaves, Text;
    var long := short + "/" + rest;
    TwoLeaves(p, short, long, rest);
    var x, y := Leaf(0, [AtKey(short), AtKey(rest)]), Leaf(1, [AtKey(long)]);
    var i :| 0 <= i < |Leaves(p)| && Leaves(p)[i] == x;
    var j :| 0 <= j < |Leaves(p)| && Leaves(p)[j] == y;
    SameTexts(short, rest);
    assert i < j || j < i;
  }

  lemma SameTexts(short: string, rest: string)
    ensures Text([AtKey(short), AtKey(rest)]) == Text([AtKey(short + "/" + rest)])
  {
    hide Text;
    var x, y := [AtKey(short), AtKey(rest)], [AtKey(short + "/" + rest)];
    TextSplit(x);
    TextSplit(x[1..]);
    TextSplit(y);
    assert Text(x[1..][1..]) == "" == Text(y[1..]) by {
      NoText(x[1..][1..]);
      NoText(y[1..]);
    }
    assert "/" + (short + ("/" + (rest + ""))) == "/" + (short + "/" + rest + "");
  }

  lemma NoText(path: seq<PathStep>)
    requires path == []
    ensures Text(path) == ""
  {
  }

  lemma NotExtended(key: string)
    ensures !Extends(key, key)
  {
    assert |key + "/"| > |key|;
  }

  lemma BelowUnambiguous(rest: string)
    ensures Legal(Below(rest)) && Unambiguous(Below(rest)) && Legal(PObject(1)) && Unambiguous(PObject(1))
  {
    NotExtended(rest);
  }

  /** A dict of two keys, whatever unambiguous values it has, gives the handler a distinct text for each
      leaf if and only if neither key is the other one followed by a slash and more. */
  lemma TextsAreExact(j: string, k: string)
    requires j != k
    ensures (forall v, w :: Legal(v) && Legal(w) && Unambiguous(v) && Unambiguous(w) ==> TextsDistinct(Two(j, v, k, w)))
            <==> !Extends(j, k) && !Extends(k, j)
  {
    hide TextsDistinct, Below;
    if Extends(k, j) {
      var rest := k[|j| + 1..];
      assert k == j + "/" + rest;
      BelowUnambiguous(rest);
      SharedText(Two(j, Below(rest), k, PObject(1)), j, rest);
    } else if Extends(j, k) {
      var rest := j[|k| + 1..];
      assert j == k + "/" + rest;
      BelowUnambiguous(rest);
      SharedText(Two(j, PObject(1), k, Below(rest)), k, rest);
    } else {
      forall v, w | Legal(v) && Legal(w) && Unambiguous(v) && Unambiguous(w) ensures TextsDistinct(Two(j, v, k, w)) {
        NotExtended(j);
        NotExtended(k);
        UnambiguousTexts(Two(j, v, k, w));
      }
    }
  }
}
