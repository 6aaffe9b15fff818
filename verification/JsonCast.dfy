/**
 The converters between JSON values and Python objects, `cast_from_json` and
 `cast_from_pyobject`: what survives a round trip in either direction, and what an
 unserializable-object handler gets to see.
 */
module JsonCast {
  const TWO_63 := 0x8000_0000_0000_0000
  const TWO_64 := 0x1_0000_0000_0000_0000

  /** A JSON value.  Integers are signed or unsigned 64-bit; a float is its bit pattern; `Other`
      stands for the binary and discarded kinds.  The members of an object are sorted by key. */
  datatype Json =
    | JNull
    | JBool(b: bool)
    | JInt(i: int)
    | JUnsigned(u: nat)
    | JFloat(bits: nat)
    | JStr(s: string)
    | JArr(items: seq<Json>)
    | JObj(members: seq<Member>)
    | JOther

  datatype Member = Member(key: string, value: Json)

  /** A Python object.  A dict keeps its insertion order; keys that are not strings are not
      distinguished.  `PObject` is an instance of any type the converter does not know. */
  datatype Py =
    | PNone
    | PBool(b: bool)
    | PInt(i: int)
    | PFloat(bits: nat)
    | PStr(s: string)
    | PList(items: seq<Py>)
    | PTuple(items: seq<Py>)
    | PDict(entries: seq<Entry>)
    | PObject(id: nat)

  datatype Key = StrKey(s: string) | OtherKey(id: nat)

  datatype Entry = Entry(key: Key, value: Py)

  datatype Error = NotSerializable(path: string) | BadKey | IntOutOfRange | HandlerThrew

  datatype Result<T> = Ok(value: T) | Err(error: Error)

  /** A call of the handler for unserializable objects. */
  datatype Call = Call(id: nat, path: string)

  /** The handler, if there is one, returns a JSON value or throws. */
  datatype Handler = NoHandler | Handler(f: (nat, string) -> Result<Json>)

  datatype Cast<T> = Cast(result: Result<T>, calls: seq<Call>)

  // ---------------------------------------------------------------- the key order of JSON objects

  predicate Less(a: string, b: string) {
    b != [] && (a == [] || a[0] < b[0] || (a[0] == b[0] && Less(a[1..], b[1..])))
  }

  lemma {:induction false} LessTotal(a: string, b: string)
    ensures a == b || Less(a, b) || Less(b, a)
    ensures !(Less(a, b) && Less(b, a)) && !Less(a, a)
  {
    if a != [] && b != [] {
      LessTotal(a[1..], b[1..]);
      LessTotal(a[1..], a[1..]);
      if a[0] == b[0] && a[1..] == b[1..] {
        assert a == [a[0]] + a[1..] && b == [b[0]] + b[1..];
      }
    } else if a != [] {
      LessTotal(a[1..], a[1..]);
    }
  }

  lemma {:induction false} LessTransitive(a: string, b: string, c: string)
    requires Less(a, b) && Less(b, c)
    ensures Less(a, c)
  {
    if a != [] && b != [] && a[0] == b[0] && b[0] == c[0] {
      LessTransitive(a[1..], b[1..], c[1..]);
    }
  }

  ghost predicate Sorted(ms: seq<Member>) {
    forall i, j :: 0 <= i < j < |ms| ==> Less(ms[i].key, ms[j].key)
  }

  /** `json_obj[key] = value` on a sorted map. */
  function Insert(ms: seq<Member>, key: string, value: Json): seq<Member> {
    if ms == [] then [Member(key, value)]
    else if key == ms[0].key then [Member(key, value)] + ms[1..]
    else if Less(key, ms[0].key) then [Member(key, value)] + ms
    else [ms[0]] + Insert(ms[1..], key, value)
  }

  /** Inserting a key beyond all others appends. */
  lemma {:induction false} InsertLast(ms: seq<Member>, key: string, value: Json)
    requires forall i :: 0 <= i < |ms| ==> Less(ms[i].key, key)
    ensures Insert(ms, key, value) == ms + [Member(key, value)]
  {
    if ms != [] {
      LessTotal(ms[0].key, key);
      InsertLast(ms[1..], key, value);
    }
  }

  // ---------------------------------------------------------------- JSON to Python

  /** An unsigned integer read as a signed one. */
  function Signed(u: nat): int {
    if u < TWO_63 then u else u - TWO_64
  }

  /** `cast_from_json`.  Unsigned numbers satisfy `is_number_integer` and are read as signed. */
  function FromJson(j: Json): Py {
    match j
    case JNull => PNone
    case JArr(items) => PList(seq(|items|, i requires 0 <= i < |items| => FromJson(items[i])))
    case JBool(b) => PBool(b)
    case JFloat(bits) => PFloat(bits)
    case JInt(i) => PInt(i)
    case JUnsigned(u) => PInt(Signed(u))
    case JObj(ms) => PDict(seq(|ms|, i requires 0 <= i < |ms| => Entry(StrKey(ms[i].key), FromJson(ms[i].value))))
    case JStr(s) => PStr(s)
    case JOther => PNone
  }

  // ---------------------------------------------------------------- Python to JSON

  function Decimal(n: nat): string {
    if n < 10 then [Digit(n)] else Decimal(n / 10) + [Digit(n % 10)]
  }

  function Digit(d: nat): char
    requires d < 10
  {
    "0123456789"[d]
  }

  /** `cast_from_pyobject_impl`. */
  function ToJson(p: Py, h: Handler, path: string): Cast<Json>
    decreases p, 1
  {
    match p
    case PNone => Cast(Ok(JNull), [])
    case PDict(entries) =>
      var c := ToMembers(entries, [], h, path);
      Cast(if c.result.Ok? then Ok(JObj(c.result.value)) else Err(c.result.error), c.calls)
    case PList(items) => Listed(ToItems(items, 0, h, path))
    case PTuple(items) => Listed(ToItems(items, 0, h, path))
    case PBool(b) => Cast(Ok(JBool(b)), [])
    case PInt(i) => Cast(if -TWO_63 <= i < TWO_63 then Ok(JInt(i)) else Err(IntOutOfRange), [])
    case PFloat(bits) => Cast(Ok(JFloat(bits)), [])
    case PStr(s) => Cast(Ok(JStr(s)), [])
    case PObject(id) =>
      var shown := if path == "" then "/" else path;
      if h.NoHandler? then Cast(Err(NotSerializable(shown)), [])
      else Cast(h.f(id, shown), [Call(id, shown)])
  }

  function Listed(c: Cast<seq<Json>>): Cast<Json> {
    Cast(if c.result.Ok? then Ok(JArr(c.result.value)) else Err(c.result.error), c.calls)
  }

  /** The elements of a list, the first of them at index `n`. */
  function ToItems(items: seq<Py>, n: nat, h: Handler, path: string): Cast<seq<Json>>
    decreases items, 0
  {
    if items == [] then Cast(Ok([]), [])
    else
      var first := ToJson(items[0], h, path + "/" + Decimal(n));
      if first.result.Err? then Cast(Err(first.result.error), first.calls)
      else
        var rest := ToItems(items[1..], n + 1, h, path);
        Cast(if rest.result.Ok? then Ok([first.result.value] + rest.result.value) else rest.result,
             first.calls + rest.calls)
  }

  function ToMember(e: Entry, h: Handler, path: string): Cast<Json>
    requires e.key.StrKey?
    decreases e, 2
  {
    ToJson(e.value, h, path + "/" + e.key.s)
  }

  /** The entries of a dict, inserted one by one into `ms`. */
  function ToMembers(entries: seq<Entry>, ms: seq<Member>, h: Handler, path: string): Cast<seq<Member>>
    decreases entries, 0
  {
    if entries == [] then Cast(Ok(ms), [])
    else if entries[0].key.OtherKey? then Cast(Err(BadKey), [])
    else
      var key := entries[0].key.s;
      var first := ToMember(entries[0], h, path);
      if first.result.Err? then Cast(Err(first.result.error), first.calls)
      else
        var rest := ToMembers(entries[1..], Insert(ms, key, first.result.value), h, path);
        Cast(rest.result, first.calls + rest.calls)
  }

  // ---------------------------------------------------------------- JSON to Python and back

  /** Integers fit their width and object keys are sorted, as in any JSON value of the library. */
  ghost predicate WellFormed(j: Json) {
    match j
    case JInt(i) => -TWO_63 <= i < TWO_63
    case JUnsigned(u) => u < TWO_64
    case JArr(items) => forall i :: 0 <= i < |items| ==> WellFormed(items[i])
    case JObj(ms) => Sorted(ms) && forall i :: 0 <= i < |ms| ==> WellFormed(ms[i].value)
    case _ => true
  }

  /** The value up to the library's equality, which compares signed and unsigned numbers by value; a
      NaN is taken as equal to itself. */
  function Settle(j: Json): Json {
    match j
    case JUnsigned(u) => JInt(u)
    case JArr(items) => JArr(seq(|items|, i requires 0 <= i < |items| => Settle(items[i])))
    case JObj(ms) => JObj(seq(|ms|, i requires 0 <= i < |ms| => Member(ms[i].key, Settle(ms[i].value))))
    case _ => j
  }

  /** No unsigned number beyond the signed range, and no binary or discarded value, anywhere. */
  ghost predicate Faithful(j: Json) {
    match j
    case JUnsigned(u) => u < TWO_63
    case JArr(items) => forall i :: 0 <= i < |items| ==> Faithful(items[i])
    case JObj(ms) => forall i :: 0 <= i < |ms| ==> Faithful(ms[i].value)
    case JOther => false
    case _ => true
  }

  /** What comes back in all cases. */
  function Image(j: Json): Json {
    match j
    case JUnsigned(u) => JInt(Signed(u))
    case JOther => JNull
    case JArr(items) => JArr(seq(|items|, i requires 0 <= i < |items| => Image(items[i])))
    case JObj(ms) => JObj(seq(|ms|, i requires 0 <= i < |ms| => Member(ms[i].key, Image(ms[i].value))))
    case _ => j
  }

  lemma {:induction false} ImageComesBack(j: Json, h: Handler, path: string)
    requires WellFormed(j)
    ensures ToJson(FromJson(j), h, path) == Cast(Ok(Image(j)), [])
    decreases j, 1
  {
    match j
    case JArr(items) =>
      ItemsComeBack(j, 0, h, path);
      assert FromJson(j).items[0..] == FromJson(j).items && Image(j).items[0..] == Image(j).items;
    case JObj(ms) =>
      MembersComeBack(j, 0, h, path);
      assert FromJson(j).entries[0..] == FromJson(j).entries && Image(j).members[..0] == [];
    case _ =>
  }

  lemma {:induction false} ItemsComeBack(j: Json, k: nat, h: Handler, path: string)
    requires WellFormed(j) && j.JArr? && k <= |j.items|
    ensures ToItems(FromJson(j).items[k..], k, h, path) == Cast(Ok(Image(j).items[k..]), [])
    decreases j, 0, |j.items| - k
  {
    var ps, js := FromJson(j).items, Image(j).items;
    if k < |j.items| {
      ImageComesBack(j.items[k], h, path + "/" + Decimal(k));
      ItemsComeBack(j, k + 1, h, path);
      assert ps[k..][0] == ps[k] == FromJson(j.items[k]) && ps[k..][1..] == ps[k + 1..];
      assert js[k..] == [js[k]] + js[k + 1..];
    } else {
      assert ps[k..] == [] && js[k..] == [];
    }
  }

  lemma MemberAt(j: Json)
    requires j.JObj?
    ensures FromJson(j).PDict? && Image(j).JObj?
    ensures var es, ms := FromJson(j).entries, Image(j).members;
      && |es| == |ms| == |j.members|
      && forall k :: 0 <= k < |ms| ==>
           && es[k] == Entry(StrKey(j.members[k].key), FromJson(j.members[k].value))
           && ms[k] == Member(j.members[k].key, Image(j.members[k].value))
  {
  }

  lemma {:induction false} MembersComeBack(j: Json, k: nat, h: Handler, path: string)
    requires WellFormed(j) && j.JObj? && k <= |j.members|
    ensures FromJson(j).PDict? && |FromJson(j).entries| == |j.members|
    ensures Image(j).JObj? && |Image(j).members| == |j.members|
    ensures ToMembers(FromJson(j).entries[k..], Image(j).members[..k], h, path) == Cast(Ok(Image(j).members), [])
    decreases j, 0, |j.members| - k
  {
    hide FromJson, Image, ToJson, Insert;
    MemberAt(j);
    var es, ms := FromJson(j).entries, Image(j).members;
    if k < |ms| {
      ValueComesBack(j.members[k], h, path + "/" + ms[k].key);
      MembersComeBack(j, k + 1, h, path);
      InsertLast(ms[..k], ms[k].key, ms[k].value);
      assert es[k..][1..] == es[k + 1..] && es[k..][0] == es[k];
      assert ms[..k + 1] == ms[..k] + [ms[k]];
    } else {
      assert ms[..k] == ms;
    }
  }

  lemma {:induction false} ValueComesBack(m: Member, h: Handler, path: string)
    requires WellFormed(m.value)
    ensures ToJson(FromJson(m.value), h, path) == Cast(Ok(Image(m.value)), [])
    decreases m, 2
  {
    ImageComesBack(m.value, h, path);
  }

  lemma {:induction false} ImageExact(j: Json)
    requires WellFormed(j)
    ensures Image(j) == Settle(j) <==> Faithful(j)
  {
    match j
    case JArr(items) =>
      var a, b := Image(j).items, Settle(j).items;
      forall i | 0 <= i < |items| ensures a[i] == b[i] <==> Faithful(items[i]) {
        ImageExact(items[i]);
      }
      assert a == b <==> forall i :: 0 <= i < |items| ==> a[i] == b[i];
    case JObj(ms) =>
      var a, b := Image(j).members, Settle(j).members;
      forall i | 0 <= i < |ms| ensures a[i] == b[i] <==> Faithful(ms[i].value) {
        ImageExact(ms[i].value);
      }
      assert a == b <==> forall i :: 0 <= i < |ms| ==> a[i] == b[i];
    case _ =>
  }

  /** JSON to Python and back gives the same value, up to the library's equality, if and only if the
      value holds no unsigned number beyond the signed range and nothing binary or discarded; the
      handler is never called. */
  lemma JsonRoundTripIsExact(j: Json, h: Handler, path: string)
    requires WellFormed(j)
    ensures ToJson(FromJson(j), h, path) == Cast(Ok(Settle(j)), []) <==> Faithful(j)
  {
    ImageComesBack(j, h, path);
    ImageExact(j);
  }

  // ---------------------------------------------------------------- what can be converted

  /** Keys are strings, integers fit 64 bits, and no object of an unknown type occurs. */
  ghost predicate Serializable(p: Py) {
    match p
    case PInt(i) => -TWO_63 <= i < TWO_63
    case PList(items) => forall i :: 0 <= i < |items| ==> Serializable(items[i])
    case PTuple(items) => forall i :: 0 <= i < |items| ==> Serializable(items[i])
    case PDict(entries) => forall i :: 0 <= i < |entries| ==> entries[i].key.StrKey? && Serializable(entries[i].value)
    case PObject(_) => false
    case _ => true
  }

  lemma {:induction false} SerializableIsExact(p: Py, path: string)
    ensures ToJson(p, NoHandler, path).result.Ok? <==> Serializable(p)
    decreases p, 1
  {
    match p
    case PList(items) => ItemsExact(items, 0, path);
    case PTuple(items) => ItemsExact(items, 0, path);
    case PDict(entries) => EntriesExact(entries, [], path);
    case _ =>
  }

  lemma {:induction false} ItemsExact(items: seq<Py>, n: nat, path: string)
    ensures ToItems(items, n, NoHandler, path).result.Ok? <==> forall i :: 0 <= i < |items| ==> Serializable(items[i])
    decreases items, 0
  {
    if items != [] {
      SerializableIsExact(items[0], path + "/" + Decimal(n));
      ItemsExact(items[1..], n + 1, path);
      assert forall i :: 0 <= i < |items| ==> items[i] == if i == 0 then items[0] else items[1..][i - 1];
    }
  }

  lemma {:induction false} EntriesExact(entries: seq<Entry>, ms: seq<Member>, path: string)
    ensures ToMembers(entries, ms, NoHandler, path).result.Ok?
            <==> forall i :: 0 <= i < |entries| ==> entries[i].key.StrKey? && Serializable(entries[i].value)
    decreases entries, 0
  {
    if entries != [] && entries[0].key.StrKey? {
      EntryExact(entries[0], path);
      var first := ToMember(entries[0], NoHandler, path).result;
      if first.Ok? {
        EntriesExact(entries[1..], Insert(ms, entries[0].key.s, first.value), path);
        assert forall i :: 0 <= i < |entries| ==> entries[i] == if i == 0 then entries[0] else entries[1..][i - 1];
      }
    }
  }

  lemma {:induction false} EntryExact(e: Entry, path: string)
    requires e.key.StrKey?
    ensures ToMember(e, NoHandler, path).result.Ok? <==> Serializable(e.value)
    decreases e, 2
  {
    SerializableIsExact(e.value, path + "/" + e.key.s);
  }

  // ---------------------------------------------------------------- Python to JSON and back

  ghost predicate KeysDistinct(entries: seq<Entry>) {
    forall i, j :: 0 <= i < j < |entries| ==> entries[i].key != entries[j].key
  }

  /** No dict in `p` has a key twice. */
  ghost predicate Legal(p: Py) {
    match p
    case PList(items) => forall i :: 0 <= i < |items| ==> Legal(items[i])
    case PTuple(items) => forall i :: 0 <= i < |items| ==> Legal(items[i])
    case PDict(entries) => KeysDistinct(entries) && forall i :: 0 <= i < |entries| ==> Legal(entries[i].value)
    case _ => true
  }

  /** `q` equals `p` in Python's sense, which ignores the order of a dict, except that it has lists
      where `p` has tuples. */
  ghost predicate Alike(q: Py, p: Py)
    decreases p, 1
  {
    match p
    case PList(items) =>
      q.PList? && |q.items| == |items| && forall i :: 0 <= i < |items| ==> Alike(q.items[i], items[i])
    case PTuple(items) =>
      q.PList? && |q.items| == |items| && forall i :: 0 <= i < |items| ==> Alike(q.items[i], items[i])
    case PDict(entries) =>
      && q.PDict? && |q.entries| == |entries| && KeysDistinct(q.entries)
      && forall i :: 0 <= i < |entries| ==> HasLike(q.entries, entries[i])
    case _ => q == p
  }

  ghost predicate HasLike(es: seq<Entry>, e: Entry)
    decreases e, 2
  {
    exists k :: 0 <= k < |es| && es[k].key == e.key && Alike(es[k].value, e.value)
  }

  ghost predicate HasKey(ms: seq<Member>, key: string) {
    exists i :: 0 <= i < |ms| && ms[i].key == key
  }

  /** Inserting writes the key, whether it is there or not, and keeps the order and every other member. */
  lemma {:induction false} InsertWrites(ms: seq<Member>, key: string, value: Json)
    requires Sorted(ms)
    ensures Sorted(Insert(ms, key, value))
    ensures forall m :: m in Insert(ms, key, value) <==> m == Member(key, value) || (m in ms && m.key != key)
  {
    if ms != [] {
      LessTotal(key, ms[0].key);
      var ins := Insert(ms, key, value);
      assert forall m :: m in ms <==> m == ms[0] || m in ms[1..];
      forall j | 0 < j < |ms| ensures ms[j].key != ms[0].key {
        LessTotal(ms[0].key, ms[j].key);
      }
      if key == ms[0].key {
        assert ins == [Member(key, value)] + ms[1..];
        forall m | m in ms[1..] ensures m.key != key {
          var j :| 0 <= j < |ms[1..]| && ms[1..][j] == m;
          assert m == ms[j + 1];
        }
      } else if Less(key, ms[0].key) {
        forall j | 0 <= j < |ms| ensures Less(key, ms[j].key) {
          if j > 0 {
            LessTransitive(key, ms[0].key, ms[j].key);
          }
        }
        forall m | m in ms ensures m.key != key {
          LessTotal(key, m.key);
        }
      } else {
        var rest := Insert(ms[1..], key, value);
        InsertWrites(ms[1..], key, value);
        forall j | 0 <= j < |rest| ensures Less(ms[0].key, rest[j].key) {
          assert rest[j] in rest;
        }
        assert ins == [ms[0]] + rest;
      }
    }
  }

  lemma {:induction false} InsertGrows(ms: seq<Member>, key: string, value: Json)
    requires !HasKey(ms, key)
    ensures |Insert(ms, key, value)| == |ms| + 1
  {
    if ms != [] {
      InsertGrows(ms[1..], key, value);
    }
  }

  /** Inserting a new key keeps the order and every member. */
  lemma InsertNew(ms: seq<Member>, key: string, value: Json)
    requires Sorted(ms) && !HasKey(ms, key)
    ensures Sorted(Insert(ms, key, value)) && |Insert(ms, key, value)| == |ms| + 1
    ensures forall m :: m in Insert(ms, key, value) <==> m in ms || m == Member(key, value)
  {
    hide Insert, Sorted;
    InsertWrites(ms, key, value);
    InsertGrows(ms, key, value);
  }

  lemma {:induction false} InsertHas(ms: seq<Member>, key: string, value: Json, x: string)
    ensures HasKey(Insert(ms, key, value), x) ==> x == key || HasKey(ms, x)
  {
    var ins := Insert(ms, key, value);
    if k :| 0 <= k < |ins| && ins[k].key == x {
      if ms == [] || key == ms[0].key || Less(key, ms[0].key) {
        assert k == 0 || ins[k] in ms;
      } else {
        InsertHas(ms[1..], key, value, x);
        assert k > 0 ==> ins[k] == Insert(ms[1..], key, value)[k - 1];
        if HasKey(ms[1..], x) {
          var i :| 0 <= i < |ms[1..]| && ms[1..][i].key == x;
          assert ms[i + 1].key == x;
        }
      }
    }
  }

  /** The path of the whole object is shown as a slash. */
  function Rooted(path: string): string {
    if path == "" then "/" else path
  }

  /** `j` stands for `p`, which is found at `path`: part by part, with what the handler returned in the
      place of every object of an unknown type. */
  ghost predicate Renders(j: Json, p: Py, h: Handler, path: string)
    decreases p, 1
  {
    match p
    case PList(items) =>
      j.JArr? && |j.items| == |items|
      && forall i :: 0 <= i < |items| ==> Renders(j.items[i], items[i], h, path + "/" + Decimal(i))
    case PTuple(items) =>
      j.JArr? && |j.items| == |items|
      && forall i :: 0 <= i < |items| ==> Renders(j.items[i], items[i], h, path + "/" + Decimal(i))
    case PDict(entries) =>
      j.JObj? && Sorted(j.members) && |j.members| == |entries|
      && forall i :: 0 <= i < |entries| ==> entries[i].key.StrKey? && HasMember(j.members, entries[i], h, path)
    case PObject(id) => h.Handler? && h.f(id, Rooted(path)) == Ok(j)
    case _ => FromJson(j) == p && j == Settle(j) && j != JOther
  }

  /** Some member stands for the entry. */
  ghost predicate HasMember(ms: seq<Member>, e: Entry, h: Handler, path: string)
    requires e.key.StrKey?
    decreases e, 2
  {
    exists k :: 0 <= k < |ms| && ms[k].key == e.key.s && Renders(ms[k].value, e.value, h, path + "/" + e.key.s)
  }

  /** Whatever a conversion returns stands for what it was given. */
  lemma {:induction false} ResultRenders(p: Py, h: Handler, path: string)
    requires Legal(p) && ToJson(p, h, path).result.Ok?
    ensures Renders(ToJson(p, h, path).result.value, p, h, path)
    decreases p, 1
  {
    match p
    case PList(items) => ItemsRender(items, 0, h, path);
    case PTuple(items) => ItemsRender(items, 0, h, path);
    case PDict(entries) => EntriesRender(entries, [], h, path);
    case _ =>
  }

  lemma {:induction false} ItemsRender(items: seq<Py>, n: nat, h: Handler, path: string)
    requires (forall i :: 0 <= i < |items| ==> Legal(items[i])) && ToItems(items, n, h, path).result.Ok?
    ensures var js := ToItems(items, n, h, path).result.value;
      |js| == |items| && forall i :: 0 <= i < |items| ==> Renders(js[i], items[i], h, path + "/" + Decimal(n + i))
    decreases items, 0
  {
    hide Renders, Legal, Decimal, ToJson;
    if items != [] {
      ResultRenders(items[0], h, path + "/" + Decimal(n));
      ItemsRender(items[1..], n + 1, h, path);
      var js := ToItems(items, n, h, path).result.value;
      forall i | 0 < i < |items| ensures Renders(js[i], items[i], h, path + "/" + Decimal(n + i)) {
        assert items[i] == items[1..][i - 1] && js[i] == js[1..][i - 1] && n + 1 + (i - 1) == n + i;
      }
    }
  }

  /** The members of `ms` are kept and every entry gets a member that stands for it. */
  lemma {:induction false} EntriesRender(entries: seq<Entry>, ms: seq<Member>, h: Handler, path: string)
    requires KeysDistinct(entries) && forall i :: 0 <= i < |entries| ==> Legal(entries[i].value)
    requires Sorted(ms)
    requires forall i :: 0 <= i < |entries| && entries[i].key.StrKey? ==> !HasKey(ms, entries[i].key.s)
    requires ToMembers(entries, ms, h, path).result.Ok?
    ensures var out := ToMembers(entries, ms, h, path).result.value;
      && Sorted(out) && |out| == |ms| + |entries|
      && (forall m :: m in ms ==> m in out)
      && (forall i :: 0 <= i < |entries| ==> entries[i].key.StrKey? && HasMember(out, entries[i], h, path))
    decreases entries, 0
  {
    hide Renders, Legal, ToMember, Insert, Sorted;
    if entries != [] {
      var key := entries[0].key.s;
      var value := ToMember(entries[0], h, path).result.value;
      EntryRenders(entries[0], h, path);
      InsertNew(ms, key, value);
      var ms' := Insert(ms, key, value);
      forall i | 0 <= i < |entries[1..]| && entries[1..][i].key.StrKey?
        ensures !HasKey(ms', entries[1..][i].key.s)
      {
        assert entries[1..][i] == entries[i + 1];
        InsertHas(ms, key, value, entries[i + 1].key.s);
      }
      EntriesRender(entries[1..], ms', h, path);
      var out := ToMembers(entries, ms, h, path).result.value;
      assert Member(key, value) in ms' && Member(key, value) in out;
      assert forall i :: 0 < i < |entries| ==> entries[i] == entries[1..][i - 1];
    }
  }

  lemma {:induction false} EntryRenders(e: Entry, h: Handler, path: string)
    requires Legal(e.value) && e.key.StrKey? && ToMember(e, h, path).result.Ok?
    ensures Renders(ToMember(e, h, path).result.value, e.value, h, path + "/" + e.key.s)
    decreases e, 2
  {
    ResultRenders(e.value, h, path + "/" + e.key.s);
  }

  /** What stands for `p`, without any object of an unknown type, converts back to something like it. */
  lemma {:induction false} RenderedAlike(j: Json, p: Py, h: Handler, path: string)
    requires Serializable(p) && Renders(j, p, h, path)
    ensures Alike(FromJson(j), p)
    decreases p, 1
  {
    match p
    case PList(items) =>
      forall i | 0 <= i < |items| ensures Alike(FromJson(j).items[i], items[i]) {
        RenderedAlike(j.items[i], items[i], h, path + "/" + Decimal(i));
      }
    case PTuple(items) =>
      forall i | 0 <= i < |items| ensures Alike(FromJson(j).items[i], items[i]) {
        RenderedAlike(j.items[i], items[i], h, path + "/" + Decimal(i));
      }
    case PDict(entries) =>
      var q := FromJson(j);
      forall a, b | 0 <= a < b < |q.entries| ensures q.entries[a].key != q.entries[b].key {
        LessTotal(j.members[a].key, j.members[b].key);
      }
      forall i | 0 <= i < |entries| ensures HasLike(q.entries, entries[i]) {
        MemberAlike(j, entries[i], h, path);
      }
    case _ =>
  }

  lemma {:induction false} MemberAlike(j: Json, e: Entry, h: Handler, path: string)
    requires j.JObj? && e.key.StrKey? && Serializable(e.value) && HasMember(j.members, e, h, path)
    ensures HasLike(FromJson(j).entries, e)
    decreases e, 2
  {
    var ms := j.members;
    var k :| 0 <= k < |ms| && ms[k].key == e.key.s && Renders(ms[k].value, e.value, h, path + "/" + e.key.s);
    RenderedAlike(ms[k].value, e.value, h, path + "/" + e.key.s);
    assert FromJson(j).entries[k] == Entry(StrKey(ms[k].key), FromJson(ms[k].value));
  }

  /** Python to JSON and back, for everything that can be converted: an equal object, up to tuples
      becoming lists. */
  lemma PyRoundTrip(p: Py, path: string)
    requires Legal(p) && Serializable(p)
    ensures ToJson(p, NoHandler, path).result.Ok?
    ensures Alike(FromJson(ToJson(p, NoHandler, path).result.value), p)
  {
    SerializableIsExact(p, path);
    ResultRenders(p, NoHandler, path);
    RenderedAlike(ToJson(p, NoHandler, path).result.value, p, NoHandler, path);
  }

  // ---------------------------------------------------------------- the converters as written

  method CastFromJson(j: Json) returns (p: Py)
    ensures p == FromJson(j)
    decreases j
  {
    match j
    case JNull => p := PNone;
    case JArr(items) =>
      var list: seq<Py> := [];
      for i := 0 to |items|
        invariant list == FromJson(j).items[..i]
      {
        var element := CastFromJson(items[i]);
        list := list + [element];
      }
      p := PList(list);
    case JBool(b) => p := PBool(b);
    case JFloat(bits) => p := PFloat(bits);
    case JInt(i) => p := PInt(i);
    case JUnsigned(u) => p := PInt(Signed(u));
    case JObj(ms) =>
      var dict: seq<Entry> := [];
      for i := 0 to |ms|
        invariant dict == FromJson(j).entries[..i]
      {
        var value := CastFromJson(ms[i].value);
        dict := dict + [Entry(StrKey(ms[i].key), value)];
      }
      p := PDict(dict);
    case JStr(s) => p := PStr(s);
    case JOther => p := PNone;
  }

  method CastFromPyObject(p: Py, h: Handler, path: string) returns (c: Cast<Json>)
    ensures c == ToJson(p, h, path)
    decreases p, 1
  {
    match p
    case PNone => c := Cast(Ok(JNull), []);
    case PDict(entries) =>
      var d := CastEntries(entries, h, path);
      c := Cast(if d.result.Ok? then Ok(JObj(d.result.value)) else Err(d.result.error), d.calls);
    case PList(items) =>
      var l := CastItems(items, h, path);
      c := Listed(l);
    case PTuple(items) =>
      var l := CastItems(items, h, path);
      c := Listed(l);
    case PBool(b) => c := Cast(Ok(JBool(b)), []);
    case PInt(i) => c := Cast(if -TWO_63 <= i < TWO_63 then Ok(JInt(i)) else Err(IntOutOfRange), []);
    case PFloat(bits) => c := Cast(Ok(JFloat(bits)), []);
    case PStr(s) => c := Cast(Ok(JStr(s)), []);
    case PObject(id) =>
      var shown := if path == "" then "/" else path;
      if h.Handler? {
        c := Cast(h.f(id, shown), [Call(id, shown)]);
      } else {
        c := Cast(Err(NotSerializable(shown)), []);
      }
  }

  /** What is left of a conversion, put behind what has been done. */
  function Behind(done: seq<Json>, calls: seq<Call>, rest: Cast<seq<Json>>): Cast<seq<Json>> {
    Cast(if rest.result.Ok? then Ok(done + rest.result.value) else rest.result, calls + rest.calls)
  }

  lemma BehindNothing(rest: Cast<seq<Json>>)
    ensures Behind([], [], rest) == rest
  {
    assert [] + rest.calls == rest.calls;
    assert rest.result.Ok? ==> [] + rest.result.value == rest.result.value;
  }

  lemma BehindMore(done: seq<Json>, calls: seq<Call>, j: Json, more: seq<Call>, rest: Cast<seq<Json>>)
    ensures Behind(done, calls, Behind([j], more, rest)) == Behind(done + [j], calls + more, rest)
  {
    assert calls + (more + rest.calls) == calls + more + rest.calls;
    assert rest.result.Ok? ==> done + ([j] + rest.result.value) == done + [j] + rest.result.value;
  }

  lemma ToItemsAt(items: seq<Py>, i: nat, h: Handler, path: string)
    requires i < |items|
    ensures var first := ToJson(items[i], h, path + "/" + Decimal(i));
      ToItems(items[i..], i, h, path)
      == if first.result.Err? then Cast(Err(first.result.error), first.calls)
         else Behind([first.result.value], first.calls, ToItems(items[i + 1..], i + 1, h, path))
  {
    assert items[i..][0] == items[i] && items[i..][1..] == items[i + 1..];
  }

  /** The loop over a list or tuple; the next index is the number of elements converted so far. */
  method CastItems(items: seq<Py>, h: Handler, path: string) returns (c: Cast<seq<Json>>)
    ensures c == ToItems(items, 0, h, path)
    decreases items, 0
  {
    hide ToItems, ToJson;
    var arr: seq<Json> := [];
    var calls: seq<Call> := [];
    assert items[0..] == items;
    BehindNothing(ToItems(items, 0, h, path));
    for i := 0 to |items|
      invariant |arr| == i
      invariant ToItems(items, 0, h, path) == Behind(arr, calls, ToItems(items[i..], i, h, path))
    {
      ToItemsAt(items, i, h, path);
      var element := CastFromPyObject(items[i], h, path + "/" + Decimal(|arr|));
      if element.result.Err? {
        return Cast(Err(element.result.error), calls + element.calls);
      }
      BehindMore(arr, calls, element.result.value, element.calls, ToItems(items[i + 1..], i + 1, h, path));
      calls := calls + element.calls;
      arr := arr + [element.result.value];
    }
    assert items[|items|..] == [];
    ToItemsDone(|items|, h, path);
    c := Cast(Ok(arr), calls);
    assert c == Behind(arr, calls, Cast(Ok([]), [])) by {
      assert arr + [] == arr && calls + [] == calls;
    }
  }

  lemma ToItemsDone(n: nat, h: Handler, path: string)
    ensures ToItems([], n, h, path) == Cast(Ok([]), [])
  {
  }

  /** The loop over a dict. */
  method CastEntries(entries: seq<Entry>, h: Handler, path: string) returns (c: Cast<seq<Member>>)
    ensures c == ToMembers(entries, [], h, path)
    decreases entries, 0
  {
    var ms: seq<Member> := [];
    var calls: seq<Call> := [];
    assert entries[0..] == entries;
    for i := 0 to |entries|
      invariant var rest := ToMembers(entries[i..], ms, h, path);
        ToMembers(entries, [], h, path) == Cast(rest.result, calls + rest.calls)
    {
      assert entries[i..][0] == entries[i] && entries[i..][1..] == entries[i + 1..];
      if entries[i].key.OtherKey? {
        return Cast(Err(BadKey), calls);
      }
      var value := CastEntry(entries[i], h, path);
      calls := calls + value.calls;
      if value.result.Err? {
        return Cast(Err(value.result.error), calls);
      }
      ms := Insert(ms, entries[i].key.s, value.result.value);
    }
    assert entries[|entries|..] == [];
    c := Cast(Ok(ms), calls);
  }

  method CastEntry(e: Entry, h: Handler, path: string) returns (c: Cast<Json>)
    requires e.key.StrKey?
    ensures c == ToMember(e, h, path)
    decreases e, 2
  {
    c := CastFromPyObject(e.value, h, path + "/" + e.key.s);
  }
}
