/**
 Encoding a Python object graph as a JSON value (`crates/rqx/src/py_json.rs`).

 A graph is a finite map from object addresses to objects, so containers can be shared and can
 contain themselves.  `EncodeObject` is the recursive walk with its mutable path of open
 containers; `Encode` is the function it computes.  What that function means is then said without
 any walk: every position below the root either offends or does not, and the outcome is the
 offence of the first offending position in reading order, or success when there is none.
 */
module JsonEncoding {
  import opened Prelude

  type Addr = nat

  const MAX_DEPTH: nat := 1000
  const I64_MIN: int := -0x8000_0000_0000_0000
  const I64_MAX: int := 0x7FFF_FFFF_FFFF_FFFF
  const U64_MAX: int := 0xFFFF_FFFF_FFFF_FFFF

  /** A float is known by its value and by the text `str` gives for it, which also tells -0.0 from 0.0. */
  datatype Double = Finite(value: real, text: string) | NaN | Infinite(positive: bool)

  /** A `str` holding a lone surrogate is one that Rust cannot read as text. */
  datatype Scalar =
    | NoneObject
    | Bool(b: bool)
    | Int(i: int)
    | Float(f: Double)
    | Str(s: string)
    | BrokenStr
    | Other(typeName: string)

  datatype PyObject =
    | Atom(x: Scalar)
    | Dict(entries: seq<(Addr, Addr)>)
    | List(items: seq<Addr>)
    | Tuple(items: seq<Addr>)

  datatype Error =
    | Circular
    | TooDeep
    | IntTooLarge
    | NotFinite(spelling: string)
    | NotText
    | NotSerializable(typeName: string)
    | BadKey(typeName: string)

  datatype Number = PosInt(u: nat) | NegInt(n: int) | Double(d: Double)

  datatype Json =
    | Null
    | Boolean(b: bool)
    | Number(n: Number)
    | String(s: string)
    | Array(items: seq<Json>)
    | Object(members: seq<(string, Json)>)

  function Children(o: PyObject): (kids: seq<Addr>)
    ensures |kids| == if o.Atom? then 0 else if o.Dict? then |o.entries| else |o.items|
  {
    match o
    case Atom(_) => []
    case Dict(entries) => seq(|entries|, i requires 0 <= i < |entries| => entries[i].1)
    case List(items) => items
    case Tuple(items) => items
  }

  /** No object refers to an address that holds none. */
  predicate Closed(h: map<Addr, PyObject>) {
    forall a <- h ::
      && (forall c <- Children(h[a]) :: c in h)
      && (h[a].Dict? ==> forall e <- h[a].entries :: e.0 in h && e.1 in h)
  }

  type Heap = h: map<Addr, PyObject> | Closed(h) witness map[]

  // ---------------------------------------------------------------- scalars and keys

  /** serde_json keeps a negative integer signed and every other one unsigned. */
  function FromI64(i: int): Number {
    if i < 0 then NegInt(i) else PosInt(i)
  }

  function EncodeInt(i: int): Result<Json, Error> {
    if I64_MIN <= i <= I64_MAX then Ok(Number(FromI64(i)))
    else if 0 <= i <= U64_MAX then Ok(Number(PosInt(i)))
    else Err(IntTooLarge)
  }

  function EncodeFloat(f: Double): Result<Json, Error> {
    if f.Finite? then Ok(Number(Double(f)))
    else Err(NotFinite(if f.NaN? then "nan" else if f.positive then "inf" else "-inf"))
  }

  function EncodeScalar(x: Scalar): (r: Result<Json, Error>)
    ensures r.Err? ==> !r.error.Circular? && !r.error.TooDeep?
  {
    match x
    case NoneObject => Ok(Null)
    case Bool(b) => Ok(Boolean(b))
    case Int(i) => EncodeInt(i)
    case Float(f) => EncodeFloat(f)
    case Str(s) => Ok(String(s))
    case BrokenStr => Err(NotText)
    case Other(name) => Err(NotSerializable(name))
  }

  /** What a dict key is written as.  Any integer is accepted here, whatever its size. */
  function EncodeKey(o: PyObject): (r: Result<string, Error>)
    ensures r.Err? ==> !r.error.Circular? && !r.error.TooDeep?
  {
    match o
    case Atom(Str(s)) => Ok(s)
    case Atom(BrokenStr) => Err(NotText)
    case Atom(NoneObject) => Ok("null")
    case Atom(Bool(b)) => Ok(if b then "true" else "false")
    case Atom(Float(f)) => if f.Finite? then Ok(f.text) else Err(EncodeFloat(f).error)
    case Atom(Int(i)) => Ok(Decimal(i))
    case Atom(Other(name)) => Err(BadKey(name))
    case Dict(_) => Err(BadKey("dict"))
    case List(_) => Err(BadKey("list"))
    case Tuple(_) => Err(BadKey("tuple"))
  }

  /** A JSON literal as RFC 8259 writes it; only those a dict key can be coerced to. */
  function Spelling(v: Json): string {
    match v
    case Null => "null"
    case Boolean(b) => if b then "true" else "false"
    case String(s) => s
    case Number(PosInt(u)) => Decimal(u)
    case Number(NegInt(n)) => Decimal(n)
    case Number(Double(d)) => if d.Finite? then d.text else ""
    case _ => ""
  }

  /** A key that could also stand as a value is written the way that value is. */
  lemma KeysAreSpelledAsValues(x: Scalar)
    requires EncodeScalar(x).Ok?
    ensures EncodeKey(Atom(x)) == Ok(Spelling(EncodeScalar(x).value))
  {
  }

  // ---------------------------------------------------------------- which scalars and keys can be written

  /** What JSON can hold: integers of 64 bits, signed or not, finite floats, and text. */
  predicate LegalScalar(x: Scalar) {
    || x.NoneObject? || x.Bool? || x.Str?
    || (x.Int? && -0x8000_0000_0000_0000 <= x.i < 0x1_0000_0000_0000_0000)
    || (x.Float? && x.f.Finite?)
  }

  /** What `json.dumps` takes for a key: text, None, bool, any integer, a finite float. */
  predicate LegalKey(o: PyObject) {
    o.Atom? && (o.x.Str? || o.x.NoneObject? || o.x.Bool? || o.x.Int? || (o.x.Float? && o.x.f.Finite?))
  }

  /** What is raised for a scalar that cannot be written, by its kind. */
  predicate ScalarError(x: Scalar, e: Error) {
    || (x.Int? && e == IntTooLarge)
    || (x.Float? && FloatError(x.f, e))
    || (x.BrokenStr? && e == NotText)
    || (x.Other? && e == NotSerializable(x.typeName))
  }

  predicate FloatError(f: Double, e: Error) {
    || (f == NaN && e == NotFinite("nan"))
    || (f == Infinite(true) && e == NotFinite("inf"))
    || (f == Infinite(false) && e == NotFinite("-inf"))
  }

  /** What is raised for a key that cannot be written: containers and foreign objects by their type. */
  predicate KeyError(o: PyObject, e: Error) {
    || (o.Dict? && e == BadKey("dict"))
    || (o.List? && e == BadKey("list"))
    || (o.Tuple? && e == BadKey("tuple"))
    || (o.Atom? && o.x.Other? && e == BadKey(o.x.typeName))
    || (o.Atom? && o.x.BrokenStr? && e == NotText)
    || (o.Atom? && o.x.Float? && FloatError(o.x.f, e))
  }

  /** The text a legal key is written as. */
  predicate WritesKey(o: PyObject, k: string)
    requires LegalKey(o)
  {
    match o.x
    case Str(s) => k == s
    case NoneObject => k == "null"
    case Bool(b) => k == if b then "true" else "false"
    case Int(i) => Spells(k, i)
    case Float(f) => k == f.text
    case _ => false
  }

  /** Exactly the legal scalars are encoded; every other kind raises its own error. */
  lemma ScalarsExactly(x: Scalar)
    ensures EncodeScalar(x).Ok? <==> LegalScalar(x)
    ensures EncodeScalar(x).Err? ==> ScalarError(x, EncodeScalar(x).error)
  {
  }

  /** Exactly the legal keys are taken, each with its text; every other kind raises its own error. */
  lemma KeysExactly(o: PyObject)
    ensures EncodeKey(o).Ok? <==> LegalKey(o)
    ensures LegalKey(o) ==> WritesKey(o, EncodeKey(o).value)
    ensures EncodeKey(o).Err? ==> KeyError(o, EncodeKey(o).error)
  {
    hide Spells, Decimal;
    if o.Atom? && o.x.Int? {
      DecimalSpells(Decimal(o.x.i), o.x.i);
    }
  }

  // ---------------------------------------------------------------- insertion-ordered maps

  predicate HasKey<V>(m: seq<(string, V)>, k: string) {
    exists i :: 0 <= i < |m| && m[i].0 == k
  }

  /** Both serde_json's map and Python's dict: a known key keeps its place and takes the new value. */
  function Insert<V>(m: seq<(string, V)>, k: string, v: V): (r: seq<(string, V)>)
    ensures HasKey(m, k) ==> |r| == |m|
  {
    if m == [] then [(k, v)]
    else if m[0].0 == k then [(k, v)] + m[1..]
    else
      assert HasKey(m, k) ==> HasKey(m[1..], k) by {
        if i :| 0 <= i < |m| && m[i].0 == k { assert m[1..][i - 1].0 == k; }
      }
      [m[0]] + Insert(m[1..], k, v)
  }

  // ---------------------------------------------------------------- the encoder as a function

  function Encode(h: Heap, a: Addr, path: seq<Addr>): Result<Json, Error>
    requires a in h && |path| <= MAX_DEPTH
    decreases MAX_DEPTH - |path|, 0
  {
    if h[a].Atom? then EncodeScalar(h[a].x)
    else if a in path then Err(Circular)
    else if |path| >= MAX_DEPTH then Err(TooDeep)
    else if h[a].Dict? then
      var members := EncodeEntries(h, h[a].entries, path + [a]);
      if members.Err? then Err(members.error) else Ok(Object(members.value))
    else
      var items := EncodeItems(h, h[a].items, path + [a]);
      if items.Err? then Err(items.error) else Ok(Array(items.value))
  }

  function EncodeItems(h: Heap, items: seq<Addr>, path: seq<Addr>): Result<seq<Json>, Error>
    requires (forall c <- items :: c in h) && |path| <= MAX_DEPTH
    decreases MAX_DEPTH - |path|, |items| + 1
  {
    if items == [] then Ok([])
    else
      match EncodeItems(h, items[..|items| - 1], path)
      case Err(e) => Err(e)
      case Ok(done) => AddItem(done, Encode(h, items[|items| - 1], path))
  }

  function AddItem(done: seq<Json>, item: Result<Json, Error>): Result<seq<Json>, Error> {
    match item
    case Err(e) => Err(e)
    case Ok(v) => Ok(done + [v])
  }

  function EncodeEntries(h: Heap, entries: seq<(Addr, Addr)>, path: seq<Addr>): Result<seq<(string, Json)>, Error>
    requires (forall e <- entries :: e.0 in h && e.1 in h) && |path| <= MAX_DEPTH
    decreases MAX_DEPTH - |path|, |entries| + 1
  {
    if entries == [] then Ok([])
    else
      match EncodeEntries(h, entries[..|entries| - 1], path)
      case Err(e) => Err(e)
      case Ok(done) => EncodeEntry(h, done, entries[|entries| - 1], path)
  }

  /** The key is settled before its value is looked at. */
  function EncodeEntry(h: Heap, done: seq<(string, Json)>, entry: (Addr, Addr), path: seq<Addr>)
    : Result<seq<(string, Json)>, Error>
    requires entry.0 in h && entry.1 in h && |path| <= MAX_DEPTH
    decreases MAX_DEPTH - |path|, 1
  {
    match EncodeKey(h[entry.0])
    case Err(e) => Err(e)
    case Ok(k) =>
      match Encode(h, entry.1, path)
      case Err(e) => Err(e)
      case Ok(v) => Ok(Insert(done, k, v))
  }

  // ---------------------------------------------------------------- the encoder as it runs

  class EncodePath {
    var open: seq<Addr>

    constructor ()
      ensures open == []
    {
      open := [];
    }

    method Enter(a: Addr) returns (r: Option<Error>)
      requires |open| <= MAX_DEPTH
      modifies this
      ensures r == if a in old(open) then Some(Circular)
                   else if |old(open)| == 1000 then Some(TooDeep) else None
      ensures open == if r == None then old(open) + [a] else old(open)
      ensures |open| <= MAX_DEPTH
    {
      if a in open {
        return Some(Circular);
      }
      if |open| >= MAX_DEPTH {
        return Some(TooDeep);
      }
      open := open + [a];
      r := None;
    }

    method Leave()
      requires open != []
      modifies this
      ensures open == old(open)[..|old(open)| - 1]
    {
      open := open[..|open| - 1];
    }
  }

  /** The walk computes `Encode`, and on success hands the path back as it found it. */
  method EncodeObject(h: Heap, a: Addr, path: EncodePath) returns (r: Result<Json, Error>)
    requires a in h && |path.open| <= MAX_DEPTH
    modifies path
    ensures r == Encode(h, a, old(path.open))
    ensures r.Ok? ==> path.open == old(path.open)
    ensures old(path.open) <= path.open && |path.open| <= MAX_DEPTH
    decreases MAX_DEPTH - |path.open|, 0
  {
    match h[a] {
      case Atom(x) =>
        r := EncodeScalar(x);
      case Dict(entries) =>
        var refused := path.Enter(a);
        if refused.Some? {
          return Err(refused.value);
        }
        var members := EncodeDict(h, entries, path);
        if members.Err? {
          return Err(members.error);
        }
        path.Leave();
        assert path.open == old(path.open);
        r := Ok(Object(members.value));
      case _ =>
        var refused := path.Enter(a);
        if refused.Some? {
          return Err(refused.value);
        }
        var items := EncodeSequence(h, Children(h[a]), path);
        if items.Err? {
          return Err(items.error);
        }
        path.Leave();
        assert path.open == old(path.open);
        r := Ok(Array(items.value));
    }
  }

  method EncodeSequence(h: Heap, items: seq<Addr>, path: EncodePath) returns (r: Result<seq<Json>, Error>)
    requires (forall c <- items :: c in h) && |path.open| <= MAX_DEPTH
    modifies path
    ensures r == EncodeItems(h, items, old(path.open))
    ensures r.Ok? ==> path.open == old(path.open)
    ensures old(path.open) <= path.open && |path.open| <= MAX_DEPTH
    decreases MAX_DEPTH - |path.open|, 1
  {
    ghost var open := path.open;
    var done := [];
    for i := 0 to |items|
      invariant path.open == open
      invariant EncodeItems(h, items[..i], open) == Ok(done)
    {
      ItemsStep(h, items, i, open);
      var v := EncodeObject(h, items[i], path);
      if v.Err? {
        ItemsStop(h, items, i + 1, open);
        return Err(v.error);
      }
      done := done + [v.value];
    }
    assert items[..|items|] == items;
    r := Ok(done);
  }

  method EncodeDict(h: Heap, entries: seq<(Addr, Addr)>, path: EncodePath)
    returns (r: Result<seq<(string, Json)>, Error>)
    requires (forall e <- entries :: e.0 in h && e.1 in h) && |path.open| <= MAX_DEPTH
    modifies path
    ensures r == EncodeEntries(h, entries, old(path.open))
    ensures r.Ok? ==> path.open == old(path.open)
    ensures old(path.open) <= path.open && |path.open| <= MAX_DEPTH
    decreases MAX_DEPTH - |path.open|, 1
  {
    ghost var open := path.open;
    var members := [];
    for i := 0 to |entries|
      invariant path.open == open
      invariant EncodeEntries(h, entries[..i], open) == Ok(members)
    {
      EntriesStep(h, entries, i, open);
      var k := EncodeKey(h[entries[i].0]);
      if k.Err? {
        EntriesStop(h, entries, i + 1, open);
        return Err(k.error);
      }
      var v := EncodeObject(h, entries[i].1, path);
      if v.Err? {
        EntriesStop(h, entries, i + 1, open);
        return Err(v.error);
      }
      members := Insert(members, k.value, v.value);
    }
    assert entries[..|entries|] == entries;
    r := Ok(members);
  }

  /** `extract`: a body is encoded from an empty path. */
  method Extract(h: Heap, a: Addr) returns (r: Result<Json, Error>)
    requires a in h
    ensures r == Encode(h, a, [])
  {
    var path := new EncodePath();
    r := EncodeObject(h, a, path);
  }

  lemma ItemsStep(h: Heap, items: seq<Addr>, i: nat, path: seq<Addr>)
    requires (forall c <- items :: c in h) && |path| <= MAX_DEPTH && i < |items|
    ensures EncodeItems(h, items[..i], path).Err? ==>
      EncodeItems(h, items[..i + 1], path) == EncodeItems(h, items[..i], path)
    ensures EncodeItems(h, items[..i], path).Ok? ==>
      EncodeItems(h, items[..i + 1], path) == AddItem(EncodeItems(h, items[..i], path).value, Encode(h, items[i], path))
  {
    assert items[..i + 1][..i] == items[..i];
  }

  lemma EntriesStep(h: Heap, entries: seq<(Addr, Addr)>, i: nat, path: seq<Addr>)
    requires (forall e <- entries :: e.0 in h && e.1 in h) && |path| <= MAX_DEPTH && i < |entries|
    ensures EncodeEntries(h, entries[..i], path).Err? ==>
      EncodeEntries(h, entries[..i + 1], path) == EncodeEntries(h, entries[..i], path)
    ensures EncodeEntries(h, entries[..i], path).Ok? ==>
      EncodeEntries(h, entries[..i + 1], path) ==
      EncodeEntry(h, EncodeEntries(h, entries[..i], path).value, entries[i], path)
  {
    assert entries[..i + 1][..i] == entries[..i];
  }

  /** A failure among the first items is the failure of them all. */
  lemma {:induction false} ItemsStop(h: Heap, items: seq<Addr>, i: nat, path: seq<Addr>)
    requires (forall c <- items :: c in h) && |path| <= MAX_DEPTH && i <= |items|
    requires EncodeItems(h, items[..i], path).Err?
    ensures EncodeItems(h, items, path) == EncodeItems(h, items[..i], path)
    decreases |items| - i
  {
    if i == |items| {
      assert items[..i] == items;
    } else {
      ItemsStep(h, items, i, path);
      ItemsStop(h, items, i + 1, path);
    }
  }

  lemma {:induction false} EntriesStop(h: Heap, entries: seq<(Addr, Addr)>, i: nat, path: seq<Addr>)
    requires (forall e <- entries :: e.0 in h && e.1 in h) && |path| <= MAX_DEPTH && i <= |entries|
    requires EncodeEntries(h, entries[..i], path).Err?
    ensures EncodeEntries(h, entries, path) == EncodeEntries(h, entries[..i], path)
    decreases |entries| - i
  {
    if i == |entries| {
      assert entries[..i] == entries;
    } else {
      EntriesStep(h, entries, i, path);
      EntriesStop(h, entries, i + 1, path);
    }
  }

  // ---------------------------------------------------------------- positions and their offences

  /** A position below `a`: which child to take at each level. */
  predicate IsRoute(h: Heap, a: Addr, r: seq<nat>)
    requires a in h
    decreases |r|
  {
    r == [] || (r[0] < |Children(h[a])| && IsRoute(h, Child(h, a, r[0]), r[1..]))
  }

  function Child(h: Heap, a: Addr, i: nat): (c: Addr)
    requires a in h && i < |Children(h[a])|
    ensures c in h
  {
    Children(h[a])[i]
  }

  /** The objects met on the way, both ends included. */
  function Trail(h: Heap, a: Addr, r: seq<nat>): (w: seq<Addr>)
    requires a in h && IsRoute(h, a, r)
    ensures |w| == |r| + 1 && w[0] == a
    ensures forall x <- w :: x in h
    decreases |r|
  {
    if r == [] then [a] else [a] + Trail(h, Child(h, a, r[0]), r[1..])
  }

  function Target(h: Heap, a: Addr, r: seq<nat>): (x: Addr)
    requires a in h && IsRoute(h, a, r)
    ensures x in h
  {
    Trail(h, a, r)[|r|]
  }

  /** What is wrong with the last object of a trail, seen from the objects it is nested in. */
  function NodeOffence(h: Heap, above: seq<Addr>, a: Addr): Option<Error>
    requires a in h
  {
    if h[a].Atom? then
      if EncodeScalar(h[a].x).Err? then Some(EncodeScalar(h[a].x).error) else None
    else if a in above then Some(Circular)
    else if |above| >= MAX_DEPTH then Some(TooDeep)
    else None
  }

  /** What is wrong with the key of a container's `i`th entry. */
  function KeyOffence(h: Heap, a: Addr, i: nat): Option<Error>
    requires a in h && i < |Children(h[a])|
  {
    if !h[a].Dict? then None
    else
      match EncodeKey(h[h[a].entries[i].0])
      case Err(e) => Some(e)
      case Ok(_) => None
  }

  /** What is wrong at one position: its key first, then the object found there. */
  function Offence(h: Heap, above: seq<Addr>, a: Addr, r: seq<nat>): Option<Error>
    requires a in h && IsRoute(h, a, r)
  {
    var w := Trail(h, a, r);
    RouteEnds(h, a, r);
    if r != [] && KeyOffence(h, w[|r| - 1], r[|r| - 1]).Some? then KeyOffence(h, w[|r| - 1], r[|r| - 1])
    else NodeOffence(h, above + w[..|r|], w[|r|])
  }

  /** Reading order: a container before what it holds, earlier children first. */
  predicate Before(q: seq<nat>, r: seq<nat>) {
    r != [] && (q == [] || q[0] < r[0] || (q[0] == r[0] && Before(q[1..], r[1..])))
  }

  ghost predicate FirstOffence(h: Heap, above: seq<Addr>, a: Addr, r: seq<nat>, e: Error)
    requires a in h
  {
    && IsRoute(h, a, r)
    && Offence(h, above, a, r) == Some(e)
    && forall q :: IsRoute(h, a, q) && Before(q, r) ==> Offence(h, above, a, q) == None
  }

  lemma {:induction false} RouteEnds(h: Heap, a: Addr, r: seq<nat>)
    requires a in h && IsRoute(h, a, r)
    ensures r != [] ==> r[|r| - 1] < |Children(h[Trail(h, a, r)[|r| - 1]])|
    ensures r != [] ==> Child(h, Trail(h, a, r)[|r| - 1], r[|r| - 1]) == Trail(h, a, r)[|r|]
    decreases |r|
  {
    if |r| >= 2 {
      RouteEnds(h, Child(h, a, r[0]), r[1..]);
    }
  }

  /** One level further down, the object left behind joins those above. */
  lemma OffenceBelow(h: Heap, above: seq<Addr>, a: Addr, i: nat, r: seq<nat>)
    requires a in h && i < |Children(h[a])| && IsRoute(h, Child(h, a, i), r)
    requires r != [] || KeyOffence(h, a, i) == None
    ensures IsRoute(h, a, [i] + r)
    ensures Offence(h, above, a, [i] + r) == Offence(h, above + [a], Child(h, a, i), r)
  {
    var s := [i] + r;
    assert s[1..] == r;
    var w, v := Trail(h, Child(h, a, i), r), Trail(h, a, s);
    assert v == [a] + w;
    assert (above + [a]) + w[..|r|] == above + v[..|s|];
  }

  lemma OffenceAtKey(h: Heap, above: seq<Addr>, a: Addr, i: nat)
    requires a in h && i < |Children(h[a])| && KeyOffence(h, a, i).Some?
    ensures IsRoute(h, a, [i]) && Offence(h, above, a, [i]) == KeyOffence(h, a, i)
  {
    assert [i][1..] == [];
    assert Trail(h, a, [i]) == [a] + Trail(h, Child(h, a, i), []);
  }

  lemma {:induction false} BeforeIsTotal(q: seq<nat>, r: seq<nat>)
    ensures Before(q, r) || Before(r, q) || q == r
  {
    if q != [] && r != [] && q[0] == r[0] {
      BeforeIsTotal(q[1..], r[1..]);
      if q[1..] == r[1..] {
        assert q == [q[0]] + q[1..] && r == [r[0]] + r[1..];
      }
    }
  }

  // ---------------------------------------------------------------- the outcome of the walk

  /** What the encoder makes of the children of an entered container, key and value. */
  predicate ChildEncodes(h: Heap, a: Addr, i: nat, path: seq<Addr>)
    requires a in h && i < |Children(h[a])| && |path| <= MAX_DEPTH
  {
    KeyOffence(h, a, i) == None && Encode(h, Child(h, a, i), path).Ok?
  }

  function ChildError(h: Heap, a: Addr, i: nat, path: seq<Addr>): Error
    requires a in h && i < |Children(h[a])| && |path| <= MAX_DEPTH && !ChildEncodes(h, a, i, path)
  {
    if KeyOffence(h, a, i).Some? then KeyOffence(h, a, i).value else Encode(h, Child(h, a, i), path).error
  }

  lemma {:induction false} ItemsScan(h: Heap, items: seq<Addr>, path: seq<Addr>) returns (i: nat)
    requires (forall c <- items :: c in h) && |path| <= MAX_DEPTH
    ensures i <= |items| && forall j | 0 <= j < i :: Encode(h, items[j], path).Ok?
    ensures i == |items| <==> EncodeItems(h, items, path).Ok?
    ensures i < |items| ==>
      Encode(h, items[i], path).Err? && Encode(h, items[i], path).error == EncodeItems(h, items, path).error
    decreases |items|
  {
    if items == [] {
      i := 0;
    } else {
      i := ItemsScan(h, items[..|items| - 1], path);
      if i == |items| - 1 && Encode(h, items[i], path).Ok? {
        i := |items|;
      }
    }
  }

  lemma {:induction false} EntriesScan(h: Heap, entries: seq<(Addr, Addr)>, path: seq<Addr>) returns (i: nat)
    requires (forall e <- entries :: e.0 in h && e.1 in h) && |path| <= MAX_DEPTH
    ensures i <= |entries|
    ensures forall j | 0 <= j < i :: EncodeKey(h[entries[j].0]).Ok? && Encode(h, entries[j].1, path).Ok?
    ensures i == |entries| <==> EncodeEntries(h, entries, path).Ok?
    ensures i < |entries| ==>
      EncodeEntry(h, [], entries[i], path) == EncodeEntries(h, entries, path) && EncodeEntries(h, entries, path).Err?
    decreases |entries|
  {
    if entries == [] {
      i := 0;
    } else {
      i := EntriesScan(h, entries[..|entries| - 1], path);
      if i == |entries| - 1 && EncodeEntry(h, [], entries[i], path).Ok? {
        i := |entries|;
      }
    }
  }

  /** An entered container fails with its first failing child, and succeeds when none fails. */
  lemma Scan(h: Heap, a: Addr, path: seq<Addr>) returns (i: nat)
    requires a in h && !h[a].Atom? && a !in path && |path| < MAX_DEPTH
    ensures i <= |Children(h[a])| && forall j | 0 <= j < i :: ChildEncodes(h, a, j, path + [a])
    ensures i == |Children(h[a])| <==> Encode(h, a, path).Ok?
    ensures i < |Children(h[a])| ==>
      !ChildEncodes(h, a, i, path + [a]) && Encode(h, a, path) == Err(ChildError(h, a, i, path + [a]))
  {
    if h[a].Dict? {
      i := EntriesScan(h, h[a].entries, path + [a]);
    } else {
      i := ItemsScan(h, Children(h[a]), path + [a]);
    }
  }

  /** After a success nothing below offends. */
  lemma {:induction false} SuccessIsClean(h: Heap, a: Addr, path: seq<Addr>, r: seq<nat>)
    requires a in h && |path| <= MAX_DEPTH && Encode(h, a, path).Ok?
    requires IsRoute(h, a, r)
    ensures Offence(h, path, a, r) == None
    decreases |r|
  {
    if r == [] {
      assert path + Trail(h, a, r)[..0] == path;
    } else {
      var i := Scan(h, a, path);
      assert ChildEncodes(h, a, r[0], path + [a]);
      SuccessIsClean(h, Child(h, a, r[0]), path + [a], r[1..]);
      OffenceBelow(h, path, a, r[0], r[1..]);
      assert [r[0]] + r[1..] == r;
    }
  }

  /** A failure is the offence of the first offending position. */
  lemma {:induction false} FailureIsFirstOffence(h: Heap, a: Addr, path: seq<Addr>) returns (r: seq<nat>)
    requires a in h && |path| <= MAX_DEPTH && Encode(h, a, path).Err?
    ensures FirstOffence(h, path, a, r, Encode(h, a, path).error)
    decreases MAX_DEPTH - |path|
  {
    assert path + Trail(h, a, [])[..0] == path;
    if h[a].Atom? || a in path || |path| >= MAX_DEPTH {
      r := [];
    } else {
      var i := Scan(h, a, path);
      if KeyOffence(h, a, i).Some? {
        r := [i];
        OffenceAtKey(h, path, a, i);
      } else {
        var s := FailureIsFirstOffence(h, Child(h, a, i), path + [a]);
        r := [i] + s;
        OffenceBelow(h, path, a, i, s);
      }
      forall q | IsRoute(h, a, q) && Before(q, r)
        ensures Offence(h, path, a, q) == None
      {
        EarlierIsClean(h, a, path, i, r, q);
      }
    }
  }

  lemma EarlierIsClean(h: Heap, a: Addr, path: seq<Addr>, i: nat, r: seq<nat>, q: seq<nat>)
    requires a in h && !h[a].Atom? && a !in path && |path| < MAX_DEPTH
    requires i < |Children(h[a])| && forall j | 0 <= j < i :: ChildEncodes(h, a, j, path + [a])
    requires r != [] && r[0] == i && IsRoute(h, a, q) && Before(q, r)
    requires r[1..] != [] ==> KeyOffence(h, a, i) == None
    requires forall p :: IsRoute(h, Child(h, a, i), p) && Before(p, r[1..]) ==>
      Offence(h, path + [a], Child(h, a, i), p) == None
    ensures Offence(h, path, a, q) == None
  {
    if q == [] {
      assert path + Trail(h, a, [])[..0] == path;
    } else {
      assert [q[0]] + q[1..] == q;
      if q[0] < i {
        assert ChildEncodes(h, a, q[0], path + [a]);
        SuccessIsClean(h, Child(h, a, q[0]), path + [a], q[1..]);
      }
      OffenceBelow(h, path, a, q[0], q[1..]);
    }
  }

  /** Success exactly when no position offends. */
  lemma EncodesIffClean(h: Heap, a: Addr)
    requires a in h
    ensures Encode(h, a, []).Ok? <==> forall r :: IsRoute(h, a, r) ==> Offence(h, [], a, r) == None
  {
    if Encode(h, a, []).Ok? {
      forall r | IsRoute(h, a, r)
        ensures Offence(h, [], a, r) == None
      {
        SuccessIsClean(h, a, [], r);
      }
    } else {
      var r := FailureIsFirstOffence(h, a, []);
    }
  }

  /** An error is raised exactly when it is that of the first offending position. */
  lemma ErrorIsFirstOffence(h: Heap, a: Addr, e: Error)
    requires a in h
    ensures Encode(h, a, []) == Err(e) <==> exists r :: FirstOffence(h, [], a, r, e)
  {
    if Encode(h, a, []).Err? {
      var s := FailureIsFirstOffence(h, a, []);
      forall r | FirstOffence(h, [], a, r, e)
        ensures Encode(h, a, []) == Err(e)
      {
        BeforeIsTotal(r, s);
      }
    } else {
      EncodesIffClean(h, a);
    }
  }

  // ---------------------------------------------------------------- the same in the words of the graph

  /** Every scalar and every key below the root can be written. */
  ghost predicate AllWritable(h: Heap, a: Addr)
    requires a in h
  {
    forall r :: IsRoute(h, a, r) ==> Writable(h, Target(h, a, r))
  }

  predicate Writable(h: Heap, x: Addr)
    requires x in h
  {
    match h[x]
    case Atom(s) => LegalScalar(s)
    case Dict(entries) => forall e <- entries :: LegalKey(h[e.0])
    case _ => true
  }

  /** Some object below the root contains itself, directly or further down. */
  ghost predicate HasCycle(h: Heap, a: Addr)
    requires a in h
  {
    exists r, s :: Loops(h, a, r, s)
  }

  predicate Loops(h: Heap, a: Addr, r: seq<nat>, s: seq<nat>)
    requires a in h
  {
    && IsRoute(h, a, r)
    && IsRoute(h, Target(h, a, r), s)
    && s != []
    && Target(h, Target(h, a, r), s) == Target(h, a, r)
  }

  /** No container below the root is nested more than a thousand deep, itself included. */
  ghost predicate NestingFits(h: Heap, a: Addr)
    requires a in h
  {
    forall r :: IsRoute(h, a, r) && !h[Target(h, a, r)].Atom? ==> |r| + 1 <= 1000
  }

  lemma {:induction false} RouteAppend(h: Heap, a: Addr, r: seq<nat>, s: seq<nat>)
    requires a in h && IsRoute(h, a, r)
    ensures IsRoute(h, a, r + s) <==> IsRoute(h, Target(h, a, r), s)
    decreases |r|
  {
    if r == [] {
      assert [] + s == s;
    } else {
      assert (r + s)[1..] == r[1..] + s;
      RouteAppend(h, Child(h, a, r[0]), r[1..], s);
    }
  }

  lemma {:induction false} TrailAppend(h: Heap, a: Addr, r: seq<nat>, s: seq<nat>)
    requires a in h && IsRoute(h, a, r) && IsRoute(h, Target(h, a, r), s)
    ensures IsRoute(h, a, r + s)
    ensures Trail(h, a, r + s) == Trail(h, a, r)[..|r|] + Trail(h, Target(h, a, r), s)
    decreases |r|
  {
    RouteAppend(h, a, r, s);
    if r == [] {
      assert [] + s == s;
    } else {
      var c := Child(h, a, r[0]);
      assert (r + s)[1..] == r[1..] + s;
      var w := Trail(h, c, r[1..]);
      var v := Trail(h, a, r + s);
      assert v == [a] + Trail(h, c, r[1..] + s);
      assert Trail(h, a, r) == [a] + w;
      hide Trail, IsRoute;
      TrailAppend(h, c, r[1..], s);
      assert ([a] + w)[..|r|] == [a] + w[..|r| - 1];
    }
  }

  lemma TargetAppend(h: Heap, a: Addr, r: seq<nat>, s: seq<nat>)
    requires a in h && IsRoute(h, a, r) && IsRoute(h, Target(h, a, r), s)
    ensures IsRoute(h, a, r + s) && Target(h, a, r + s) == Target(h, Target(h, a, r), s)
  {
    TrailAppend(h, a, r, s);
    hide IsRoute, Trail;
  }

  /** An object met twice on a trail contains itself. */
  lemma TwiceIsLoop(h: Heap, a: Addr, r: seq<nat>, i: nat)
    requires a in h && IsRoute(h, a, r) && i < |r| && Trail(h, a, r)[i] == Target(h, a, r)
    ensures Loops(h, a, r[..i], r[i..])
  {
    hide Trail, IsRoute, Writable, Target, Children, Closed;
    assert r[..i] + r[i..] == r;
    Prefix(h, a, r, i);
    RouteAppend(h, a, r[..i], r[i..]);
    TargetAppend(h, a, r[..i], r[i..]);
  }

  lemma {:induction false} Prefix(h: Heap, a: Addr, r: seq<nat>, i: nat)
    requires a in h && IsRoute(h, a, r) && i <= |r|
    ensures IsRoute(h, a, r[..i]) && Target(h, a, r[..i]) == Trail(h, a, r)[i]
    decreases i
  {
    if i > 0 {
      assert r[..i][1..] == r[1..][..i - 1];
      Prefix(h, Child(h, a, r[0]), r[1..], i - 1);
    }
  }

  lemma CircularRepeats(h: Heap, a: Addr, r: seq<nat>) returns (i: nat)
    requires a in h && IsRoute(h, a, r) && Offence(h, [], a, r) == Some(Circular)
    ensures i < |r| && Trail(h, a, r)[i] == Target(h, a, r)
  {
    var w := Trail(h, a, r);
    assert [] + w[..|r|] == w[..|r|];
    i :| 0 <= i < |r| && w[i] == w[|r|];
  }

  lemma CircularMeansCycle(h: Heap, a: Addr, r: seq<nat>)
    requires a in h && IsRoute(h, a, r) && Offence(h, [], a, r) == Some(Circular)
    ensures HasCycle(h, a)
  {
    hide IsRoute, Trail, Offence, Target, Loops;
    var i := CircularRepeats(h, a, r);
    TwiceIsLoop(h, a, r, i);
    assert Loops(h, a, r[..i], r[i..]);
  }

  lemma CycleOffends(h: Heap, a: Addr, r: seq<nat>, s: seq<nat>)
    requires a in h && Loops(h, a, r, s)
    ensures IsRoute(h, a, r + s) && Offence(h, [], a, r + s).Some?
  {
    TrailAppend(h, a, r, s);
    var w := Trail(h, a, r + s);
    var x := Target(h, a, r);
    assert w[|r|] == x && w[|r + s|] == x;
    assert [] + w[..|r + s|] == w[..|r + s|];
    assert w[..|r + s|][|r|] == x;
  }

  lemma BadKeyOffends(h: Heap, a: Addr, r: seq<nat>, i: nat)
    requires a in h && IsRoute(h, a, r) && i < |Children(h[Target(h, a, r)])|
    requires KeyOffence(h, Target(h, a, r), i).Some?
    ensures IsRoute(h, a, r + [i]) && Offence(h, [], a, r + [i]).Some?
  {
    assert [i][1..] == [];
    TrailAppend(h, a, r, [i]);
    assert Trail(h, a, r + [i])[|r|] == Target(h, a, r);
  }

  lemma CleanMeansWritable(h: Heap, a: Addr, r: seq<nat>)
    requires a in h && IsRoute(h, a, r)
    requires forall q :: IsRoute(h, a, q) ==> Offence(h, [], a, q) == None
    ensures Writable(h, Target(h, a, r))
  {
    var x := Target(h, a, r);
    assert Offence(h, [], a, r) == None;
    if h[x].Atom? {
      ScalarsExactly(h[x].x);
    }
    if h[x].Dict? {
      forall i | 0 <= i < |h[x].entries|
        ensures LegalKey(h[h[x].entries[i].0])
      {
        KeysExactly(h[h[x].entries[i].0]);
        if KeyOffence(h, x, i).Some? {
          BadKeyOffends(h, a, r, i);
        }
      }
    }
  }

  lemma WritableMeansClean(h: Heap, a: Addr, r: seq<nat>)
    requires a in h && IsRoute(h, a, r)
    requires AllWritable(h, a) && !HasCycle(h, a) && NestingFits(h, a)
    ensures Offence(h, [], a, r) == None
  {
    if r != [] {
      var n := |r| - 1;
      Prefix(h, a, r, n);
      RouteEnds(h, a, r);
      var x := Trail(h, a, r)[n];
      assert Writable(h, Target(h, a, r[..n]));
      if h[x].Dict? {
        assert h[x].entries[r[n]] in h[x].entries;
        KeysExactly(h[h[x].entries[r[n]].0]);
      }
    }
    assert Writable(h, Target(h, a, r));
    if h[Target(h, a, r)].Atom? {
      ScalarsExactly(h[Target(h, a, r)].x);
    }
    if Offence(h, [], a, r) == Some(Circular) {
      CircularMeansCycle(h, a, r);
    }
  }

  lemma DeepOffends(h: Heap, a: Addr, r: seq<nat>)
    requires a in h && IsRoute(h, a, r) && !h[Target(h, a, r)].Atom? && Offence(h, [], a, r) == None
    ensures |r| + 1 <= MAX_DEPTH
  {
    assert [] + Trail(h, a, r)[..|r|] == Trail(h, a, r)[..|r|];
  }

  lemma CleanMeansFit(h: Heap, a: Addr)
    requires a in h && forall r :: IsRoute(h, a, r) ==> Offence(h, [], a, r) == None
    ensures AllWritable(h, a) && !HasCycle(h, a) && NestingFits(h, a)
  {
    hide Encode, Offence, Trail, Writable, Loops;
    forall r | IsRoute(h, a, r)
      ensures Writable(h, Target(h, a, r))
    {
      CleanMeansWritable(h, a, r);
    }
    forall r | IsRoute(h, a, r) && !h[Target(h, a, r)].Atom?
      ensures |r| + 1 <= MAX_DEPTH
    {
      DeepOffends(h, a, r);
    }
    if r, s :| Loops(h, a, r, s) {
      CycleOffends(h, a, r, s);
    }
  }

  /**
   The encoder accepts exactly the graphs in which everything reachable can be written, nothing
   contains itself, and no container is nested more than a thousand deep.  Sharing is no obstacle.
   */
  lemma EncodesExactly(h: Heap, a: Addr)
    requires a in h
    ensures Encode(h, a, []).Ok? <==> AllWritable(h, a) && !HasCycle(h, a) && NestingFits(h, a)
  {
    hide Encode, Offence, Trail, Writable, Loops;
    EncodesIffClean(h, a);
    if Encode(h, a, []).Ok? {
      CleanMeansFit(h, a);
    } else if AllWritable(h, a) && !HasCycle(h, a) && NestingFits(h, a) {
      forall r | IsRoute(h, a, r)
        ensures Offence(h, [], a, r) == None
      {
        WritableMeansClean(h, a, r);
      }
    }
  }

  /** Something at this object that cannot be written, for the reason this error gives. */
  predicate HasDefect(h: Heap, x: Addr, e: Error)
    requires x in h
  {
    match h[x]
    case Atom(s) => !LegalScalar(s) && ScalarError(s, e)
    case Dict(entries) => exists i :: 0 <= i < |entries| && !LegalKey(h[entries[i].0]) && KeyError(h[entries[i].0], e)
    case _ => false
  }

  lemma KeyIsDefect(h: Heap, x: Addr, i: nat, e: Error)
    requires x in h && i < |Children(h[x])| && KeyOffence(h, x, i) == Some(e)
    ensures HasDefect(h, x, e)
  {
    KeysExactly(h[h[x].entries[i].0]);
  }

  lemma NodeIsDefect(h: Heap, above: seq<Addr>, x: Addr, e: Error)
    requires x in h && NodeOffence(h, above, x) == Some(e) && !e.Circular? && !e.TooDeep?
    ensures HasDefect(h, x, e)
  {
    ScalarsExactly(h[x].x);
  }

  lemma OtherMeansDefect(h: Heap, a: Addr, r: seq<nat>, e: Error) returns (q: seq<nat>)
    requires a in h && IsRoute(h, a, r) && Offence(h, [], a, r) == Some(e) && !e.Circular? && !e.TooDeep?
    ensures IsRoute(h, a, q) && HasDefect(h, Target(h, a, q), e)
  {
    hide IsRoute, Trail, HasDefect, KeyOffence, NodeOffence;
    var n := |r| - 1;
    RouteEnds(h, a, r);
    if r != [] && KeyOffence(h, Trail(h, a, r)[n], r[n]).Some? {
      Prefix(h, a, r, n);
      q := r[..n];
      KeyIsDefect(h, Target(h, a, q), r[n], e);
    } else {
      q := r;
      NodeIsDefect(h, [] + Trail(h, a, r)[..|r|], Target(h, a, r), e);
    }
  }

  /** No error is a false alarm: each kind names a defect the graph really has. */
  lemma ErrorsAreReal(h: Heap, a: Addr, e: Error)
    requires a in h && Encode(h, a, []) == Err(e)
    ensures e == Circular ==> HasCycle(h, a)
    ensures e == TooDeep ==> !NestingFits(h, a)
    ensures e != Circular && e != TooDeep ==> exists r :: IsRoute(h, a, r) && HasDefect(h, Target(h, a, r), e)
  {
    var r := FailureIsFirstOffence(h, a, []);
    match e {
      case Circular => CircularMeansCycle(h, a, r);
      case TooDeep =>
        assert [] + Trail(h, a, r)[..|r|] == Trail(h, a, r)[..|r|];
        assert !h[Target(h, a, r)].Atom? && |r| >= MAX_DEPTH;
      case _ =>
        var q := OtherMeansDefect(h, a, r, e);
    }
  }
}
