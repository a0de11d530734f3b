/**
 The two round trips between Python objects and JSON values (`crates/rqx/src/py_json.rs`).

 `Represents` says that the object at an address unfolds into a tree; an object that contains
 itself unfolds into none.
 */
module JsonRoundTrip {
  import opened Prelude
  import opened JsonEncoding
  import opened JsonDecoding

  predicate Represents(h: Heap, a: Addr, t: Tree)
    requires a in h
    decreases t
  {
    match t
    case Leaf(x) => h[a] == Atom(x)
    case ListOf(ts) =>
      && h[a].List?
      && |h[a].items| == |ts|
      && forall i | 0 <= i < |ts| :: Represents(h, h[a].items[i], ts[i])
    case TupleOf(ts) =>
      && h[a].Tuple?
      && |h[a].items| == |ts|
      && forall i | 0 <= i < |ts| :: Represents(h, h[a].items[i], ts[i])
    case DictOf(es) =>
      && h[a].Dict?
      && |h[a].entries| == |es|
      && forall i | 0 <= i < |es| ::
        h[h[a].entries[i].0] == es[i].0 && Represents(h, h[a].entries[i].1, es[i].1)
  }

  // ---------------------------------------------------------------- trees and their JSON

  /** Every scalar and key of the tree can be written. */
  predicate Clean(t: Tree) {
    match t
    case Leaf(x) => LegalScalar(x)
    case ListOf(ts) => forall i | 0 <= i < |ts| :: Clean(ts[i])
    case TupleOf(ts) => forall i | 0 <= i < |ts| :: Clean(ts[i])
    case DictOf(es) => forall i | 0 <= i < |es| :: LegalKey(es[i].0) && Clean(es[i].1)
  }

  /** At most `n` containers are nested in one another. */
  predicate NestsWithin(t: Tree, n: int) {
    match t
    case Leaf(_) => true
    case ListOf(ts) => n >= 1 && forall i | 0 <= i < |ts| :: NestsWithin(ts[i], n - 1)
    case TupleOf(ts) => n >= 1 && forall i | 0 <= i < |ts| :: NestsWithin(ts[i], n - 1)
    case DictOf(es) => n >= 1 && forall i | 0 <= i < |es| :: NestsWithin(es[i].1, n - 1)
  }

  function TreeJson(t: Tree): Json
    requires Clean(t)
  {
    match t
    case Leaf(x) => EncodeScalar(x).value
    case ListOf(ts) => Array(seq(|ts|, i requires 0 <= i < |ts| => TreeJson(ts[i])))
    case TupleOf(ts) => Array(seq(|ts|, i requires 0 <= i < |ts| => TreeJson(ts[i])))
    case DictOf(es) =>
      Object(Built(seq(|es|, i requires 0 <= i < |es| => (EncodeKey(es[i].0).value, TreeJson(es[i].1)))))
  }

  /** Tuples become lists, keys become text, and colliding keys are settled by insertion. */
  function Normalize(t: Tree): Tree
    requires Clean(t)
  {
    match t
    case Leaf(x) => t
    case ListOf(ts) => ListOf(seq(|ts|, i requires 0 <= i < |ts| => Normalize(ts[i])))
    case TupleOf(ts) => ListOf(seq(|ts|, i requires 0 <= i < |ts| => Normalize(ts[i])))
    case DictOf(es) =>
      DictOf(StrKeyed(Built(seq(|es|, i requires 0 <= i < |es| => (EncodeKey(es[i].0).value, Normalize(es[i].1))))))
  }

  // ---------------------------------------------------------------- the graph encodes as its tree does

  /** An object unfolds in one way only, however its parts are shared. */
  lemma {:induction false} RepresentsOnce(h: Heap, a: Addr, t: Tree, u: Tree)
    requires a in h && Represents(h, a, t) && Represents(h, a, u)
    ensures t == u
    decreases t
  {
    match t {
      case Leaf(_) =>
      case ListOf(ts) =>
        forall i | 0 <= i < |ts|
          ensures ts[i] == u.items[i]
        {
          RepresentsOnce(h, h[a].items[i], ts[i], u.items[i]);
        }
      case TupleOf(ts) =>
        forall i | 0 <= i < |ts|
          ensures ts[i] == u.items[i]
        {
          RepresentsOnce(h, h[a].items[i], ts[i], u.items[i]);
        }
      case DictOf(es) =>
        forall i | 0 <= i < |es|
          ensures es[i] == u.entries[i]
        {
          RepresentsOnce(h, h[a].entries[i].1, es[i].1, u.entries[i].1);
        }
    }
  }

  /** The object at `p` unfolds into a tree that has `t` strictly inside. */
  ghost predicate Encloses(h: Heap, p: Addr, t: Tree) {
    p in h && exists u :: Represents(h, p, u) && t < u
  }

  lemma NotEnclosedBySelf(h: Heap, a: Addr, t: Tree)
    requires a in h && Represents(h, a, t)
    ensures !Encloses(h, a, t)
  {
    if u :| Represents(h, a, u) && t < u {
      RepresentsOnce(h, a, t, u);
    }
  }

  function Kid(t: Tree, i: nat): (k: Tree)
    requires !t.Leaf? && i < Width(t)
    ensures k < t
  {
    if t.DictOf? then t.entries[i].1 else t.items[i]
  }

  function Width(t: Tree): nat
    requires !t.Leaf?
  {
    if t.DictOf? then |t.entries| else |t.items|
  }

  predicate KeyClean(t: Tree, i: nat)
    requires !t.Leaf? && i < Width(t)
  {
    t.DictOf? ==> LegalKey(t.entries[i].0)
  }

  lemma KidRepresents(h: Heap, a: Addr, t: Tree, i: nat)
    requires a in h && !t.Leaf? && Represents(h, a, t) && i < Width(t)
    ensures Width(t) == |Children(h[a])|
    ensures Represents(h, Child(h, a, i), Kid(t, i))
    ensures KeyOffence(h, a, i) == None <==> KeyClean(t, i)
  {
  }

  lemma CleanByKids(t: Tree)
    requires !t.Leaf?
    ensures Clean(t) <==> forall i | 0 <= i < Width(t) :: KeyClean(t, i) && Clean(Kid(t, i))
  {
    if forall i | 0 <= i < Width(t) :: KeyClean(t, i) && Clean(Kid(t, i)) {
      forall i | 0 <= i < Width(t)
        ensures KeyClean(t, i) && Clean(if t.DictOf? then t.entries[i].1 else t.items[i])
      {
        assert KeyClean(t, i) && Clean(Kid(t, i));
      }
    }
  }

  lemma NestsByKids(t: Tree, n: int)
    requires !t.Leaf?
    ensures NestsWithin(t, n) <==> n >= 1 && forall i | 0 <= i < Width(t) :: NestsWithin(Kid(t, i), n - 1)
  {
    if forall i | 0 <= i < Width(t) :: NestsWithin(Kid(t, i), n - 1) {
      forall i | 0 <= i < Width(t)
        ensures NestsWithin(if t.DictOf? then t.entries[i].1 else t.items[i], n - 1)
      {
        assert NestsWithin(Kid(t, i), n - 1);
      }
    }
  }

  /** Below objects that enclose it, an object is accepted for what its tree is. */
  lemma {:induction false} GraphAccepted(h: Heap, a: Addr, t: Tree, path: seq<Addr>)
    requires a in h && Represents(h, a, t) && |path| <= MAX_DEPTH
    requires forall p <- path :: Encloses(h, p, t)
    ensures Encode(h, a, path).Ok? <==> Clean(t) && NestsWithin(t, MAX_DEPTH - |path|)
    decreases t, 1
  {
    if t.Leaf? || |path| == MAX_DEPTH {
      AtTheEdge(h, a, t, path);
    } else {
      NotEnclosedBySelf(h, a, t);
      assert a !in path;
      assert !h[a].Atom?;
      SameWidth(h, a, t);
      hide Encode, Clean, NestsWithin, Represents, Encloses, KidAccepts, Closed, Children;
      forall j | 0 <= j < Width(t)
        ensures KidAccepts(h, a, t, path, j)
      {
        KidAccepted(h, a, t, path, j);
      }
      ByKids(h, a, t, path);
    }
  }

  /** A container is accepted when each of its children is. */
  lemma ByKids(h: Heap, a: Addr, t: Tree, path: seq<Addr>)
    requires a in h && !h[a].Atom? && !t.Leaf? && a !in path && |path| < MAX_DEPTH && Width(t) == |Children(h[a])|
    requires forall j | 0 <= j < Width(t) :: KidAccepts(h, a, t, path, j)
    ensures Encode(h, a, path).Ok? <==> Clean(t) && NestsWithin(t, MAX_DEPTH - |path|)
  {
    hide Encode, Clean, NestsWithin, ChildEncodes, KeyClean, Kid, Closed, Children;
    NestsByKids(t, MAX_DEPTH - |path|);
    CleanByKids(t);
    var i := Scan(h, a, path);
    if i < Width(t) {
      assert KidAccepts(h, a, t, path, i);
    } else {
      forall j | 0 <= j < Width(t)
        ensures KeyClean(t, j) && Clean(Kid(t, j)) && NestsWithin(Kid(t, j), MAX_DEPTH - |path| - 1)
      {
        assert KidAccepts(h, a, t, path, j);
      }
    }
  }

  /** A container's child is encoded exactly when its part of the tree allows. */
  predicate KidAccepts(h: Heap, a: Addr, t: Tree, path: seq<Addr>, i: nat)
    requires a in h && !t.Leaf? && i < Width(t) == |Children(h[a])| && |path| < MAX_DEPTH
  {
    ChildEncodes(h, a, i, path + [a]) <==>
      KeyClean(t, i) && Clean(Kid(t, i)) && NestsWithin(Kid(t, i), MAX_DEPTH - |path| - 1)
  }

  lemma {:induction false} KidAccepted(h: Heap, a: Addr, t: Tree, path: seq<Addr>, i: nat)
    requires a in h && !t.Leaf? && Represents(h, a, t) && |path| < MAX_DEPTH
    requires i < Width(t) == |Children(h[a])|
    requires forall p <- path :: Encloses(h, p, t)
    ensures KidAccepts(h, a, t, path, i)
    decreases t, 0
  {
    hide Represents, Encloses, Encode, Clean, NestsWithin, KeyOffence, KeyClean, Kid, Closed, Children;
    KidRepresents(h, a, t, i);
    EnclosesKid(h, a, t, i, path);
    GraphAccepted(h, Child(h, a, i), Kid(t, i), path + [a]);
  }

  lemma AtTheEdge(h: Heap, a: Addr, t: Tree, path: seq<Addr>)
    requires a in h && Represents(h, a, t) && |path| <= MAX_DEPTH
    requires t.Leaf? || |path| == MAX_DEPTH
    ensures Encode(h, a, path).Ok? <==> Clean(t) && NestsWithin(t, MAX_DEPTH - |path|)
  {
  }

  lemma SameWidth(h: Heap, a: Addr, t: Tree)
    requires a in h && !t.Leaf? && Represents(h, a, t)
    ensures Width(t) == |Children(h[a])|
  {
  }

  lemma EnclosesKid(h: Heap, a: Addr, t: Tree, i: nat, path: seq<Addr>)
    requires a in h && !t.Leaf? && Represents(h, a, t) && i < Width(t)
    requires forall p <- path :: Encloses(h, p, t)
    ensures forall p <- path + [a] :: Encloses(h, p, Kid(t, i))
  {
    forall p <- path + [a]
      ensures Encloses(h, p, Kid(t, i))
    {
      if p in path {
        assert Encloses(h, p, t);
      }
    }
  }

  // ---------------------------------------------------------------- the value it encodes to

  lemma {:induction false} ItemsValue(h: Heap, items: seq<Addr>, path: seq<Addr>)
    requires (forall c <- items :: c in h) && |path| <= MAX_DEPTH && EncodeItems(h, items, path).Ok?
    ensures |EncodeItems(h, items, path).value| == |items|
    ensures forall i | 0 <= i < |items| ::
      Encode(h, items[i], path) == Ok(EncodeItems(h, items, path).value[i])
    decreases |items|
  {
    if items != [] {
      ItemsValue(h, items[..|items| - 1], path);
    }
  }

  predicate EntryOk(h: Heap, entry: (Addr, Addr), path: seq<Addr>)
    requires |path| <= MAX_DEPTH
  {
    && entry.0 in h && entry.1 in h
    && EncodeKey(h[entry.0]).Ok? && Encode(h, entry.1, path).Ok?
  }

  function EntryPair(h: Heap, entry: (Addr, Addr), path: seq<Addr>): (string, Json)
    requires |path| <= MAX_DEPTH && EntryOk(h, entry, path)
  {
    (EncodeKey(h[entry.0]).value, Encode(h, entry.1, path).value)
  }

  function EntryPairs(h: Heap, entries: seq<(Addr, Addr)>, path: seq<Addr>): seq<(string, Json)>
    requires |path| <= MAX_DEPTH && forall i | 0 <= i < |entries| :: EntryOk(h, entries[i], path)
  {
    seq(|entries|, i requires 0 <= i < |entries| => EntryPair(h, entries[i], path))
  }

  lemma EntriesOk(h: Heap, entries: seq<(Addr, Addr)>, path: seq<Addr>)
    requires (forall e <- entries :: e.0 in h && e.1 in h) && |path| <= MAX_DEPTH
    requires EncodeEntries(h, entries, path).Ok?
    ensures forall i | 0 <= i < |entries| :: EntryOk(h, entries[i], path)
  {
    hide Closed;
    var i := EntriesScan(h, entries, path);
  }

  lemma LastEntry(h: Heap, entries: seq<(Addr, Addr)>, path: seq<Addr>)
    requires (forall e <- entries :: e.0 in h && e.1 in h) && |path| <= MAX_DEPTH && entries != []
    requires EntryOk(h, entries[|entries| - 1], path) && EncodeEntries(h, entries[..|entries| - 1], path).Ok?
    ensures var n := |entries| - 1;
            var pair := EntryPair(h, entries[n], path);
            EncodeEntries(h, entries, path) == Ok(Insert(EncodeEntries(h, entries[..n], path).value, pair.0, pair.1))
  {
    hide Closed, Insert, EncodeKey;
  }

  /** The members of an encoded dict: its entries' pairs, inserted one after another. */
  lemma {:induction false} EntriesValue(h: Heap, entries: seq<(Addr, Addr)>, path: seq<Addr>)
    requires (forall e <- entries :: e.0 in h && e.1 in h) && |path| <= MAX_DEPTH
    requires forall i | 0 <= i < |entries| :: EntryOk(h, entries[i], path)
    ensures EncodeEntries(h, entries, path) == Ok(Built(EntryPairs(h, entries, path)))
    decreases |entries|
  {
    hide EntryOk, EntryPair, Closed, Insert;
    if entries != [] {
      var n := |entries| - 1;
      var front, pair := EntryPairs(h, entries[..n], path), EntryPair(h, entries[n], path);
      assert EntryPairs(h, entries, path) == front + [pair];
      hide EntryPairs, EncodeEntries, Built;
      EntriesValue(h, entries[..n], path);
      LastEntry(h, entries, path);
      BuiltSnoc(front, pair.0, pair.1);
    }
  }

  function TreePairs(es: seq<(PyObject, Tree)>): (pairs: seq<(string, Json)>)
    requires Clean(DictOf(es))
    ensures |pairs| == |es|
    ensures forall i | 0 <= i < |es| :: pairs[i] == (EncodeKey(es[i].0).value, TreeJson(es[i].1))
    ensures TreeJson(DictOf(es)) == Object(Built(pairs))
  {
    seq(|es|, i requires 0 <= i < |es| => (EncodeKey(es[i].0).value, TreeJson(es[i].1)))
  }

  lemma {:induction false} GraphValue(h: Heap, a: Addr, t: Tree, path: seq<Addr>)
    requires a in h && Represents(h, a, t) && |path| <= MAX_DEPTH
    requires Clean(t) && Encode(h, a, path).Ok?
    ensures Encode(h, a, path).value == TreeJson(t)
    decreases t, 1
  {
    if t.DictOf? {
      DictValue(h, a, t, path);
    } else if !t.Leaf? {
      SequenceValue(h, a, t, path);
    }
  }

  lemma {:induction false} SequenceValue(h: Heap, a: Addr, t: Tree, path: seq<Addr>)
    requires a in h && Represents(h, a, t) && |path| <= MAX_DEPTH
    requires (t.ListOf? || t.TupleOf?) && Clean(t) && Encode(h, a, path).Ok?
    ensures Encode(h, a, path).value == TreeJson(t)
    decreases t, 0
  {
    assert forall c <- h[a].items :: c in h;
    hide Closed, Children;
    var items, ts, vs := h[a].items, t.items, EncodeItems(h, h[a].items, path + [a]).value;
    assert Encode(h, a, path).value == Array(vs);
    var want := seq(|ts|, i requires 0 <= i < |ts| => TreeJson(ts[i]));
    assert TreeJson(t) == Array(want);
    SequenceParts(h, a, t);
    ItemsValue(h, items, path + [a]);
    hide Represents, Encode, EncodeItems, TreeJson, Clean;
    forall i | 0 <= i < |items|
      ensures vs[i] == want[i]
    {
      GraphValue(h, items[i], ts[i], path + [a]);
    }
    assert vs == want;
  }

  lemma SequenceParts(h: Heap, a: Addr, t: Tree)
    requires a in h && Represents(h, a, t) && (t.ListOf? || t.TupleOf?) && Clean(t)
    ensures !h[a].Atom? && !h[a].Dict? && |h[a].items| == |t.items|
    ensures forall i | 0 <= i < |t.items| ::
      h[a].items[i] in h && Represents(h, h[a].items[i], t.items[i]) && Clean(t.items[i])
  {
  }

  lemma {:induction false} DictValue(h: Heap, a: Addr, t: Tree, path: seq<Addr>)
    requires a in h && Represents(h, a, t) && |path| <= MAX_DEPTH
    requires t.DictOf? && Clean(t) && Encode(h, a, path).Ok?
    ensures Encode(h, a, path).value == TreeJson(t)
    decreases t, 0
  {
    var entries, es := h[a].entries, t.entries;
    DictParts(h, a, t);
    EntriesOk(h, entries, path + [a]);
    EntriesValue(h, entries, path + [a]);
    var pairs, want := EntryPairs(h, entries, path + [a]), TreePairs(es);
    assert Encode(h, a, path).value == Object(Built(pairs));
    hide Represents, Clean, Encode, EncodeEntries, TreeJson, Closed;
    forall i | 0 <= i < |pairs|
      ensures pairs[i] == want[i]
    {
      assert EntryOk(h, entries[i], path + [a]);
      GraphValue(h, entries[i].1, es[i].1, path + [a]);
    }
    assert pairs == want;
  }

  lemma DictParts(h: Heap, a: Addr, t: Tree)
    requires a in h && Represents(h, a, t) && t.DictOf? && Clean(t)
    ensures h[a].Dict? && |h[a].entries| == |t.entries|
    ensures forall e <- h[a].entries :: e.0 in h && e.1 in h
    ensures forall i | 0 <= i < |t.entries| ::
      && h[h[a].entries[i].0] == t.entries[i].0
      && Represents(h, h[a].entries[i].1, t.entries[i].1) && Clean(t.entries[i].1)
  {
  }

  /** A graph that unfolds into a tree is accepted, and encoded, exactly as the tree is. */
  lemma GraphEncodesAsTree(h: Heap, a: Addr, t: Tree)
    requires a in h && Represents(h, a, t)
    ensures Encode(h, a, []).Ok? <==> Clean(t) && NestsWithin(t, 1000)
    ensures Clean(t) && NestsWithin(t, 1000) ==> Encode(h, a, []) == Ok(TreeJson(t))
  {
    GraphAccepted(h, a, t, []);
    if Encode(h, a, []).Ok? {
      GraphValue(h, a, t, []);
    }
  }

  /** Whatever is encoded does unfold into a tree. */
  lemma {:induction false} Unfold(h: Heap, a: Addr, path: seq<Addr>) returns (t: Tree)
    requires a in h && |path| <= MAX_DEPTH && Encode(h, a, path).Ok?
    ensures Represents(h, a, t)
    decreases MAX_DEPTH - |path|
  {
    if h[a].Atom? {
      t := Leaf(h[a].x);
    } else {
      var n := Scan(h, a, path);
      var kids := [];
      for i := 0 to n
        invariant |kids| == i && forall j | 0 <= j < i :: Represents(h, Child(h, a, j), kids[j])
      {
        assert ChildEncodes(h, a, i, path + [a]);
        var kid := Unfold(h, Child(h, a, i), path + [a]);
        kids := kids + [kid];
      }
      t := Refold(h, a, kids);
    }
  }

  lemma Refold(h: Heap, a: Addr, kids: seq<Tree>) returns (t: Tree)
    requires a in h && !h[a].Atom? && |kids| == |Children(h[a])|
    requires forall i | 0 <= i < |kids| :: Represents(h, Child(h, a, i), kids[i])
    ensures Represents(h, a, t)
  {
    match h[a] {
      case List(_) => t := ListOf(kids);
      case Tuple(_) => t := TupleOf(kids);
      case Dict(entries) =>
        t := DictOf(seq(|kids|, i requires 0 <= i < |kids| && entries[i].0 in h => (h[entries[i].0], kids[i])));
        forall i | 0 <= i < |kids|
          ensures Represents(h, entries[i].1, kids[i])
        {
          assert Represents(h, Child(h, a, i), kids[i]);
        }
    }
  }

  // ---------------------------------------------------------------- there and back

  /** Decoding what was encoded gives the tree back, normalized. */
  lemma {:induction false} DecodeOfEncode(t: Tree)
    requires Clean(t)
    ensures Decode(TreeJson(t)) == Normalize(t)
    decreases t, 1
  {
    match t {
      case Leaf(_) =>
      case ListOf(ts) =>
        forall i | 0 <= i < |ts|
          ensures Decode(TreeJson(ts[i])) == Normalize(ts[i])
        {
          DecodeOfEncode(ts[i]);
        }
      case TupleOf(ts) =>
        forall i | 0 <= i < |ts|
          ensures Decode(TreeJson(ts[i])) == Normalize(ts[i])
        {
          DecodeOfEncode(ts[i]);
        }
      case DictOf(es) =>
        DecodeOfEncodedDict(t);
    }
  }

  lemma {:induction false} DecodeOfEncodedDict(t: Tree)
    requires Clean(t) && t.DictOf?
    ensures Decode(TreeJson(t)) == Normalize(t)
    decreases t, 0
  {
    var es, pairs := t.entries, TreePairs(t.entries);
    var want := seq(|es|, i requires 0 <= i < |es| => (EncodeKey(es[i].0).value, Normalize(es[i].1)));
    assert Normalize(t) == DictOf(StrKeyed(Built(want)));
    forall i | 0 <= i < |es|
      ensures DecodeMember(pairs[i]) == want[i]
    {
      DecodeOfEncode(es[i].1);
    }
    assert DecodeMembers(pairs) == want;
    DecodeBuilt(pairs);
    BuiltIsDistinct(want);
    BuiltDistinct(Built(want));
    assert Decode(Object(Built(pairs))) == DictOf(StrKeyed(Built(DecodeMembers(Built(pairs)))));
  }

  /** Lists, scalars and dicts with distinct `str` keys: what JSON can express as it stands. */
  predicate Plain(t: Tree) {
    match t
    case Leaf(_) => true
    case TupleOf(_) => false
    case ListOf(ts) => forall i | 0 <= i < |ts| :: Plain(ts[i])
    case DictOf(es) =>
      && (forall i | 0 <= i < |es| :: es[i].0.Atom? && es[i].0.x.Str? && Plain(es[i].1))
      && (forall i, j | 0 <= i < j < |es| :: es[i].0 != es[j].0)
  }

  lemma {:induction false} PlainIsKept(t: Tree)
    requires Clean(t) && Plain(t)
    ensures Normalize(t) == t
    decreases t, 1
  {
    match t {
      case Leaf(_) =>
      case ListOf(ts) =>
        forall i | 0 <= i < |ts|
          ensures Normalize(ts[i]) == ts[i]
        {
          PlainIsKept(ts[i]);
        }
        assert Normalize(t).items == ts;
      case DictOf(es) => PlainDictIsKept(t);
    }
  }

  lemma {:induction false} PlainDictIsKept(t: Tree)
    requires Clean(t) && Plain(t) && t.DictOf?
    ensures Normalize(t) == t
    decreases t, 0
  {
    var es := t.entries;
    var pairs := seq(|es|, i requires 0 <= i < |es| => (EncodeKey(es[i].0).value, Normalize(es[i].1)));
    assert Normalize(t) == DictOf(StrKeyed(Built(pairs)));
    forall i | 0 <= i < |es|
      ensures es[i] == (Atom(Str(pairs[i].0)), pairs[i].1)
    {
      PlainIsKept(es[i].1);
    }
    BuiltDistinct(pairs);
    assert StrKeyed(pairs) == es;
  }

  /** Values as serde_json holds them: numbers in 64 bits or finite, keys distinct. */
  predicate Proper(v: Json) {
    match v
    case Number(PosInt(u)) => u <= U64_MAX
    case Number(NegInt(i)) => I64_MIN <= i < 0
    case Number(Double(d)) => d.Finite?
    case Array(vs) => forall i | 0 <= i < |vs| :: Proper(vs[i])
    case Object(ms) => Distinct(ms) && forall i | 0 <= i < |ms| :: Proper(ms[i].1)
    case _ => true
  }

  /** The encoder makes proper values only, so the round trip the other way applies to all it makes. */
  lemma {:induction false} EncodesProperly(t: Tree)
    requires Clean(t)
    ensures Proper(TreeJson(t))
  {
    match t {
      case Leaf(_) =>
      case ListOf(ts) =>
        forall i | 0 <= i < |ts|
          ensures Proper(TreeJson(ts[i]))
        {
          EncodesProperly(ts[i]);
        }
      case TupleOf(ts) =>
        forall i | 0 <= i < |ts|
          ensures Proper(TreeJson(ts[i]))
        {
          EncodesProperly(ts[i]);
        }
      case DictOf(es) =>
        var pairs := TreePairs(es);
        BuiltIsDistinct(pairs);
        BuiltIsExact(pairs);
        forall i | 0 <= i < |Built(pairs)|
          ensures Proper(Built(pairs)[i].1)
        {
          assert LastValue(pairs, Built(pairs), i);
          EncodesProperly(es[LastAt(pairs, Built(pairs)[i].0)].1);
        }
    }
  }

  /** The other way round: encoding what was decoded gives the value back. */
  lemma {:induction false} EncodeOfDecode(v: Json)
    requires Proper(v)
    ensures Clean(Decode(v)) && Plain(Decode(v)) && TreeJson(Decode(v)) == v
    decreases v, 1
  {
    match v {
      case Array(vs) =>
        forall i | 0 <= i < |vs|
          ensures Clean(Decode(vs[i])) && Plain(Decode(vs[i])) && TreeJson(Decode(vs[i])) == vs[i]
        {
          EncodeOfDecode(vs[i]);
        }
        assert TreeJson(Decode(v)).items == vs;
      case Object(ms) => EncodeOfDecodedDict(v);
      case _ =>
    }
  }

  lemma {:induction false} EncodeOfDecodedDict(v: Json)
    requires v.Object? && Proper(v)
    ensures Clean(Decode(v)) && Plain(Decode(v)) && TreeJson(Decode(v)) == v
    decreases v, 0
  {
    var ms := v.members;
    var es := StrKeyed(DecodeMembers(ms));
    assert Distinct(ms) && forall i | 0 <= i < |ms| :: Proper(ms[i].1);
    assert Distinct(DecodeMembers(ms));
    BuiltDistinct(DecodeMembers(ms));
    assert Decode(v) == DictOf(es);
    forall i | 0 <= i < |ms|
      ensures es[i].0 == Atom(Str(ms[i].0))
      ensures Clean(es[i].1) && Plain(es[i].1) && TreeJson(es[i].1) == ms[i].1
    {
      EncodeOfDecode(ms[i].1);
    }
    BuiltDistinct(ms);
    hide Decode, Proper;
    StrDict(es, ms);
  }

  /** A dict with distinct text keys and known values. */
  lemma StrDict(es: seq<(PyObject, Tree)>, ms: seq<(string, Json)>)
    requires |es| == |ms| && Distinct(ms) && Built(ms) == ms
    requires forall i | 0 <= i < |ms| ::
      es[i].0 == Atom(Str(ms[i].0)) && Clean(es[i].1) && Plain(es[i].1) && TreeJson(es[i].1) == ms[i].1
    ensures Clean(DictOf(es)) && Plain(DictOf(es)) && TreeJson(DictOf(es)) == Object(ms)
  {
    hide Built;
    assert Clean(DictOf(es));
    assert TreePairs(es) == ms;
  }

  /**
   The whole round trip on graphs: whatever the encoder accepts unfolds into one tree, and
   decoding the outcome gives that tree normalized, or the tree itself when it is plain.
   */
  lemma RoundTrip(h: Heap, a: Addr) returns (t: Tree)
    requires a in h && Encode(h, a, []).Ok?
    ensures Represents(h, a, t) && Clean(t) && NestsWithin(t, 1000)
    ensures Decode(Encode(h, a, []).value) == Normalize(t)
    ensures Plain(t) ==> Decode(Encode(h, a, []).value) == t
  {
    t := Unfold(h, a, []);
    GraphEncodesAsTree(h, a, t);
    DecodeOfEncode(t);
    if Plain(t) {
      PlainIsKept(t);
    }
  }

  /** Integers are exact over the whole signed and unsigned 64-bit range, and refused outside it. */
  lemma IntsAreExact(i: int)
    ensures EncodeScalar(Int(i)).Ok? <==> -0x8000_0000_0000_0000 <= i < 0x1_0000_0000_0000_0000
    ensures EncodeScalar(Int(i)).Ok? ==> Decode(EncodeScalar(Int(i)).value) == Leaf(Int(i))
  {
  }
}
