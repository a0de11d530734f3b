/**
 Turning a JSON value back into a Python object (`crates/rqx/src/py_json.rs`), and what a series
 of insertions into an insertion-ordered map leaves behind.  A `Tree` is a Python object written
 out in full, without addresses.
 */
module JsonDecoding {
  import opened Prelude
  import opened JsonEncoding

  datatype Tree =
    | Leaf(x: Scalar)
    | DictOf(entries: seq<(PyObject, Tree)>)
    | ListOf(items: seq<Tree>)
    | TupleOf(items: seq<Tree>)

  // ---------------------------------------------------------------- decoding

  function AsI64(n: Number): Option<int> {
    match n
    case PosInt(u) => if u <= I64_MAX then Some(u) else None
    case NegInt(i) => Some(i)
    case Double(_) => None
  }

  function AsU64(n: Number): Option<int> {
    if n.PosInt? then Some(n.u) else None
  }

  /** Signed, then unsigned, then a float; a number is always one of the three. */
  function DecodeNumber(n: Number): Scalar {
    if AsI64(n).Some? then Int(AsI64(n).value)
    else if AsU64(n).Some? then Int(AsU64(n).value)
    else Float(n.d)
  }

  /** What a series of insertions into an empty map leaves. */
  function Built<V>(pairs: seq<(string, V)>): seq<(string, V)> {
    if pairs == [] then []
    else Insert(Built(pairs[..|pairs| - 1]), pairs[|pairs| - 1].0, pairs[|pairs| - 1].1)
  }

  function StrKeyed(m: seq<(string, Tree)>): (es: seq<(PyObject, Tree)>)
    ensures |es| == |m| && forall i | 0 <= i < |m| :: es[i] == (Atom(Str(m[i].0)), m[i].1)
  {
    seq(|m|, i requires 0 <= i < |m| => (Atom(Str(m[i].0)), m[i].1))
  }

  function Decode(v: Json): Tree {
    match v
    case Null => Leaf(NoneObject)
    case Boolean(b) => Leaf(Bool(b))
    case Number(n) => Leaf(DecodeNumber(n))
    case String(s) => Leaf(Str(s))
    case Array(vs) => ListOf(DecodeItems(vs))
    case Object(ms) => DictOf(StrKeyed(Built(DecodeMembers(ms))))
  }

  function DecodeItems(vs: seq<Json>): (ts: seq<Tree>)
    ensures |ts| == |vs| && forall i | 0 <= i < |vs| :: ts[i] == Decode(vs[i])
  {
    seq(|vs|, i requires 0 <= i < |vs| => Decode(vs[i]))
  }

  function DecodeMember(m: (string, Json)): (string, Tree) {
    (m.0, Decode(m.1))
  }

  function DecodeMembers(ms: seq<(string, Json)>): (ts: seq<(string, Tree)>)
    ensures |ts| == |ms| && forall i | 0 <= i < |ms| :: ts[i] == DecodeMember(ms[i])
  {
    seq(|ms|, i requires 0 <= i < |ms| => DecodeMember(ms[i]))
  }

  /** `value_to_py`: lists item by item, dicts by setting one key after another. */
  method ValueToPy(v: Json) returns (t: Tree)
    ensures t == Decode(v)
    decreases v
  {
    match v {
      case Null => t := Leaf(NoneObject);
      case Boolean(b) => t := Leaf(Bool(b));
      case Number(n) => t := Leaf(DecodeNumber(n));
      case String(s) => t := Leaf(Str(s));
      case Array(vs) =>
        var items := [];
        for i := 0 to |vs|
          invariant |items| == i && forall j | 0 <= j < i :: items[j] == Decode(vs[j])
        {
          var item := ValueToPy(vs[i]);
          items := items + [item];
        }
        assert items == DecodeItems(vs);
        t := ListOf(items);
      case Object(ms) =>
        var dict: seq<(string, Tree)> := [];
        for i := 0 to |ms|
          invariant dict == Built(DecodeMembers(ms)[..i])
        {
          var value := ValueToPy(ms[i].1);
          dict := Insert(dict, ms[i].0, value);
          assert DecodeMembers(ms)[..i + 1][..i] == DecodeMembers(ms)[..i];
        }
        assert DecodeMembers(ms)[..|ms|] == DecodeMembers(ms);
        t := DictOf(StrKeyed(dict));
    }
  }

  // ---------------------------------------------------------------- what a series of insertions leaves

  predicate Distinct<V>(m: seq<(string, V)>) {
    forall i, j | 0 <= i < j < |m| :: m[i].0 != m[j].0
  }

  function FirstAt<V>(m: seq<(string, V)>, k: string): (i: nat)
    requires HasKey(m, k)
    ensures i < |m| && m[i].0 == k && forall j | 0 <= j < i :: m[j].0 != k
  {
    if m[0].0 == k then 0
    else
      assert HasKey(m[1..], k) by {
        var i :| 0 <= i < |m| && m[i].0 == k;
        assert m[1..][i - 1].0 == k;
      }
      1 + FirstAt(m[1..], k)
  }

  function LastAt<V>(m: seq<(string, V)>, k: string): (i: nat)
    requires HasKey(m, k)
    ensures i < |m| && m[i].0 == k && forall j | i < j < |m| :: m[j].0 != k
  {
    var n := |m| - 1;
    if m[n].0 == k then n
    else
      assert HasKey(m[..n], k) by {
        var i :| 0 <= i < |m| && m[i].0 == k;
        assert m[..n][i].0 == k;
      }
      LastAt(m[..n], k)
  }

  lemma {:induction false} InsertKeys<V>(m: seq<(string, V)>, k: string, v: V)
    ensures !HasKey(m, k) ==> Insert(m, k, v) == m + [(k, v)]
    ensures HasKey(m, k) ==> Insert(m, k, v) == m[FirstAt(m, k) := (k, v)]
  {
    if m != [] && m[0].0 != k {
      InsertKeys(m[1..], k, v);
      assert m == [m[0]] + m[1..];
      assert HasKey(m[1..], k) <==> HasKey(m, k) by {
        assert forall i | 0 <= i < |m[1..]| :: m[1..][i] == m[i + 1];
        assert forall i | 1 <= i < |m| :: m[i] == m[1..][i - 1];
      }
    }
  }

  /** The `i`th pair kept carries what came last under its key. */
  ghost predicate LastValue<V>(pairs: seq<(string, V)>, m: seq<(string, V)>, i: nat)
    requires i < |m|
  {
    HasKey(pairs, m[i].0) && m[i].1 == pairs[LastAt(pairs, m[i].0)].1
  }

  ghost predicate InOrder<V>(pairs: seq<(string, V)>, m: seq<(string, V)>, i: nat, j: nat)
    requires i < j < |m|
  {
    HasKey(pairs, m[i].0) && HasKey(pairs, m[j].0) && FirstAt(pairs, m[i].0) < FirstAt(pairs, m[j].0)
  }

  /** The pairs that end up in the map: each key once, where it first came, with what came last. */
  ghost predicate FirstPlaceLastValue<V>(pairs: seq<(string, V)>, m: seq<(string, V)>) {
    && (forall k :: HasKey(pairs, k) <==> HasKey(m, k))
    && (forall i | 0 <= i < |m| :: LastValue(pairs, m, i))
    && (forall i, j | 0 <= i < j < |m| :: InOrder(pairs, m, i, j))
  }

  lemma BuiltSnoc<V>(pairs: seq<(string, V)>, k: string, v: V)
    ensures Built(pairs + [(k, v)]) == Insert(Built(pairs), k, v)
  {
    assert (pairs + [(k, v)])[..|pairs|] == pairs;
  }

  lemma SnocKeys<V>(pairs: seq<(string, V)>, k: string, v: V, x: string)
    ensures HasKey(pairs + [(k, v)], x) <==> HasKey(pairs, x) || x == k
  {
    var more := pairs + [(k, v)];
    assert more[|pairs|].0 == k;
    if i :| 0 <= i < |pairs| && pairs[i].0 == x {
      assert more[i].0 == x;
    }
  }

  lemma SnocPlaces<V>(pairs: seq<(string, V)>, k: string, v: V, x: string)
    requires HasKey(pairs, x) || x == k
    ensures HasKey(pairs + [(k, v)], x)
    ensures LastAt(pairs + [(k, v)], x) == if x == k then |pairs| else LastAt(pairs, x)
    ensures FirstAt(pairs + [(k, v)], x) == if HasKey(pairs, x) then FirstAt(pairs, x) else |pairs|
  {
    SnocKeys(pairs, k, v, x);
    var more := pairs + [(k, v)];
    assert more[|pairs|].0 == k && forall j | 0 <= j < |pairs| :: more[j] == pairs[j];
    var f := FirstAt(more, x);
    if HasKey(pairs, x) {
      assert more[FirstAt(pairs, x)].0 == x && pairs[f].0 == x;
    }
  }

  lemma KeysUpdated<V>(m: seq<(string, V)>, at: nat, v: V, x: string)
    requires at < |m|
    ensures HasKey(m[at := (m[at].0, v)], x) <==> HasKey(m, x)
  {
    var u := m[at := (m[at].0, v)];
    assert forall i | 0 <= i < |m| :: u[i].0 == m[i].0;
  }

  lemma KnownKey<V>(pairs: seq<(string, V)>, m: seq<(string, V)>, k: string, v: V)
    requires FirstPlaceLastValue(pairs, m) && HasKey(m, k)
    ensures FirstPlaceLastValue(pairs + [(k, v)], m[FirstAt(m, k) := (k, v)])
  {
    var at := FirstAt(m, k);
    var more, r := pairs + [(k, v)], m[at := (k, v)];
    forall x
      ensures HasKey(more, x) <==> HasKey(r, x)
    {
      SnocKeys(pairs, k, v, x);
      KeysUpdated(m, at, v, x);
    }
    forall i | 0 <= i < |r|
      ensures LastValue(more, r, i)
    {
      KnownKeyValue(pairs, m, k, v, i);
    }
    forall i, j | 0 <= i < j < |r|
      ensures InOrder(more, r, i, j)
    {
      assert InOrder(pairs, m, i, j);
      SnocPlaces(pairs, k, v, r[i].0);
      SnocPlaces(pairs, k, v, r[j].0);
      hide FirstAt, HasKey;
    }
  }

  lemma KnownKeyValue<V>(pairs: seq<(string, V)>, m: seq<(string, V)>, k: string, v: V, i: nat)
    requires FirstPlaceLastValue(pairs, m) && HasKey(m, k) && i < |m|
    ensures LastValue(pairs + [(k, v)], m[FirstAt(m, k) := (k, v)], i)
  {
    var at := FirstAt(m, k);
    assert LastValue(pairs, m, i);
    SnocPlaces(pairs, k, v, m[i].0);
    if i != at {
      assert if i < at then InOrder(pairs, m, i, at) else InOrder(pairs, m, at, i);
    }
  }

  lemma NewKey<V>(pairs: seq<(string, V)>, m: seq<(string, V)>, k: string, v: V)
    requires FirstPlaceLastValue(pairs, m) && !HasKey(m, k)
    ensures FirstPlaceLastValue(pairs + [(k, v)], m + [(k, v)])
  {
    var more, r := pairs + [(k, v)], m + [(k, v)];
    forall x
      ensures HasKey(more, x) <==> HasKey(r, x)
    {
      SnocKeys(pairs, k, v, x);
      SnocKeys(m, k, v, x);
    }
    forall i | 0 <= i < |r|
      ensures LastValue(more, r, i)
    {
      SnocPlaces(pairs, k, v, r[i].0);
      if i < |m| {
        assert LastValue(pairs, m, i);
        assert m[i].0 != k;
      }
    }
    forall i, j | 0 <= i < j < |r|
      ensures InOrder(more, r, i, j)
    {
      SnocPlaces(pairs, k, v, r[i].0);
      SnocPlaces(pairs, k, v, r[j].0);
      if j < |m| {
        assert InOrder(pairs, m, i, j);
      } else {
        assert LastValue(pairs, m, i);
      }
    }
  }

  /** Insertion keeps a key's first place and its last value. */
  lemma {:induction false} BuiltIsExact<V>(pairs: seq<(string, V)>)
    ensures FirstPlaceLastValue(pairs, Built(pairs))
  {
    if pairs != [] {
      var n := |pairs| - 1;
      var front, k, v := pairs[..n], pairs[n].0, pairs[n].1;
      assert pairs == front + [(k, v)];
      BuiltIsExact(front);
      BuiltSnoc(front, k, v);
      var m := Built(front);
      InsertKeys(m, k, v);
      hide Insert, Built, FirstPlaceLastValue;
      if HasKey(m, k) {
        KnownKey(front, m, k, v);
      } else {
        NewKey(front, m, k, v);
      }
    }
  }

  lemma InOrderIsDistinct<V>(pairs: seq<(string, V)>, m: seq<(string, V)>)
    requires FirstPlaceLastValue(pairs, m)
    ensures Distinct(m)
  {
    forall i, j | 0 <= i < j < |m|
      ensures m[i].0 != m[j].0
    {
      assert InOrder(pairs, m, i, j);
    }
  }

  /** Keys that are already distinct stay as they are. */
  lemma {:induction false} BuiltDistinct<V>(m: seq<(string, V)>)
    requires Distinct(m)
    ensures Built(m) == m
  {
    if m != [] {
      var n := |m| - 1;
      BuiltDistinct(m[..n]);
      InsertKeys(m[..n], m[n].0, m[n].1);
      assert m == m[..n] + [m[n]];
    }
  }

  lemma BuiltIsDistinct<V>(pairs: seq<(string, V)>)
    ensures Distinct(Built(pairs))
  {
    BuiltIsExact(pairs);
    InOrderIsDistinct(pairs, Built(pairs));
  }

  /** Decoding the values of a map and building it commute. */
  lemma {:induction false} DecodeBuilt(pairs: seq<(string, Json)>)
    ensures DecodeMembers(Built(pairs)) == Built(DecodeMembers(pairs))
  {
    if pairs == [] {
      assert DecodeMembers(Built(pairs)) == [];
    } else {
      var n := |pairs| - 1;
      DecodeBuilt(pairs[..n]);
      DecodeInsert(Built(pairs[..n]), pairs[n].0, pairs[n].1);
      assert DecodeMembers(pairs)[..n] == DecodeMembers(pairs[..n]);
    }
  }

  lemma DecodeCons(m: (string, Json), ms: seq<(string, Json)>)
    ensures DecodeMembers([m] + ms) == [DecodeMember(m)] + DecodeMembers(ms)
  {
    hide Decode;
  }

  lemma {:induction false} DecodeInsert(m: seq<(string, Json)>, k: string, v: Json)
    ensures DecodeMembers(Insert(m, k, v)) == Insert(DecodeMembers(m), k, Decode(v))
  {
    DecodeCons((k, v), []);
    if m == [] {
      assert [(k, v)] + [] == [(k, v)];
    } else {
      var first, rest := m[0], m[1..];
      assert m == [first] + rest;
      DecodeCons(first, rest);
      DecodeCons((k, v), rest);
      DecodeCons(first, Insert(rest, k, v));
      DecodeInsert(rest, k, v);
      hide Decode;
    }
  }
}
