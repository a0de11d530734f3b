/**
 The insertion-ordered `dict[str, list[str]]` a list of pairs stands for, and how each operation on
 lists acts on it.
 */
module PairDicts {
  import opened FormUrlencoded
  import opened PairLists

  /** An insertion-ordered `dict[str, list[str]]`. */
  datatype Dict = Dict(order: seq<string>, lists: map<string, seq<string>>)

  function Abs(p: seq<Pair>): Dict {
    Dict(Order(p), map key | key in Keys(p) :: GetList(p, key))
  }

  lemma AbsIs(p: seq<Pair>, d: Dict)
    requires Order(p) == d.order && Keys(p) == d.lists.Keys
    requires forall key :: key in d.lists ==> GetList(p, key) == d.lists[key]
    ensures Abs(p) == d
  {
    hide Order, Keys, GetList;
    assert Abs(p).lists == d.lists;
  }

  /** `d.setdefault(key, []).append(value)` */
  function Append(d: Dict, key: string, value: string): Dict {
    if key in d.lists then d.(lists := d.lists[key := d.lists[key] + [value]])
    else Dict(d.order + [key], d.lists[key := [value]])
  }

  /** `d[key] = values` */
  function Put(d: Dict, key: string, values: seq<string>): Dict {
    Dict(if key in d.lists then d.order else d.order + [key], d.lists[key := values])
  }

  /** `d.update(other)`, one key at a time in the order of `other`. */
  function PutAll(d: Dict, order: seq<string>, lists: map<string, seq<string>>): Dict
    requires forall key :: key in order ==> key in lists
  {
    if order == [] then d else Put(PutAll(d, Front(order), lists), Last(order), lists[Last(order)])
  }

  function Except(order: seq<string>, keys: set<string>): seq<string> {
    if order == [] then []
    else if Last(order) in keys then Except(Front(order), keys)
    else Except(Front(order), keys) + [Last(order)]
  }

  /** `d.pop(key, None)` */
  function Drop(d: Dict, key: string): Dict {
    Dict(Except(d.order, {key}), d.lists - {key})
  }

  /** The list that writes a dict out, key after key. */
  function Flatten(order: seq<string>, lists: map<string, seq<string>>): seq<Pair> {
    if order == [] then []
    else
      var key := Last(order);
      Flatten(Front(order), lists) + if key in lists then Block(key, lists[key]) else []
  }

  predicate Distinct(order: seq<string>) {
    forall i, j :: 0 <= i < j < |order| ==> order[i] != order[j]
  }

  lemma {:induction false} OrderIsKeys(p: seq<Pair>)
    ensures Distinct(Order(p)) && forall key :: key in Order(p) <==> key in Keys(p)
    decreases |p|
  {
    if p != [] {
      OrderIsKeys(Front(p));
    }
  }

  /** Adding a pair at the end is appending to its key's list. */
  lemma AbsSnoc(p: seq<Pair>, x: Pair)
    ensures Abs(p + [x]) == Append(Abs(p), x.key, x.value)
  {
    hide Keys, Order, GetList;
    OrderSnoc(p, x);
    KeysSnoc(p, x);
    GetListEmpty(p, x.key);
    assert [] + [x.value] == [x.value];
    var d := Append(Abs(p), x.key, x.value);
    assert d.lists.Keys == Keys(p) + {x.key};
    forall key | key in d.lists
      ensures GetList(p + [x], key) == d.lists[key]
    {
      GetListSnoc(p, x, key);
    }
    AbsIs(p + [x], d);
  }

  lemma GetListSnoc(p: seq<Pair>, x: Pair, key: string)
    ensures GetList(p + [x], key) == if key == x.key then GetList(p, key) + [x.value] else GetList(p, key)
  {
    Snoc(p, x);
  }

  lemma OrderSnoc(p: seq<Pair>, x: Pair)
    ensures Order(p + [x]) == if x.key in Keys(p) then Order(p) else Order(p) + [x.key]
  {
    Snoc(p, x);
  }

  lemma ExceptSnoc(order: seq<string>, key: string, keys: set<string>)
    ensures Except(order + [key], keys) == if key in keys then Except(order, keys) else Except(order, keys) + [key]
  {
    Snoc(order, key);
  }

  lemma {:induction false} OrderAppend(a: seq<Pair>, b: seq<Pair>)
    ensures Order(a + b) == Order(a) + Except(Order(b), Keys(a))
    decreases |b|
  {
    hide Keys, Order, Except;
    if b == [] {
      assert a + b == a;
      NoOrder(Keys(a));
      assert Order(a) + [] == Order(a);
    } else {
      var front, x := Front(b), Last(b);
      assert b == front + [x];
      assert a + b == (a + front) + [x];
      OrderAppend(a, front);
      KeysAppend(a, front);
      OrderSnoc(a + front, x);
      OrderSnoc(front, x);
      ExceptSnoc(Order(front), x.key, Keys(a));
    }
  }

  lemma NoOrder(keys: set<string>)
    ensures Order([]) == [] && Except([], keys) == []
  {
  }

  lemma {:induction false} OrderWithout(p: seq<Pair>, keys: set<string>)
    ensures Order(Without(p, keys)) == Except(Order(p), keys)
    decreases |p|
  {
    if p != [] {
      OrderWithout(Front(p), keys);
      KeysWithout(Front(p), keys);
      Snoc(Without(Front(p), keys), Last(p));
      Snoc(Order(Front(p)), Last(p).key);
    }
  }

  lemma {:induction false} OrderBlock(front: seq<Pair>, key: string, values: seq<string>)
    requires key !in Keys(front) && values != []
    ensures Order(front + Block(key, values)) == Order(front) + [key]
    decreases |values|
  {
    var before, x := Block(key, Front(values)), Pair(key, Last(values));
    assert front + (before + [x]) == (front + before) + [x];
    Snoc(front + before, x);
    KeysAppend(front, before);
    KeysBlock(key, Front(values));
    if Front(values) == [] {
      assert front + before == front;
    } else {
      OrderBlock(front, key, Front(values));
    }
  }

  lemma {:induction false} OrderOver(a: seq<Pair>, b: seq<Pair>)
    ensures Order(Over(a, b)) == Order(a)
    decreases |a|
  {
    hide GetList;
    if a != [] {
      var front, x := Front(a), Last(a);
      OrderOver(front, b);
      KeysOver(front, b);
      GetListEmpty(b, x.key);
      if x.key !in Keys(b) {
        Snoc(Over(front, b), x);
      } else if x.key in Keys(front) {
        assert Over(front, b) + [] == Over(front, b);
      } else {
        OrderBlock(Over(front, b), x.key, GetList(b, x.key));
      }
    }
  }

  lemma {:induction false} PutAllIs(d: Dict, order: seq<string>, lists: map<string, seq<string>>)
    requires Distinct(order) && forall key :: key in order ==> key in lists
    ensures var r := PutAll(d, order, lists);
            && r.order == d.order + Except(order, d.lists.Keys)
            && (forall key :: key in r.lists <==> key in d.lists || key in order)
            && (forall key :: key in r.lists ==> r.lists[key] == if key in order then lists[key] else d.lists[key])
    decreases |order|
  {
    if order != [] {
      var front, last := Front(order), Last(order);
      assert order == front + [last];
      assert last !in front;
      PutAllIs(d, front, lists);
      ExceptSnoc(front, last, d.lists.Keys);
      assert forall key :: key in order <==> key in front || key == last;
    }
  }

  /** Merging is `dict.update`. */
  lemma MergeIsUpdate(a: seq<Pair>, b: seq<Pair>)
    ensures forall key :: key in Order(b) ==> key in Abs(b).lists
    ensures Abs(Merged(a, b)) == PutAll(Abs(a), Order(b), Abs(b).lists)
  {
    hide Keys, Order, Except, GetList, PutAll, Distinct, Merged;
    OrderIsKeys(b);
    PutAllIs(Abs(a), Order(b), Abs(b).lists);
    var d := PutAll(Abs(a), Order(b), Abs(b).lists);
    OrderMerged(a, b);
    KeysMerged(a, b);
    assert Abs(a).lists.Keys == Keys(a);
    assert d.lists.Keys == Keys(a) + Keys(b);
    forall key | key in d.lists
      ensures GetList(Merged(a, b), key) == d.lists[key]
    {
      GetListMerged(a, b, key);
    }
    AbsIs(Merged(a, b), d);
  }

  lemma OrderMerged(a: seq<Pair>, b: seq<Pair>)
    ensures Order(Merged(a, b)) == Order(a) + Except(Order(b), Keys(a))
  {
    hide Keys, Order, Except, Over, Without;
    OrderOver(a, b);
    OrderWithout(b, Keys(a));
    OrderAppend(Over(a, b), Without(b, Keys(a)));
    KeysOver(a, b);
    ExceptTwice(Order(b), Keys(a));
  }

  lemma {:induction false} ExceptTwice(order: seq<string>, keys: set<string>)
    ensures Except(Except(order, keys), keys) == Except(order, keys)
    decreases |order|
  {
    if order != [] {
      ExceptTwice(Front(order), keys);
      Snoc(Except(Front(order), keys), Last(order));
    }
  }

  /** Removing is `dict.pop`. */
  lemma RemoveIsDrop(p: seq<Pair>, key: string)
    ensures Abs(Without(p, {key})) == Drop(Abs(p), key)
  {
    hide Keys, Order, Except, GetList, Without;
    OrderWithout(p, {key});
    KeysWithout(p, {key});
    var d := Drop(Abs(p), key);
    assert d.lists.Keys == Keys(p) - {key};
    forall k | k in d.lists
      ensures GetList(Without(p, {key}), k) == d.lists[k]
    {
      GetListWithout(p, {key}, k);
    }
    AbsIs(Without(p, {key}), d);
  }
}
