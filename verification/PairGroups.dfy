/**
 Lists that keep equal keys together: pushing builds them, every operation keeps them, and they are
 exactly the lists that survive being written out and read back.
 */
module PairGroups {
  import opened Prelude
  import opened FormUrlencoded
  import opened PairLists
  import opened PairDicts

  // ---------------------------------------------------------------- push and regrouping

  /** `rposition`: the last pair with this key. */
  function RPosition(p: seq<Pair>, key: string): Option<nat> {
    if p == [] then None
    else if Last(p).key == key then Some(|p| - 1)
    else RPosition(Front(p), key)
  }

  lemma SuffixSnoc<T>(p: seq<T>, i: nat)
    requires i < |p|
    ensures p[i..] == Front(p)[i..] + [Last(p)]
  {
  }

  lemma {:induction false} RPositionIsLast(p: seq<Pair>, key: string)
    ensures RPosition(p, key).None? <==> key !in Keys(p)
    ensures var at := RPosition(p, key);
            at.Some? ==> at.value < |p| && p[at.value].key == key && key !in Keys(p[at.value + 1..])
    decreases |p|
  {
    if p != [] {
      RPositionIsLast(Front(p), key);
      var at := RPosition(p, key);
      if Last(p).key == key {
        assert p[|p|..] == [];
      } else if at.Some? {
        SuffixSnoc(p, at.value + 1);
        KeysSnoc(Front(p)[at.value + 1..], Last(p));
      }
    }
  }

  function Pushed(p: seq<Pair>, x: Pair): seq<Pair> {
    RPositionIsLast(p, x.key);
    match RPosition(p, x.key)
    case Some(last) => p[..last + 1] + ([x] + p[last + 1..])
    case None => p + [x]
  }

  function PushAll(p: seq<Pair>, xs: seq<Pair>): seq<Pair> {
    if xs == [] then p else Pushed(PushAll(p, Front(xs)), Last(xs))
  }

  /** Wherever `push` inserts, the dict sees an append. */
  lemma PushIsAppend(p: seq<Pair>, x: Pair)
    ensures Abs(Pushed(p, x)) == Append(Abs(p), x.key, x.value)
  {
    AbsSnoc(p, x);
    RPositionIsLast(p, x.key);
    var at := RPosition(p, x.key);
    if at.Some? {
      var a, b := p[..at.value + 1], p[at.value + 1..];
      assert p == a + b && p + [x] == (a + b) + [x];
      assert a == p[..at.value] + [p[at.value]];
      KeysSnoc(p[..at.value], p[at.value]);
      MoveLeft(a, x, b);
    }
  }

  /** A pair whose key has appeared may move left over pairs with other keys. */
  lemma MoveLeft(a: seq<Pair>, x: Pair, b: seq<Pair>)
    requires x.key in Keys(a) && x.key !in Keys(b)
    ensures Abs(a + ([x] + b)) == Abs((a + b) + [x])
  {
    hide Keys, Order, Except, GetList;
    var left, right := a + ([x] + b), (a + b) + [x];
    assert left == (a + [x]) + b;
    KeysAppend(a + [x], b);
    KeysAppend(a, b);
    KeysSnoc(a, x);
    KeysSnoc(a + b, x);
    assert Keys(left) == Keys(right);
    forall key
      ensures GetList(left, key) == GetList(right, key)
    {
      GetListMoved(a, x, b, key);
    }
    OrderSnoc(a, x);
    OrderSnoc(a + b, x);
    OrderAppend(a + [x], b);
    OrderAppend(a, b);
    assert Keys(a) + {x.key} == Keys(a);
    AbsIs(left, Abs(right));
  }

  lemma GetListMoved(a: seq<Pair>, x: Pair, b: seq<Pair>, key: string)
    requires x.key !in Keys(b)
    ensures GetList(a + ([x] + b), key) == GetList((a + b) + [x], key)
  {
    hide Keys, GetList;
    assert a + ([x] + b) == (a + [x]) + b;
    OnePair(x);
    GetListAppend(a, [x], key);
    GetListAppend(a + [x], b, key);
    GetListAppend(a, b, key);
    GetListAppend(a + b, [x], key);
    GetListEmpty(b, x.key);
  }

  /** Equal keys sit together. */
  predicate Grouped(p: seq<Pair>) {
    forall i, j, k :: 0 <= i < j < k < |p| && p[i].key == p[k].key ==> p[j].key == p[i].key
  }

  lemma {:induction false} KeyAt(p: seq<Pair>, key: string)
    ensures key in Keys(p) <==> exists i :: 0 <= i < |p| && p[i].key == key
    decreases |p|
  {
    if p != [] {
      KeyAt(Front(p), key);
      if key in Keys(Front(p)) {
        var i :| 0 <= i < |Front(p)| && Front(p)[i].key == key;
        assert p[i].key == key;
      } else if exists i :: 0 <= i < |p| && p[i].key == key {
        var i :| 0 <= i < |p| && p[i].key == key;
        assert i < |p| - 1 ==> Front(p)[i].key == key;
      }
    }
  }

  lemma GroupedFront(p: seq<Pair>, x: Pair)
    requires Grouped(p + [x])
    ensures Grouped(p) && (x.key in Keys(p) ==> Last(p).key == x.key)
  {
    var q := p + [x];
    KeyAt(p, x.key);
    hide Keys;
    assert q[|p|] == x && forall i :: 0 <= i < |p| ==> q[i] == p[i];
    forall i, j, k | 0 <= i < j < k < |p| && p[i].key == p[k].key
      ensures p[j].key == p[i].key
    {
      assert q[i].key == q[k].key;
    }
    if x.key in Keys(p) {
      var i :| 0 <= i < |p| && p[i].key == x.key;
      assert i < |p| - 1 ==> q[i].key == q[|p|].key && q[|p| - 1].key == q[i].key;
    }
  }

  lemma GroupedLonger(p: seq<Pair>, x: Pair)
    requires Grouped(p) && (x.key in Keys(p) ==> Last(p).key == x.key)
    ensures Grouped(p + [x])
  {
    var q := p + [x];
    KeyAt(p, x.key);
    hide Keys;
    forall i, j, k | 0 <= i < j < k < |q| && q[i].key == q[k].key
      ensures q[j].key == q[i].key
    {
      if k < |p| {
        assert p[i].key == p[k].key;
      } else if j < |p| - 1 {
        assert p[i].key == p[|p| - 1].key;
      }
    }
  }

  lemma GroupedSnoc(p: seq<Pair>, x: Pair)
    ensures Grouped(p + [x]) <==> Grouped(p) && (x.key in Keys(p) ==> Last(p).key == x.key)
  {
    hide Keys;
    if Grouped(p + [x]) {
      GroupedFront(p, x);
    } else if Grouped(p) && (x.key in Keys(p) ==> p != [] && Last(p).key == x.key) {
      GroupedLonger(p, x);
    }
  }

  lemma {:induction false} GroupedBlock(p: seq<Pair>, key: string, values: seq<string>)
    requires Grouped(p) && key !in Keys(p)
    ensures Grouped(p + Block(key, values))
    decreases |values|
  {
    if values == [] {
      assert p + [] == p;
    } else {
      var before, x := Block(key, Front(values)), Pair(key, Last(values));
      GroupedBlock(p, key, Front(values));
      assert p + (before + [x]) == (p + before) + [x];
      GroupedSnoc(p + before, x);
      KeysAppend(p, before);
      KeysBlock(key, Front(values));
      if before != [] {
        assert Last(p + before) == Last(before);
      }
    }
  }

  lemma {:induction false} KeysFlatten(order: seq<string>, lists: map<string, seq<string>>)
    ensures Keys(Flatten(order, lists)) <= set key | key in order
    decreases |order|
  {
    if order != [] {
      var key := Last(order);
      KeysFlatten(Front(order), lists);
      assert order == Front(order) + [key];
      if key in lists {
        KeysBlock(key, lists[key]);
        KeysAppend(Flatten(Front(order), lists), Block(key, lists[key]));
      } else {
        assert Flatten(Front(order), lists) + [] == Flatten(Front(order), lists);
      }
    }
  }

  lemma {:induction false} GroupedFlatten(order: seq<string>, lists: map<string, seq<string>>)
    requires Distinct(order)
    ensures Grouped(Flatten(order, lists))
    decreases |order|
  {
    if order != [] {
      var key, front := Last(order), Flatten(Front(order), lists);
      GroupedFlatten(Front(order), lists);
      KeysFlatten(Front(order), lists);
      if key in lists {
        GroupedBlock(front, key, lists[key]);
      } else {
        assert front + [] == front;
      }
    }
  }

  lemma {:induction false} FlattenCongruent(
    order: seq<string>, l1: map<string, seq<string>>, l2: map<string, seq<string>>)
    requires forall key :: key in order ==> key in l1 && key in l2 && l1[key] == l2[key]
    ensures Flatten(order, l1) == Flatten(order, l2)
    decreases |order|
  {
    if order != [] {
      FlattenCongruent(Front(order), l1, l2);
    }
  }

  lemma {:induction false} LastOfOrder(p: seq<Pair>)
    requires Grouped(p) && p != []
    ensures Order(p) != [] && Last(Order(p)) == Last(p).key
    decreases |p|
  {
    var front, x := Front(p), Last(p);
    assert p == front + [x];
    GroupedSnoc(front, x);
    if x.key in Keys(front) {
      LastOfOrder(front);
    }
  }

  /** A grouped list is its dict written out, and only a grouped list is. */
  lemma {:induction false} GroupedIffWrittenOut(p: seq<Pair>)
    ensures Grouped(p) <==> p == Flatten(Order(p), Abs(p).lists)
    decreases |p|
  {
    OrderIsKeys(p);
    GroupedFlatten(Order(p), Abs(p).lists);
    if Grouped(p) && p != [] {
      var front, x := Front(p), Last(p);
      assert p == front + [x];
      GroupedSnoc(front, x);
      GroupedIffWrittenOut(front);
      OrderIsKeys(front);
      AbsSnoc(front, x);
      WriteOneMore(front, x);
    }
  }

  lemma WriteOneMore(front: seq<Pair>, x: Pair)
    requires Grouped(front + [x]) && front == Flatten(Order(front), Abs(front).lists)
    ensures front + [x] == Flatten(Order(front + [x]), Abs(front + [x]).lists)
  {
    hide Keys, GetList, Grouped, Order, Flatten;
    if x.key in Keys(front) {
      WriteKnown(front, x);
    } else {
      WriteNew(front, x);
    }
  }

  lemma WriteKnown(front: seq<Pair>, x: Pair)
    requires Grouped(front + [x]) && front == Flatten(Order(front), Abs(front).lists) && x.key in Keys(front)
    ensures front + [x] == Flatten(Order(front + [x]), Abs(front + [x]).lists)
  {
    hide Keys, GetList, Grouped, Order;
    GroupedSnoc(front, x);
    OrderIsKeys(front);
    AbsSnoc(front, x);
    OrderSnoc(front, x);
    HasPairs(front, x.key);
    LastOfOrder(front);
    var order, before, after := Order(front), Abs(front).lists, Abs(front + [x]).lists;
    hide Abs;
    FlattenCongruent(Front(order), before, after);
    assert after[x.key] == before[x.key] + [x.value];
    Snoc(before[x.key], x.value);
    var done := Flatten(Front(order), before);
    assert done + (Block(x.key, before[x.key]) + [x]) == (done + Block(x.key, before[x.key])) + [x];
  }

  lemma WriteNew(front: seq<Pair>, x: Pair)
    requires front == Flatten(Order(front), Abs(front).lists) && x.key !in Keys(front)
    ensures front + [x] == Flatten(Order(front + [x]), Abs(front + [x]).lists)
  {
    hide Keys, GetList, Grouped, Order;
    OrderIsKeys(front);
    AbsSnoc(front, x);
    OrderSnoc(front, x);
    var order, before, after := Order(front), Abs(front).lists, Abs(front + [x]).lists;
    FlattenCongruent(order, before, after);
    Snoc(order, x.key);
    Snoc<string>([], x.value);
    assert [] + [x.value] == [x.value] && [] + [x] == [x];
    assert Block(x.key, [x.value]) == [x];
  }

  lemma HasPairs(p: seq<Pair>, key: string)
    requires key in Keys(p)
    ensures p != []
  {
  }

  // ---------------------------------------------------------------- grouping is kept

  /** Where a pair stood before a push behind index `last`; the new pair counts as the one at `last`. */
  function Source(last: nat, i: nat): nat {
    if i <= last then i else i - 1
  }

  lemma GroupedPush(p: seq<Pair>, x: Pair)
    requires Grouped(p)
    ensures Grouped(Pushed(p, x))
  {
    RPositionIsLast(p, x.key);
    match RPosition(p, x.key)
    case None =>
      GroupedSnoc(p, x);
    case Some(last) =>
      assert Pushed(p, x) == p[..last + 1] + ([x] + p[last + 1..]);
      hide Pushed, RPosition, Keys;
      GroupedTwin(p, x, last);
  }

  /** A pair inserted right behind one with its key: the same keys, the one at `last` twice. */
  lemma GroupedTwin(p: seq<Pair>, x: Pair, last: nat)
    requires Grouped(p) && last < |p| && p[last].key == x.key
    ensures Grouped(p[..last + 1] + ([x] + p[last + 1..]))
  {
    var q := p[..last + 1] + ([x] + p[last + 1..]);
    assert forall i | 0 <= i < |q| :: q[i].key == p[Source(last, i)].key;
    forall i, j, k | 0 <= i < j < k < |q| && q[i].key == q[k].key
      ensures q[j].key == q[i].key
    {
      var a, b, c := Source(last, i), Source(last, j), Source(last, k);
      assert a < b < c ==> p[b].key == p[a].key;
    }
  }

  lemma {:induction false} GroupedAppend(a: seq<Pair>, b: seq<Pair>)
    requires Grouped(a) && Grouped(b) && Keys(a) !! Keys(b)
    ensures Grouped(a + b)
    decreases |b|
  {
    hide Keys, Grouped;
    if b == [] {
      assert a + b == a;
    } else {
      var front, x := Front(b), Last(b);
      assert b == front + [x];
      assert a + b == (a + front) + [x];
      GroupedSnoc(front, x);
      KeysSnoc(front, x);
      KeysAppend(a, front);
      GroupedAppend(a, front);
      GroupedSnoc(a + front, x);
      if x.key in Keys(front) {
        HasPairs(front, x.key);
        assert Last(a + front) == Last(front);
      }
    }
  }

  lemma {:induction false} GroupedWithout(p: seq<Pair>, keys: set<string>)
    requires Grouped(p)
    ensures Grouped(Without(p, keys))
    decreases |p|
  {
    hide Keys, Grouped;
    if p == [] {
    } else {
      var front, x := Front(p), Last(p);
      assert p == front + [x];
      GroupedSnoc(front, x);
      GroupedWithout(front, keys);
      KeysWithout(front, keys);
      GroupedSnoc(Without(front, keys), x);
      if x.key !in keys && x.key in Keys(front) {
        HasPairs(front, x.key);
        assert Last(Without(front, keys)) == Last(front);
      }
    }
  }

  lemma {:induction false} GroupedOver(a: seq<Pair>, b: seq<Pair>)
    requires Grouped(a)
    ensures Grouped(Over(a, b))
    decreases |a|
  {
    hide Keys, Grouped, GetList;
    if a != [] {
      var front, x := Front(a), Last(a);
      assert a == front + [x];
      GroupedSnoc(front, x);
      GroupedOver(front, b);
      KeysOver(front, b);
      if x.key !in Keys(b) {
        GroupedSnoc(Over(front, b), x);
        if x.key in Keys(front) {
          HasPairs(front, x.key);
          assert Last(Over(front, b)) == Last(front);
        }
      } else if x.key in Keys(front) {
        assert Over(front, b) + [] == Over(front, b);
      } else {
        GroupedBlock(Over(front, b), x.key, GetList(b, x.key));
      }
    }
  }

  lemma GroupedMerge(a: seq<Pair>, b: seq<Pair>)
    requires Grouped(a) && Grouped(b)
    ensures Grouped(Merged(a, b))
  {
    GroupedOver(a, b);
    GroupedWithout(b, Keys(a));
    KeysOver(a, b);
    KeysWithout(b, Keys(a));
    GroupedAppend(Over(a, b), Without(b, Keys(a)));
  }

  lemma {:induction false} PushAllAppends(xs: seq<Pair>)
    ensures Grouped(PushAll([], xs)) && Abs(PushAll([], xs)) == Abs(xs)
    decreases |xs|
  {
    hide Abs, Grouped, Pushed;
    if xs == [] {
      EmptyGrouped();
    } else {
      var front, x := Front(xs), Last(xs);
      assert xs == front + [x];
      PushAllAppends(front);
      PushIsAppend(PushAll([], front), x);
      GroupedPush(PushAll([], front), x);
      AbsSnoc(front, x);
    }
  }

  lemma EmptyGrouped()
    ensures Grouped([])
  {
  }

  /** Pushing pairs in any order writes out the dict they stand for. */
  lemma PushAllRegroups(xs: seq<Pair>)
    ensures PushAll([], xs) == Flatten(Order(xs), Abs(xs).lists)
    ensures PushAll([], xs) == xs <==> Grouped(xs)
  {
    hide Order, Keys, GetList, Flatten, Grouped, PushAll;
    PushAllAppends(xs);
    GroupedIffWrittenOut(PushAll([], xs));
    GroupedIffWrittenOut(xs);
  }

  lemma {:induction false} OverSelf(a: seq<Pair>, b: seq<Pair>)
    requires Keys(a) <= Keys(b)
    ensures Over(a, b) == Flatten(Order(a), Abs(b).lists)
    decreases |a|
  {
    if a != [] {
      var front, x := Front(a), Last(a);
      OverSelf(front, b);
      if x.key in Keys(front) {
        assert Over(front, b) + [] == Over(front, b);
      } else {
        Snoc(Order(front), x.key);
      }
    }
  }

  /** Merging a list with itself regroups it, so it changes nothing exactly when it is grouped. */
  lemma MergeIdempotent(a: seq<Pair>)
    ensures Merged(a, a) == a <==> Grouped(a)
  {
    OverSelf(a, a);
    WithoutAll(a, Keys(a));
    assert Over(a, a) + [] == Over(a, a);
    GroupedIffWrittenOut(a);
  }

  /** `parse` undoes `to_string` exactly on grouped lists, and regroups any other. */
  lemma QueryRoundTrip(p: seq<Pair>)
    ensures PushAll([], Parse(Serialize(p))) == Flatten(Order(p), Abs(p).lists)
    ensures PushAll([], Parse(Serialize(p))) == p <==> Grouped(p)
  {
    ParseSerialize(p);
    PushAllRegroups(p);
  }

  /** `set` is `merge` with one pair, hence `dict[key] = [value]`. */
  lemma SetIsPut(p: seq<Pair>, key: string, value: string)
    ensures Abs(Merged(p, [Pair(key, value)])) == Put(Abs(p), key, [value])
    ensures Grouped(p) ==> Grouped(Merged(p, [Pair(key, value)]))
  {
    var one := [Pair(key, value)];
    OnePair(one[0]);
    MergeIsUpdate(p, one);
    assert Order(one) == [key] && Front(Order(one)) == [] && Abs(one).lists[key] == [value];
    if Grouped(p) {
      GroupedMerge(p, one);
    }
  }

  lemma ContributionOfOne(front: seq<Pair>, x: Pair, key: string, value: string)
    ensures Contribution(front, x, [Pair(key, value)])
         == if x.key != key then [x] else if key in Keys(front) then [] else [Pair(key, value)]
  {
    var one := [Pair(key, value)];
    OnePair(one[0]);
    Snoc<string>([], value);
    assert [] + [value] == [value] && [] + one == one;
    assert Block(key, [value]) == one;
  }
}
