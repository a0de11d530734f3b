/**
 Flat lists of key and value, as query parameters are kept: what a key's values are, and the laws
 of merging one list into another, order included.
 */
module PairLists {
  import opened FormUrlencoded

  // ---------------------------------------------------------------- reading a list of pairs

  function Front<T>(p: seq<T>): seq<T>
    requires p != []
  {
    p[..|p| - 1]
  }

  function Last<T>(p: seq<T>): T
    requires p != []
  {
    p[|p| - 1]
  }

  function Keys(p: seq<Pair>): set<string> {
    if p == [] then {} else Keys(Front(p)) + {Last(p).key}
  }

  /** The values of one key, in list order. */
  function GetList(p: seq<Pair>, key: string): seq<string> {
    if p == [] then []
    else if Last(p).key == key then GetList(Front(p), key) + [Last(p).value]
    else GetList(Front(p), key)
  }

  /** The keys in order of first appearance. */
  function Order(p: seq<Pair>): seq<string> {
    if p == [] then []
    else if Last(p).key in Keys(Front(p)) then Order(Front(p))
    else Order(Front(p)) + [Last(p).key]
  }

  function Without(p: seq<Pair>, keys: set<string>): seq<Pair> {
    if p == [] then []
    else if Last(p).key in keys then Without(Front(p), keys)
    else Without(Front(p), keys) + [Last(p)]
  }

  /** The pairs of one key. */
  function Block(key: string, values: seq<string>): seq<Pair> {
    if values == [] then []
    else Block(key, Front(values)) + [Pair(key, Last(values))]
  }

  lemma Snoc<T>(p: seq<T>, x: T)
    ensures Front(p + [x]) == p && Last(p + [x]) == x && p + [x] != []
  {
  }

  lemma OnePair(x: Pair)
    ensures Keys([x]) == {x.key} && Order([x]) == [x.key]
    ensures forall keys :: Without([x], keys) == if x.key in keys then [] else [x]
    ensures forall key :: GetList([x], key) == if x.key == key then [x.value] else []
  {
    Snoc([], x);
    assert [] + [x] == [x];
  }

  lemma {:induction false} KeysAppend(a: seq<Pair>, b: seq<Pair>)
    ensures Keys(a + b) == Keys(a) + Keys(b)
    decreases |b|
  {
    if b == [] {
      assert a + b == a;
    } else {
      assert Front(a + b) == a + Front(b) && Last(a + b) == Last(b);
      KeysAppend(a, Front(b));
    }
  }

  lemma {:induction false} GetListAppend(a: seq<Pair>, b: seq<Pair>, key: string)
    ensures GetList(a + b, key) == GetList(a, key) + GetList(b, key)
    decreases |b|
  {
    if b == [] {
      assert a + b == a;
    } else {
      assert Front(a + b) == a + Front(b) && Last(a + b) == Last(b);
      GetListAppend(a, Front(b), key);
    }
  }

  lemma {:induction false} WithoutAppend(a: seq<Pair>, b: seq<Pair>, keys: set<string>)
    ensures Without(a + b, keys) == Without(a, keys) + Without(b, keys)
    decreases |b|
  {
    if b == [] {
      assert a + b == a;
    } else {
      assert Front(a + b) == a + Front(b) && Last(a + b) == Last(b);
      WithoutAppend(a, Front(b), keys);
    }
  }

  lemma {:induction false} GetListEmpty(p: seq<Pair>, key: string)
    ensures GetList(p, key) == [] <==> key !in Keys(p)
    decreases |p|
  {
    if p != [] {
      GetListEmpty(Front(p), key);
    }
  }

  lemma {:induction false} KeysWithout(p: seq<Pair>, keys: set<string>)
    ensures Keys(Without(p, keys)) == Keys(p) - keys
    decreases |p|
  {
    if p != [] {
      KeysWithout(Front(p), keys);
      Snoc(Without(Front(p), keys), Last(p));
    }
  }

  lemma {:induction false} KeysBlock(key: string, values: seq<string>)
    ensures Keys(Block(key, values)) == if values == [] then {} else {key}
    ensures |Block(key, values)| == |values|
    decreases |values|
  {
    if values != [] {
      KeysBlock(key, Front(values));
      Snoc(Block(key, Front(values)), Pair(key, Last(values)));
    }
  }

  lemma {:induction false} GetListBlock(key: string, values: seq<string>, k: string)
    ensures GetList(Block(key, values), k) == if k == key then values else []
    decreases |values|
  {
    if values != [] {
      GetListBlock(key, Front(values), k);
      Snoc(Block(key, Front(values)), Pair(key, Last(values)));
    }
  }

  lemma {:induction false} GetListWithout(p: seq<Pair>, keys: set<string>, k: string)
    ensures GetList(Without(p, keys), k) == if k in keys then [] else GetList(p, k)
    decreases |p|
  {
    if p != [] {
      GetListWithout(Front(p), keys, k);
      Snoc(Without(Front(p), keys), Last(p));
    }
  }

  lemma {:induction false} WithoutTwice(p: seq<Pair>, first: set<string>, second: set<string>)
    ensures Without(Without(p, first), second) == Without(p, first + second)
    decreases |p|
  {
    if p != [] {
      WithoutTwice(Front(p), first, second);
      Snoc(Without(Front(p), first), Last(p));
    }
  }

  lemma {:induction false} WithoutNothing(p: seq<Pair>, keys: set<string>)
    requires Keys(p) !! keys
    ensures Without(p, keys) == p
    decreases |p|
  {
    if p != [] {
      WithoutNothing(Front(p), keys);
    }
  }

  lemma {:induction false} WithoutAll(p: seq<Pair>, keys: set<string>)
    requires Keys(p) <= keys
    ensures Without(p, keys) == []
    decreases |p|
  {
    if p != [] {
      WithoutAll(Front(p), keys);
    }
  }

  // ---------------------------------------------------------------- merge and its laws

  /** What one pair of `a`, behind the pairs `front`, contributes to the merge. */
  function Contribution(front: seq<Pair>, x: Pair, b: seq<Pair>): seq<Pair> {
    if x.key !in Keys(b) then [x]
    else if x.key in Keys(front) then []
    else Block(x.key, GetList(b, x.key))
  }

  /** `a` with the values of `b` in place of its own, for the keys `b` has. */
  function Over(a: seq<Pair>, b: seq<Pair>): seq<Pair> {
    if a == [] then [] else Over(Front(a), b) + Contribution(Front(a), Last(a), b)
  }

  function Merged(a: seq<Pair>, b: seq<Pair>): seq<Pair> {
    Over(a, b) + Without(b, Keys(a))
  }

  lemma KeysContribution(front: seq<Pair>, x: Pair, b: seq<Pair>)
    ensures Keys(front) + Keys(Contribution(front, x, b)) == Keys(front) + {x.key}
    ensures Keys(Contribution(front, x, b)) <= {x.key}
  {
    hide Keys, GetList, Block;
    OnePair(x);
    GetListEmpty(b, x.key);
    KeysBlock(x.key, GetList(b, x.key));
    NoKeys();
  }

  lemma NoKeys()
    ensures Keys([]) == {}
  {
  }

  lemma {:induction false} KeysOver(a: seq<Pair>, b: seq<Pair>)
    ensures Keys(Over(a, b)) == Keys(a)
    decreases |a|
  {
    hide Contribution;
    if a != [] {
      var more := Contribution(Front(a), Last(a), b);
      KeysOver(Front(a), b);
      KeysAppend(Over(Front(a), b), more);
      KeysContribution(Front(a), Last(a), b);
    }
  }

  lemma KeysMerged(a: seq<Pair>, b: seq<Pair>)
    ensures Keys(Merged(a, b)) == Keys(a) + Keys(b)
  {
    KeysOver(a, b);
    KeysWithout(b, Keys(a));
    KeysAppend(Over(a, b), Without(b, Keys(a)));
  }

  lemma {:induction false} GetListOver(a: seq<Pair>, b: seq<Pair>, key: string)
    ensures GetList(Over(a, b), key)
         == if key in Keys(a) && key in Keys(b) then GetList(b, key) else GetList(a, key)
    decreases |a|
  {
    if a != [] {
      var front, x := Front(a), Last(a);
      GetListOver(front, b, key);
      GetListEmpty(front, key);
      GetListAppend(Over(front, b), Contribution(front, x, b), key);
      OnePair(x);
      GetListBlock(x.key, GetList(b, x.key), key);
    }
  }

  /** `other` wins for every key it carries. */
  lemma GetListMerged(a: seq<Pair>, b: seq<Pair>, key: string)
    ensures GetList(Merged(a, b), key) == if key in Keys(b) then GetList(b, key) else GetList(a, key)
  {
    GetListOver(a, b, key);
    GetListWithout(b, Keys(a), key);
    GetListEmpty(a, key);
    GetListEmpty(b, key);
    GetListAppend(Over(a, b), Without(b, Keys(a)), key);
  }

  lemma OverSnoc(a: seq<Pair>, x: Pair, c: seq<Pair>)
    ensures Over(a + [x], c) == Over(a, c) + Contribution(a, x, c)
  {
    Snoc(a, x);
  }

  /** Overriding a run of pairs with one key that did not appear before it. */
  lemma {:induction false} OverBlock(front: seq<Pair>, key: string, values: seq<string>, c: seq<Pair>)
    requires key !in Keys(front) && values != []
    ensures Over(front + Block(key, values), c)
         == Over(front, c) + if key in Keys(c) then Block(key, GetList(c, key)) else Block(key, values)
    decreases |values|
  {
    hide GetList, Over, Keys;
    var before, x := Block(key, Front(values)), Pair(key, Last(values));
    assert front + (before + [x]) == (front + before) + [x];
    OverSnoc(front + before, x, c);
    KeysAppend(front, before);
    KeysBlock(key, Front(values));
    if Front(values) == [] {
      assert before == [] && front + before == front && before + [x] == [x];
    } else {
      OverBlock(front, key, Front(values), c);
      assert (Over(front, c) + before) + [x] == Over(front, c) + (before + [x]);
      assert forall p: seq<Pair> :: p + [] == p;
    }
  }

  lemma {:induction false} OverOver(a: seq<Pair>, b: seq<Pair>, c: seq<Pair>)
    ensures Over(Over(a, b), c) == Over(a, Merged(b, c))
    decreases |a|
  {
    hide GetList, Keys, Block, Merged;
    if a != [] {
      var front, x := Front(a), Last(a);
      OverOver(front, b, c);
      GetListMerged(b, c, x.key);
      KeysMerged(b, c);
      KeysOver(front, b);
      GetListEmpty(b, x.key);
      var out := Over(front, b);
      if x.key !in Keys(b) {
        OverSnoc(out, x, c);
      } else if x.key in Keys(front) {
        assert out + [] == out;
      } else {
        OverBlock(out, x.key, GetList(b, x.key), c);
      }
    }
  }

  lemma KeysSnoc(a: seq<Pair>, x: Pair)
    ensures Keys(a + [x]) == Keys(a) + {x.key}
  {
    Snoc(a, x);
  }

  /** Behind pairs with other keys, overriding goes on as from the start. */
  lemma {:induction false} OverAppend(a: seq<Pair>, b: seq<Pair>, c: seq<Pair>)
    requires Keys(a) !! Keys(b)
    ensures Over(a + b, c) == Over(a, c) + Over(b, c)
    decreases |b|
  {
    hide GetList, Block, Over, Keys;
    if b == [] {
      assert a + b == a;
      OverNothing(c);
    } else {
      var front, x := Front(b), Last(b);
      assert b == front + [x];
      assert a + b == (a + front) + [x];
      KeysSnoc(front, x);
      KeysAppend(a, front);
      OverAppend(a, front, c);
      assert Contribution(a + front, x, c) == Contribution(front, x, c);
      OverSnoc(a + front, x, c);
      OverSnoc(front, x, c);
    }
  }

  lemma OverNothing(c: seq<Pair>)
    ensures Over([], c) == []
  {
  }

  lemma {:induction false} WithoutOver(b: seq<Pair>, c: seq<Pair>, keys: set<string>)
    ensures Without(Over(b, c), keys) == Over(Without(b, keys), c)
    decreases |b|
  {
    hide GetList, Block, Keys;
    if b != [] {
      var front, x := Front(b), Last(b);
      var more, rest := Contribution(front, x, c), Without(front, keys);
      WithoutOver(front, c, keys);
      WithoutAppend(Over(front, c), more, keys);
      KeysContribution(front, x, c);
      if x.key in keys {
        WithoutAll(more, keys);
        assert rest + [] == rest;
      } else {
        WithoutNothing(more, keys);
        KeysWithout(front, keys);
        OverSnoc(rest, x, c);
        assert Contribution(rest, x, c) == more;
      }
    }
  }

  /** Merging is associative on all lists, order included. */
  lemma MergeAssociative(a: seq<Pair>, b: seq<Pair>, c: seq<Pair>)
    ensures Merged(Merged(a, b), c) == Merged(a, Merged(b, c))
  {
    hide Over, Without, Keys;
    var extra := Without(b, Keys(a));
    KeysOver(a, b);
    KeysWithout(b, Keys(a));
    KeysMerged(a, b);
    OverAppend(Over(a, b), extra, c);
    OverOver(a, b, c);
    WithoutOver(b, c, Keys(a));
    WithoutAppend(Over(b, c), Without(c, Keys(b)), Keys(a));
    WithoutTwice(c, Keys(b), Keys(a));
    assert Keys(a) + Keys(b) == Keys(b) + Keys(a);
  }

  lemma {:induction false} OverUnit(a: seq<Pair>)
    ensures Over(a, []) == a
    decreases |a|
  {
    hide Contribution, Keys, Over;
    if a == [] {
      OverNothing([]);
    } else {
      var front, x := Front(a), Last(a);
      assert a == front + [x];
      OverSnoc(front, x, []);
      Unchanged(front, x);
      OverUnit(front);
    }
  }

  lemma Unchanged(front: seq<Pair>, x: Pair)
    ensures Contribution(front, x, []) == [x]
  {
    NoKeys();
  }

  lemma MergeUnit(a: seq<Pair>)
    ensures Merged(a, []) == a && Merged([], a) == a
  {
    OverUnit(a);
    WithoutNothing(a, {});
    assert a + [] == a && [] + a == a;
  }
}
