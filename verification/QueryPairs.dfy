/**
 Query parameters: a flat list of pairs that stands for the insertion-ordered
 `dict[str, list[str]]` of httpx.  Each method is tied to the list laws and to that dict.
 */
module QueryParams {
  import opened Prelude
  import opened FormUrlencoded
  import opened PairLists
  import opened PairDicts
  import opened PairGroups

  datatype Scalar = Bool(b: bool) | String(s: string) | Int(i: int) | Float(display: string)

  /** The text of one `params=` value; a missing one is empty. */
  function ScalarText(value: Option<Scalar>): string {
    match value
    case None => ""
    case Some(Bool(b)) => if b then "true" else "false"
    case Some(String(s)) => s
    case Some(Int(i)) => Decimal(i)
    case Some(Float(display)) => display
  }

  type Item = (string, seq<Option<Scalar>>)

  function ItemPairs(key: string, values: seq<Option<Scalar>>): seq<Pair> {
    if values == [] then [] else ItemPairs(key, Front(values)) + [Pair(key, ScalarText(Last(values)))]
  }

  function AllPairs(items: seq<Item>): seq<Pair> {
    if items == [] then [] else AllPairs(Front(items)) + ItemPairs(Last(items).0, Last(items).1)
  }

  /** How a value shows on the wire: an integer in base ten, a missing value as nothing. */
  predicate Shows(value: Option<Scalar>, text: string) {
    match value
    case None => text == ""
    case Some(Bool(b)) => text == if b then "true" else "false"
    case Some(String(s)) => text == s
    case Some(Int(i)) => Spells(text, i)
    case Some(Float(display)) => text == display
  }

  function Values(items: seq<Item>): nat {
    if items == [] then 0 else |items[0].1| + Values(items[1..])
  }

  lemma ScalarShows(value: Option<Scalar>)
    ensures Shows(value, ScalarText(value))
  {
    hide Spells, Decimal;
    if value.Some? && value.value.Int? {
      DecimalSpells(Decimal(value.value.i), value.value.i);
    }
  }

  lemma {:induction false} ItemPairAt(key: string, values: seq<Option<Scalar>>, j: nat)
    ensures |ItemPairs(key, values)| == |values|
    ensures j < |values| ==> ItemPairs(key, values)[j].key == key && Shows(values[j], ItemPairs(key, values)[j].value)
    decreases |values|
  {
    hide Shows;
    if values != [] {
      ItemPairAt(key, Front(values), j);
      ScalarShows(Last(values));
    }
  }

  lemma {:induction false} ValuesSnoc(items: seq<Item>, x: Item)
    ensures Values(items + [x]) == Values(items) + |x.1|
    decreases |items|
  {
    if items != [] {
      assert (items + [x])[1..] == items[1..] + [x];
      ValuesSnoc(items[1..], x);
    }
  }

  /** One pair for every value, item by item, under the key of its item. */
  lemma {:induction false} EveryValueShows(items: seq<Item>, i: nat, j: nat)
    ensures |AllPairs(items)| == Values(items)
    ensures i < |items| && j < |items[i].1| ==>
              var at := Values(items[..i]) + j;
              at < Values(items) && AllPairs(items)[at].key == items[i].0 && Shows(items[i].1[j], AllPairs(items)[at].value)
    decreases |items|
  {
    hide Shows, ItemPairs;
    if items != [] {
      var front, last := Front(items), Last(items);
      assert items == front + [last];
      ValuesSnoc(front, last);
      EveryValueShows(front, i, j);
      ItemPairAt(last.0, last.1, j);
      if i < |front| {
        assert front[..i] == items[..i];
      } else if i == |front| {
        assert items[..i] == front;
      }
    }
  }

  lemma {:induction false} PushAllAppend(p: seq<Pair>, xs: seq<Pair>, ys: seq<Pair>)
    ensures PushAll(p, xs + ys) == PushAll(PushAll(p, xs), ys)
    decreases |ys|
  {
    hide Pushed;
    if ys == [] {
      assert xs + ys == xs;
    } else {
      assert Front(xs + ys) == xs + Front(ys) && Last(xs + ys) == Last(ys);
      PushAllAppend(p, xs, Front(ys));
    }
  }

  class QueryPairs {
    var pairs: seq<Pair>

    constructor (pairs: seq<Pair>)
      ensures this.pairs == pairs
    {
      this.pairs := pairs;
    }

    /** The invariant of every list built here. */
    ghost predicate Valid()
      reads this
    {
      Grouped(pairs)
    }

    method Push(key: string, value: string)
      modifies this
      ensures pairs == Pushed(old(pairs), Pair(key, value))
      ensures Abs(pairs) == Append(old(Abs(pairs)), key, value)
      ensures old(Valid()) ==> Valid()
    {
      hide Abs, Append, Grouped, Keys, RPosition;
      PushIsAppend(pairs, Pair(key, value));
      if Valid() {
        GroupedPush(pairs, Pair(key, value));
      }
      var last := RPosition(pairs, key);
      RPositionIsLast(pairs, key);
      match last
      case Some(at) => pairs := pairs[..at + 1] + ([Pair(key, value)] + pairs[at + 1..]);
      case None => pairs := pairs + [Pair(key, value)];
    }

    static method ParseQuery(query: seq<byte>) returns (out: QueryPairs)
      ensures fresh(out) && out.Valid()
      ensures Abs(out.pairs) == Abs(Parse(query))
      ensures forall p :: query == Serialize(p) && Grouped(p) ==> out.pairs == p
    {
      hide Grouped, Abs, Pushed, Parse, Append;
      out := new QueryPairs([]);
      var decoded := Parse(query);
      for i := 0 to |decoded|
        invariant fresh(out) && out.pairs == PushAll([], decoded[..i])
      {
        out.Push(decoded[i].key, decoded[i].value);
        assert decoded[..i + 1] == decoded[..i] + [decoded[i]];
        Snoc(decoded[..i], decoded[i]);
      }
      assert decoded[..|decoded|] == decoded;
      PushAllAppends(decoded);
      forall p | query == Serialize(p) && Grouped(p)
        ensures out.pairs == p
      {
        QueryRoundTrip(p);
      }
    }

    static method FromItems(items: seq<Item>) returns (out: QueryPairs)
      ensures fresh(out) && out.Valid()
      ensures out.pairs == PushAll([], AllPairs(items))
      ensures Abs(out.pairs) == Abs(AllPairs(items))
    {
      hide Grouped, Abs, Pushed, Append;
      out := new QueryPairs([]);
      for i := 0 to |items|
        invariant fresh(out) && out.pairs == PushAll([], AllPairs(items[..i]))
      {
        var key, values := items[i].0, items[i].1;
        ghost var before := out.pairs;
        for j := 0 to |values|
          invariant fresh(out) && out.pairs == PushAll(before, ItemPairs(key, values[..j]))
        {
          out.Push(key, ScalarText(values[j]));
          assert values[..j + 1] == values[..j] + [values[j]];
          Snoc(values[..j], values[j]);
          Snoc(ItemPairs(key, values[..j]), Pair(key, ScalarText(values[j])));
        }
        assert values[..|values|] == values;
        assert items[..i + 1] == items[..i] + [items[i]];
        Snoc(items[..i], items[i]);
        PushAllAppend([], AllPairs(items[..i]), ItemPairs(key, values));
      }
      assert items[..|items|] == items;
      PushAllAppends(AllPairs(items));
    }

    method KeyOrder() returns (keys: seq<string>)
      ensures keys == Order(pairs)
    {
      hide Keys;
      keys := [];
      for i := 0 to |pairs|
        invariant keys == Order(pairs[..i])
      {
        assert pairs[..i + 1] == pairs[..i] + [pairs[i]];
        OrderIsKeys(pairs[..i]);
        OrderSnoc(pairs[..i], pairs[i]);
        if pairs[i].key !in keys {
          keys := keys + [pairs[i].key];
        }
      }
      assert pairs[..|pairs|] == pairs;
    }

    method Set(key: string, value: string) returns (out: QueryPairs)
      ensures fresh(out) && out.pairs == Merged(pairs, [Pair(key, value)])
      ensures Abs(out.pairs) == Put(Abs(pairs), key, [value])
      ensures Valid() ==> out.Valid()
    {
      hide Keys, Abs, Put, Grouped, Over, Contribution;
      var list, replaced := [], false;
      ghost var one := [Pair(key, value)];
      NoKeys();
      OverNothing(one);
      for i := 0 to |pairs|
        invariant list == Over(pairs[..i], one)
        invariant replaced == (key in Keys(pairs[..i]))
      {
        var x := pairs[i];
        assert pairs[..i + 1] == pairs[..i] + [x];
        OverSnoc(pairs[..i], x, one);
        ContributionOfOne(pairs[..i], x, key, value);
        KeysSnoc(pairs[..i], x);
        if x.key != key {
          list := list + [x];
        } else if !replaced {
          list := list + [Pair(key, value)];
          replaced := true;
        } else {
          assert list + [] == list;
        }
      }
      assert pairs[..|pairs|] == pairs;
      OnePair(one[0]);
      if !replaced {
        list := list + [Pair(key, value)];
      } else {
        assert list + [] == list;
      }
      SetIsPut(pairs, key, value);
      out := new QueryPairs(list);
    }

    method Add(key: string, value: string) returns (out: QueryPairs)
      ensures fresh(out) && out.pairs == Pushed(pairs, Pair(key, value))
      ensures Abs(out.pairs) == Append(Abs(pairs), key, value)
      ensures Valid() ==> out.Valid()
    {
      out := new QueryPairs(pairs);
      out.Push(key, value);
    }

    method Remove(key: string) returns (out: QueryPairs)
      ensures fresh(out) && Abs(out.pairs) == Drop(Abs(pairs), key)
      ensures out.pairs == Without(pairs, {key})
      ensures Valid() ==> out.Valid()
    {
      RemoveIsDrop(pairs, key);
      if Valid() {
        GroupedWithout(pairs, {key});
      }
      out := new QueryPairs(Without(pairs, {key}));
    }

    method Merge(other: QueryPairs) returns (out: QueryPairs)
      ensures fresh(out) && out.pairs == Merged(pairs, other.pairs)
      ensures Valid() && other.Valid() ==> out.Valid()
    {
      hide Keys, Grouped, GetList, Block;
      var list, taken := [], [];
      NoKeys();
      for i := 0 to |pairs|
        invariant list == Over(pairs[..i], other.pairs)
        invariant forall key :: key in taken <==> key in Keys(pairs[..i]) && key in Keys(other.pairs)
      {
        var x := pairs[i];
        assert pairs[..i + 1] == pairs[..i] + [x];
        OverSnoc(pairs[..i], x, other.pairs);
        KeysSnoc(pairs[..i], x);
        if x.key !in Keys(other.pairs) {
          list := list + [x];
          continue;
        }
        if x.key !in taken {
          taken := taken + [x.key];
          list := list + Block(x.key, GetList(other.pairs, x.key));
        } else {
          assert list + [] == list;
        }
      }
      assert pairs[..|pairs|] == pairs;
      ghost var over := list;
      assert over + [] == over;
      for i := 0 to |other.pairs|
        invariant list == over + Without(other.pairs[..i], Keys(pairs))
      {
        var x := other.pairs[i];
        assert other.pairs[..i + 1] == other.pairs[..i] + [x];
        Snoc(other.pairs[..i], x);
        KeyAt(other.pairs, x.key);
        assert x.key in Keys(other.pairs);
        if x.key !in taken {
          list := list + [x];
        }
      }
      assert other.pairs[..|other.pairs|] == other.pairs;
      if Valid() && other.Valid() {
        GroupedMerge(pairs, other.pairs);
      }
      out := new QueryPairs(list);
    }

    /** `to_string`: read back, the text gives this very list when it is grouped. */
    method Display() returns (text: seq<byte>)
      ensures text == Serialize(pairs)
      ensures Valid() ==> PushAll([], Parse(text)) == pairs
    {
      text := [];
      for i := 0 to |pairs|
        invariant text == Serialize(pairs[..i])
      {
        assert pairs[..i + 1] == pairs[..i] + [pairs[i]];
        SerializeSnoc(pairs[..i], pairs[i]);
        text := if text != [] then text + [AMPERSAND] else text;
        text := text + Written(pairs[i]);
      }
      assert pairs[..|pairs|] == pairs;
      QueryRoundTrip(pairs);
    }
  }
}
