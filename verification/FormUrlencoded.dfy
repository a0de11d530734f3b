/**
 The `application/x-www-form-urlencoded` serializer and parser of section 5 of the
 WHATWG URL Standard, which `to_string` and `parse` call. Text on the wire is bytes.
 */
module FormUrlencoded {
  import opened Prelude
  import opened Utf8

  datatype Pair = Pair(key: string, value: string)

  const AMPERSAND: byte := 0x26
  const EQUALS: byte := 0x3D
  const PERCENT: byte := 0x25
  const PLUS: byte := 0x2B
  const SPACE: byte := 0x20

  /** The bytes written as themselves: `*-._` and the ASCII letters and digits. */
  predicate Unchanged(b: byte) {
    || b == 0x2A || b == 0x2D || b == 0x2E || b == 0x5F
    || 0x30 <= b <= 0x39 || 0x41 <= b <= 0x5A || 0x61 <= b <= 0x7A
  }

  function HexDigit(n: nat): byte
    requires n < 16
  {
    if n < 10 then 0x30 + n else 0x41 + (n - 10)
  }

  /** Either case is accepted when reading. */
  function HexValue(b: byte): Option<nat> {
    if 0x30 <= b <= 0x39 then Some(b - 0x30)
    else if 0x41 <= b <= 0x46 then Some(b - 0x41 + 10)
    else if 0x61 <= b <= 0x66 then Some(b - 0x61 + 10)
    else None
  }

  function EscapeByte(b: byte): Bytes {
    if Unchanged(b) then [b]
    else if b == SPACE then [PLUS]
    else [PERCENT, HexDigit(b / 16), HexDigit(b % 16)]
  }

  function Escape(bytes: Bytes): Bytes {
    if bytes == [] then [] else EscapeByte(bytes[0]) + Escape(bytes[1..])
  }

  /** `+` is a space, `%` with two hex digits a byte, everything else itself. */
  function Unescape(bytes: Bytes): Bytes
    decreases |bytes|
  {
    if bytes == [] then []
    else if bytes[0] == PLUS then [SPACE] + Unescape(bytes[1..])
    else if bytes[0] == PERCENT && |bytes| > 2 && HexValue(bytes[1]).Some? && HexValue(bytes[2]).Some? then
      [16 * HexValue(bytes[1]).value + HexValue(bytes[2]).value] + Unescape(bytes[3..])
    else [bytes[0]] + Unescape(bytes[1..])
  }

  function Written(x: Pair): Bytes {
    Escape(Encode(x.key)) + [EQUALS] + Escape(Encode(x.value))
  }

  function WrittenAfter(p: seq<Pair>): Bytes {
    if p == [] then [] else [AMPERSAND] + (Written(p[0]) + WrittenAfter(p[1..]))
  }

  function Serialize(p: seq<Pair>): Bytes {
    if p == [] then [] else Written(p[0]) + WrittenAfter(p[1..])
  }

  /** One pair more: a separator goes in front unless nothing was written before. */
  lemma SerializeSnoc(p: seq<Pair>, x: Pair)
    ensures Serialize(p + [x]) == (if Serialize(p) == [] then [] else Serialize(p) + [AMPERSAND]) + Written(x)
  {
    hide Written, WrittenAfter;
    if p == [] {
      SerializeOne(x);
      assert p + [x] == [x] && [] + Written(x) == Written(x);
    } else {
      var first, rest := Written(p[0]), WrittenAfter(p[1..]);
      assert (p + [x])[1..] == p[1..] + [x];
      WrittenAfterSnoc(p[1..], x);
      WrittenIsSomething(p[0]);
      Regroup(first, rest, [AMPERSAND], Written(x));
    }
  }

  lemma SerializeOne(x: Pair)
    ensures Serialize([x]) == Written(x)
  {
    hide Written;
    assert [x][1..] == [] && Written(x) + [] == Written(x);
  }

  lemma Regroup(a: Bytes, b: Bytes, c: Bytes, d: Bytes)
    ensures a + (b + (c + d)) == ((a + b) + c) + d
  {
  }

  lemma WrittenIsSomething(x: Pair)
    ensures Written(x) != []
  {
  }

  lemma {:induction false} WrittenAfterSnoc(p: seq<Pair>, x: Pair)
    ensures WrittenAfter(p + [x]) == WrittenAfter(p) + ([AMPERSAND] + Written(x))
  {
    hide Written;
    if p == [] {
      assert p + [x] == [x] && Written(x) + [] == Written(x);
    } else {
      assert (p + [x])[1..] == p[1..] + [x];
      WrittenAfterSnoc(p[1..], x);
    }
  }

  /** The first index of `b`, or the length. */
  function IndexOf(bytes: Bytes, b: byte): (i: nat)
    ensures i <= |bytes| && (i < |bytes| ==> bytes[i] == b)
  {
    if bytes == [] || bytes[0] == b then 0 else 1 + IndexOf(bytes[1..], b)
  }

  function Before(bytes: Bytes, b: byte): Bytes {
    bytes[..IndexOf(bytes, b)]
  }

  function After(bytes: Bytes, b: byte): (rest: Bytes)
    ensures bytes != [] ==> |rest| < |bytes|
  {
    if IndexOf(bytes, b) == |bytes| then [] else bytes[IndexOf(bytes, b) + 1..]
  }

  function ReadPair(segment: Bytes): Pair {
    Pair(Decode(Unescape(Before(segment, EQUALS))), Decode(Unescape(After(segment, EQUALS))))
  }

  /** Segments between `&`, the empty ones skipped. */
  function Parse(bytes: Bytes): seq<Pair>
    decreases |bytes|
  {
    if bytes == [] then []
    else
      var segment, rest := Before(bytes, AMPERSAND), After(bytes, AMPERSAND);
      (if segment == [] then [] else [ReadPair(segment)]) + Parse(rest)
  }

  // ---------------------------------------------------------------- reading undoes writing

  lemma HexRoundTrip(n: nat)
    requires n < 16
    ensures HexValue(HexDigit(n)) == Some(n)
  {
  }

  lemma UnescapePercent(hi: nat, lo: nat, rest: Bytes)
    requires hi < 16 && lo < 16
    ensures Unescape([PERCENT, HexDigit(hi), HexDigit(lo)] + rest) == [16 * hi + lo] + Unescape(rest)
  {
    HexRoundTrip(hi);
    HexRoundTrip(lo);
    hide HexValue, HexDigit;
    assert ([PERCENT, HexDigit(hi), HexDigit(lo)] + rest)[3..] == rest;
  }

  lemma UnescapeOne(b: byte, rest: Bytes)
    requires b != PERCENT
    ensures Unescape([b] + rest) == [if b == PLUS then SPACE else b] + Unescape(rest)
  {
    assert ([b] + rest)[1..] == rest;
  }

  lemma UnescapeByte(b: byte, rest: Bytes)
    ensures Unescape(EscapeByte(b) + rest) == [b] + Unescape(rest)
  {
    hide Unescape, HexDigit;
    if Unchanged(b) {
      UnescapeOne(b, rest);
    } else if b == SPACE {
      UnescapeOne(PLUS, rest);
    } else {
      UnescapePercent(b / 16, b % 16, rest);
    }
  }

  lemma {:induction false} UnescapeEscape(bytes: Bytes)
    ensures Unescape(Escape(bytes)) == bytes
  {
    hide Unescape, EscapeByte;
    if bytes == [] {
      UnescapeNothing();
    } else {
      UnescapeByte(bytes[0], Escape(bytes[1..]));
      UnescapeEscape(bytes[1..]);
    }
  }

  lemma UnescapeNothing()
    ensures Unescape([]) == []
  {
  }

  lemma {:induction false} EscapedIsPlain(bytes: Bytes)
    ensures AMPERSAND !in Escape(bytes) && EQUALS !in Escape(bytes)
  {
    if bytes != [] {
      EscapedIsPlain(bytes[1..]);
    }
  }

  lemma {:induction false} SplitAt(a: Bytes, b: byte, c: Bytes)
    requires b !in a
    ensures Before(a + [b] + c, b) == a && After(a + [b] + c, b) == c
  {
    var bytes := a + [b] + c;
    FirstIndex(a, b, c);
    assert bytes[..|a|] == a && bytes[|a| + 1..] == c;
  }

  lemma {:induction false} FirstIndex(a: Bytes, b: byte, c: Bytes)
    requires b !in a
    ensures IndexOf(a + [b] + c, b) == |a|
    decreases |a|
  {
    if a != [] {
      assert (a + [b] + c)[1..] == a[1..] + [b] + c;
      FirstIndex(a[1..], b, c);
    }
  }

  lemma {:induction false} NoIndex(a: Bytes, b: byte)
    requires b !in a
    ensures Before(a, b) == a && After(a, b) == []
  {
    if a != [] {
      NoIndex(a[1..], b);
    }
  }

  lemma ReadWritten(x: Pair)
    ensures ReadPair(Written(x)) == x && AMPERSAND !in Written(x) && Written(x) != []
  {
    var key, value := Encode(x.key), Encode(x.value);
    EscapedIsPlain(key);
    EscapedIsPlain(value);
    SplitAt(Escape(key), EQUALS, Escape(value));
    UnescapeEscape(key);
    UnescapeEscape(value);
    DecodeEncode(x.key);
    DecodeEncode(x.value);
  }

  /** Every list of pairs survives being written and read, empty keys and values included. */
  lemma {:induction false} ParseSerialize(p: seq<Pair>)
    ensures Parse(Serialize(p)) == p
    decreases |p|
  {
    hide Written, ReadPair, Before, After;
    if p != [] {
      var first, rest := Written(p[0]), p[1..];
      ReadWritten(p[0]);
      if rest == [] {
        NoIndex(first, AMPERSAND);
        assert first + [] == first;
        assert Parse([]) == [];
      } else {
        assert Serialize(p) == first + [AMPERSAND] + Serialize(rest);
        SplitAt(first, AMPERSAND, Serialize(rest));
        ParseSerialize(rest);
      }
    }
  }
}
