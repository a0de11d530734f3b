/**
 What parsing means for any query text, whoever wrote it, and how text is written: section 5 of the
 WHATWG URL Standard, with the percent-decoding of its section 1.3, said without the loops that
 read and write.
 */
module FormReading {
  import opened Prelude
  import opened Utf8
  import opened FormUrlencoded

  // ---------------------------------------------------------------- percent-encoded text

  /** A hexadecimal digit of either case, and what it is worth. */
  predicate IsHex(b: byte, n: nat) {
    n < 16 && (b as char == "0123456789ABCDEF"[n] || b as char == "0123456789abcdef"[n])
  }

  /** One stretch of encoded text and the byte it stands for. */
  datatype Token = Plain(b: byte) | Space | Percent(hi: byte, lo: byte, b: byte)

  function RawOf(token: Token): Bytes {
    match token
    case Plain(b) => [b]
    case Space => ['+' as int]
    case Percent(hi, lo, _) => ['%' as int, hi, lo]
  }

  function MeaningOf(token: Token): byte {
    match token
    case Plain(b) => b
    case Space => ' ' as int
    case Percent(_, _, b) => b
  }

  function Raw(tokens: seq<Token>): Bytes {
    if tokens == [] then [] else RawOf(tokens[0]) + Raw(tokens[1..])
  }

  function Meaning(tokens: seq<Token>): Bytes {
    if tokens == [] then [] else [MeaningOf(tokens[0])] + Meaning(tokens[1..])
  }

  predicate TwoHex(text: Bytes) {
    |text| >= 2 && (exists n | 0 <= n < 16 :: IsHex(text[0], n)) && exists n | 0 <= n < 16 :: IsHex(text[1], n)
  }

  predicate IsPercent(token: Token) {
    token.Percent? && exists h, l | 0 <= h < 16 && 0 <= l < 16 ::
      IsHex(token.hi, h) && IsHex(token.lo, l) && token.b == 16 * h + l
  }

  /** A reading of text: `+` is a space, `%` in front of two digits their byte, and nothing else is special. */
  predicate Reading(tokens: seq<Token>) {
    tokens == [] ||
    (Reading(tokens[1..])
     && match tokens[0]
        case Plain(b) => b as char != '+' && (b as char == '%' ==> !TwoHex(Raw(tokens[1..])))
        case Space => true
        case Percent(_, _, _) => IsPercent(tokens[0]))
  }

  lemma UpperHex(n: nat)
    requires n < 16
    ensures "0123456789ABCDEF"[n] as int == if n < 10 then 0x30 + n else 0x37 + n
  {
  }

  lemma LowerHex(n: nat)
    requires n < 16
    ensures "0123456789abcdef"[n] as int == if n < 10 then 0x30 + n else 0x57 + n
  {
  }

  lemma HexIs(b: byte, n: nat)
    ensures IsHex(b, n) <==> HexValue(b) == Some(n)
  {
    if n < 16 {
      UpperHex(n);
      LowerHex(n);
    }
  }

  lemma TwoHexIs(text: Bytes)
    ensures TwoHex(text) <==> |text| >= 2 && HexValue(text[0]).Some? && HexValue(text[1]).Some?
  {
    if |text| >= 2 {
      forall n: nat
        ensures IsHex(text[0], n) <==> HexValue(text[0]) == Some(n)
        ensures IsHex(text[1], n) <==> HexValue(text[1]) == Some(n)
      {
        HexIs(text[0], n);
        HexIs(text[1], n);
      }
      HexBelow16(text[0]);
      HexBelow16(text[1]);
      hide HexValue, IsHex;
      if HexValue(text[0]).Some? && HexValue(text[1]).Some? {
        assert IsHex(text[0], HexValue(text[0]).value) && IsHex(text[1], HexValue(text[1]).value);
      }
    }
  }

  lemma HexBelow16(b: byte)
    ensures HexValue(b).Some? ==> HexValue(b).value < 16
  {
  }

  lemma PercentIs(token: Token)
    ensures IsPercent(token) <==>
              && token.Percent? && HexValue(token.hi).Some? && HexValue(token.lo).Some?
              && token.b == 16 * HexValue(token.hi).value + HexValue(token.lo).value
  {
    if token.Percent? {
      forall n: nat
        ensures IsHex(token.hi, n) <==> HexValue(token.hi) == Some(n)
        ensures IsHex(token.lo, n) <==> HexValue(token.lo) == Some(n)
      {
        HexIs(token.hi, n);
        HexIs(token.lo, n);
      }
      HexBelow16(token.hi);
      HexBelow16(token.lo);
      hide HexValue, IsHex;
      if HexValue(token.hi).Some? && HexValue(token.lo).Some? {
        assert IsHex(token.hi, HexValue(token.hi).value) && IsHex(token.lo, HexValue(token.lo).value);
      }
    }
  }

  lemma PlainUnescaped(b: byte, rest: Bytes)
    requires b != PLUS && (b == PERCENT ==> !TwoHex(rest))
    ensures Unescape([b] + rest) == [b] + Unescape(rest)
  {
    TwoHexIs(rest);
    hide TwoHex, HexValue;
    assert ([b] + rest)[1..] == rest;
    assert |rest| >= 2 ==> ([b] + rest)[1] == rest[0] && ([b] + rest)[2] == rest[1];
  }

  lemma PercentUnescaped(token: Token, rest: Bytes)
    requires IsPercent(token)
    ensures Unescape(RawOf(token) + rest) == [token.b] + Unescape(rest)
  {
    PercentIs(token);
    hide IsPercent, HexValue;
    assert (RawOf(token) + rest)[3..] == rest;
  }

  lemma SpaceUnescaped(rest: Bytes)
    ensures Unescape([PLUS] + rest) == [SPACE] + Unescape(rest)
  {
    assert ([PLUS] + rest)[1..] == rest;
  }

  /** Decoding gives exactly what any reading of the text means, upper or lower case alike. */
  lemma {:induction false} UnescapeReads(tokens: seq<Token>)
    requires Reading(tokens)
    ensures Unescape(Raw(tokens)) == Meaning(tokens)
    decreases |tokens|
  {
    hide Unescape, IsPercent, TwoHex;
    if tokens == [] {
      UnescapeNothing();
    } else {
      UnescapeReads(tokens[1..]);
      var rest := Raw(tokens[1..]);
      match tokens[0] {
        case Plain(b) => PlainUnescaped(b, rest);
        case Space => SpaceUnescaped(rest);
        case Percent(_, _, _) => PercentUnescaped(tokens[0], rest);
      }
    }
  }

  /** Every text has such a reading, so decoding is determined on all of them. */
  lemma {:induction false} EveryTextReads(text: Bytes) returns (tokens: seq<Token>)
    ensures Reading(tokens) && Raw(tokens) == text
    decreases |text|
  {
    hide IsPercent, TwoHex, HexValue;
    if text == [] {
      return [];
    }
    if text[0] == PLUS {
      var rest := EveryTextReads(text[1..]);
      tokens := [Space] + rest;
      assert tokens[1..] == rest && [PLUS] + text[1..] == text;
    } else if text[0] == PERCENT && TwoHex(text[1..]) {
      TwoHexIs(text[1..]);
      assert text[1..][0] == text[1] && text[1..][1] == text[2];
      HexBelow16(text[1]);
      HexBelow16(text[2]);
      var first := Percent(text[1], text[2], 16 * HexValue(text[1]).value + HexValue(text[2]).value);
      PercentIs(first);
      var rest := EveryTextReads(text[3..]);
      tokens := [first] + rest;
      assert tokens[1..] == rest && [PERCENT, text[1], text[2]] + text[3..] == text;
    } else {
      var rest := EveryTextReads(text[1..]);
      tokens := [Plain(text[0])] + rest;
      assert tokens[1..] == rest && [text[0]] + text[1..] == text;
    }
  }

  /** The characters written as themselves. */
  predicate Unreserved(c: char) {
    'a' <= c <= 'z' || 'A' <= c <= 'Z' || '0' <= c <= '9' || c in {'*', '-', '.', '_'}
  }

  /** How one byte is written: as itself, as `+` for a space, else as `%` and two upper-case digits. */
  lemma EscapeByteExactly(b: byte)
    ensures EscapeByte(b)
         == if Unreserved(b as char) then [b]
            else if b as char == ' ' then ['+' as int]
            else ['%' as int, "0123456789ABCDEF"[b / 16] as int, "0123456789ABCDEF"[b % 16] as int]
  {
    UpperHex(b / 16);
    UpperHex(b % 16);
  }

  // ---------------------------------------------------------------- pairs

  /** Segments with `&` between them. */
  function Joined(segments: seq<Bytes>): Bytes {
    if segments == [] then []
    else if |segments| == 1 then segments[0]
    else segments[0] + ['&' as int] + Joined(segments[1..])
  }

  /** A name, and behind the first `=` a value; both decoded, and a missing value empty. */
  predicate Names(segment: Bytes, pair: Pair) {
    exists n | 0 <= n <= |segment| ::
      && '=' as int !in segment[..n]
      && pair.key == Decode(Unescape(segment[..n]))
      && if n == |segment| then pair.value == "" else
           segment[n] == '=' as int && pair.value == Decode(Unescape(segment[n + 1..]))
  }

  /** The pairs of the segments that are not empty, in order. */
  predicate Lists(segments: seq<Bytes>, pairs: seq<Pair>) {
    if segments == [] then pairs == []
    else if segments[0] == [] then Lists(segments[1..], pairs)
    else pairs != [] && Names(segments[0], pairs[0]) && Lists(segments[1..], pairs[1..])
  }

  lemma {:induction false} IndexIsFirst(bytes: Bytes, b: byte)
    ensures b !in bytes[..IndexOf(bytes, b)]
    decreases |bytes|
  {
    if bytes != [] && bytes[0] != b {
      IndexIsFirst(bytes[1..], b);
      var i := IndexOf(bytes, b);
      assert bytes[..i] == [bytes[0]] + bytes[1..][..i - 1];
    }
  }

  lemma ReadNames(segment: Bytes)
    ensures Names(segment, ReadPair(segment))
  {
    hide Decode, Unescape, IndexOf;
    var n := IndexOf(segment, EQUALS);
    IndexIsFirst(segment, EQUALS);
    NothingDecoded();
    assert segment[..n] == Before(segment, EQUALS);
  }

  lemma NothingDecoded()
    ensures Decode(Unescape([])) == ""
  {
  }

  lemma ParseFirst(first: Bytes, rest: Bytes)
    requires AMPERSAND !in first
    ensures Parse(first + [AMPERSAND] + rest) == (if first == [] then [] else [ReadPair(first)]) + Parse(rest)
  {
    hide ReadPair, Before, After;
    SplitAt(first, AMPERSAND, rest);
  }

  /** Reading any query text: cut at every `&`, each segment that is not empty at its first `=`. */
  lemma {:induction false} ParseLists(segments: seq<Bytes>)
    requires forall i | 0 <= i < |segments| :: '&' as int !in segments[i]
    ensures Lists(segments, Parse(Joined(segments)))
    decreases |segments|
  {
    hide ReadPair, Before, After, Names;
    if segments != [] {
      var first, rest := segments[0], segments[1..];
      ReadNames(first);
      ParseLists(rest);
      if rest == [] {
        NoIndex(first, AMPERSAND);
        assert Parse([]) == [];
      } else {
        ParseFirst(first, Joined(rest));
        assert Joined(segments) == first + [AMPERSAND] + Joined(rest);
        assert first == [] ==> [] + Parse(Joined(rest)) == Parse(Joined(rest));
        assert ([ReadPair(first)] + Parse(Joined(rest)))[1..] == Parse(Joined(rest));
      }
    }
  }

  /** Every text is such a row of segments. */
  lemma {:induction false} EveryTextSplits(text: Bytes) returns (segments: seq<Bytes>)
    ensures segments != [] && Joined(segments) == text
    ensures forall i | 0 <= i < |segments| :: '&' as int !in segments[i]
    decreases |text|
  {
    var n := IndexOf(text, AMPERSAND);
    IndexIsFirst(text, AMPERSAND);
    if n == |text| {
      segments := [text];
      assert text[..n] == text;
    } else {
      var rest := EveryTextSplits(text[n + 1..]);
      segments := [text[..n]] + rest;
      assert segments[1..] == rest;
      assert text[..n] + [AMPERSAND] + text[n + 1..] == text;
    }
  }
}
