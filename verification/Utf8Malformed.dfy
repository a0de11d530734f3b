/**
 What decoding means for bytes that are not UTF-8: each longest start of a character that is not
 carried on, or else a single byte, gives one U+FFFD, as section 3.9 of the Unicode Standard
 recommends. Said through the encoding of characters alone, without the tables the decoder reads.
 */
module Utf8Malformed {
  import opened Prelude
  import opened Utf8

  /** The bytes begin some character. */
  ghost predicate Starts(bytes: Bytes) {
    exists c: char :: bytes <= EncodeChar(c)
  }

  /** No character stands in front, and `n` bytes are what is replaced. */
  ghost predicate Malformed(bytes: Bytes, n: nat) {
    && 1 <= n <= |bytes|
    && (forall c: char :: !(EncodeChar(c) <= bytes))
    && (n > 1 ==> Starts(bytes[..n]))
    && (n < |bytes| ==> !Starts(bytes[..n + 1]))
  }

  /** The first `n` bytes give `c`. */
  ghost predicate Gives(bytes: Bytes, n: nat, c: char) {
    1 <= n <= |bytes| && (bytes[..n] == EncodeChar(c) || (c == '\U{FFFD}' && Malformed(bytes, n)))
  }

  ghost predicate Replaces(bytes: Bytes, text: string)
    decreases |text|
  {
    if text == [] then bytes == []
    else exists n | 1 <= n <= |bytes| :: Gives(bytes, n, text[0]) && Replaces(bytes[n..], text[1..])
  }

  // ---------------------------------------------------------------- the ranges are the encodings

  /** A lead byte, and continuation bytes within the bounds the decoder keeps. */
  predicate Fits(bytes: Bytes) {
    bytes != [] &&
    match ReadLead(bytes[0])
    case NotALead => false
    case Lead(needed, lower, upper, _) =>
      && |bytes| <= needed + 1
      && (|bytes| > 1 ==> lower <= bytes[1] <= upper)
      && (|bytes| > 2 ==> 0x80 <= bytes[2] <= 0xBF)
      && (|bytes| > 3 ==> 0x80 <= bytes[3] <= 0xBF)
  }

  predicate Full(bytes: Bytes) {
    Fits(bytes) && |bytes| == ReadLead(bytes[0]).needed + 1
  }

  lemma FourByteCharFits(c: char)
    requires 0x1_0000 <= c as int
    ensures Full(EncodeChar(c))
  {
    FourByteLead(c as int);
    hide ReadLead;
  }

  lemma CharFits(c: char)
    ensures Full(EncodeChar(c))
  {
    var cp := c as int;
    if cp < 0x80 {
    } else if cp < 0x800 {
    } else if cp < 0x1_0000 {
      assert cp / 0x40 / 0x40 == cp / 0x1000;
    } else {
      FourByteCharFits(c);
    }
  }

  lemma FitsCut(bytes: Bytes, n: nat)
    requires Fits(bytes) && 1 <= n <= |bytes|
    ensures Fits(bytes[..n])
  {
  }

  lemma TwoBytes(b0: byte, b1: byte) returns (c: char)
    requires Full([b0, b1])
    ensures EncodeChar(c) == [b0, b1]
  {
    var cp := (b0 - 0xC0) * 0x40 + (b1 - 0x80);
    c := cp as char;
  }

  lemma ThreeBytes(b0: byte, b1: byte, b2: byte) returns (c: char)
    requires Full([b0, b1, b2])
    ensures EncodeChar(c) == [b0, b1, b2]
  {
    var top := (b0 - 0xE0) * 0x40 + (b1 - 0x80);
    var cp := top * 0x40 + (b2 - 0x80);
    assert cp / 0x40 == top && cp / 0x1000 == b0 - 0xE0;
    c := cp as char;
  }

  /** Six more bits, taken off again. */
  lemma SixBits(n: nat, k: nat)
    requires k < 0x40
    ensures (n * 0x40 + k) / 0x40 == n && (n * 0x40 + k) % 0x40 == k
  {
  }

  /** The bits of a four-byte character lie in these bytes. */
  lemma FourByteChar(c: char, top: nat, middle: nat)
    requires 0x1_0000 <= c as int && c as int / 0x40 == middle && middle / 0x40 == top
    ensures EncodeChar(c)
         == [0xF0 + top / 0x40, 0x80 + top % 0x40, 0x80 + middle % 0x40, 0x80 + c as int % 0x40]
  {
    FourByteLead(c as int);
  }

  lemma FourByteRange(b0: byte, b1: byte)
    requires Fits([b0, b1]) && ReadLead(b0).needed == 3
    ensures b0 >= 0xF0 && 0x80 <= b1 <= 0xBF && 0x10 <= (b0 - 0xF0) * 0x40 + (b1 - 0x80) < 0x110
  {
  }

  lemma FourBytes(b0: byte, b1: byte, b2: byte, b3: byte) returns (c: char)
    requires Full([b0, b1, b2, b3])
    ensures EncodeChar(c) == [b0, b1, b2, b3]
  {
    FourByteRange(b0, b1);
    hide EncodeChar, ReadLead;
    var top := (b0 - 0xF0) * 0x40 + (b1 - 0x80);
    var middle := top * 0x40 + (b2 - 0x80);
    var cp := middle * 0x40 + (b3 - 0x80);
    SixBits(b0 - 0xF0, b1 - 0x80);
    SixBits(top, b2 - 0x80);
    SixBits(middle, b3 - 0x80);
    c := cp as char;
    FourByteChar(c, top, middle);
  }

  lemma FullIsChar(bytes: Bytes) returns (c: char)
    requires Full(bytes)
    ensures EncodeChar(c) == bytes
  {
    if |bytes| == 1 {
      c := bytes[0] as char;
    } else if |bytes| == 2 {
      assert bytes == [bytes[0], bytes[1]];
      c := TwoBytes(bytes[0], bytes[1]);
    } else if |bytes| == 3 {
      assert bytes == [bytes[0], bytes[1], bytes[2]];
      c := ThreeBytes(bytes[0], bytes[1], bytes[2]);
    } else {
      assert bytes == [bytes[0], bytes[1], bytes[2], bytes[3]];
      c := FourBytes(bytes[0], bytes[1], bytes[2], bytes[3]);
    }
  }

  /** Bytes within the bounds can be carried on to a character. */
  lemma {:induction false} Completed(bytes: Bytes) returns (full: Bytes)
    requires Fits(bytes)
    ensures Full(full) && bytes <= full
    decreases 4 - |bytes|
  {
    if Full(bytes) {
      full := bytes;
    } else {
      full := Completed(bytes + [if |bytes| == 1 then ReadLead(bytes[0]).lower else 0x80]);
    }
  }

  lemma StartFits(bytes: Bytes, c: char)
    requires bytes != []
    ensures bytes <= EncodeChar(c) ==> Fits(bytes)
  {
    hide EncodeChar;
    CharFits(c);
    if bytes <= EncodeChar(c) {
      FitsCut(EncodeChar(c), |bytes|);
    }
  }

  lemma StartsIffFits(bytes: Bytes)
    ensures Starts(bytes) <==> bytes == [] || Fits(bytes)
  {
    hide EncodeChar;
    if bytes == [] {
      assert bytes <= EncodeChar('a');
    } else if Fits(bytes) {
      var full := Completed(bytes);
      var c := FullIsChar(full);
      assert bytes <= EncodeChar(c);
    } else {
      forall c: char
        ensures bytes <= EncodeChar(c) ==> Fits(bytes)
      {
        StartFits(bytes, c);
      }
    }
  }

  // ---------------------------------------------------------------- the decoder replaces

  predicate Within(lower: byte, upper: byte, bytes: Bytes, i: nat)
    requires i < |bytes|
  {
    if i == 0 then lower <= bytes[0] <= upper else 0x80 <= bytes[i] <= 0xBF
  }

  /** The continuation bytes taken are those within bounds, up to the number needed. */
  lemma {:induction false} RestTakes(needed: nat, lower: byte, upper: byte, bits: nat, bytes: Bytes)
    ensures var (point, used) := ReadRest(needed, lower, upper, bits, bytes);
            && used <= needed && used <= |bytes| && (point.Some? <==> used == needed)
            && (forall i | 0 <= i < used :: Within(lower, upper, bytes, i))
            && (used < needed && used < |bytes| ==> !Within(lower, upper, bytes, used))
    decreases needed
  {
    if needed > 0 && bytes != [] && lower <= bytes[0] <= upper {
      var bits' := bits * 0x40 + bytes[0] % 0x40;
      RestTakes(needed - 1, 0x80, 0xBF, bits', bytes[1..]);
      var (_, used) := ReadRest(needed - 1, 0x80, 0xBF, bits', bytes[1..]);
      forall i | 0 <= i < used + 1
        ensures Within(lower, upper, bytes, i)
      {
        assert i > 0 ==> Within(0x80, 0xBF, bytes[1..], i - 1);
      }
    }
  }

  /** What is read in front: bytes that fit, as many as there are. */
  lemma ReadFits(bytes: Bytes)
    requires bytes != []
    ensures var (c, used) := ReadChar(bytes);
            && used <= |bytes|
            && (Fits(bytes[..1]) ==> Fits(bytes[..used]))
            && (!Fits(bytes[..1]) ==> used == 1)
            && (!Full(bytes[..used]) ==> c == REPLACEMENT && (used < |bytes| ==> !Fits(bytes[..used + 1])))
  {
    var lead := ReadLead(bytes[0]);
    if lead.Lead? {
      var rest := bytes[1..];
      RestTakes(lead.needed, lead.lower, lead.upper, lead.bits, rest);
      var (point, used) := ReadRest(lead.needed, lead.lower, lead.upper, lead.bits, rest);
      assert forall i | 0 <= i < used :: Within(lead.lower, lead.upper, rest, i) && rest[i] == bytes[i + 1];
      hide ReadRest;
    }
  }

  lemma CharInFront(bytes: Bytes, c: char)
    ensures EncodeChar(c) <= bytes ==> ReadChar(bytes) == (c, |EncodeChar(c)|) && Full(bytes[..|EncodeChar(c)|])
  {
    hide ReadChar, EncodeChar, Fits;
    CharFits(c);
    if EncodeChar(c) <= bytes {
      ReadCharOfChar(c, bytes[|EncodeChar(c)|..]);
      assert bytes == EncodeChar(c) + bytes[|EncodeChar(c)|..];
    }
  }

  lemma FrontGives(bytes: Bytes)
    requires bytes != []
    ensures Gives(bytes, ReadChar(bytes).1, ReadChar(bytes).0)
  {
    hide ReadChar, EncodeChar, ReadLead;
    ReadFits(bytes);
    var (c, used) := ReadChar(bytes);
    if Full(bytes[..used]) {
      var d := FullIsChar(bytes[..used]);
      CharInFront(bytes, d);
    } else {
      forall d: char
        ensures !(EncodeChar(d) <= bytes)
      {
        CharInFront(bytes, d);
      }
      StartsIffFits(bytes[..used]);
      if used < |bytes| {
        StartsIffFits(bytes[..used + 1]);
      }
      assert used > 1 ==> Fits(bytes[..used]);
    }
  }

  lemma StartsEarlier(bytes: Bytes, m: nat, n: nat)
    requires m <= n <= |bytes| && Starts(bytes[..n])
    ensures Starts(bytes[..m])
  {
    hide EncodeChar;
    var c: char :| bytes[..n] <= EncodeChar(c);
    assert bytes[..m] <= EncodeChar(c);
  }

  lemma MalformedOnce(bytes: Bytes, m: nat, n: nat)
    requires Malformed(bytes, m) && Malformed(bytes, n) && m <= n
    ensures m == n
  {
    hide Starts;
    if m < n {
      StartsEarlier(bytes, m + 1, n);
    }
  }

  /** The front is determined. */
  lemma GivesOnce(bytes: Bytes, n: nat, c: char)
    requires Gives(bytes, n, c)
    ensures ReadChar(bytes) == (c, n)
  {
    hide ReadChar, EncodeChar, Starts;
    if bytes[..n] == EncodeChar(c) {
      CharInFront(bytes, c);
    } else {
      FrontGives(bytes);
      var (d, used) := ReadChar(bytes);
      assert !(EncodeChar(d) <= bytes) && Malformed(bytes, used);
      if n <= used {
        MalformedOnce(bytes, n, used);
      } else {
        MalformedOnce(bytes, used, n);
      }
    }
  }

  lemma DecodeFront(bytes: Bytes)
    requires bytes != []
    ensures var (c, used) := ReadChar(bytes);
            used <= |bytes| && Decode(bytes) == [c] + Decode(bytes[used..])
  {
    ReadFits(bytes);
    hide ReadChar;
    var (_, used) := ReadChar(bytes);
    assert used == |bytes| ==> bytes[used..] == [];
  }

  /** Decoding is the one text in which every character, and every malformed stretch, is replaced so. */
  lemma {:induction false} DecodeReplaces(bytes: Bytes, text: string)
    ensures Replaces(bytes, text) <==> text == Decode(bytes)
    decreases |text|
  {
    hide ReadChar, Gives;
    if text != [] && bytes != [] {
      FrontGives(bytes);
      var (c, used) := ReadChar(bytes);
      ReadFits(bytes);
      DecodeReplaces(bytes[used..], text[1..]);
      DecodeFront(bytes);
      hide Decode;
      if Replaces(bytes, text) {
        var n :| 1 <= n <= |bytes| && Gives(bytes, n, text[0]) && Replaces(bytes[n..], text[1..]);
        GivesOnce(bytes, n, text[0]);
        assert text == [text[0]] + text[1..];
      }
      if text == Decode(bytes) {
        assert text[1..] == Decode(bytes[used..]);
        assert Gives(bytes, used, text[0]) && Replaces(bytes[used..], text[1..]);
      }
    }
  }
}
