/**
 UTF-8 as Rust's `String` stores it: encoding of Unicode scalar values, the
 character boundaries that slicing insists on, and the replacing decoder of the
 WHATWG Encoding Standard (section 8.1.1), which the query parser ends in.
 */
module Utf8 {
  import opened Prelude

  function EncodeChar(c: char): (bytes: Bytes)
    ensures 1 <= |bytes| <= 4
  {
    var cp := c as int;
    if cp < 0x80 then [cp]
    else if cp < 0x800 then [0xC0 + cp / 0x40, 0x80 + cp % 0x40]
    else if cp < 0x1_0000 then [0xE0 + cp / 0x1000, 0x80 + cp / 0x40 % 0x40, 0x80 + cp % 0x40]
    else [0xF0 + cp / 0x4_0000, 0x80 + cp / 0x1000 % 0x40, 0x80 + cp / 0x40 % 0x40, 0x80 + cp % 0x40]
  }

  function Encode(text: string): Bytes {
    if text == [] then [] else EncodeChar(text[0]) + Encode(text[1..])
  }

  lemma {:induction false} EncodeAppend(a: string, b: string)
    ensures Encode(a + b) == Encode(a) + Encode(b)
    decreases |a|
  {
    if a == [] {
      assert a + b == b;
    } else {
      assert (a + b)[1..] == a[1..] + b;
      EncodeAppend(a[1..], b);
    }
  }

  lemma EncodeOne(c: char)
    ensures Encode([c]) == EncodeChar(c)
  {
    assert [c][1..] == [];
  }

  predicate IsContinuation(b: byte) {
    0x80 <= b < 0xC0
  }

  /** `str::is_char_boundary`: slicing a `str` anywhere else panics. */
  predicate IsCharBoundary(bytes: Bytes, i: int) {
    i == 0 || i == |bytes| || (0 < i < |bytes| && !IsContinuation(bytes[i]))
  }

  function Slice(bytes: Bytes, from: nat, to: nat): Bytes
    requires from <= to <= |bytes| && IsCharBoundary(bytes, from) && IsCharBoundary(bytes, to)
  {
    bytes[from..to]
  }

  lemma BetweenChars(a: string, b: string)
    ensures IsCharBoundary(Encode(a) + Encode(b), |Encode(a)|)
  {
    if b != [] {
      assert (Encode(a) + Encode(b))[|Encode(a)|] == EncodeChar(b[0])[0];
    }
  }

  /** Some number of characters end at this byte. */
  ghost predicate BehindChars(text: string, i: int) {
    exists k | 0 <= k <= |text| :: i == |Encode(text[..k])|
  }

  lemma OneMoreChar(text: string, k: nat)
    requires k < |text|
    ensures |Encode(text[..k + 1])| == |EncodeChar(text[0])| + |Encode(text[1..][..k])|
  {
    assert text[..k + 1][1..] == text[1..][..k];
  }

  lemma InsideChar(c: char, i: nat)
    requires i < |EncodeChar(c)|
    ensures IsContinuation(EncodeChar(c)[i]) <==> i > 0
  {
  }

  lemma BehindFirst(text: string, i: int)
    requires text != []
    ensures BehindChars(text, i) <==> i == 0 || BehindChars(text[1..], i - |EncodeChar(text[0])|)
  {
    hide EncodeChar, Encode;
    NoChars(text);
    if k :| 0 < k <= |text| && i == |Encode(text[..k])| {
      OneMoreChar(text, k - 1);
    }
    if BehindChars(text[1..], i - |EncodeChar(text[0])|) {
      var k :| 0 <= k <= |text[1..]| && i - |EncodeChar(text[0])| == |Encode(text[1..][..k])|;
      OneMoreChar(text, k);
    }
  }

  lemma NoChars(text: string)
    ensures |Encode(text[..0])| == 0
  {
  }

  /** The boundaries of encoded text are exactly its beginning and the ends of its characters. */
  lemma {:induction false} BoundaryIffBehindChars(text: string, i: int)
    ensures IsCharBoundary(Encode(text), i) <==> BehindChars(text, i)
    decreases |text|
  {
    if text == [] {
      NoChars(text);
      assert 0 == |Encode(text[..0])|;
    } else {
      var first, rest := EncodeChar(text[0]), Encode(text[1..]);
      BehindFirst(text, i);
      BoundaryIffBehindChars(text[1..], i - |first|);
      if 0 < i < |first| {
        InsideChar(text[0], i);
      } else if i == |first| && rest != [] {
        InsideChar(text[1], 0);
        assert rest[0] == EncodeChar(text[1])[0];
      }
      assert Encode(text) == first + rest;
      hide EncodeChar, IsContinuation, BehindChars;
    }
  }

  /** How many bytes a character takes, read off its first byte. */
  function CharWidth(lead: byte): nat {
    if lead < 0x80 then 1 else if lead < 0xE0 then 2 else if lead < 0xF0 then 3 else 4
  }

  /** `char_indices().nth(k)`: where the character numbered `k` starts, and its width. */
  function NthChar(bytes: Bytes, k: nat): Option<(nat, nat)>
    decreases |bytes|
  {
    if bytes == [] || CharWidth(bytes[0]) > |bytes| then None
    else if k == 0 then Some((0, CharWidth(bytes[0])))
    else match NthChar(bytes[CharWidth(bytes[0])..], k - 1)
      case None => None
      case Some((start, width)) => Some((CharWidth(bytes[0]) + start, width))
  }

  lemma FirstWidth(text: string)
    requires text != []
    ensures var bytes, first := Encode(text), EncodeChar(text[0]);
            bytes != [] && CharWidth(bytes[0]) == |first| && bytes[|first|..] == Encode(text[1..])
  {
  }

  lemma {:induction false} NthCharOfText(text: string, k: nat)
    ensures NthChar(Encode(text), k)
         == if k < |text| then Some((|Encode(text[..k])|, |EncodeChar(text[k])|)) else None
    decreases |text|
  {
    hide EncodeChar, CharWidth;
    if text != [] {
      FirstWidth(text);
      assert |Encode(text)| >= |EncodeChar(text[0])|;
      if k == 0 {
        assert text[..0] == [];
      } else {
        NthCharOfText(text[1..], k - 1);
        if k < |text| {
          assert text[1..][..k - 1] == text[..k][1..];
          assert Encode(text[..k]) == EncodeChar(text[0]) + Encode(text[1..][..k - 1]);
        }
      }
    }
  }

  const REPLACEMENT: char := '\U{FFFD}'

  /** How a lead byte starts a character: bytes still needed, bounds of the next, bits so far. */
  datatype Lead = Lead(needed: nat, lower: byte, upper: byte, bits: nat) | NotALead

  function ReadLead(b: byte): Lead {
    if b < 0x80 then Lead(0, 0x80, 0xBF, b)
    else if 0xC2 <= b <= 0xDF then Lead(1, 0x80, 0xBF, b - 0xC0)
    else if 0xE0 <= b <= 0xEF then
      Lead(2, if b == 0xE0 then 0xA0 else 0x80, if b == 0xED then 0x9F else 0xBF, b - 0xE0)
    else if 0xF0 <= b <= 0xF4 then
      Lead(3, if b == 0xF0 then 0x90 else 0x80, if b == 0xF4 then 0x8F else 0xBF, b - 0xF0)
    else NotALead
  }

  /** The code point of a sequence in progress and the bytes it used; nothing if it is cut short. */
  function ReadRest(needed: nat, lower: byte, upper: byte, bits: nat, bytes: Bytes): (Option<nat>, nat)
    decreases needed
  {
    if needed == 0 then (Some(bits), 0)
    else if bytes == [] || !(lower <= bytes[0] <= upper) then (None, 0)
    else
      var (point, used) := ReadRest(needed - 1, 0x80, 0xBF, bits * 0x40 + bytes[0] % 0x40, bytes[1..]);
      (point, used + 1)
  }

  predicate IsScalar(point: nat) {
    point < 0xD800 || 0xE000 <= point < 0x11_0000
  }

  function ReadChar(bytes: Bytes): (r: (char, nat))
    requires bytes != []
    ensures 1 <= r.1
  {
    match ReadLead(bytes[0])
    case NotALead => (REPLACEMENT, 1)
    case Lead(needed, lower, upper, bits) =>
      match ReadRest(needed, lower, upper, bits, bytes[1..])
      case (Some(point), used) => (if IsScalar(point) then point as char else REPLACEMENT, used + 1)
      case (None, used) => (REPLACEMENT, used + 1)
  }

  /** Decoding that puts U+FFFD for each malformed sequence. */
  function Decode(bytes: Bytes): string
    decreases |bytes|
  {
    if bytes == [] then []
    else
      var (c, used) := ReadChar(bytes);
      [c] + if used < |bytes| then Decode(bytes[used..]) else []
  }

  /** One continuation byte read: six more bits of the code point. */
  lemma ReadOne(needed: nat, lower: byte, upper: byte, bits: nat, b: byte, more: Bytes)
    requires needed > 0 && lower <= b <= upper
    ensures var rest := ReadRest(needed - 1, 0x80, 0xBF, bits * 0x40 + b % 0x40, more);
            ReadRest(needed, lower, upper, bits, [b] + more) == (rest.0, rest.1 + 1)
  {
    assert ([b] + more)[1..] == more;
  }

  lemma ReadNone(bits: nat, more: Bytes)
    ensures ReadRest(0, 0x80, 0xBF, bits, more) == (Some(bits), 0)
  {
  }

  lemma ReadTwoBytes(cp: nat, more: Bytes)
    requires 0x80 <= cp < 0x800
    ensures ReadChar([0xC0 + cp / 0x40, 0x80 + cp % 0x40] + more) == (cp as char, 2)
  {
    hide ReadRest;
    var b0, b1 := 0xC0 + cp / 0x40, 0x80 + cp % 0x40;
    assert ([b0, b1] + more)[1..] == [b1] + more;
    ReadOne(1, 0x80, 0xBF, b0 - 0xC0, b1, more);
    ReadNone((b0 - 0xC0) * 0x40 + b1 % 0x40, more);
  }

  lemma ReadThreeBytes(cp: nat, more: Bytes)
    requires 0x800 <= cp < 0x1_0000 && IsScalar(cp)
    ensures ReadChar([0xE0 + cp / 0x1000, 0x80 + cp / 0x40 % 0x40, 0x80 + cp % 0x40] + more) == (cp as char, 3)
  {
    hide ReadRest;
    var b0, b1, b2 := 0xE0 + cp / 0x1000, 0x80 + cp / 0x40 % 0x40, 0x80 + cp % 0x40;
    assert ([b0, b1, b2] + more)[1..] == [b1] + ([b2] + more);
    var lead := ReadLead(b0);
    var bits := lead.bits * 0x40 + b1 % 0x40;
    assert bits == cp / 0x40;
    ReadOne(2, lead.lower, lead.upper, lead.bits, b1, [b2] + more);
    ReadOne(1, 0x80, 0xBF, bits, b2, more);
    ReadNone(bits * 0x40 + b2 % 0x40, more);
  }

  lemma SixMoreBits(n: nat)
    ensures n / 0x40 * 0x40 + (0x80 + n % 0x40) % 0x40 == n
  {
  }

  /** The lead of a four-byte character, and that its second byte is within bounds. */
  lemma FourByteLead(cp: nat)
    requires 0x1_0000 <= cp < 0x11_0000
    ensures var top := cp / 0x1000;
            var lead := ReadLead(0xF0 + top / 0x40);
            lead.Lead? && lead.needed == 3 && lead.bits == top / 0x40 && lead.lower <= 0x80 + top % 0x40 <= lead.upper
    ensures cp / 0x1000 / 0x40 == cp / 0x4_0000 && cp / 0x40 / 0x40 == cp / 0x1000
  {
  }

  lemma ReadFourBytes(cp: nat, more: Bytes)
    requires 0x1_0000 <= cp < 0x11_0000
    ensures ReadChar([0xF0 + cp / 0x4_0000, 0x80 + cp / 0x1000 % 0x40, 0x80 + cp / 0x40 % 0x40, 0x80 + cp % 0x40]
                     + more) == (cp as char, 4)
  {
    hide ReadRest, ReadLead;
    FourByteLead(cp);
    var top, mid := cp / 0x1000, cp / 0x40;
    var b0, b1, b2, b3 := 0xF0 + cp / 0x4_0000, 0x80 + top % 0x40, 0x80 + mid % 0x40, 0x80 + cp % 0x40;
    assert ([b0, b1, b2, b3] + more)[1..] == [b1] + ([b2] + ([b3] + more));
    var lead := ReadLead(b0);
    SixMoreBits(top);
    SixMoreBits(mid);
    SixMoreBits(cp);
    ReadOne(3, lead.lower, lead.upper, lead.bits, b1, [b2] + ([b3] + more));
    ReadOne(2, 0x80, 0xBF, top, b2, [b3] + more);
    ReadOne(1, 0x80, 0xBF, mid, b3, more);
    ReadNone(cp, more);
  }

  lemma ReadCharOfChar(c: char, more: Bytes)
    ensures ReadChar(EncodeChar(c) + more) == (c, |EncodeChar(c)|)
  {
    hide ReadRest;
    var cp := c as int;
    if cp < 0x80 {
      ReadNone(cp, more);
      assert ([cp] + more)[1..] == more;
    } else if cp < 0x800 {
      ReadTwoBytes(cp, more);
    } else if cp < 0x1_0000 {
      ReadThreeBytes(cp, more);
    } else {
      ReadFourBytes(cp, more);
    }
  }

  lemma {:induction false} DecodeEncode(text: string)
    ensures Decode(Encode(text)) == text
    decreases |text|
  {
    hide ReadChar, EncodeChar;
    if text != [] {
      var first, rest := EncodeChar(text[0]), Encode(text[1..]);
      ReadCharOfChar(text[0], rest);
      assert (first + rest)[|first|..] == rest;
      DecodeEncode(text[1..]);
    }
  }
}
