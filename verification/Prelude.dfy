/** Small shared vocabulary: optional values, outcomes, and concatenation of pieces. */
module Prelude {

  datatype Option<+T> = None | Some(value: T)

  datatype Result<+T, +E> = Ok(value: T) | Err(error: E)

  type byte = b: int | 0 <= b < 256

  type Bytes = seq<byte>

  /** The pieces of a body put back together. */
  function Concat<T>(parts: seq<seq<T>>): seq<T> {
    if parts == [] then [] else parts[0] + Concat(parts[1..])
  }

  lemma {:induction false} ConcatAppend<T>(a: seq<seq<T>>, b: seq<seq<T>>)
    ensures Concat(a + b) == Concat(a) + Concat(b)
  {
    if a == [] {
      assert a + b == b;
    } else {
      assert (a + b)[1..] == a[1..] + b;
      ConcatAppend(a[1..], b);
    }
  }

  /** Base ten, as both Rust and Python print an integer. */
  function Digits(n: nat): string {
    (if n < 10 then [] else Digits(n / 10)) + ["0123456789"[n % 10]]
  }

  function Decimal(i: int): string {
    if i < 0 then "-" + Digits(-i) else Digits(i)
  }

  predicate IsDigit(c: char) {
    '0' <= c <= '9'
  }

  predicate AllDigits(text: string) {
    forall i | 0 <= i < |text| :: IsDigit(text[i])
  }

  function DigitOf(c: char): nat
    requires IsDigit(c)
  {
    c as int - '0' as int
  }

  /** What a row of digits is worth, read from the left. */
  function ValueOf(text: string): nat
    requires AllDigits(text)
  {
    if text == [] then 0 else 10 * ValueOf(text[..|text| - 1]) + DigitOf(text[|text| - 1])
  }

  /** A number written in digits, without needless zeros in front. */
  predicate SpellsNat(text: string, n: nat) {
    text != [] && AllDigits(text) && (|text| > 1 ==> text[0] != '0') && ValueOf(text) == n
  }

  predicate Spells(text: string, i: int) {
    if i < 0 then text != [] && text[0] == '-' && SpellsNat(text[1..], -i) else SpellsNat(text, i)
  }

  lemma DigitChar(k: nat)
    requires k < 10
    ensures IsDigit("0123456789"[k]) && DigitOf("0123456789"[k]) == k
    ensures "0123456789"[k] == '0' <==> k == 0
  {
  }

  lemma DigitsStep(n: nat)
    ensures Digits(n) == (if n < 10 then [] else Digits(n / 10)) + ["0123456789"[n % 10]]
  {
  }

  lemma ValueSnoc(text: string, c: char)
    requires AllDigits(text) && IsDigit(c)
    ensures AllDigits(text + [c]) && ValueOf(text + [c]) == 10 * ValueOf(text) + DigitOf(c)
  {
    assert (text + [c])[..|text|] == text;
  }

  lemma {:induction false} DigitsSpell(n: nat)
    ensures SpellsNat(Digits(n), n) && (n > 0 ==> Digits(n)[0] != '0')
  {
    hide Digits, ValueOf;
    DigitsStep(n);
    DigitChar(n % 10);
    if n >= 10 {
      DigitsSpell(n / 10);
      ValueSnoc(Digits(n / 10), "0123456789"[n % 10]);
    } else {
      NoDigits();
      ValueSnoc([], "0123456789"[n % 10]);
    }
  }

  lemma NoDigits()
    ensures ValueOf([]) == 0
  {
  }

  lemma {:induction false} LeadingDigit(text: string)
    requires text != [] && AllDigits(text) && text[0] != '0'
    ensures ValueOf(text) > 0
    decreases |text|
  {
    var front, last := text[..|text| - 1], text[|text| - 1];
    assert text == front + [last];
    ValueSnoc(front, last);
    if front != [] {
      LeadingDigit(front);
    } else {
      assert DigitOf(last) > 0;
    }
  }

  /** There is only one such text, and it is the one printed. */
  lemma {:induction false} SpelledOnce(text: string, n: nat)
    requires SpellsNat(text, n)
    ensures text == Digits(n)
    decreases |text|
  {
    hide Digits, ValueOf;
    var front, last := text[..|text| - 1], text[|text| - 1];
    assert text == front + [last];
    ValueSnoc(front, last);
    var d := DigitOf(last);
    SameDigit(last);
    DigitsStep(n);
    if front == [] {
      NoDigits();
    } else {
      LeadingDigit(front);
      SpelledOnce(front, ValueOf(front));
    }
  }

  lemma SameDigit(c: char)
    requires IsDigit(c)
    ensures DigitOf(c) < 10 && "0123456789"[DigitOf(c)] == c
  {
    DigitChar(DigitOf(c));
  }

  /** What is printed of an integer reads as that integer, and no other text does. */
  lemma DecimalSpells(text: string, i: int)
    ensures Spells(text, i) <==> text == Decimal(i)
  {
    hide Digits, SpellsNat;
    var n := if i < 0 then -i else i;
    DigitsSpell(n);
    assert i < 0 ==> Decimal(i)[1..] == Digits(n);
    if Spells(text, i) {
      SpelledOnce(if i < 0 then text[1..] else text, n);
      assert i < 0 ==> text == [text[0]] + text[1..];
    }
  }
}
