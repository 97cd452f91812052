/** Bytes and the hexadecimal notation in which the SDK stores identifiers and hashes. */
module Hex {

  type Byte = b: int | 0 <= b < 256

  type Bytes = seq<Byte>

  /** Value of a hexadecimal digit, or -1 for any other character. */
  function DigitValue(c: char): (v: int)
    ensures -1 <= v < 16
  {
    if '0' <= c <= '9' then c as int - '0' as int
    else if 'a' <= c <= 'f' then c as int - 'a' as int + 10
    else if 'A' <= c <= 'F' then c as int - 'A' as int + 10
    else -1
  }

  function DigitChar(v: int): char
    requires 0 <= v < 16
  {
    if v < 10 then '0' + v as char else 'a' + (v - 10) as char
  }

  predicate IsHex(s: string) {
    forall i :: 0 <= i < |s| ==> DigitValue(s[i]) >= 0
  }

  predicate IsLowerHex(s: string) {
    IsHex(s) && forall i :: 0 <= i < |s| ==> !('A' <= s[i] <= 'F')
  }

  function LowerChar(c: char): char {
    if 'A' <= c <= 'Z' then c + 32 as char else c
  }

  /** `toLowerCase`, which only ever meets strings that are compared with hexadecimal. */
  function Lower(s: string): (t: string)
    ensures |t| == |s|
    ensures IsHex(s) ==> IsLowerHex(t)
  {
    seq(|s|, i requires 0 <= i < |s| => LowerChar(s[i]))
  }

  function ToHex(b: Bytes): (s: string)
    ensures |s| == 2 * |b| && IsLowerHex(s)
  {
    if b == [] then [] else [DigitChar(b[0] / 16), DigitChar(b[0] % 16)] + ToHex(b[1..])
  }

  /** `Buffer.from(s, "hex")`: decoding stops at the first pair that is not hexadecimal. */
  function FromHex(s: string): (b: Bytes)
    ensures IsHex(s) ==> |b| == |s| / 2
  {
    if |s| < 2 || DigitValue(s[0]) < 0 || DigitValue(s[1]) < 0 then []
    else
      assert IsHex(s) ==> IsHex(s[2..]);
      [16 * DigitValue(s[0]) + DigitValue(s[1])] + FromHex(s[2..])
  }

  lemma {:induction false} FromToHex(b: Bytes)
    ensures FromHex(ToHex(b)) == b
  {
    if b != [] {
      FromToHex(b[1..]);
      assert ToHex(b)[2..] == ToHex(b[1..]);
    }
  }

  lemma {:induction false} ToFromHex(s: string)
    requires IsLowerHex(s) && |s| % 2 == 0
    ensures ToHex(FromHex(s)) == s
  {
    if s != [] {
      ToFromHex(s[2..]);
      DigitCharOfValue(s[0]);
      DigitCharOfValue(s[1]);
      var b := FromHex(s);
      assert b[0] / 16 == DigitValue(s[0]) && b[0] % 16 == DigitValue(s[1]);
      assert b[1..] == FromHex(s[2..]);
      assert s == [s[0], s[1]] + s[2..];
    }
  }

  lemma DigitCharOfValue(c: char)
    requires DigitValue(c) >= 0 && !('A' <= c <= 'F')
    ensures DigitChar(DigitValue(c)) == c
  {
  }

  // ---- What a string spells, by a table of digits ----

  const LOWER_DIGITS := "0123456789abcdef"
  const UPPER_DIGITS := "0123456789ABCDEF"

  type HexDigit = v: int | 0 <= v < 16

  predicate IsDigitOf(c: char, v: HexDigit) {
    c == LOWER_DIGITS[v] || c == UPPER_DIGITS[v]
  }

  /** Two digits for each byte, high digit first, in either case. */
  predicate Spells(s: string, b: Bytes) {
    && |s| == 2 * |b|
    && forall i :: 0 <= i < |b| ==> IsDigitOf(s[2 * i], b[i] / 16) && IsDigitOf(s[2 * i + 1], b[i] % 16)
  }

  /** The same in lower case. */
  predicate SpellsLower(s: string, b: Bytes) {
    && |s| == 2 * |b|
    && forall i :: 0 <= i < |b| ==> s[2 * i] == LOWER_DIGITS[b[i] / 16] && s[2 * i + 1] == LOWER_DIGITS[b[i] % 16]
  }

  lemma DigitTable(v: HexDigit)
    ensures LOWER_DIGITS[v] == if v < 10 then '0' + v as char else 'a' + (v - 10) as char
    ensures UPPER_DIGITS[v] == if v < 10 then '0' + v as char else 'A' + (v - 10) as char
  {
    if v < 8 {
      assert v == 0 || v == 1 || v == 2 || v == 3 || v == 4 || v == 5 || v == 6 || v == 7;
    } else {
      assert v == 8 || v == 9 || v == 10 || v == 11 || v == 12 || v == 13 || v == 14 || v == 15;
    }
  }

  lemma DigitMeans(c: char, v: HexDigit)
    ensures DigitValue(c) == v <==> IsDigitOf(c, v)
    ensures DigitChar(v) == LOWER_DIGITS[v]
    ensures IsDigitOf(c, v) ==> LowerChar(c) == LOWER_DIGITS[v]
  {
    DigitTable(v);
  }

  /** The first byte and the rest of a spelled string. */
  lemma SpellsFirst(s: string, b: Bytes)
    requires b != []
    ensures Spells(s, b) <==>
      |s| >= 2 && IsDigitOf(s[0], b[0] / 16) && IsDigitOf(s[1], b[0] % 16) && Spells(s[2..], b[1..])
  {
    if |s| == 2 * |b| {
      var t, d := s[2..], b[1..];
      assert forall i :: 0 <= i < |d| ==>
        d[i] == b[i + 1] && t[2 * i] == s[2 * (i + 1)] && t[2 * i + 1] == s[2 * (i + 1) + 1];
      if Spells(t, d) && IsDigitOf(s[0], b[0] / 16) && IsDigitOf(s[1], b[0] % 16) {
        forall i | 0 <= i < |b| ensures IsDigitOf(s[2 * i], b[i] / 16) && IsDigitOf(s[2 * i + 1], b[i] % 16) {
          if i > 0 {
            assert d[i - 1] == b[i];
          }
        }
      }
      if Spells(s, b) {
        forall i | 0 <= i < |d| ensures IsDigitOf(t[2 * i], d[i] / 16) && IsDigitOf(t[2 * i + 1], d[i] % 16) {
          assert IsDigitOf(s[2 * (i + 1)], b[i + 1] / 16);
        }
      }
    }
  }

  /** Decoding reads exactly the bytes that are spelled. */
  lemma {:induction false} SpelledIsDecoded(s: string, b: Bytes)
    requires Spells(s, b)
    ensures IsHex(s) && FromHex(s) == b
  {
    if b != [] {
      SpellsFirst(s, b);
      SpelledIsDecoded(s[2..], b[1..]);
      DigitMeans(s[0], b[0] / 16);
      DigitMeans(s[1], b[0] % 16);
      FirstByteDecoded(s, b[0]);
      assert b == [b[0]] + b[1..];
    }
  }

  lemma FirstByteDecoded(s: string, byte: Byte)
    requires |s| >= 2 && DigitValue(s[0]) == byte / 16 && DigitValue(s[1]) == byte % 16 && IsHex(s[2..])
    ensures IsHex(s) && FromHex(s) == [byte] + FromHex(s[2..])
  {
    forall i | 0 <= i < |s| ensures DigitValue(s[i]) >= 0 {
      if i >= 2 {
        assert s[i] == s[2..][i - 2];
      }
    }
  }

  lemma {:induction false} DecodedIsSpelled(s: string)
    requires IsHex(s) && |s| % 2 == 0
    ensures Spells(s, FromHex(s))
  {
    if s != [] {
      var b := FromHex(s);
      DecodedIsSpelled(s[2..]);
      DigitMeans(s[0], DigitValue(s[0]));
      DigitMeans(s[1], DigitValue(s[1]));
      assert b[0] / 16 == DigitValue(s[0]) && b[0] % 16 == DigitValue(s[1]) && b[1..] == FromHex(s[2..]);
      SpellsFirst(s, b);
    }
  }

  lemma SpellsOneThing(s: string, a: Bytes, b: Bytes)
    requires Spells(s, a) && Spells(s, b)
    ensures a == b
  {
    SpelledIsDecoded(s, a);
    SpelledIsDecoded(s, b);
  }

  /** Lower case changes no digit. */
  lemma LowerSpells(s: string, b: Bytes)
    requires Spells(s, b)
    ensures SpellsLower(Lower(s), b)
  {
    forall i | 0 <= i < |b|
      ensures Lower(s)[2 * i] == LOWER_DIGITS[b[i] / 16] && Lower(s)[2 * i + 1] == LOWER_DIGITS[b[i] % 16]
    {
      DigitMeans(s[2 * i], b[i] / 16);
      DigitMeans(s[2 * i + 1], b[i] % 16);
    }
  }

  lemma LowerSpelling(s: string, b: Bytes)
    requires SpellsLower(s, b)
    ensures Spells(s, b)
  {
  }

  lemma SpelledOneWay(s: string, t: string, b: Bytes)
    requires SpellsLower(s, b) && SpellsLower(t, b)
    ensures s == t
  {
    forall k | 0 <= k < |s| ensures s[k] == t[k] {
      var i := k / 2;
      assert k == 2 * i || k == 2 * i + 1;
      assert s[2 * i] == t[2 * i] && s[2 * i + 1] == t[2 * i + 1];
    }
  }

  lemma EncodedIsSpelled(b: Bytes)
    ensures SpellsLower(ToHex(b), b)
  {
    FromToHex(b);
    DecodedIsSpelled(ToHex(b));
    LowerSpells(ToHex(b), b);
    var s := ToHex(b);
    forall i | 0 <= i < |s| ensures Lower(s)[i] == s[i] {
      assert DigitValue(s[i]) >= 0;
    }
    assert Lower(s) == s;
  }

  /** Comparing in lower case with an encoded digest asks what the string spells. */
  lemma LowerEqualsEncodedIff(s: string, b: Bytes)
    ensures Lower(s) == ToHex(b) <==> Spells(s, b)
  {
    EncodedIsSpelled(b);
    if Spells(s, b) {
      LowerSpells(s, b);
      SpelledOneWay(Lower(s), ToHex(b), b);
    }
    if Lower(s) == ToHex(b) {
      forall i | 0 <= i < |b| ensures IsDigitOf(s[2 * i], b[i] / 16) && IsDigitOf(s[2 * i + 1], b[i] % 16) {
        LowerDigit(s[2 * i], b[i] / 16);
        LowerDigit(s[2 * i + 1], b[i] % 16);
      }
    }
  }

  lemma LowerDigit(c: char, v: HexDigit)
    requires LowerChar(c) == LOWER_DIGITS[v]
    ensures IsDigitOf(c, v)
  {
    DigitTable(v);
  }
}
