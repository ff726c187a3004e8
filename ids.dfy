/**
 * Trace and span identifiers: the deterministic half of `nextId`.
 *
 * `nextId` draws random signed 64-bit values and renders each one as 16
 * zero-padded lower-case hexadecimal characters; a 128-bit identifier is two
 * such draws side by side. The random source is outside the model: the draws
 * are parameters.
 */
module Ids {

  const TWO_64: int := 0x1_0000_0000_0000_0000

  /** A Kotlin `Long`: a signed 64-bit integer. */
  type Long = x: int | -0x8000_0000_0000_0000 <= x < 0x8000_0000_0000_0000

  /** `IdLength.ID_64_BITS` (the default) and `IdLength.ID_128_BITS`. */
  datatype IdLength = Id64Bits | Id128Bits

  /** How many random 64-bit draws an identifier of this length is made from. */
  function Words(length: IdLength): nat
  {
    match length
    case Id64Bits => 1
    case Id128Bits => 2
  }

  /** How many hexadecimal characters an identifier of this length has. */
  function Chars(length: IdLength): nat
  {
    match length
    case Id64Bits => 16
    case Id128Bits => 32
  }

  predicate IsHexDigit(c: char)
  {
    '0' <= c <= '9' || 'a' <= c <= 'f'
  }

  /** Only lower-case hexadecimal digits: no upper case, no separator. */
  predicate IsLowerHex(s: string)
  {
    forall i :: 0 <= i < |s| ==> IsHexDigit(s[i])
  }

  function Pow16(n: nat): (p: nat)
    ensures p > 0
  {
    if n == 0 then 1 else 16 * Pow16(n - 1)
  }

  function DigitValue(c: char): (d: nat)
    requires IsHexDigit(c)
    ensures d < 16
  {
    if c <= '9' then c as int - '0' as int else c as int - 'a' as int + 10
  }

  function HexDigit(d: nat): (c: char)
    requires d < 16
    ensures IsHexDigit(c) && DigitValue(c) == d
  {
    if d < 10 then ('0' as int + d) as char else ('a' as int + d - 10) as char
  }

  /** The number a string of hexadecimal digits denotes, most significant first. */
  function HexValue(s: string): (v: nat)
    requires IsLowerHex(s)
    ensures v < Pow16(|s|)
  {
    if s == [] then 0
    else
      var init := s[..|s| - 1];
      var v := HexValue(init);
      assert v * 16 <= (Pow16(|init|) - 1) * 16;
      v * 16 + DigitValue(s[|s| - 1])
  }

  /** `n` in exactly `width` lower-case hexadecimal digits, zero-padded on the left. */
  function FixedHex(n: nat, width: nat): (s: string)
    ensures |s| == width && IsLowerHex(s)
  {
    if width == 0 then "" else FixedHex(n / 16, width - 1) + [HexDigit(n % 16)]
  }

  /** Zero-padded formatting loses nothing when the value fits the width. */
  lemma {:induction false} FixedHexValue(n: nat, width: nat)
    requires n < Pow16(width)
    ensures HexValue(FixedHex(n, width)) == n
  {
    if width == 0 {
    } else {
      var s := FixedHex(n, width);
      var init := FixedHex(n / 16, width - 1);
      assert s[..|s| - 1] == init;
      assert n / 16 < Pow16(width - 1);
      FixedHexValue(n / 16, width - 1);
    }
  }

  lemma LowerHexConcat(a: string, b: string)
    requires IsLowerHex(a) && IsLowerHex(b)
    ensures IsLowerHex(a + b)
  {
    forall i | 0 <= i < |a + b| ensures IsHexDigit((a + b)[i]) {
      if i < |a| { assert (a + b)[i] == a[i]; } else { assert (a + b)[i] == b[i - |a|]; }
    }
  }

  lemma ShiftDigit(va: nat, p: nat, vi: nat, d: nat)
    ensures (va * p + vi) * 16 + d == va * (p * 16) + (vi * 16 + d)
  {
  }

  /** The value of two digit strings written one after the other. */
  lemma {:induction false} HexValueAppend(a: string, b: string)
    requires IsLowerHex(a) && IsLowerHex(b)
    ensures IsLowerHex(a + b)
    ensures HexValue(a + b) == HexValue(a) * Pow16(|b|) + HexValue(b)
  {
    LowerHexConcat(a, b);
    if b == [] {
      assert a + b == a;
    } else {
      var init := b[..|b| - 1];
      var d := DigitValue(b[|b| - 1]);
      HexValueAppend(a, init);
      assert (a + b)[..|a + b| - 1] == a + init;
      assert (a + b)[|a + b| - 1] == b[|b| - 1];
      assert HexValue(a + b) == HexValue(a + init) * 16 + d;
      assert HexValue(b) == HexValue(init) * 16 + d;
      ShiftDigit(HexValue(a), Pow16(|init|), HexValue(init), d);
    }
  }

  lemma Pow16Of16()
    ensures Pow16(16) == TWO_64
  {
    assert Pow16(4) == 0x1_0000;
    assert Pow16(8) == 0x1_0000_0000;
    assert Pow16(12) == 0x1_0000_0000_0000;
  }

  /** Two's-complement reading of a signed 64-bit value as an unsigned one. */
  function Unsigned(x: Long): (u: nat)
    ensures u < TWO_64
    ensures x >= 0 ==> u == x
    ensures x < 0 ==> u == x + TWO_64
  {
    if x < 0 then x + TWO_64 else x
  }

  /** One random draw as 16 hexadecimal characters. */
  function Hex64(x: Long): (s: string)
    ensures |s| == 16 && IsLowerHex(s)
    ensures HexValue(s) == Unsigned(x)
  {
    Pow16Of16();
    FixedHexValue(Unsigned(x), 16);
    FixedHex(Unsigned(x), 16)
  }

  /**
   * `nextId(length)` with its random draws supplied: 16 characters for 64
   * bits, 32 for 128 bits, lower-case hexadecimal, denoting the draws read
   * as unsigned values with the first draw most significant.
   */
  function NextId(length: IdLength, draws: seq<Long>): (id: string)
    requires |draws| == Words(length)
    ensures |id| == Chars(length) && IsLowerHex(id)
    ensures length == Id64Bits ==> HexValue(id) == Unsigned(draws[0])
    ensures length == Id128Bits ==> HexValue(id) == Unsigned(draws[0]) * TWO_64 + Unsigned(draws[1])
  {
    match length
    case Id64Bits => Hex64(draws[0])
    case Id128Bits =>
      var hi, lo := Hex64(draws[0]), Hex64(draws[1]);
      HexValueAppend(hi, lo);
      Pow16Of16();
      hi + lo
  }

  /** Distinct draws never give the same identifier. */
  lemma NextIdInjective(length: IdLength, d1: seq<Long>, d2: seq<Long>)
    requires |d1| == Words(length) && |d2| == Words(length)
    requires NextId(length, d1) == NextId(length, d2)
    ensures d1 == d2
  {
    var id1, id2 := NextId(length, d1), NextId(length, d2);
    match length
    case Id64Bits =>
      assert Unsigned(d1[0]) == Unsigned(d2[0]);
    case Id128Bits =>
      assert id1 == Hex64(d1[0]) + Hex64(d1[1]);
      assert id2 == Hex64(d2[0]) + Hex64(d2[1]);
      assert id1[..16] == Hex64(d1[0]) && id2[..16] == Hex64(d2[0]);
      assert id1[16..] == Hex64(d1[1]) && id2[16..] == Hex64(d2[1]);
      assert Unsigned(d1[0]) == Unsigned(d2[0]);
      assert Unsigned(d1[1]) == Unsigned(d2[1]);
  }
}
