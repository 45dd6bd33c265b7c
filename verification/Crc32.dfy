/**
  * The checksum of generated identifier names (src/schema/abstract-asset.ts) against the CRC-32 of
  * section 8 of RFC 1952, taken one message bit at a time.
  *
  * A name is a sequence of UTF-16 code units; the checksum sees the low byte of each.
  */
module Crc32 {

  const POLYNOMIAL: bv32 := 0xedb88320

  /** Kept apart from the operator, so that proofs can treat it as a symbol. */
  function Xor(a: bv32, b: bv32): bv32 { a ^ b }

  // ---------------------------------------------------------------------------------------
  // One message bit at a time
  // ---------------------------------------------------------------------------------------

  /** The register after one message bit, the lowest bit first. */
  function BitStep(crc: bv32, bit: bool): bv32 {
    var feedback := ((crc & 1) == 1) != bit;
    if feedback then (crc >> 1) ^ POLYNOMIAL else crc >> 1
  }

  function BitSteps(crc: bv32, bits: seq<bool>): bv32 {
    if bits == [] then crc else BitStep(BitSteps(crc, bits[..|bits| - 1]), bits[|bits| - 1])
  }

  function Power(k: nat): bv32
    requires k <= 8
  {
    if k == 0 then 1 else if k == 1 then 2 else if k == 2 then 4 else if k == 3 then 8 else if k == 4 then 16
    else if k == 5 then 32 else if k == 6 then 64 else if k == 7 then 128 else 256
  }

  predicate Bit(code: bv16, k: nat)
    requires k < 8
  {
    (code as bv32) & Power(k) != 0
  }

  /** The low byte, the lowest bit first. */
  function BitsOf(code: bv16): (r: seq<bool>)
    ensures |r| == 8
  {
    seq(8, k requires 0 <= k < 8 => Bit(code, k))
  }

  function Message(input: seq<bv16>): seq<bool> {
    if input == [] then [] else Message(input[..|input| - 1]) + BitsOf(input[|input| - 1])
  }

  function Complement(c: bv32): bv32 { c ^ 0xffffffff }

  /** CRC-32: all ones to begin with, complemented in the end. */
  function Checksum(input: seq<bv16>): bv32 { Complement(BitSteps(0xffffffff, Message(input))) }

  // ---------------------------------------------------------------------------------------
  // The table
  // ---------------------------------------------------------------------------------------

  function Shift(c: bv32): bv32 { if c & 1 != 0 then POLYNOMIAL ^ (c >> 1) else c >> 1 }

  function Shifts(c: bv32, n: nat): bv32 { if n == 0 then c else Shift(Shifts(c, n - 1)) }

  method BuildTable() returns (table: array<bv32>)
    ensures fresh(table) && table.Length == 256
    ensures forall n | 0 <= n < 256 :: table[n] == Shifts(n as bv32, 8)
  {
    table := new bv32[256];
    for n := 0 to 256
      invariant forall m | 0 <= m < n :: table[m] == Shifts(m as bv32, 8)
    {
      var c := n as bv32;
      for k := 0 to 8
        invariant c == Shifts(n as bv32, k)
      {
        c := if c & 1 != 0 then POLYNOMIAL ^ (c >> 1) else c >> 1;
      }
      table[n] := c;
    }
  }

  function Index(crc: bv32, code: bv16): bv32 { (crc ^ (code as bv32)) & 0xff }

  function ByteLess(crc: bv32): bv32 { crc >> 8 }

  function TableStep(crc: bv32, code: bv16): bv32 { Xor(ByteLess(crc), Shifts(Index(crc, code), 8)) }

  // ---------------------------------------------------------------------------------------
  // A shift is linear
  // ---------------------------------------------------------------------------------------

  function Half(c: bv32): bv32 { c >> 1 }

  function Mask(c: bv32): bv32 { if c & 1 != 0 then POLYNOMIAL else 0 }

  lemma XorCommutes(a: bv32, b: bv32)
    ensures a ^ b == b ^ a && a ^ 0 == a
  {
  }

  lemma ShiftIsMasked(a: bv32)
    ensures Shift(a) == Xor(Half(a), Mask(a))
  {
    var half := a >> 1;
    if a & 1 != 0 {
      XorCommutes(POLYNOMIAL, half);
    } else {
      XorCommutes(half, 0);
    }
  }

  lemma MaskOfXor(a: bv32, b: bv32)
    ensures Mask(a ^ b) == Mask(a) ^ Mask(b)
  {
  }

  lemma HalfOfXor(a: bv32, b: bv32)
    ensures Half(Xor(a, b)) == Xor(Half(a), Half(b))
  {
  }

  lemma MaskIsLinear(a: bv32, b: bv32)
    ensures Mask(Xor(a, b)) == Xor(Mask(a), Mask(b))
  {
    hide Mask;
    MaskOfXor(a, b);
  }

  lemma Interchange(a: bv32, b: bv32, c: bv32, d: bv32)
    ensures Xor(Xor(a, b), Xor(c, d)) == Xor(Xor(a, c), Xor(b, d))
  {
    hide Xor;
    XorAssociates(a, b, Xor(c, d));
    XorAssociates(b, c, d);
    XorSwaps(b, c);
    XorAssociates(c, b, d);
    XorAssociates(a, c, Xor(b, d));
  }

  lemma XorAssociates(a: bv32, b: bv32, c: bv32)
    ensures Xor(Xor(a, b), c) == Xor(a, Xor(b, c))
  {
  }

  lemma XorSwaps(a: bv32, b: bv32)
    ensures Xor(a, b) == Xor(b, a)
  {
  }

  lemma ShiftIsLinear(a: bv32, b: bv32)
    ensures Shift(Xor(a, b)) == Xor(Shift(a), Shift(b))
  {
    hide Mask, Shift, Xor, Half;
    MaskIsLinear(a, b);
    Interchange(Half(a), Half(b), Mask(a), Mask(b));
    ShiftIsMasked(Xor(a, b));
    ShiftIsMasked(a);
    ShiftIsMasked(b);
    HalfOfXor(a, b);
  }

  lemma {:induction false} ShiftsAreLinear(a: bv32, b: bv32, n: nat)
    ensures Shifts(Xor(a, b), n) == Xor(Shifts(a, n), Shifts(b, n))
  {
    hide Xor, Shift;
    if n > 0 {
      ShiftsAreLinear(a, b, n - 1);
      ShiftIsLinear(Shifts(a, n - 1), Shifts(b, n - 1));
    }
  }

  // ---------------------------------------------------------------------------------------
  // One table step is eight bit steps
  // ---------------------------------------------------------------------------------------

  lemma BitStepIsShift(crc: bv32, bit: bool)
    ensures BitStep(crc, bit) == Shift(Xor(crc, if bit then 1 else 0))
  {
    BitStepShifts(crc, bit);
  }

  lemma BitStepShifts(crc: bv32, bit: bool)
    ensures BitStep(crc, bit) == Shift(crc ^ (if bit then 1 else 0))
  {
  }

  /** The lowest k bits, and bit k in its place. */
  function Low(c: bv32, k: nat): bv32
    requires k <= 8
  {
    c & (Power(k) - 1)
  }

  function InPlace(c: bv32, k: nat): bv32
    requires k < 8
  {
    c & Power(k)
  }

  lemma LowNext(c: bv32, k: nat)
    requires k < 8
    ensures Low(c, k + 1) == Xor(Low(c, k), InPlace(c, k))
  {
  }

  lemma {:induction false} PowerComesDown(k: nat, n: nat)
    requires n <= k < 8
    ensures Shifts(Power(k), n) == Power(k - n)
  {
    if n > 0 {
      PowerComesDown(k, n - 1);
      assert Power(k - n + 1) & 1 == 0 && Power(k - n + 1) >> 1 == Power(k - n);
    }
  }

  lemma {:induction false} ZeroStays(n: nat)
    ensures Shifts(0, n) == 0
  {
    if n > 0 {
      ZeroStays(n - 1);
    }
  }

  /** After k shifts, bit k has come down to the place of the message bit. */
  lemma BitComesDown(code: bv16, k: nat)
    requires k < 8
    ensures Shifts(InPlace(code as bv32, k), k) == if Bit(code, k) then 1 else 0
  {
    OneBit(code as bv32, k);
    PowerComesDown(k, k);
    ZeroStays(k);
  }

  lemma OneBit(c: bv32, k: nat)
    requires k < 8
    ensures InPlace(c, k) == 0 || InPlace(c, k) == Power(k)
  {
  }

  /** k message bits, taken in one after the other, are as good as taken in at once. */
  lemma {:induction false} BitStepsAreShifts(crc: bv32, code: bv16, k: nat)
    requires k <= 8
    ensures BitSteps(crc, BitsOf(code)[..k]) == Shifts(Xor(crc, Low(code as bv32, k)), k)
  {
    hide Shift, Xor, Low, InPlace, BitStep, Bit, Power;
    if k == 0 {
      NoLow(crc, code as bv32);
    } else {
      var bits, c := BitsOf(code), code as bv32;
      assert bits[..k][..k - 1] == bits[..k - 1] && bits[..k][k - 1] == Bit(code, k - 1);
      BitStepsAreShifts(crc, code, k - 1);
      var before := Xor(crc, Low(c, k - 1));
      BitStepIsShift(Shifts(before, k - 1), Bit(code, k - 1));
      BitComesDown(code, k - 1);
      ShiftsAreLinear(before, InPlace(c, k - 1), k - 1);
      XorAssociates(crc, Low(c, k - 1), InPlace(c, k - 1));
      LowNext(c, k - 1);
    }
  }

  lemma NoLow(crc: bv32, c: bv32)
    ensures Xor(crc, Low(c, 0)) == crc
  {
  }

  function Halves(c: bv32, n: nat): bv32 { if n == 0 then c else Half(Halves(c, n - 1)) }

  /** Bits above the lowest eight only move. */
  lemma {:induction false} HighBitsMove(c: bv32, n: nat)
    requires n <= 8 && Low(c, 8) == 0
    ensures Shifts(c, n) == Halves(c, n) && Low(Halves(c, n), 8 - n) == 0
  {
    if n > 0 {
      HighBitsMove(c, n - 1);
      hide Shifts, Halves;
      LowHalves(Halves(c, n - 1), 9 - n);
      assert Shifts(c, n) == Shift(Shifts(c, n - 1)) && Halves(c, n) == Half(Halves(c, n - 1)) by {
        OneMore(c, n);
      }
    }
  }

  lemma OneMore(c: bv32, n: nat)
    requires n > 0
    ensures Shifts(c, n) == Shift(Shifts(c, n - 1)) && Halves(c, n) == Half(Halves(c, n - 1))
  {
  }

  lemma LowHalves(c: bv32, n: nat)
    requires 0 < n <= 8 && Low(c, n) == 0
    ensures Shift(c) == Half(c) && Low(Half(c), n - 1) == 0
  {
  }

  lemma EightHalves(c: bv32)
    ensures Halves(c, 8) == ByteLess(c)
  {
    assert Halves(c, 1) == c >> 1;
    assert Halves(c, 2) == c >> 2;
    assert Halves(c, 3) == c >> 3;
    assert Halves(c, 4) == c >> 4;
    assert Halves(c, 5) == c >> 5;
    assert Halves(c, 6) == c >> 6;
    assert Halves(c, 7) == c >> 7;
  }

  function High(crc: bv32): bv32 { crc & 0xffffff00 }

  lemma SplitAtEight(crc: bv32, code: bv16)
    ensures Xor(crc, Low(code as bv32, 8)) == Xor(High(crc), Index(crc, code))
    ensures Low(High(crc), 8) == 0 && ByteLess(High(crc)) == ByteLess(crc)
  {
    var c := code as bv32;
    assert Low(c, 8) == c & 0xff;
    SplitWord(crc, c);
    HighIsHigh(crc);
  }

  lemma SplitWord(crc: bv32, c: bv32)
    ensures crc ^ (c & 0xff) == (crc & 0xffffff00) ^ ((crc ^ c) & 0xff)
  {
  }

  lemma HighIsHigh(crc: bv32)
    ensures Low(High(crc), 8) == 0 && ByteLess(High(crc)) == ByteLess(crc)
  {
  }

  /** One step with the table is the eight steps with the bits of the low byte. */
  lemma TableStepIsEightBitSteps(crc: bv32, code: bv16)
    ensures TableStep(crc, code) == BitSteps(crc, BitsOf(code))
  {
    hide Shift, Xor, Low, BitStep, Bit, Power, Shifts, BitSteps, BitsOf, High, Index, ByteLess;
    SplitAtEight(crc, code);
    assert BitsOf(code)[..8] == BitsOf(code);
    BitStepsAreShifts(crc, code, 8);
    ShiftsAreLinear(High(crc), Index(crc, code), 8);
    HighBitsMove(High(crc), 8);
    EightHalves(High(crc));
  }

  // ---------------------------------------------------------------------------------------
  // The checksum of a name
  // ---------------------------------------------------------------------------------------

  function TableSteps(crc: bv32, input: seq<bv16>): bv32 {
    if input == [] then crc else TableStep(TableSteps(crc, input[..|input| - 1]), input[|input| - 1])
  }

  lemma {:induction false} BitStepsAppend(crc: bv32, a: seq<bool>, b: seq<bool>)
    ensures BitSteps(crc, a + b) == BitSteps(BitSteps(crc, a), b)
    decreases |b|
  {
    hide BitStep;
    if b == [] {
      assert a + b == a;
    } else {
      var c := a + b;
      assert c[..|c| - 1] == a + b[..|b| - 1] && c[|c| - 1] == b[|b| - 1];
      BitStepsAppend(crc, a, b[..|b| - 1]);
    }
  }

  lemma {:induction false} TableStepsAreBitSteps(crc: bv32, input: seq<bv16>)
    ensures TableSteps(crc, input) == BitSteps(crc, Message(input))
  {
    hide BitStep, TableStep, BitsOf;
    if input != [] {
      var rest, last := input[..|input| - 1], input[|input| - 1];
      TableStepsAreBitSteps(crc, rest);
      TableStepIsEightBitSteps(TableSteps(crc, rest), last);
      BitStepsAppend(crc, Message(rest), BitsOf(last));
    }
  }

  function HexDigit(d: bv32): char
    requires d < 16
  {
    if d == 0 then '0' else if d == 1 then '1' else if d == 2 then '2' else if d == 3 then '3' else if d
    == 4 then '4' else if d == 5 then '5' else if d == 6 then '6' else if d == 7 then '7' else if d == 8
    then '8' else if d == 9 then '9' else if d == 10 then 'a' else if d == 11 then 'b' else if d == 12
    then 'c' else if d == 13 then 'd' else if d == 14 then 'e' else 'f'
  }

  /** toString(16) */
  function Hex(n: bv32): string
    decreases n
  {
    if n < 16 then [HexDigit(n)] else Hex(n >> 4) + [HexDigit(n & 15)]
  }

  /** The loop over the name gives the CRC-32 of its low bytes. */
  method Crc32Hex(input: seq<bv16>) returns (hex: string)
    ensures hex == Hex(Checksum(input))
  {
    hide BitSteps, BitsOf, Shifts, Xor, ByteLess, Index, Message;
    var table := BuildTable();
    var crc: bv32 := 0xffffffff;
    for i := 0 to |input|
      invariant crc == TableSteps(0xffffffff, input[..i])
      invariant table.Length == 256 && forall n | 0 <= n < 256 :: table[n] == Shifts(n as bv32, 8)
    {
      IndexFits(crc, input[i]);
      assert input[..i + 1][..i] == input[..i] && input[..i + 1][i] == input[i];
      crc := Xor(ByteLess(crc), table[Index(crc, input[i]) as int]);
    }
    assert input[..|input|] == input;
    TableStepsAreBitSteps(0xffffffff, input);
    hex := Hex(Complement(crc));
  }

  lemma IndexFits(crc: bv32, code: bv16)
    ensures var i := Index(crc, code) as int; i < 256 && (i as bv32) == Index(crc, code)
  {
  }

  // ---------------------------------------------------------------------------------------
  // Names that differ in one place
  // ---------------------------------------------------------------------------------------

  /** A shift can be taken back: the highest bit tells whether the polynomial went in. */
  function Unshift(c: bv32): bv32 {
    if c & 0x80000000 != 0 then ((c ^ POLYNOMIAL) << 1) | 1 else c << 1
  }

  lemma UnshiftUndoes(c: bv32)
    ensures Unshift(Shift(c)) == c
  {
  }

  lemma {:induction false} ShiftsKeepApart(a: bv32, b: bv32, n: nat)
    requires Shifts(a, n) == Shifts(b, n)
    ensures a == b
  {
    hide Shift, Unshift;
    if n > 0 {
      UnshiftUndoes(Shifts(a, n - 1));
      UnshiftUndoes(Shifts(b, n - 1));
      ShiftsKeepApart(a, b, n - 1);
    }
  }

  lemma XorKeepsApart(a: bv32, b: bv32, c: bv32)
    requires Xor(a, c) == Xor(b, c) || Xor(c, a) == Xor(c, b)
    ensures a == b
  {
    assert (a ^ c) ^ c == a && (b ^ c) ^ c == b && c ^ (c ^ a) == a && c ^ (c ^ b) == b;
  }

  lemma StepsKeepApart(a: bv32, b: bv32, code: bv16)
    requires TableStep(a, code) == TableStep(b, code)
    ensures a == b
  {
    hide Shift, Xor, Low, BitSteps, BitsOf, TableStep, Shifts;
    assert BitsOf(code)[..8] == BitsOf(code);
    TableStepIsEightBitSteps(a, code);
    TableStepIsEightBitSteps(b, code);
    BitStepsAreShifts(a, code, 8);
    BitStepsAreShifts(b, code, 8);
    ShiftsKeepApart(Xor(a, Low(code as bv32, 8)), Xor(b, Low(code as bv32, 8)), 8);
    XorKeepsApart(a, b, Low(code as bv32, 8));
  }

  lemma {:induction false} TailKeepsApart(a: bv32, b: bv32, tail: seq<bv16>)
    ensures TableSteps(a, tail) == TableSteps(b, tail) <==> a == b
  {
    hide TableStep;
    if tail != [] {
      var rest, last := tail[..|tail| - 1], tail[|tail| - 1];
      TailKeepsApart(a, b, rest);
      if TableStep(TableSteps(a, rest), last) == TableStep(TableSteps(b, rest), last) {
        StepsKeepApart(TableSteps(a, rest), TableSteps(b, rest), last);
      }
    }
  }

  lemma CodesKeepApart(crc: bv32, a: bv16, b: bv16)
    ensures TableStep(crc, a) == TableStep(crc, b) <==> Low(a as bv32, 8) == Low(b as bv32, 8)
  {
    hide Shift, Xor, Low, BitSteps, BitsOf, TableStep, Shifts;
    assert BitsOf(a)[..8] == BitsOf(a) && BitsOf(b)[..8] == BitsOf(b);
    TableStepIsEightBitSteps(crc, a);
    TableStepIsEightBitSteps(crc, b);
    BitStepsAreShifts(crc, a, 8);
    BitStepsAreShifts(crc, b, 8);
    var x, y := Xor(crc, Low(a as bv32, 8)), Xor(crc, Low(b as bv32, 8));
    if Shifts(x, 8) == Shifts(y, 8) {
      ShiftsKeepApart(x, y, 8);
      XorKeepsApart(Low(a as bv32, 8), Low(b as bv32, 8), crc);
    }
  }

  lemma {:induction false} TableStepsAppend(crc: bv32, a: seq<bv16>, b: seq<bv16>)
    ensures TableSteps(crc, a + b) == TableSteps(TableSteps(crc, a), b)
    decreases |b|
  {
    hide TableStep;
    if b == [] {
      assert a + b == a;
    } else {
      var c := a + b;
      assert c[..|c| - 1] == a + b[..|b| - 1] && c[|c| - 1] == b[|b| - 1];
      TableStepsAppend(crc, a, b[..|b| - 1]);
    }
  }

  function HexDigitValue(c: char): bv32 {
    if c == '0' then 0 else if c == '1' then 1 else if c == '2' then 2 else if c == '3' then 3 else if c
    == '4' then 4 else if c == '5' then 5 else if c == '6' then 6 else if c == '7' then 7 else if c ==
    '8' then 8 else if c == '9' then 9 else if c == 'a' then 10 else if c == 'b' then 11 else if c ==
    'c' then 12 else if c == 'd' then 13 else if c == 'e' then 14 else 15
  }

  function HexValue(s: string): bv32 {
    if s == [] then 0 else (HexValue(s[..|s| - 1]) << 4) | HexDigitValue(s[|s| - 1])
  }

  lemma DigitReadsBack(d: bv32)
    requires d < 16
    ensures HexDigitValue(HexDigit(d)) == d
  {
  }

  lemma {:induction false} HexReadsBack(n: bv32)
    ensures HexValue(Hex(n)) == n
    decreases n
  {
    hide HexDigit, HexDigitValue;
    if n < 16 {
      OneDigit(n);
    } else {
      Nibbles(n);
      HexReadsBack(n >> 4);
      LastDigit(Hex(n >> 4), n & 15);
    }
  }

  lemma OneDigit(d: bv32)
    requires d < 16
    ensures HexValue([HexDigit(d)]) == d
  {
    LastDigit([], d);
    assert [] + [HexDigit(d)] == [HexDigit(d)];
  }

  lemma LastDigit(s: string, d: bv32)
    requires d < 16
    ensures HexValue(s + [HexDigit(d)]) == (HexValue(s) << 4) | d
  {
    hide HexDigit, HexDigitValue;
    assert (s + [HexDigit(d)])[..|s|] == s;
    DigitReadsBack(d);
  }

  lemma Nibbles(n: bv32)
    ensures ((n >> 4) << 4) | (n & 15) == n && n & 15 < 16
    ensures n >= 16 ==> n >> 4 < n
  {
  }

  lemma ComplementKeepsApart(a: bv32, b: bv32)
    ensures Complement(a) == Complement(b) <==> a == b
  {
    assert (a ^ 0xffffffff) ^ 0xffffffff == a && (b ^ 0xffffffff) ^ 0xffffffff == b;
  }

  /**
    * Two names that differ in one code unit have the same hash exactly when its low byte is the
    * same on both sides: no single typo goes unnoticed below U+0100, but U+0101 passes for U+0001.
    */
  lemma OneDifferenceShows(before: seq<bv16>, a: bv16, b: bv16, after: seq<bv16>)
    ensures Hex(Checksum(before + [a] + after)) == Hex(Checksum(before + [b] + after))
            <==> Low(a as bv32, 8) == Low(b as bv32, 8)
  {
    hide TableStep, Low, BitSteps, Message, Hex, Complement;
    var start: bv32 := 0xffffffff;
    var crc := TableSteps(start, before);
    OneCode(start, before, a, after);
    OneCode(start, before, b, after);
    CodesKeepApart(crc, a, b);
    TailKeepsApart(TableStep(crc, a), TableStep(crc, b), after);
    ComplementKeepsApart(TableSteps(start, before + [a] + after), TableSteps(start, before + [b] + after));
    HexReadsBack(Checksum(before + [a] + after));
    HexReadsBack(Checksum(before + [b] + after));
  }

  lemma OneCode(start: bv32, before: seq<bv16>, a: bv16, after: seq<bv16>)
    ensures TableSteps(start, before + [a] + after) == TableSteps(TableStep(TableSteps(start, before), a), after)
    ensures TableSteps(start, before + [a] + after) == BitSteps(start, Message(before + [a] + after))
  {
    hide TableStep;
    TableStepsAppend(start, before + [a], after);
    TableStepsAppend(start, before, [a]);
    assert [a][..0] == [];
    assert TableSteps(TableSteps(start, before), [a]) == TableStep(TableSteps(start, before), a);
    TableStepsAreBitSteps(start, before + [a] + after);
  }

  // ---------------------------------------------------------------------------------------
  // The check value
  // ---------------------------------------------------------------------------------------

  lemma EightShifts(c: bv32)
    ensures Shifts(c, 8) == Shift(Shift(Shift(Shift(Shift(Shift(Shift(Shift(c))))))))
  {
    hide Shift;
    assert Shifts(c, 1) == Shift(c);
    assert Shifts(c, 2) == Shift(Shifts(c, 1));
    assert Shifts(c, 3) == Shift(Shifts(c, 2));
    assert Shifts(c, 4) == Shift(Shifts(c, 3));
    assert Shifts(c, 5) == Shift(Shifts(c, 4));
    assert Shifts(c, 6) == Shift(Shifts(c, 5));
    assert Shifts(c, 7) == Shift(Shifts(c, 6));
  }

  lemma CheckSteps()
    ensures TableStep(0xffffffff, 0x31) == 0x7c231048
    ensures TableStep(0x7c231048, 0x32) == 0xb0acbb32
    ensures TableStep(0xb0acbb32, 0x33) == 0x77b79c2d
    ensures TableStep(0x77b79c2d, 0x34) == 0x641c1f5c
    ensures TableStep(0x641c1f5c, 0x35) == 0x340ac5e3
    ensures TableStep(0x340ac5e3, 0x36) == 0xf68d2c9e
    ensures TableStep(0xf68d2c9e, 0x37) == 0xaffc9660
    ensures TableStep(0xaffc9660, 0x38) == 0x651f2550
    ensures TableStep(0x651f2550, 0x39) == 0x340bc6d9
  {
    EightShifts(0xce);
    EightShifts(0x7a);
    EightShifts(0x01);
    EightShifts(0x19);
    EightShifts(0x69);
    EightShifts(0xd5);
    EightShifts(0xa9);
    EightShifts(0x58);
    EightShifts(0x69);
  }

  lemma TableStepsNext(input: seq<bv16>, code: bv16)
    ensures TableSteps(0xffffffff, input + [code]) == TableStep(TableSteps(0xffffffff, input), code)
  {
    hide TableStep;
    assert (input + [code])[..|input|] == input;
  }

  /** The check value of CRC-32 is that of the digits from 1 to 9. */
  lemma CheckValue()
    ensures Hex(Checksum([0x31, 0x32, 0x33, 0x34, 0x35, 0x36, 0x37, 0x38, 0x39])) == "cbf43926"
  {
    CheckSteps();
    CheckText();
    hide TableStep, Hex, BitSteps, Message;
    var a: seq<bv16> := [0x31, 0x32, 0x33];
    var b, c := a + [0x34] + [0x35] + [0x36], [0x31, 0x32, 0x33, 0x34, 0x35, 0x36, 0x37, 0x38, 0x39];
    assert a == [] + [0x31] + [0x32] + [0x33] && c == b + [0x37] + [0x38] + [0x39];
    assert TableSteps(0xffffffff, []) == 0xffffffff;
    TableStepsNext([], 0x31);
    TableStepsNext([] + [0x31], 0x32);
    TableStepsNext([] + [0x31] + [0x32], 0x33);
    TableStepsNext(a, 0x34);
    TableStepsNext(a + [0x34], 0x35);
    TableStepsNext(a + [0x34] + [0x35], 0x36);
    TableStepsNext(b, 0x37);
    TableStepsNext(b + [0x37], 0x38);
    TableStepsNext(b + [0x37] + [0x38], 0x39);
    TableStepsAreBitSteps(0xffffffff, c);
  }

  lemma CheckText()
    ensures Complement(0x340bc6d9) == 0xcbf43926 && Hex(0xcbf43926) == "cbf43926"
  {
    assert Hex(0xc) == "c";
    assert Hex(0xcb) == "cb";
    assert Hex(0xcbf) == "cbf";
    assert Hex(0xcbf4) == "cbf4";
    assert Hex(0xcbf43) == "cbf43";
    assert Hex(0xcbf439) == "cbf439";
    assert Hex(0xcbf4392) == "cbf4392";
  }
}
