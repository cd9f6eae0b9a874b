/** What the checksum of the station alias is: the remainder of the message, as a polynomial over two elements, modulo
    x^8 + x^2 + x + 1. A message is a list of coefficients, the highest power first. */
module CrcRemainder {
  import opened Common
  import opened Bits
  import opened Eeprom
  import opened StationAlias
  import LittleEndian

  // --- Remainders, one coefficient at a time

  /** A polynomial of degree seven at most, the highest coefficient first. */
  datatype Residue = Residue(c7: bool, c6: bool, c5: bool, c4: bool, c3: bool, c2: bool, c1: bool, c0: bool)

  const ZERO: Residue := Residue(false, false, false, false, false, false, false, false)

  predicate Coefficient(r: Residue, j: nat)
    requires j < 8
  {
    match j
    case 0 => r.c0
    case 1 => r.c1
    case 2 => r.c2
    case 3 => r.c3
    case 4 => r.c4
    case 5 => r.c5
    case 6 => r.c6
    case _ => r.c7
  }

  function Plus(a: Residue, b: Residue): Residue {
    Residue(a.c7 != b.c7, a.c6 != b.c6, a.c5 != b.c5, a.c4 != b.c4,
            a.c3 != b.c3, a.c2 != b.c2, a.c1 != b.c1, a.c0 != b.c0)
  }

  /** `r` times x plus a coefficient, with x^2 + x + 1 for x^8. */
  function TimesX(r: Residue, bit: bool): Residue {
    Residue(r.c6, r.c5, r.c4, r.c3, r.c2, r.c1 != r.c7, r.c0 != r.c7, r.c7 != bit)
  }

  /** The remainder of `r` followed by the coefficients in `bits`. */
  function Fold(r: Residue, bits: seq<bool>): Residue
    decreases |bits|
  {
    if bits == [] then r else Fold(TimesX(r, bits[0]), bits[1..])
  }

  function Remainder(bits: seq<bool>): Residue {
    Fold(ZERO, bits)
  }

  lemma {:induction false} FoldOfParts(r: Residue, a: seq<bool>, b: seq<bool>)
    ensures Fold(r, a + b) == Fold(Fold(r, a), b)
    decreases |a|
  {
    if a == [] {
      assert a + b == b;
    } else {
      assert (a + b)[0] == a[0] && (a + b)[1..] == a[1..] + b;
      FoldOfParts(TimesX(r, a[0]), a[1..], b);
    }
  }

  lemma {:induction false} FoldOne(r: Residue, bit: bool)
    ensures Fold(r, [bit]) == TimesX(r, bit)
  {
    assert [bit][1..] == [];
  }

  // --- That is what division leaves

  /** Coefficient `j` of a polynomial, the highest one first; there are none outside. */
  predicate Has(q: seq<bool>, j: int) {
    0 <= j < |q| && q[j]
  }

  /** Coefficient `i` of `q` times x^8 + x^2 + x + 1, a polynomial with eight coefficients more. */
  predicate Product(q: seq<bool>, i: int) {
    ((Has(q, i) != Has(q, i - 6)) != Has(q, i - 7)) != Has(q, i - 8)
  }

  /** Coefficient `i` of a polynomial with `n` coefficients more than the eight of `r`, these being the last ones. */
  predicate Low(r: Residue, n: nat, i: int) {
    n <= i < n + 8 && Coefficient(r, 7 - (i - n))
  }

  /** `bits`, with eight zeros before it, is `q` times x^8 + x^2 + x + 1 plus `r`. */
  predicate Divides(bits: seq<bool>, q: seq<bool>, r: Residue) {
    |q| == |bits| && forall i :: 0 <= i < |bits| + 8 ==> Has(bits, i - 8) == (Product(q, i) != Low(r, |bits|, i))
  }

  /** One more coefficient: the quotient gets the one that the remainder loses. */
  lemma {:induction false} DividesOneMore(bits: seq<bool>, bit: bool, q: seq<bool>, r: Residue)
    requires Divides(bits, q, r)
    ensures Divides(bits + [bit], q + [r.c7], TimesX(r, bit))
  {
    var n, m := |bits|, r.c7;
    var bits', q', r' := bits + [bit], q + [m], TimesX(r, bit);
    forall i | 0 <= i < n + 9
      ensures Has(bits', i - 8) == (Product(q', i) != Low(r', n + 1, i))
    {
      assert forall j: int :: Has(q', j) == if j == n then m else Has(q, j);
      assert Product(q', i) == (Product(q, i) != (m && (i == n || i == n + 6 || i == n + 7 || i == n + 8)));
      if i < n + 8 {
        assert Has(bits, i - 8) == (Product(q, i) != Low(r, n, i));
      }
    }
  }

  /** For every message there is a quotient such that message and remainder differ by a multiple of x^8 + x^2 + x + 1.
      */
  lemma {:induction false} RemainderIsLeft(bits: seq<bool>) returns (q: seq<bool>)
    ensures Divides(bits, q, Remainder(bits))
  {
    if bits == [] {
      q := [];
    } else {
      var last := |bits| - 1;
      var front, bit := bits[..last], bits[last];
      assert bits == front + [bit];
      var before := RemainderIsLeft(front);
      q := before + [Remainder(front).c7];
      DividesOneMore(front, bit, before, Remainder(front));
      FoldOfParts(ZERO, front, [bit]);
      FoldOne(Remainder(front), bit);
    }
  }

  // --- Eight coefficients at a time

  function Coefficients(r: Residue): seq<bool> {
    [r.c7, r.c6, r.c5, r.c4, r.c3, r.c2, r.c1, r.c0]
  }

  /** `r` times x^8. */
  function TimesX8(r: Residue): Residue {
    var r4 := TimesX(TimesX(TimesX(TimesX(r, false), false), false), false);
    TimesX(TimesX(TimesX(TimesX(r4, false), false), false), false)
  }

  lemma {:induction false} FoldFour(r: Residue, a: bool, b: bool, c: bool, d: bool, rest: seq<bool>)
    ensures Fold(r, [a, b, c, d] + rest) == Fold(TimesX(TimesX(TimesX(TimesX(r, a), b), c), d), rest)
  {
    assert [a, b, c, d] + rest == [a] + ([b] + ([c] + ([d] + rest)));
    FoldOfParts(r, [a], [b] + ([c] + ([d] + rest)));
    FoldOfParts(TimesX(r, a), [b], [c] + ([d] + rest));
    FoldOfParts(TimesX(TimesX(r, a), b), [c], [d] + rest);
    FoldOfParts(TimesX(TimesX(TimesX(r, a), b), c), [d], rest);
    FoldOne(r, a);
    FoldOne(TimesX(r, a), b);
    FoldOne(TimesX(TimesX(r, a), b), c);
    FoldOne(TimesX(TimesX(TimesX(r, a), b), c), d);
  }

  /** Multiplying by x is linear. */
  lemma {:induction false} TimesXIsLinear(r: Residue, s: Residue, bit: bool)
    ensures TimesX(Plus(r, s), bit) == Plus(TimesX(r, false), TimesX(s, bit))
  {
  }

  /** Eight coefficients in a row add up to a residue. */
  lemma {:induction false} EightTogether(r: Residue, x: Residue)
    ensures var r4 := TimesX(TimesX(TimesX(TimesX(r, x.c7), x.c6), x.c5), x.c4);
      TimesX(TimesX(TimesX(TimesX(r4, x.c3), x.c2), x.c1), x.c0) == Plus(TimesX8(r), x)
  {
    var s1 := TimesX(ZERO, x.c7);
    var s2 := TimesX(s1, x.c6);
    var s3 := TimesX(s2, x.c5);
    var s4 := TimesX(s3, x.c4);
    var s5 := TimesX(s4, x.c3);
    var s6 := TimesX(s5, x.c2);
    var s7 := TimesX(s6, x.c1);
    var r1 := TimesX(r, false);
    var r2 := TimesX(r1, false);
    var r3 := TimesX(r2, false);
    var r4 := TimesX(r3, false);
    var r5 := TimesX(r4, false);
    var r6 := TimesX(r5, false);
    var r7 := TimesX(r6, false);
    assert Plus(r, ZERO) == r;
    TimesXIsLinear(r, ZERO, x.c7);
    TimesXIsLinear(r1, s1, x.c6);
    TimesXIsLinear(r2, s2, x.c5);
    TimesXIsLinear(r3, s3, x.c4);
    TimesXIsLinear(r4, s4, x.c3);
    TimesXIsLinear(r5, s5, x.c2);
    TimesXIsLinear(r6, s6, x.c1);
    TimesXIsLinear(r7, s7, x.c0);
    assert TimesX(s7, x.c0) == x;
  }

  /** The remainder is multiplied by x^8, and the new coefficients are added. */
  lemma {:induction false} FoldEight(r: Residue, x: Residue, rest: seq<bool>)
    ensures Fold(r, Coefficients(x) + rest) == Fold(Plus(TimesX8(r), x), rest)
  {
    var low := [x.c3, x.c2, x.c1, x.c0] + rest;
    assert Coefficients(x) + rest == [x.c7, x.c6, x.c5, x.c4] + low;
    FoldFour(r, x.c7, x.c6, x.c5, x.c4, low);
    FoldFour(TimesX(TimesX(TimesX(TimesX(r, x.c7), x.c6), x.c5), x.c4), x.c3, x.c2, x.c1, x.c0, rest);
    EightTogether(r, x);
  }

  // --- Bytes

  /** The bits of a byte as coefficients. */
  function BitsOf(x: bv8): Residue {
    Residue(Bit(x, 7), Bit(x, 6), Bit(x, 5), Bit(x, 4), Bit(x, 3), Bit(x, 2), Bit(x, 1), Bit(x, 0))
  }

  lemma {:induction false} ShiftOneBit(x: bv8, j: nat)
    requires j < 8
    ensures Bit(ShiftOne(x), j)
      == if j == 0 then Bit(x, 7) else if j <= 2 then Bit(x, j - 1) != Bit(x, 7) else Bit(x, j - 1)
  {
    if j == 0 {} else if j == 1 {} else if j == 2 {} else if j == 3 {}
    else if j == 4 {} else if j == 5 {} else if j == 6 {}
  }

  /** A shift of the checksum register is a multiplication by x. */
  lemma {:induction false} ShiftOneIsTimesX(x: bv8)
    ensures BitsOf(ShiftOne(x)) == TimesX(BitsOf(x), false)
  {
    ShiftOneBit(x, 0);
    ShiftOneBit(x, 1);
    ShiftOneBit(x, 2);
    ShiftOneBit(x, 3);
    ShiftOneBit(x, 4);
    ShiftOneBit(x, 5);
    ShiftOneBit(x, 6);
    ShiftOneBit(x, 7);
  }

  /** Shifting a byte is a multiplication by x^8. */
  lemma {:induction false} ShiftByteIsTimesX8(x: bv8)
    ensures BitsOf(ShiftByte(x)) == TimesX8(BitsOf(x))
  {
    var x1 := ShiftOne(x);
    var x2 := ShiftOne(x1);
    var x3 := ShiftOne(x2);
    var x4 := ShiftOne(x3);
    var x5 := ShiftOne(x4);
    var x6 := ShiftOne(x5);
    var x7 := ShiftOne(x6);
    ShiftOneIsTimesX(x);
    ShiftOneIsTimesX(x1);
    ShiftOneIsTimesX(x2);
    ShiftOneIsTimesX(x3);
    ShiftOneIsTimesX(x4);
    ShiftOneIsTimesX(x5);
    ShiftOneIsTimesX(x6);
    ShiftOneIsTimesX(x7);
  }

  lemma {:induction false} BitOfXor(a: bv8, b: bv8, i: nat)
    requires i < 8
    ensures Bit(a ^ b, i) == (Bit(a, i) != Bit(b, i))
  {
    if i == 0 {} else if i == 1 {} else if i == 2 {} else if i == 3 {}
    else if i == 4 {} else if i == 5 {} else if i == 6 {}
  }

  lemma {:induction false} XorIsPlus(a: bv8, b: bv8)
    ensures BitsOf(a ^ b) == Plus(BitsOf(a), BitsOf(b))
  {
    BitOfXor(a, b, 0);
    BitOfXor(a, b, 1);
    BitOfXor(a, b, 2);
    BitOfXor(a, b, 3);
    BitOfXor(a, b, 4);
    BitOfXor(a, b, 5);
    BitOfXor(a, b, 6);
    BitOfXor(a, b, 7);
  }

  lemma {:induction false} StepIsTimesX8(c: bv8, x: bv8)
    ensures BitsOf(StationAlias.Step(c, x)) == TimesX8(Plus(BitsOf(c), BitsOf(x)))
  {
    XorIsPlus(c, x);
    ShiftByteIsTimesX8(c ^ x);
  }

  // --- The checksum

  function ByteBits(b: u8): Residue {
    BitsOf(LittleEndian.LowByte(b))
  }

  function Message(bs: seq<u8>): seq<bool> {
    if bs == [] then [] else Coefficients(ByteBits(bs[0])) + Message(bs[1..])
  }

  /** From any state the checksum of a message is the remainder of the message times x^8, with the state added to its
      first byte. */
  lemma {:induction false} CrcIsFold(c: bv8, bs: seq<u8>)
    requires bs != []
    ensures BitsOf(CrcFrom(c, bs)) == Fold(Plus(BitsOf(c), ByteBits(bs[0])), Message(bs[1..]) + Coefficients(ZERO))
    decreases |bs|
  {
    var x, rest := LittleEndian.LowByte(bs[0]), bs[1..];
    var next, sum := StationAlias.Step(c, x), Plus(BitsOf(c), BitsOf(x));
    StepIsTimesX8(c, x);
    assert CrcFrom(c, bs) == CrcFrom(next, rest);
    if rest == [] {
      assert Message(rest) + Coefficients(ZERO) == Coefficients(ZERO) + [];
      FoldEight(sum, ZERO, []);
    } else {
      var tail := Message(rest[1..]) + Coefficients(ZERO);
      CrcIsFold(next, rest);
      assert Message(rest) + Coefficients(ZERO) == Coefficients(ByteBits(rest[0])) + tail;
      FoldEight(sum, ByteBits(rest[0]), tail);
    }
  }

  /** All bits of a byte the other way round. */
  function Inverted(r: Residue): Residue {
    Residue(!r.c7, !r.c6, !r.c5, !r.c4, !r.c3, !r.c2, !r.c1, !r.c0)
  }

  /** The message as it is divided: its first eight bits inverted and eight zeros behind it. */
  function Dividend(bs: seq<u8>): seq<bool>
    requires bs != []
  {
    Coefficients(Inverted(ByteBits(bs[0]))) + (Message(bs[1..]) + Coefficients(ZERO))
  }

  /** The checksum is its remainder: the two differ by a multiple of x^8 + x^2 + x + 1. */
  lemma {:induction false} ChecksumIsRemainder(bs: seq<u8>) returns (q: seq<bool>)
    requires bs != []
    ensures Divides(Dividend(bs), q, BitsOf(Crc(bs)))
  {
    var first, tail := Inverted(ByteBits(bs[0])), Message(bs[1..]) + Coefficients(ZERO);
    CrcIsFold(0xff, bs);
    assert BitsOf(0xff) == Inverted(ZERO);
    assert Plus(BitsOf(0xff), ByteBits(bs[0])) == first == Plus(TimesX8(ZERO), first);
    FoldEight(ZERO, first, tail);
    q := RemainderIsLeft(Dividend(bs));
  }

  // --- A block

  /** One byte more. */
  lemma {:induction false} NextByte(c: bv8, b: u8, x: bv8, next: bv8, rest: seq<u8>)
    requires x as int == b && StationAlias.Step(c, x) == next
    ensures CrcFrom(c, [b] + rest) == CrcFrom(next, rest)
  {
    SameByteIff(x, b);
    assert ([b] + rest)[1..] == rest;
  }

  /** The block of a device with alias 0xabcd. */
  function Block(k: nat): seq<u8> {
    [0x09, 0x00, 0x00, 0x08, 0x00, 0x00, 0x00, 0x00, 0xcd, 0xab, 0x00, 0x00, 0x00, 0x00][if k <= 14 then k else 14..]
  }

  lemma {:induction false} BlockSplits(k: nat)
    requires k < 14
    ensures Block(k) == [Block(k)[0]] + Block(k + 1)
  {
  }

  /** Its checksum, as the tests of the EEPROM expect it. */
  lemma {:induction false} BlockHasChecksum()
    ensures Crc(Block(0)) == 0x04
  {
    forall k: nat | k < 14
      ensures Block(k) == [Block(k)[0]] + Block(k + 1)
    {
      BlockSplits(k);
    }
    NextByte(0xff, 0x09, 0x09, 0xcc, Block(1));
    NextByte(0xcc, 0x00, 0x00, 0x6a, Block(2));
    NextByte(0x6a, 0x00, 0x00, 0x11, Block(3));
    NextByte(0x11, 0x08, 0x08, 0x4f, Block(4));
    NextByte(0x4f, 0x00, 0x00, 0xea, Block(5));
    NextByte(0xea, 0x00, 0x00, 0x98, Block(6));
    NextByte(0x98, 0x00, 0x00, 0xc1, Block(7));
    NextByte(0xc1, 0x00, 0x00, 0x49, Block(8));
    NextByte(0x49, 0xcd, 0xcd, 0x95, Block(9));
    NextByte(0x95, 0xab, 0xab, 0xba, Block(10));
    NextByte(0xba, 0x00, 0x00, 0x2f, Block(11));
    NextByte(0x2f, 0x00, 0x00, 0xcd, Block(12));
    NextByte(0xcd, 0x00, 0x00, 0x6d, Block(13));
    NextByte(0x6d, 0x00, 0x00, 0x04, Block(14));
  }

  /** What an update of a device with this block leaves in the first 16 bytes. */
  lemma {:induction false} BlockIsUpdated(mem: Memory)
    requires mem[..14] == [0x09, 0x00, 0x00, 0x08, 0x00, 0x00, 0x00, 0x00, 0x00, 0x00, 0x00, 0x00, 0x00, 0x00]
    ensures WithAlias(mem, 0xabcd)[..16] == Block(0) + [0x04, 0x00]
  {
    var updated := Stored(mem, 8, LeBytes(0xabcd));
    assert LeBytes(0xabcd) == [0xcd, 0xab];
    assert updated[..14] == Block(0) by {
      forall k | 0 <= k < 14
        ensures updated[k] == Block(0)[k]
      {
        assert k < 8 || k >= 10 ==> updated[k] == mem[..14][k];
      }
    }
    BlockHasChecksum();
    assert LeBytes(0x04) == [0x04, 0x00];
    var r := WithAlias(mem, 0xabcd);
    assert r == Stored(updated, 14, [0x04, 0x00]);
    assert r[..16] == updated[..14] + [0x04, 0x00];
  }

  /** The usual check message: the digits from 1 to 9. */
  function Digits(k: nat): seq<u8> {
    [0x31, 0x32, 0x33, 0x34, 0x35, 0x36, 0x37, 0x38, 0x39][if k <= 9 then k else 9..]
  }

  lemma {:induction false} DigitsSplit(k: nat)
    requires k < 9
    ensures Digits(k) == [Digits(k)[0]] + Digits(k + 1)
  {
  }

  /** It does not have the check value that is given with the algorithm. */
  lemma {:induction false} CheckMessageHasChecksum()
    ensures Crc(Digits(0)) == 0xfb != 0x80
  {
    forall k: nat | k < 9
      ensures Digits(k) == [Digits(k)[0]] + Digits(k + 1)
    {
      DigitsSplit(k);
    }
    NextByte(0xff, 0x31, 0x31, 0x64, Digits(1));
    NextByte(0x64, 0x32, 0x32, 0xa5, Digits(2));
    NextByte(0xa5, 0x33, 0x33, 0xeb, Digits(3));
    NextByte(0xeb, 0x34, 0x34, 0x13, Digits(4));
    NextByte(0x13, 0x35, 0x35, 0xf2, Digits(5));
    NextByte(0xf2, 0x36, 0x36, 0x52, Digits(6));
    NextByte(0x52, 0x37, 0x37, 0x3c, Digits(7));
    NextByte(0x3c, 0x38, 0x38, 0x1c, Digits(8));
    NextByte(0x1c, 0x39, 0x39, 0xfb, Digits(9));
  }
}
