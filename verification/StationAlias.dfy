/** The configured station alias of a device and the checksum that guards it. */
module StationAlias {
  import opened Common
  import opened Eeprom
  import EepromCursor
  import LittleEndian

  const ALIAS_START: nat := 8
  const CHECKSUM_START: nat := 14

  // --- CRC-8, polynomial 0x07, initial value 0xff, most significant bit first

  const POLY: bv8 := 0x07
  const INIT: bv8 := 0xff

  function ShiftOne(x: bv8): bv8 {
    if x & 0x80 != 0 then (x << 1) ^ POLY else x << 1
  }

  function ShiftByte(x: bv8): bv8 {
    ShiftOne(ShiftOne(ShiftOne(ShiftOne(ShiftOne(ShiftOne(ShiftOne(ShiftOne(x))))))))
  }

  function Step(crc: bv8, x: bv8): bv8 {
    ShiftByte(crc ^ x)
  }

  function CrcFrom(crc: bv8, bs: seq<u8>): bv8
    decreases |bs|
  {
    if bs == [] then crc else CrcFrom(Step(crc, LittleEndian.LowByte(bs[0])), bs[1..])
  }

  function Crc(bs: seq<u8>): bv8 {
    CrcFrom(INIT, bs)
  }

  lemma {:induction false} CrcOfTwoParts(crc: bv8, a: seq<u8>, b: seq<u8>)
    ensures CrcFrom(crc, a + b) == CrcFrom(CrcFrom(crc, a), b)
    decreases |a|
  {
    if a == [] {
      assert a + b == b;
    } else {
      assert (a + b)[0] == a[0] && (a + b)[1..] == a[1..] + b;
      CrcOfTwoParts(Step(crc, LittleEndian.LowByte(a[0])), a[1..], b);
    }
  }

  /** Eight shifts lose nothing: the polynomial has a constant term. */
  lemma {:induction false} ShiftByteKeepsApart(x: bv8, y: bv8)
    requires x != y
    ensures ShiftByte(x) != ShiftByte(y)
  {
  }

  lemma {:induction false} XorKeepsApart(c: bv8, d: bv8, x: bv8)
    requires c != d
    ensures (c ^ x) != (d ^ x) && (x ^ c) != (x ^ d)
  {
  }

  lemma {:induction false} XorZeroIff(c: bv8, x: bv8)
    ensures (c ^ x) == 0 <==> c == x
  {
  }

  lemma {:induction false} OtherStateOtherStep(c: bv8, d: bv8, x: bv8)
    requires c != d
    ensures Step(c, x) != Step(d, x)
  {
    XorKeepsApart(c, d, x);
    ShiftByteKeepsApart(c ^ x, d ^ x);
  }

  lemma {:induction false} OtherByteOtherStep(c: bv8, x: bv8, y: bv8)
    requires x != y
    ensures Step(c, x) != Step(c, y)
  {
    XorKeepsApart(x, y, c);
    ShiftByteKeepsApart(c ^ x, c ^ y);
  }

  lemma {:induction false} StepIsZeroIff(c: bv8, x: bv8)
    ensures Step(c, x) == 0 <==> c == x
  {
    XorZeroIff(c, x);
    if c != x {
      ShiftByteKeepsApart(c ^ x, 0);
    }
  }

  lemma {:induction false} CrcKeepsApart(c: bv8, d: bv8, bs: seq<u8>)
    requires c != d
    ensures CrcFrom(c, bs) != CrcFrom(d, bs)
    decreases |bs|
  {
    if bs != [] {
      var x := LittleEndian.LowByte(bs[0]);
      OtherStateOtherStep(c, d, x);
      CrcKeepsApart(Step(c, x), Step(d, x), bs[1..]);
    }
  }

  /** Changing any one byte changes the CRC. */
  lemma {:induction false} OneChangedByteIsDetected(bs: seq<u8>, k: nat, b: u8)
    requires k < |bs| && bs[k] != b
    ensures Crc(bs[k := b]) != Crc(bs)
  {
    var c, after := CrcFrom(INIT, bs[..k]), bs[k + 1..];
    assert bs == bs[..k] + ([bs[k]] + after) && bs[k := b] == bs[..k] + ([b] + after);
    CrcOfTwoParts(INIT, bs[..k], [bs[k]] + after);
    CrcOfTwoParts(INIT, bs[..k], [b] + after);
    OtherByteDiverges(c, bs[k], b, after);
  }

  lemma {:induction false} OtherByteDiverges(c: bv8, a: u8, b: u8, after: seq<u8>)
    requires a != b
    ensures CrcFrom(c, [a] + after) != CrcFrom(c, [b] + after)
  {
    var x, y := LittleEndian.LowByte(a), LittleEndian.LowByte(b);
    assert x as int == a && y as int == b;
    OtherByteOtherStep(c, x, y);
    assert ([a] + after)[1..] == after && ([b] + after)[1..] == after;
    CrcKeepsApart(Step(c, x), Step(c, y), after);
  }

  /** A block and one more byte have CRC zero exactly when that byte is the CRC of the block. */
  lemma {:induction false} ZeroIffCrcFollows(bs: seq<u8>, b: u8)
    ensures Crc(bs + [b]) == 0 <==> Crc(bs) == LittleEndian.LowByte(b)
  {
    CrcOfTwoParts(INIT, bs, [b]);
    var c, x := Crc(bs), LittleEndian.LowByte(b);
    assert CrcFrom(c, [b]) == Step(c, x) by {
      assert [b][1..] == [];
    }
    StepIsZeroIff(c, x);
  }

  lemma {:induction false} SameByteIff(c: bv8, b: u8)
    ensures c == LittleEndian.LowByte(b) <==> b == c as int
  {
    LittleEndian.ByteBack(c);
    LittleEndian.LowByteOf(c, 0);
  }

  // --- The alias

  function AliasIn(mem: Memory): u16 {
    WordAt(mem, ALIAS_START / 2)
  }

  /** The CRC of the first 14 bytes is stored behind them, padded to a word. */
  predicate ChecksumValid(mem: Memory) {
    mem[CHECKSUM_START] == Crc(mem[..CHECKSUM_START]) as int && mem[CHECKSUM_START + 1] == 0
  }

  /** Memory after an update: the alias replaced, then the checksum of the updated block. */
  function WithAlias(mem: Memory, alias: u16): Memory {
    var updated := Stored(mem, ALIAS_START, LeBytes(alias));
    Stored(updated, CHECKSUM_START, LeBytes(Crc(updated[..CHECKSUM_START]) as int))
  }

  /** Read the configured station alias. */
  method ReadStationAlias(device: Device) returns (alias: u16)
    ensures alias == AliasIn(device.mem)
  {
    var reader := new EepromRange(device, ALIAS_START / 2, 1);
    var buf := new u8[2];
    var ok := reader.ReadExact(buf);
    assert ok && buf[..][0] == device.mem[ALIAS_START] && buf[..][1] == device.mem[ALIAS_START + 1];
    alias := buf[0] as int + 256 * (buf[1] as int);
  }

  /** Write two bytes at a word address. */
  method WriteAll(device: Device, startWord: u16, word: seq<u8>)
    requires startWord < 0x4000 && |word| == 2
    modifies device
    ensures device.mem == Stored(old(device.mem), 2 * startWord, word)
  {
    EepromCursor.EvenWriteSplices(device.mem, 2 * startWord, 2 * startWord + 2, word);
    assert word[..2] == word;
    var writer := new EepromRange(device, startWord, 1);
    var written := writer.Write(word);
  }

  /** Set the configured station alias. */
  method SetStationAlias(device: Device, newAlias: u16)
    modifies device
    ensures device.mem == WithAlias(old(device.mem), newAlias)
  {
    ghost var was := device.mem;
    var reader := new EepromRange(device, 0, CHECKSUM_START / 2);
    var chunk := new u8[CHECKSUM_START];
    var ok := reader.ReadExact(chunk);
    assert ok && chunk[..] == was[..CHECKSUM_START];
    chunk[ALIAS_START], chunk[ALIAS_START + 1] := LeBytes(newAlias)[0], LeBytes(newAlias)[1];
    assert chunk[..] == Stored(was, ALIAS_START, LeBytes(newAlias))[..CHECKSUM_START];
    var checksum: u16 := Crc(chunk[..]) as int;
    WriteAll(device, ALIAS_START / 2, LeBytes(newAlias));
    WriteAll(device, CHECKSUM_START / 2, LeBytes(checksum));
  }

  /** An update reads back, leaves a valid checksum and touches nothing else. */
  lemma {:induction false} UpdateReadsBack(mem: Memory, alias: u16)
    ensures AliasIn(WithAlias(mem, alias)) == alias
    ensures WithAlias(mem, alias)[8] == alias % 256 && WithAlias(mem, alias)[9] == alias / 256
    ensures ChecksumValid(WithAlias(mem, alias))
    ensures forall k :: 0 <= k < MEMORY_BYTES && !(8 <= k < 10) && !(14 <= k < 16) ==>
      WithAlias(mem, alias)[k] == mem[k]
  {
    var updated, r := Stored(mem, ALIAS_START, LeBytes(alias)), WithAlias(mem, alias);
    assert r[..CHECKSUM_START] == updated[..CHECKSUM_START];
    LittleEndian.ByteBack(Crc(updated[..CHECKSUM_START]));
  }

  /** Memory after a series of updates. */
  function AfterUpdates(mem: Memory, aliases: seq<u16>): Memory {
    if aliases == [] then mem else WithAlias(AfterUpdates(mem, aliases[..|aliases| - 1]), aliases[|aliases| - 1])
  }

  /** A later update erases every trace of an earlier one. */
  lemma {:induction false} LaterUpdateWins(mem: Memory, first: u16, second: u16)
    ensures WithAlias(WithAlias(mem, first), second) == WithAlias(mem, second)
  {
    var a, b := Stored(WithAlias(mem, first), ALIAS_START, LeBytes(second)), Stored(mem, ALIAS_START, LeBytes(second));
    var w := WithAlias(mem, first);
    assert forall k :: 0 <= k < MEMORY_BYTES && !(8 <= k < 10) && !(14 <= k < 16) ==> w[k] == mem[k] by {
      UpdateReadsBack(mem, first);
    }
    assert forall k :: 0 <= k < MEMORY_BYTES && !(14 <= k < 16) ==> a[k] == b[k];
    assert a[..CHECKSUM_START] == b[..CHECKSUM_START];
  }

  /** After any series of updates memory is as after the last one alone, so the last alias reads back, the
      checksum is valid and all other bytes are as they were. */
  lemma {:induction false} OnlyLastUpdateCounts(mem: Memory, aliases: seq<u16>)
    requires aliases != []
    ensures var last := aliases[|aliases| - 1];
      && AfterUpdates(mem, aliases) == WithAlias(mem, last)
      && AliasIn(AfterUpdates(mem, aliases)) == last
      && ChecksumValid(AfterUpdates(mem, aliases))
  {
    var last := aliases[|aliases| - 1];
    UpdateReadsBack(mem, last);
    if |aliases| > 1 {
      var front := aliases[..|aliases| - 1];
      OnlyLastUpdateCounts(mem, front);
      LaterUpdateWins(mem, front[|front| - 1], last);
    }
  }

  /** A checksum is valid exactly when the CRC over the block and the checksum byte is zero and a zero follows. */
  lemma {:induction false} ValidIffCrcIsZero(mem: Memory)
    ensures ChecksumValid(mem) <==> Crc(mem[..CHECKSUM_START + 1]) == 0 && mem[CHECKSUM_START + 1] == 0
  {
    assert mem[..CHECKSUM_START + 1] == mem[..CHECKSUM_START] + [mem[CHECKSUM_START]];
    ZeroIffCrcFollows(mem[..CHECKSUM_START], mem[CHECKSUM_START]);
    SameByteIff(Crc(mem[..CHECKSUM_START]), mem[CHECKSUM_START]);
  }

  /** One changed byte anywhere in the guarded words invalidates a valid checksum. */
  lemma {:induction false} CorruptionInvalidates(mem: Memory, k: nat, b: u8)
    requires ChecksumValid(mem) && k < CHECKSUM_START + 2 && mem[k] != b
    ensures !ChecksumValid(mem[k := b])
  {
    var bad: Memory := mem[k := b];
    if k <= CHECKSUM_START {
      ValidIffCrcIsZero(mem);
      ValidIffCrcIsZero(bad);
      var block := mem[..CHECKSUM_START + 1];
      assert bad[..CHECKSUM_START + 1] == block[k := b];
      OneChangedByteIsDetected(block, k, b);
    }
  }
}
