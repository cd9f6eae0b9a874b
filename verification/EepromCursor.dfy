/** What sequences of cursor operations amount to on the plain byte array. */
module EepromCursor {
  import opened Common
  import opened Eeprom

  datatype Op = ReadOp(len: nat) | SkipOp(bytes: u16) | ByteOp

  /** A cursor on a plain byte array. */
  datatype Cursor = Cursor(pos: u16, delivered: seq<u8>)

  /** One operation: a read delivers what is left of the range, a skip that would reach the end does nothing,
      a single byte is delivered without regard to the range. */
  function Apply(mem: Memory, end: u16, c: Cursor, op: Op): Cursor {
    match op
    case ReadOp(len) =>
      var n := Min(len, SatSub(end, c.pos));
      Cursor(c.pos + n, c.delivered + mem[c.pos..c.pos + n])
    case SkipOp(bytes) =>
      if c.pos + bytes < end then c.(pos := c.pos + bytes) else c
    case ByteOp =>
      if c.pos == U16_MAX then c else Cursor(c.pos + 1, c.delivered + [mem[c.pos]])
  }

  function ApplyAll(mem: Memory, end: u16, c: Cursor, ops: seq<Op>): Cursor
    decreases |ops|
  {
    if ops == [] then c else ApplyAll(mem, end, Apply(mem, end, c, ops[0]), ops[1..])
  }

  /** Perform one operation on a range, appending what it delivers. */
  method Perform(range: EepromRange, op: Op, delivered: seq<u8>) returns (now: seq<u8>)
    modifies range`bytePos
    ensures Cursor(range.bytePos, now)
      == Apply(range.reader.mem, range.end, Cursor(old(range.bytePos), delivered), op)
  {
    match op
    case ReadOp(len) =>
      var buf := new u8[len];
      ghost var start := range.bytePos;
      var n := range.Read(buf, 0);
      assert buf[..n] == range.reader.mem[start..start + n];
      now := delivered + buf[..n];
    case SkipOp(bytes) =>
      var skipped := range.SkipAheadBytes(bytes);
      now := delivered;
    case ByteOp =>
      var byte := range.ReadByte();
      now := if byte.Ok? then delivered + [byte.value] else delivered;
  }

  /** Any sequence of operations on a range refines the plain cursor, whatever chunks the chip returns. */
  method PerformAll(range: EepromRange, ops: seq<Op>) returns (delivered: seq<u8>)
    modifies range`bytePos
    ensures Cursor(range.bytePos, delivered)
      == ApplyAll(range.reader.mem, range.end, Cursor(old(range.bytePos), []), ops)
  {
    delivered := [];
    ghost var final := ApplyAll(range.reader.mem, range.end, Cursor(range.bytePos, []), ops);
    for i := 0 to |ops|
      invariant final == ApplyAll(range.reader.mem, range.end, Cursor(range.bytePos, delivered), ops[i..])
    {
      assert ops[i..][0] == ops[i] && ops[i..][1..] == ops[i + 1..];
      delivered := Perform(range, ops[i], delivered);
    }
  }

  predicate AllReads(ops: seq<Op>) {
    ops != [] ==> ops[0].ReadOp? && AllReads(ops[1..])
  }

  function TotalRead(ops: seq<Op>): nat
    requires AllReads(ops)
  {
    if ops == [] then 0 else ops[0].len + TotalRead(ops[1..])
  }

  /** How a read is split makes no difference: any reads deliver the same contiguous bytes as one read of their
      total length. */
  lemma {:induction false} ReadsAreContiguous(mem: Memory, end: u16, c: Cursor, ops: seq<Op>)
    requires AllReads(ops)
    ensures ApplyAll(mem, end, c, ops) == Apply(mem, end, c, ReadOp(TotalRead(ops)))
    decreases |ops|
  {
    if ops == [] {
      assert c.delivered + mem[c.pos..c.pos] == c.delivered;
    } else {
      var mid := Apply(mem, end, c, ops[0]);
      ReadsAreContiguous(mem, end, mid, ops[1..]);
      JoinReads(mem, end, c, ops[0].len, TotalRead(ops[1..]));
    }
  }

  lemma {:induction false} JoinReads(mem: Memory, end: u16, c: Cursor, a: nat, b: nat)
    ensures Apply(mem, end, Apply(mem, end, c, ReadOp(a)), ReadOp(b)) == Apply(mem, end, c, ReadOp(a + b))
  {
    var p, q := Apply(mem, end, c, ReadOp(a)).pos, Apply(mem, end, c, ReadOp(a + b)).pos;
    assert mem[c.pos..p] + mem[p..q] == mem[c.pos..q];
    assert (c.delivered + mem[c.pos..p]) + mem[p..q] == c.delivered + mem[c.pos..q];
  }

  /** Reads and skips never leave a range that they start in. */
  lemma {:induction false} ReadsAndSkipsStayInside(mem: Memory, end: u16, c: Cursor, ops: seq<Op>)
    requires c.pos <= end && forall k :: 0 <= k < |ops| ==> !ops[k].ByteOp?
    ensures c.pos <= ApplyAll(mem, end, c, ops).pos <= end
    ensures |ApplyAll(mem, end, c, ops).delivered| - |c.delivered| <= ApplyAll(mem, end, c, ops).pos - c.pos
    decreases |ops|
  {
    if ops != [] {
      ReadsAndSkipsStayInside(mem, end, Apply(mem, end, c, ops[0]), ops[1..]);
    }
  }

  // --- Writing

  /** The words to write: an odd last byte gets a zero beside it. */
  function Padded(data: seq<u8>): (r: seq<u8>)
    ensures |r| % 2 == 0
  {
    if |data| % 2 == 0 then data else data + [0]
  }

  /** How much of the data a range has room for. */
  function Writable(pos: nat, end: u16, data: seq<u8>): nat {
    Min(|Padded(data)|, SatSub(end, pos))
  }

  lemma {:induction false} PaddedSplits(data: seq<u8>, n: nat)
    requires data != [] && n <= |Padded(AfterFirstWord(data))|
    ensures |Padded(data)| == 2 + |Padded(AfterFirstWord(data))|
    ensures Padded(data)[..2 + n] == FirstWord(data) + Padded(AfterFirstWord(data))[..n]
  {
    assert Padded(data) == FirstWord(data) + Padded(AfterFirstWord(data));
  }

  /** The cursor moves by what was written, and that is what there was room for. */
  lemma {:induction false} EvenWriteCounts(mem: Memory, pos: nat, end: u16, data: seq<u8>)
    requires pos % 2 == 0 && end % 2 == 0
    ensures WriteOut(mem, pos, end, data).written == Writable(pos, end, data)
    ensures WriteOut(mem, pos, end, data).pos == pos + Writable(pos, end, data)
    decreases |data|
  {
    if pos < end && data != [] {
      PaddedSplits(data, 0);
      EvenWriteCounts(Stored(mem, pos, FirstWord(data)), pos + 2, end, AfterFirstWord(data));
    }
  }

  /** From an even position, writing splices the padded data into memory, as far as the range goes. */
  lemma {:induction false} EvenWriteSplices(mem: Memory, pos: nat, end: u16, data: seq<u8>)
    requires pos % 2 == 0 && end % 2 == 0 && pos <= end
    ensures WriteOut(mem, pos, end, data).mem == Stored(mem, pos, Padded(data)[..Writable(pos, end, data)])
    decreases |data|
  {
    if pos < end && data != [] {
      var word, rest := FirstWord(data), AfterFirstWord(data);
      var n := Writable(pos + 2, end, rest);
      PaddedSplits(data, n);
      EvenWriteSplices(Stored(mem, pos, word), pos + 2, end, rest);
      StoreTwice(mem, pos, word, Padded(rest)[..n]);
    } else {
      StoreNothing(mem, pos);
    }
  }

  lemma {:induction false} StoreNothing(mem: Memory, pos: nat)
    requires pos <= MEMORY_BYTES
    ensures Stored(mem, pos, []) == mem
  {
  }

  lemma {:induction false} StoreTwice(mem: Memory, pos: nat, a: seq<u8>, b: seq<u8>)
    requires pos + |a| + |b| <= MEMORY_BYTES
    ensures Stored(Stored(mem, pos, a), pos + |a|, b) == Stored(mem, pos, a + b)
  {
  }

  /** From an odd position the words land one byte early: memory ends up as if written from the byte before. */
  lemma {:induction false} OddWriteLandsOneEarly(mem: Memory, pos: nat, end: u16, data: seq<u8>)
    requires pos % 2 == 1 && end % 2 == 0
    ensures WriteOut(mem, pos, end, data).mem == WriteOut(mem, pos - 1, end, data).mem
    ensures WriteOut(mem, pos, end, data).written == WriteOut(mem, pos - 1, end, data).written
    decreases |data|
  {
    if pos < end && data != [] {
      OddWriteLandsOneEarly(Stored(mem, 2 * (pos / 2), FirstWord(data)), pos + 2, end, AfterFirstWord(data));
    }
  }
}
