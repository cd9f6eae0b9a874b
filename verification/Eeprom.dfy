/** A cursor over a word-addressed EEPROM that hands out four or eight bytes at a time. */
module Eeprom {
  import opened Common

  /** Bytes that can be addressed: 65536 words, and what an eight-byte chunk at the last word hangs over. */
  const MEMORY_BYTES: nat := 0x2_0006

  type Memory = m: seq<u8> | |m| == MEMORY_BYTES witness seq(MEMORY_BYTES, _ => 0)

  /** `Overflow` is an address computation that leaves `u16`. */
  datatype EepromError = SectionOverrun | NoCategory | Decode | Capacity | StringTooLong | Overflow

  function WordAt(mem: Memory, word: nat): u16
    requires word <= 0x1_0000
  {
    mem[2 * word] as int + 256 * (mem[2 * word + 1] as int)
  }

  /** Two bytes, little endian. */
  function LeBytes(w: u16): seq<u8> {
    [w % 256, w / 256]
  }

  /** Memory holds the bytes `bs` from address `at` on. */
  predicate At(mem: Memory, at: nat, bs: seq<u8>) {
    at + |bs| <= MEMORY_BYTES && mem[at..at + |bs|] == bs
  }

  lemma {:induction false} AtParts(mem: Memory, at: nat, a: seq<u8>, b: seq<u8>)
    requires At(mem, at, a + b)
    ensures At(mem, at, a) && At(mem, at + |a|, b)
  {
    var bs := mem[at..at + |a + b|];
    assert bs[..|a|] == a && bs[|a|..] == b;
  }

  lemma {:induction false} AtByte(mem: Memory, at: nat, bs: seq<u8>, k: nat)
    requires At(mem, at, bs) && k < |bs|
    ensures mem[at + k] == bs[k]
  {
    assert mem[at..at + |bs|][k] == bs[k];
  }

  /** The chip behind the provider interface. */
  class Device {
    var mem: Memory

    constructor (mem: Memory)
      ensures this.mem == mem
    {
      this.mem := mem;
    }

    /** Read a chunk at a word address; the chip decides how much it returns. */
    method ReadChunk(startWord: u16) returns (chunk: seq<u8>)
      ensures |chunk| == 4 || |chunk| == 8
      ensures chunk == mem[2 * startWord..2 * startWord + |chunk|]
    {
      var wide: bool := *;
      var len := if wide then 8 else 4;
      chunk := mem[2 * startWord..2 * startWord + len];
    }

    /** Write one word. */
    method WriteWord(startWord: u16, word: seq<u8>)
      requires |word| == 2
      modifies this
      ensures mem == Stored(old(mem), 2 * startWord, word)
    {
      mem := mem[2 * startWord := word[0]][2 * startWord + 1 := word[1]];
      assert mem == Stored(old(mem), 2 * startWord, word);
    }
  }

  /** Memory with `bs` stored from `at` on. */
  function Stored(mem: Memory, at: nat, bs: seq<u8>): Memory
    requires at + |bs| <= MEMORY_BYTES
  {
    mem[..at] + bs + mem[at + |bs|..]
  }

  /** The part of a chunk that fits into `room` bytes. */
  function Fitting(chunk: seq<u8>, room: nat): (r: seq<u8>)
    ensures |r| == Min(|chunk|, room) && r == chunk[..|r|]
  {
    if room < |chunk| then chunk[..room] else chunk
  }

  /** What the write loop leaves behind. */
  datatype WriteEffect = WriteEffect(mem: Memory, pos: nat, written: nat)

  /** The next two bytes to write; a last single byte gets a zero beside it. */
  function FirstWord(data: seq<u8>): (word: seq<u8>)
    requires data != []
    ensures |word| == 2
  {
    if |data| >= 2 then data[..2] else [data[0], 0]
  }

  function AfterFirstWord(data: seq<u8>): (rest: seq<u8>)
    requires data != []
    ensures |rest| < |data|
  {
    if |data| >= 2 then data[2..] else []
  }

  /** Words are written until the data or the range is used up; a last odd byte is padded with zero. */
  function WriteOut(mem: Memory, pos: nat, end: u16, data: seq<u8>): (r: WriteEffect)
    requires end % 2 == 0
    ensures pos <= r.pos <= Max(pos, end + 1)
    decreases |data|
  {
    if end <= pos || data == [] then WriteEffect(mem, pos, 0)
    else
      var r := WriteOut(Stored(mem, 2 * (pos / 2), FirstWord(data)), pos + 2, end, AfterFirstWord(data));
      r.(written := r.written + 2)
  }

  /** A cursor confined to a range; `bytePos` is the next byte to deliver. */
  class EepromRange {
    const reader: Device
    const end: u16
    var bytePos: u16

    constructor (reader: Device, startWord: u16, lenWords: u16)
      requires 2 * startWord + 2 * lenWords <= U16_MAX
      ensures this.reader == reader && bytePos == 2 * startWord && end == 2 * startWord + 2 * lenWords
    {
      this.reader := reader;
      this.bytePos := 2 * startWord;
      this.end := 2 * startWord + 2 * lenWords;
    }

    /** Skip bytes; landing on or past the end is refused. */
    method SkipAheadBytes(skip: u16) returns (r: Result<(), EepromError>)
      modifies this`bytePos
      ensures r == if old(bytePos) + skip > U16_MAX then Err(Overflow)
                   else if old(bytePos) + skip >= end then Err(SectionOverrun) else Ok(())
      ensures bytePos == if r.Ok? then old(bytePos) + skip else old(bytePos)
    {
      if bytePos + skip > U16_MAX {
        return Err(Overflow);
      }
      if bytePos + skip >= end {
        return Err(SectionOverrun);
      }
      bytePos := bytePos + skip;
      r := Ok(());
    }

    /** Read one byte; the end of the range is not checked. */
    method ReadByte() returns (r: Result<u8, EepromError>)
      modifies this`bytePos
      ensures r == if old(bytePos) == U16_MAX then Err(Overflow) else Ok(reader.mem[old(bytePos)])
      ensures bytePos == if r.Ok? then old(bytePos) + 1 else old(bytePos)
    {
      var res := reader.ReadChunk(bytePos / 2);
      var skip := bytePos % 2;
      if bytePos == U16_MAX {
        return Err(Overflow);
      }
      bytePos := bytePos + 1;
      r := Ok(res[skip]);
    }

    /** Read into `buf` from position `from` on, as much as the buffer and the range allow. */
    method Read(buf: array<u8>, from: nat) returns (bytesRead: nat)
      requires from <= buf.Length
      modifies this`bytePos, buf
      ensures bytesRead == Min(buf.Length - from, SatSub(end, old(bytePos)))
      ensures bytePos == old(bytePos) + bytesRead
      ensures forall j :: 0 <= j < buf.Length ==>
        buf[j] == if from <= j < from + bytesRead then reader.mem[old(bytePos) + (j - from)] else old(buf[j])
    {
      var maxRead := SatSub(end, bytePos);
      bytesRead := 0;
      if maxRead == 0 {
        return;
      }
      var want := Min(buf.Length - from, maxRead);
      ghost var was, start := buf[..], bytePos;
      while bytesRead < want
        invariant bytesRead <= want && bytePos == start + bytesRead
        invariant forall j :: 0 <= j < buf.Length ==>
          buf[j] == if from <= j < from + bytesRead then reader.mem[start + (j - from)] else was[j]
      {
        var chunk := ChunkFrom(reader, bytePos, want - bytesRead);
        CopyChunk(buf, from + bytesRead, chunk);
        bytesRead := bytesRead + |chunk|;
        bytePos := bytePos + |chunk|;
      }
    }

    /** Fill the buffer; false when the range ends first. */
    method ReadExact(buf: array<u8>) returns (ok: bool)
      modifies this`bytePos, buf
      ensures ok <==> buf.Length <= SatSub(end, old(bytePos))
      ensures bytePos == old(bytePos) + Min(buf.Length, SatSub(end, old(bytePos)))
      ensures ok ==> buf[..] == reader.mem[old(bytePos)..old(bytePos) + buf.Length]
    {
      var done := 0;
      ghost var start := bytePos;
      while done < buf.Length
        invariant done <= buf.Length && done <= SatSub(end, start) && bytePos == start + done
        invariant forall j :: 0 <= j < done ==> buf[j] == reader.mem[start + j]
      {
        var n := Read(buf, done);
        if n == 0 {
          return false;
        }
        done := done + n;
      }
      ok := true;
    }

    /** Write words while data and range last. */
    method Write(data: seq<u8>) returns (written: nat)
      requires end % 2 == 0
      modifies this`bytePos, reader
      ensures var r := WriteOut(old(reader.mem), old(bytePos), end, data);
        reader.mem == r.mem && bytePos == r.pos && written == r.written
    {
      written := 0;
      var rest := data;
      ghost var all := WriteOut(reader.mem, bytePos, end, data);
      while bytePos < end && rest != []
        invariant var r := WriteOut(reader.mem, bytePos, end, rest);
          all == r.(written := written + r.written)
        decreases |rest|
      {
        reader.WriteWord(bytePos / 2, FirstWord(rest));
        written := written + 2;
        bytePos := bytePos + 2;
        rest := AfterFirstWord(rest);
      }
    }
  }

  /** Bytes from any byte position on: chunks start at words, so from an odd position one byte is dropped. */
  method ChunkFrom(reader: Device, pos: u16, room: nat) returns (chunk: seq<u8>)
    requires room > 0
    ensures 0 < |chunk| <= room && pos + |chunk| <= MEMORY_BYTES
    ensures forall k :: 0 <= k < |chunk| ==> chunk[k] == reader.mem[pos + k]
  {
    var res := reader.ReadChunk(pos / 2);
    var skip := pos % 2;
    assert pos == 2 * (pos / 2) + skip;
    assert forall k :: 0 <= k < |res| ==> res[k] == reader.mem[2 * (pos / 2) + k];
    chunk := Fitting(res[skip..], room);
  }

  /** Copy a chunk into the buffer. */
  method CopyChunk(buf: array<u8>, at: nat, chunk: seq<u8>)
    requires at + |chunk| <= buf.Length
    modifies buf
    ensures forall j :: 0 <= j < buf.Length ==> buf[j] == if at <= j < at + |chunk| then chunk[j - at] else old(buf[j])
  {
    for i := 0 to |chunk|
      invariant forall j :: 0 <= j < buf.Length ==> buf[j] == if at <= j < at + i then chunk[j - at] else old(buf[j])
    {
      buf[at + i] := chunk[i];
    }
  }
}
