/** Looking up a string in the string table of an SII EEPROM. */
module SiiStrings {
  import opened Common
  import opened Eeprom
  import opened Categories

  const QUESTION_MARK: u8 := 0x3f

  predicate IsAscii(b: u8) {
    b < 0x80
  }

  /** NULs dropped, bytes outside ASCII replaced. */
  function Clean(raw: seq<u8>): seq<u8> {
    if raw == [] then []
    else
      var front, last := Clean(raw[..|raw| - 1]), raw[|raw| - 1];
      if last == 0 then front else front + [if IsAscii(last) then last else QUESTION_MARK]
  }

  /** Drop the NULs, `retain`. */
  function WithoutNuls(raw: seq<u8>): seq<u8> {
    if raw == [] then []
    else if raw[|raw| - 1] == 0 then WithoutNuls(raw[..|raw| - 1])
    else WithoutNuls(raw[..|raw| - 1]) + [raw[|raw| - 1]]
  }

  /** The two passes over the buffer: NULs go first, then what is not ASCII is replaced in place. */
  method CleanBuffer(buf: array<u8>) returns (s: seq<u8>)
    ensures s == Clean(buf[..])
  {
    var kept: seq<u8> := [];
    for i := 0 to buf.Length
      invariant kept == WithoutNuls(buf[..i])
    {
      assert buf[..i + 1][..i] == buf[..i];
      if buf[i] != 0 {
        kept := kept + [buf[i]];
      }
    }
    assert buf[..buf.Length] == buf[..];
    var chars := new u8[|kept|](i requires 0 <= i < |kept| => kept[i]);
    for i := 0 to chars.Length
      invariant forall k :: 0 <= k < chars.Length ==>
        chars[k] == if k < i && !IsAscii(kept[k]) then QUESTION_MARK else kept[k]
    {
      if !IsAscii(chars[i]) {
        chars[i] := QUESTION_MARK;
      }
    }
    s := chars[..];
    CleanIsTwoPasses(buf[..], s);
  }

  lemma {:induction false} CleanIsTwoPasses(raw: seq<u8>, s: seq<u8>)
    requires |s| == |WithoutNuls(raw)|
    requires forall k :: 0 <= k < |s| ==>
      s[k] == if IsAscii(WithoutNuls(raw)[k]) then WithoutNuls(raw)[k] else QUESTION_MARK
    ensures s == Clean(raw)
  {
    if raw != [] {
      var front, last := raw[..|raw| - 1], raw[|raw| - 1];
      if last == 0 {
        CleanIsTwoPasses(front, s);
      } else {
        CleanIsTwoPasses(front, s[..|s| - 1]);
      }
    }
  }

  /** Each byte is dropped, kept or replaced on its own: a NUL is dropped, what is not ASCII becomes a question mark. */
  lemma {:induction false} CleanOfParts(a: seq<u8>, b: seq<u8>)
    ensures Clean(a + b) == Clean(a) + Clean(b)
    ensures forall x: u8 :: Clean([x]) == if x == 0 then [] else if x < 0x80 then [x] else [0x3f]
  {
    if b == [] {
      assert a + b == a;
    } else {
      var front, last := b[..|b| - 1], b[|b| - 1];
      assert (a + b)[..|a + b| - 1] == a + front && (a + b)[|a + b| - 1] == last;
      CleanOfParts(a, front);
    }
    forall x: u8
      ensures Clean([x]) == if x == 0 then [] else if x < 0x80 then [x] else [0x3f]
    {
      assert [x][..0] == [];
    }
  }

  /** The result is printable as UTF-8: no NULs, ASCII only, and never longer than what was read. */
  lemma {:induction false} CleanIsAscii(raw: seq<u8>)
    ensures |Clean(raw)| <= |raw|
    ensures forall k :: 0 <= k < |Clean(raw)| ==> 0 < Clean(raw)[k] < 0x80
  {
    if raw != [] {
      CleanIsAscii(raw[..|raw| - 1]);
    }
  }

  /** A string is returned unchanged exactly when it is NUL-free ASCII. */
  lemma {:induction false} CleanKeepsIff(raw: seq<u8>)
    ensures Clean(raw) == raw <==> forall k :: 0 <= k < |raw| ==> 0 < raw[k] < 0x80
  {
    CleanIsAscii(raw);
    if raw != [] && forall k :: 0 <= k < |raw| ==> 0 < raw[k] < 0x80 {
      CleanKeepsIff(raw[..|raw| - 1]);
    }
  }

  // --- The cursor's view of a lookup

  /** Position after skipping `n` length-prefixed strings. */
  function Skip(mem: Memory, pos: u16, end: u16, n: nat): Result<u16, EepromError>
    decreases n
  {
    if n == 0 then Ok(pos)
    else if pos == U16_MAX then Err(Overflow)
    else
      var next := pos + 1 + mem[pos];
      if next > U16_MAX then Err(Overflow)
      else if next >= end then Err(SectionOverrun)
      else Skip(mem, next, end, n - 1)
  }

  /** The string whose length byte is at `pos`, for a buffer of `capacity` bytes. */
  function Take(mem: Memory, pos: u16, end: u16, capacity: nat): Result<seq<u8>, EepromError> {
    if pos == U16_MAX then Err(Overflow)
    else
      var len := mem[pos];
      if len > capacity then Err(StringTooLong)
      else if len > SatSub(end, pos + 1) then Err(SectionOverrun)
      else Ok(Clean(mem[pos + 1..pos + 1 + len]))
  }

  /** Lookup of a zero-based index in the table at `pos`. */
  function LookupIn(mem: Memory, pos: u16, end: u16, index: nat, capacity: nat): Result<Option<seq<u8>>, EepromError> {
    if pos == U16_MAX then Err(Overflow)
    else if index > mem[pos] then Ok(None)
    else match Skip(mem, pos + 1, end, index)
      case Err(e) => Err(e)
      case Ok(at) =>
        match Take(mem, at, end, capacity)
        case Err(e) => Err(e)
        case Ok(s) => Ok(Some(s))
  }

  /** Lookup of a one-based index in the whole EEPROM; zero stands for the empty string. */
  function Lookup(mem: Memory, index: u8, capacity: nat): Result<Option<seq<u8>>, EepromError> {
    if index == 0 then Ok(None)
    else match Walk(mem, SII_FIRST_CATEGORY_START, 0, Strings)
      case Err(e) => Err(e)
      case Ok(None) => Ok(None)
      case Ok(Some(s)) => LookupIn(mem, 2 * s.start, 2 * s.start + 2 * s.len, index - 1, capacity)
  }

  /** Read the string at the cursor. */
  method TakeString(reader: EepromRange, capacity: nat) returns (r: Result<seq<u8>, EepromError>)
    modifies reader`bytePos
    ensures r == Take(reader.reader.mem, old(reader.bytePos), reader.end, capacity)
  {
    ghost var start := reader.bytePos;
    var len := reader.ReadByte();
    if len.Err? {
      return Err(len.error);
    }
    if len.value > capacity {
      return Err(StringTooLong);
    }
    var buf := new u8[len.value];
    var ok := reader.ReadExact(buf);
    if !ok {
      return Err(SectionOverrun);
    }
    var s := CleanBuffer(buf);
    r := Ok(s);
  }

  /** Skip the strings before the wanted one. */
  method SkipStrings(reader: EepromRange, n: nat) returns (r: Result<(), EepromError>)
    modifies reader`bytePos
    ensures match Skip(reader.reader.mem, old(reader.bytePos), reader.end, n)
            case Err(e) => r == Err(e)
            case Ok(pos) => r == Ok(()) && reader.bytePos == pos
  {
    for i := 0 to n
      invariant Skip(reader.reader.mem, reader.bytePos, reader.end, n - i)
             == Skip(reader.reader.mem, old(reader.bytePos), reader.end, n)
    {
      var len := reader.ReadByte();
      if len.Err? {
        return Err(len.error);
      }
      var skipped := reader.SkipAheadBytes(len.value);
      if skipped.Err? {
        return Err(skipped.error);
      }
    }
    r := Ok(());
  }

  /** Find a string in the device EEPROM. */
  method FindString(device: Device, searchIndex: u8, capacity: nat) returns (r: Result<Option<seq<u8>>, EepromError>)
    ensures r == Lookup(device.mem, searchIndex, capacity)
  {
    if searchIndex == 0 {
      return Ok(None);
    }
    var index := searchIndex - 1;
    var category, chunks := Category(device, Strings);
    if category.Err? {
      return Err(category.error);
    }
    if category.value.None? {
      return Ok(None);
    }
    var section := category.value.value;
    var reader := new EepromRange(device, section.start, section.len);
    r := FindIn(reader, index, capacity);
  }

  /** Find a string in the category under the cursor, by its zero-based index. */
  method FindIn(reader: EepromRange, index: u8, capacity: nat) returns (r: Result<Option<seq<u8>>, EepromError>)
    modifies reader`bytePos
    ensures r == LookupIn(reader.reader.mem, old(reader.bytePos), reader.end, index, capacity)
  {
    var numStrings := reader.ReadByte();
    if numStrings.Err? {
      return Err(numStrings.error);
    }
    if index > numStrings.value {
      return Ok(None);
    }
    var skipped := SkipStrings(reader, index);
    if skipped.Err? {
      return Err(skipped.error);
    }
    var s := TakeString(reader, capacity);
    r := if s.Ok? then Ok(Some(s.value)) else Err(s.error);
  }

  // --- Lookup in an encoded table

  predicate Fits(strings: seq<seq<u8>>) {
    strings != [] ==> |strings[0]| < 0x100 && Fits(strings[1..])
  }

  /** Length-prefixed strings, one after the other. */
  function EncodeStrings(strings: seq<seq<u8>>): seq<u8>
    requires Fits(strings)
  {
    if strings == [] then [] else [|strings[0]| as u8] + (strings[0] + EncodeStrings(strings[1..]))
  }

  /** The table: how many strings there are, then the strings. */
  function EncodeTable(strings: seq<seq<u8>>): seq<u8>
    requires |strings| < 0x100 && Fits(strings)
  {
    [|strings| as u8] + EncodeStrings(strings)
  }

  /** Address of the length byte of string `k`. */
  function AddressOf(strings: seq<seq<u8>>, pos: nat, k: nat): nat {
    if k == 0 || strings == [] then pos else AddressOf(strings[1..], pos + 1 + |strings[0]|, k - 1)
  }

  /** The strings lie in memory from `pos` on. */
  predicate StringsAt(mem: Memory, pos: nat, strings: seq<seq<u8>>)
    decreases |strings|
  {
    if strings == [] then pos <= U16_MAX
    else
      && pos + 1 + |strings[0]| <= U16_MAX && mem[pos] == |strings[0]|
      && At(mem, pos + 1, strings[0])
      && StringsAt(mem, pos + 1 + |strings[0]|, strings[1..])
  }

  lemma {:induction false} EncodedStringsAt(mem: Memory, pos: nat, strings: seq<seq<u8>>)
    requires Fits(strings) && At(mem, pos, EncodeStrings(strings)) && pos + |EncodeStrings(strings)| <= U16_MAX
    ensures StringsAt(mem, pos, strings) && AddressOf(strings, pos, |strings|) == pos + |EncodeStrings(strings)|
    decreases |strings|
  {
    if strings != [] {
      var s, rest := strings[0], EncodeStrings(strings[1..]);
      AtParts(mem, pos, [|s| as u8], s + rest);
      AtParts(mem, pos + 1, s, rest);
      AtByte(mem, pos, [|s| as u8], 0);
      EncodedStringsAt(mem, pos + 1 + |s|, strings[1..]);
    }
  }

  lemma {:induction false} AddressesGrow(mem: Memory, pos: nat, strings: seq<seq<u8>>, k: nat)
    requires StringsAt(mem, pos, strings) && k <= |strings|
    ensures pos <= AddressOf(strings, pos, k) <= AddressOf(strings, pos, |strings|) <= U16_MAX
    ensures k < |strings| ==> AddressOf(strings, pos, k) + 1 + |strings[k]| <= AddressOf(strings, pos, |strings|)
    ensures k < |strings| ==> mem[AddressOf(strings, pos, k)] == |strings[k]|
    ensures k < |strings| ==> At(mem, AddressOf(strings, pos, k) + 1, strings[k])
    decreases |strings|
  {
    if strings != [] {
      AddressesGrow(mem, pos + 1 + |strings[0]|, strings[1..], if k == 0 then 0 else k - 1);
    }
  }

  /** Skipping `k` strings lands on string `k`, except that it fails when no byte of the range is left there. */
  lemma {:induction false} SkipLandsOn(mem: Memory, pos: nat, end: u16, strings: seq<seq<u8>>, k: nat)
    requires StringsAt(mem, pos, strings) && k <= |strings| && AddressOf(strings, pos, |strings|) <= end
    ensures Skip(mem, pos, end, k)
      == if k > 0 && AddressOf(strings, pos, k) == end then Err(SectionOverrun) else Ok(AddressOf(strings, pos, k))
    decreases k
  {
    if k > 0 {
      var next := pos + 1 + |strings[0]|;
      AddressesGrow(mem, next, strings[1..], k - 1);
      if next < end {
        SkipLandsOn(mem, next, end, strings[1..], k - 1);
      }
    }
  }

  /** A table lies in memory: its count, then its strings. */
  predicate TableAt(mem: Memory, pos: nat, strings: seq<seq<u8>>) {
    pos < U16_MAX && mem[pos] == |strings| && StringsAt(mem, pos + 1, strings)
  }

  lemma {:induction false} EncodedTableAt(mem: Memory, pos: nat, strings: seq<seq<u8>>)
    requires |strings| < 0x100 && Fits(strings) && At(mem, pos, EncodeTable(strings))
    requires pos + |EncodeTable(strings)| <= U16_MAX
    ensures TableAt(mem, pos, strings)
    ensures AddressOf(strings, pos + 1, |strings|) == pos + |EncodeTable(strings)|
  {
    AtParts(mem, pos, [|strings| as u8], EncodeStrings(strings));
    AtByte(mem, pos, [|strings| as u8], 0);
    EncodedStringsAt(mem, pos + 1, strings);
  }

  /** Every listed string is found, cleaned; an index of more than one past the count is refused; the one
      index between them reads whatever byte follows the table as the length of a string. */
  lemma {:induction false} LookupInTable(mem: Memory, pos: nat, end: u16, strings: seq<seq<u8>>, index: nat,
                                         capacity: nat)
    requires TableAt(mem, pos, strings) && AddressOf(strings, pos + 1, |strings|) <= end
    ensures index < |strings| ==>
      LookupIn(mem, pos, end, index, capacity)
        == if |strings[index]| > capacity then Err(StringTooLong) else Ok(Some(Clean(strings[index])))
    ensures index > |strings| ==> LookupIn(mem, pos, end, index, capacity) == Ok(None)
    ensures index == |strings| ==>
      LookupIn(mem, pos, end, index, capacity)
        == var after := AddressOf(strings, pos + 1, index);
           if index > 0 && after == end then Err(SectionOverrun)
           else match Take(mem, after, end, capacity)
             case Err(e) => Err(e)
             case Ok(s) => Ok(Some(s))
  {
    if index <= |strings| {
      AddressesGrow(mem, pos + 1, strings, index);
      SkipLandsOn(mem, pos + 1, end, strings, index);
    }
  }

  /** With a table that is followed by a zero byte in its category, as padding to a whole word leaves it,
      the index after the last string is answered with an empty string instead of nothing. */
  lemma {:induction false} IndexAfterLastIsNotRefused(mem: Memory, pos: nat, end: u16, strings: seq<seq<u8>>,
                                                      capacity: nat)
    requires TableAt(mem, pos, strings) && AddressOf(strings, pos + 1, |strings|) < end
    requires mem[AddressOf(strings, pos + 1, |strings|)] == 0
    ensures LookupIn(mem, pos, end, |strings|, capacity) == Ok(Some([]))
  {
    LookupInTable(mem, pos, end, strings, |strings|, capacity);
  }

  /** No string is reported exactly for index 0, without a string category, and for an index of at least
      two more than the count byte. */
  lemma {:induction false} NoStringIff(mem: Memory, index: u8, capacity: nat)
    ensures Lookup(mem, index, capacity) == Ok(None)
      <==> (index == 0
        || (var w := Walk(mem, SII_FIRST_CATEGORY_START, 0, Strings);
            w.Ok? && (w.value.None? || index - 1 > mem[2 * w.value.value.start])))
  {
    var w := Walk(mem, SII_FIRST_CATEGORY_START, 0, Strings);
    if index != 0 && w.Ok? && w.value.Some? {
      assert Lookup(mem, index, capacity)
        == LookupIn(mem, 2 * w.value.value.start, 2 * w.value.value.start + 2 * w.value.value.len, index - 1, capacity);
    }
  }

  /** Lookup in a section that starts with an encoded table. */
  lemma {:induction false} LookupInSection(mem: Memory, s: Section, data: seq<u8>, strings: seq<seq<u8>>, index: u8,
                                           capacity: nat)
    requires s.Addressable() && |data| == 2 * s.len && At(mem, 2 * s.start, data)
    requires |strings| < 0x100 && Fits(strings) && EncodeTable(strings) <= data
    requires 1 <= index <= |strings|
    ensures LookupIn(mem, 2 * s.start, 2 * s.start + 2 * s.len, index - 1, capacity)
      == if |strings[index - 1]| > capacity then Err(StringTooLong) else Ok(Some(Clean(strings[index - 1])))
  {
    var table := EncodeTable(strings);
    assert data == table + data[|table|..];
    AtParts(mem, 2 * s.start, table, data[|table|..]);
    EncodedTableAt(mem, 2 * s.start, strings);
    LookupInTable(mem, 2 * s.start, 2 * s.start + 2 * s.len, strings, index - 1, capacity);
  }

  /** The whole way: when the first string category of an EEPROM starts with an encoded table, every listed
      string is found under its one-based index, if the buffer has room for it. */
  lemma {:induction false} ListedStringIsFound(mem: Memory, entries: seq<Entry>, data: seq<u8>, strings: seq<seq<u8>>,
                                               index: u8, capacity: nat)
    requires Searchable(mem, entries, Strings) && FirstData(entries, Strings) == Some(data)
    requires |strings| < 0x100 && Fits(strings) && EncodeTable(strings) <= data
    requires 1 <= index <= |strings|
    ensures Lookup(mem, index, capacity)
      == if |strings[index - 1]| > capacity then Err(StringTooLong) else Ok(Some(Clean(strings[index - 1])))
  {
    SearchDeliversData(mem, entries, Strings);
    LookupInSection(mem, Walk(mem, SII_FIRST_CATEGORY_START, 0, Strings).value.value, data, strings, index, capacity);
  }
}
