/** Reading process data objects and their entries out of an SII EEPROM category. */
module SiiPdos {
  import opened Common
  import opened Eeprom
  import opened Categories

  const ITEM: nat := 8
  const MAX_PDOS: nat := 64

  /** What is kept of a PDO: its index, entry count, sync manager, and the bits its entries add up to. */
  datatype Pdo = Pdo(index: u16, numEntries: u8, syncManager: u8, bitLen: u16)

  datatype PdoType = Tx | Rx

  function CategoryOf(direction: PdoType): CategoryType {
    match direction
    case Tx => TxPdo
    case Rx => RxPdo
  }

  // --- The cursor's view

  /** Another item of eight bytes lies before the end. */
  predicate HasItem(pos: u16, end: u16) {
    ITEM <= SatSub(end, pos)
  }

  /** Bits of the next `n` entries, if the range holds them all. */
  function EntryBits(mem: Memory, pos: u16, end: u16, n: nat): (r: Option<nat>)
    ensures r.Some? ==> r.value <= 255 * n && pos + ITEM * n <= Max(pos, end)
    decreases n
  {
    if n == 0 then Some(0)
    else if !HasItem(pos, end) then None
    else match EntryBits(mem, pos + ITEM, end, n - 1)
      case None => None
      case Some(bits) => Some(mem[pos + 5] + bits)
  }

  function HeaderAt(mem: Memory, pos: u16, bits: u16): Pdo {
    Pdo(mem[pos] as int + 256 * (mem[pos + 1] as int), mem[pos + 2], mem[pos + 3], bits)
  }

  /** The PDOs from `pos` to the end of the range, `count` having been stored already. */
  function Parse(mem: Memory, pos: u16, end: u16, count: nat): Result<seq<Pdo>, EepromError>
    decreases SatSub(end, pos)
  {
    if !HasItem(pos, end) then Ok([])
    else
      var n := mem[pos + 2];
      match EntryBits(mem, pos + ITEM, end, n)
      case None => Err(Decode)
      case Some(bits) =>
        if count >= MAX_PDOS then Err(Capacity)
        else match Parse(mem, pos + ITEM + ITEM * n, end, count + 1)
          case Err(e) => Err(e)
          case Ok(rest) => Ok([HeaderAt(mem, pos, bits)] + rest)
  }

  /** All PDOs of one direction; without the category there are none. */
  function PdosIn(mem: Memory, direction: PdoType): Result<seq<Pdo>, EepromError> {
    match Walk(mem, SII_FIRST_CATEGORY_START, 0, CategoryOf(direction))
    case Err(e) => Err(e)
    case Ok(None) => Ok([])
    case Ok(Some(s)) => Parse(mem, 2 * s.start, 2 * s.start + 2 * s.len, 0)
  }

  /** The next item, or none at the end of the category. */
  method NextItem(reader: EepromRange) returns (r: Option<seq<u8>>)
    modifies reader`bytePos
    ensures reader.bytePos == old(reader.bytePos) + Min(ITEM, SatSub(reader.end, old(reader.bytePos)))
    ensures r.Some? <==> HasItem(old(reader.bytePos), reader.end)
    ensures r.Some? ==> r.value == reader.reader.mem[old(reader.bytePos)..old(reader.bytePos) + ITEM]
  {
    var buf := new u8[ITEM];
    var ok := reader.ReadExact(buf);
    r := if ok then Some(buf[..]) else None;
  }

  /** Add up the lengths of the next `n` entries. */
  method SumEntries(reader: EepromRange, n: u8) returns (r: Result<u16, EepromError>)
    modifies reader`bytePos
    ensures match EntryBits(reader.reader.mem, old(reader.bytePos), reader.end, n)
            case None => r == Err(Decode)
            case Some(bits) => r == Ok(bits) && reader.bytePos == old(reader.bytePos) + ITEM * n
  {
    var bitLen: u16 := 0;
    ghost var start := reader.bytePos;
    ghost var all := EntryBits(reader.reader.mem, start, reader.end, n);
    for idx := 0 to n
      invariant reader.bytePos == start + ITEM * idx && bitLen <= 255 * idx
      invariant match EntryBits(reader.reader.mem, reader.bytePos, reader.end, n - idx)
                case None => all == None
                case Some(bits) => all == Some(bitLen + bits)
    {
      var entry := NextItem(reader);
      if entry.None? {
        return Err(Decode);
      }
      bitLen := bitLen + entry.value[5];
    }
    r := Ok(bitLen);
  }

  /** Read all PDOs of one direction. */
  method Pdos(device: Device, direction: PdoType) returns (r: Result<seq<Pdo>, EepromError>)
    ensures r == PdosIn(device.mem, direction)
  {
    var category, chunks := Category(device, CategoryOf(direction));
    if category.Err? {
      return Err(category.error);
    }
    var reader;
    if category.value.None? {
      reader := new EepromRange(device, 0, 0);
    } else {
      reader := new EepromRange(device, category.value.value.start, category.value.value.len);
    }
    r := ReadAll(reader);
  }

  function Prepend(pdos: seq<Pdo>, r: Result<seq<Pdo>, EepromError>): Result<seq<Pdo>, EepromError> {
    match r
    case Err(e) => Err(e)
    case Ok(rest) => Ok(pdos + rest)
  }

  lemma {:induction false} PrependNothing(r: Result<seq<Pdo>, EepromError>)
    ensures Prepend([], r) == r
  {
    assert r.Ok? ==> [] + r.value == r.value;
  }

  lemma {:induction false} PrependTwice(a: seq<Pdo>, b: seq<Pdo>, r: Result<seq<Pdo>, EepromError>)
    ensures Prepend(a, Prepend(b, r)) == Prepend(a + b, r)
  {
    assert r.Ok? ==> a + (b + r.value) == (a + b) + r.value;
  }

  method ReadAll(reader: EepromRange) returns (r: Result<seq<Pdo>, EepromError>)
    modifies reader`bytePos
    ensures r == Parse(reader.reader.mem, old(reader.bytePos), reader.end, 0)
  {
    var pdos: seq<Pdo> := [];
    ghost var mem, end := reader.reader.mem, reader.end;
    ghost var all := Parse(mem, reader.bytePos, end, 0);
    PrependNothing(all);
    while true
      invariant |pdos| <= MAX_PDOS
      invariant all == Prepend(pdos, Parse(mem, reader.bytePos, end, |pdos|))
      decreases SatSub(end, reader.bytePos)
    {
      ghost var pos := reader.bytePos;
      var header := NextItem(reader);
      if header.None? {
        assert pdos + [] == pdos;
        return Ok(pdos);
      }
      var h := header.value;
      var pdo := Pdo(h[0] as int + 256 * (h[1] as int), h[2], h[3], 0);
      var bits := SumEntries(reader, pdo.numEntries);
      if bits.Err? {
        return Err(bits.error);
      }
      pdo := pdo.(bitLen := bits.value);
      if |pdos| >= MAX_PDOS {
        return Err(Capacity);
      }
      assert pdo == HeaderAt(mem, pos, bits.value);
      PrependTwice(pdos, [pdo], Parse(mem, reader.bytePos, end, |pdos| + 1));
      pdos := pdos + [pdo];
    }
  }

  // --- Any EEPROM contents

  function SizeOf(pdos: seq<Pdo>): nat {
    if pdos == [] then 0 else ITEM + ITEM * pdos[0].numEntries + SizeOf(pdos[1..])
  }

  /** Whatever the category holds: a successful parse accounts for every byte of it but a rest too short for
      another item, never stores more than 64 PDOs, and no bit length exceeds 255 per entry. */
  lemma {:induction false} ParseAccountsForRange(mem: Memory, pos: u16, end: u16, count: nat)
    requires pos <= end && Parse(mem, pos, end, count).Ok? && count <= MAX_PDOS
    ensures var pdos := Parse(mem, pos, end, count).value;
      && count + |pdos| <= MAX_PDOS
      && pos + SizeOf(pdos) <= end < pos + SizeOf(pdos) + ITEM
      && forall k :: 0 <= k < |pdos| ==> pdos[k].bitLen <= 255 * pdos[k].numEntries
    decreases SatSub(end, pos)
  {
    if HasItem(pos, end) {
      ParseAccountsForRange(mem, pos + ITEM + ITEM * mem[pos + 2], end, count + 1);
    }
  }

  // --- Encoded PDOs

  /** ETG2010 Table 14, the entries. */
  datatype EntryRecord = EntryRecord(index: u16, subIndex: u8, nameIndex: u8, dataType: u8, bits: u8, flags: u16)

  /** ETG2010 Table 14, the header. */
  datatype PdoRecord = PdoRecord(index: u16, syncManager: u8, dcSync: u8, nameIndex: u8, flags: u16,
                                 entries: seq<EntryRecord>)

  function EncodeEntry(e: EntryRecord): seq<u8> {
    LeBytes(e.index) + [e.subIndex, e.nameIndex, e.dataType, e.bits] + LeBytes(e.flags)
  }

  function EncodeEntries(es: seq<EntryRecord>): (bs: seq<u8>)
    ensures |bs| == ITEM * |es|
  {
    if es == [] then [] else EncodeEntry(es[0]) + EncodeEntries(es[1..])
  }

  function EncodeHeader(p: PdoRecord): seq<u8>
    requires |p.entries| < 0x100
  {
    LeBytes(p.index) + [|p.entries| as u8, p.syncManager, p.dcSync, p.nameIndex] + LeBytes(p.flags)
  }

  function EncodePdo(p: PdoRecord): (bs: seq<u8>)
    requires |p.entries| < 0x100
    ensures |bs| == ITEM + ITEM * |p.entries|
  {
    EncodeHeader(p) + EncodeEntries(p.entries)
  }

  predicate Countable(ps: seq<PdoRecord>) {
    ps != [] ==> |ps[0].entries| < 0x100 && Countable(ps[1..])
  }

  function EncodePdos(ps: seq<PdoRecord>): seq<u8>
    requires Countable(ps)
  {
    if ps == [] then [] else EncodePdo(ps[0]) + EncodePdos(ps[1..])
  }

  function SumBits(es: seq<EntryRecord>): (n: nat)
    ensures n <= 255 * |es|
  {
    if es == [] then 0 else es[0].bits + SumBits(es[1..])
  }

  /** What a reader is meant to see of a PDO. */
  function View(p: PdoRecord): Pdo
    requires |p.entries| < 0x100
  {
    Pdo(p.index, |p.entries|, p.syncManager, SumBits(p.entries))
  }

  function Views(ps: seq<PdoRecord>): seq<Pdo>
    requires Countable(ps)
  {
    if ps == [] then [] else [View(ps[0])] + Views(ps[1..])
  }

  /** Entries in memory add up, if the range holds them. */
  lemma {:induction false} EntriesAddUp(mem: Memory, pos: nat, end: u16, es: seq<EntryRecord>)
    requires At(mem, pos, EncodeEntries(es)) && pos + ITEM * |es| <= end
    ensures EntryBits(mem, pos, end, |es|) == Some(SumBits(es))
    decreases |es|
  {
    if es != [] {
      AtParts(mem, pos, EncodeEntry(es[0]), EncodeEntries(es[1..]));
      AtByte(mem, pos, EncodeEntry(es[0]), 5);
      EntriesAddUp(mem, pos + ITEM, end, es[1..]);
    }
  }

  /** A range that ends inside the entries is noticed. */
  lemma {:induction false} MissingEntryIsNoticed(mem: Memory, pos: u16, end: u16, n: nat)
    ensures EntryBits(mem, pos, end, n).None? <==> n > 0 && Max(pos, end) < pos + ITEM * n
    decreases n
  {
    if n > 0 && HasItem(pos, end) {
      MissingEntryIsNoticed(mem, pos + ITEM, end, n - 1);
    }
  }

  lemma {:induction false} HeaderIsRead(mem: Memory, pos: u16, p: PdoRecord)
    requires |p.entries| < 0x100 && At(mem, pos, EncodeHeader(p))
    ensures mem[pos + 2] == |p.entries|
    ensures forall bits: u16 :: HeaderAt(mem, pos, bits) == Pdo(p.index, |p.entries|, p.syncManager, bits)
  {
    var bs := EncodeHeader(p);
    AtByte(mem, pos, bs, 0);
    AtByte(mem, pos, bs, 1);
    AtByte(mem, pos, bs, 2);
    AtByte(mem, pos, bs, 3);
  }

  /** One whole PDO is parsed to its view, and parsing goes on behind it. */
  lemma {:induction false} WholePdoIsParsed(mem: Memory, pos: u16, end: u16, count: nat, p: PdoRecord)
    requires |p.entries| < 0x100 && At(mem, pos, EncodePdo(p)) && pos + |EncodePdo(p)| <= end
    ensures Parse(mem, pos, end, count)
      == if count >= MAX_PDOS then Err(Capacity)
         else Prepend([View(p)], Parse(mem, pos + |EncodePdo(p)|, end, count + 1))
  {
    AtParts(mem, pos, EncodeHeader(p), EncodeEntries(p.entries));
    HeaderIsRead(mem, pos, p);
    EntriesAddUp(mem, pos + ITEM, end, p.entries);
  }

  /** Whole PDOs lie in memory from `pos` up to `after`. */
  predicate PdosAt(mem: Memory, pos: nat, after: u16, ps: seq<PdoRecord>)
    decreases |ps|
  {
    if ps == [] then pos == after
    else
      && |ps[0].entries| < 0x100 && At(mem, pos, EncodePdo(ps[0]))
      && PdosAt(mem, pos + ITEM + ITEM * |ps[0].entries|, after, ps[1..])
  }

  lemma {:induction false} EncodedPdosAt(mem: Memory, pos: nat, ps: seq<PdoRecord>)
    requires Countable(ps) && At(mem, pos, EncodePdos(ps)) && pos + |EncodePdos(ps)| <= U16_MAX
    ensures PdosAt(mem, pos, pos + |EncodePdos(ps)|, ps)
    decreases |ps|
  {
    if ps != [] {
      AtParts(mem, pos, EncodePdo(ps[0]), EncodePdos(ps[1..]));
      EncodedPdosAt(mem, pos + ITEM + ITEM * |ps[0].entries|, ps[1..]);
    }
  }

  lemma {:induction false} PdosAreOrdered(mem: Memory, pos: nat, after: u16, ps: seq<PdoRecord>)
    requires PdosAt(mem, pos, after, ps)
    ensures pos <= after
    decreases |ps|
  {
    if ps != [] {
      PdosAreOrdered(mem, pos + ITEM + ITEM * |ps[0].entries|, after, ps[1..]);
    }
  }

  /** Parsing a run of whole PDOs that brings the count to at most 64: their views come first and parsing goes
      on behind them. */
  lemma {:induction false} WholePdosAreParsed(mem: Memory, pos: u16, after: u16, end: u16, count: nat,
                                              ps: seq<PdoRecord>)
    requires Countable(ps) && PdosAt(mem, pos, after, ps) && after <= end && count + |ps| <= MAX_PDOS
    ensures Parse(mem, pos, end, count) == Prepend(Views(ps), Parse(mem, after, end, count + |ps|))
    decreases |ps|
  {
    if ps == [] {
      PrependNothing(Parse(mem, pos, end, count));
    } else {
      var next, rest := pos + ITEM + ITEM * |ps[0].entries|, ps[1..];
      PdosAreOrdered(mem, next, after, rest);
      assert Parse(mem, next, end, count + 1) == Prepend(Views(rest), Parse(mem, after, end, count + |ps|)) by {
        WholePdosAreParsed(mem, next, after, end, count + 1, rest);
      }
      assert Parse(mem, pos, end, count) == Prepend([View(ps[0])], Parse(mem, next, end, count + 1)) by {
        WholePdoIsParsed(mem, pos, end, count, ps[0]);
      }
      PrependTwice([View(ps[0])], Views(rest), Parse(mem, after, end, count + |ps|));
    }
  }

  /** A run of whole PDOs that brings the count above 64 is refused. */
  lemma {:induction false} TooManyAreRefused(mem: Memory, pos: u16, after: u16, end: u16, count: nat,
                                             ps: seq<PdoRecord>)
    requires Countable(ps) && PdosAt(mem, pos, after, ps) && after <= end && count <= MAX_PDOS < count + |ps|
    ensures Parse(mem, pos, end, count) == Err(Capacity)
    decreases |ps|
  {
    var next := pos + ITEM + ITEM * |ps[0].entries|;
    PdosAreOrdered(mem, next, after, ps[1..]);
    WholePdoIsParsed(mem, pos, end, count, ps[0]);
    if count < MAX_PDOS {
      TooManyAreRefused(mem, next, after, end, count + 1, ps[1..]);
    }
  }

  /** A category with encoded PDOs and up to seven bytes of padding is read back exactly when it holds at most 64. */
  lemma {:induction false} PdosRoundTrip(mem: Memory, pos: u16, end: u16, ps: seq<PdoRecord>)
    requires Countable(ps) && At(mem, pos, EncodePdos(ps))
    requires pos + |EncodePdos(ps)| <= end < pos + |EncodePdos(ps)| + ITEM
    ensures Parse(mem, pos, end, 0) == if |ps| <= 64 then Ok(Views(ps)) else Err(Capacity)
  {
    EncodedPdosAt(mem, pos, ps);
    if |ps| <= MAX_PDOS {
      WholePdosAreParsed(mem, pos, pos + |EncodePdos(ps)|, end, 0, ps);
      assert Views(ps) + [] == Views(ps);
    } else {
      TooManyAreRefused(mem, pos, pos + |EncodePdos(ps)|, end, 0, ps);
    }
  }

  lemma {:induction false} SectionRoundTrip(mem: Memory, s: Section, ps: seq<PdoRecord>)
    requires s.Addressable() && Countable(ps) && At(mem, 2 * s.start, EncodePdos(ps)) && |EncodePdos(ps)| == 2 * s.len
    ensures Parse(mem, 2 * s.start, 2 * s.start + 2 * s.len, 0) == if |ps| <= MAX_PDOS then Ok(Views(ps))
      else Err(Capacity)
  {
    PdosRoundTrip(mem, 2 * s.start, 2 * s.start + 2 * s.len, ps);
  }

  /** A category that ends inside the entries of a PDO is a decoding error. */
  lemma {:induction false} TruncatedEntriesAreRefused(mem: Memory, pos: u16, end: u16, ps: seq<PdoRecord>,
                                                      last: PdoRecord)
    requires Countable(ps) && |last.entries| < 0x100 && |ps| <= MAX_PDOS
    requires At(mem, pos, EncodePdos(ps) + EncodeHeader(last))
    requires pos + |EncodePdos(ps)| + ITEM <= end < pos + |EncodePdos(ps)| + ITEM + ITEM * |last.entries|
    ensures Parse(mem, pos, end, 0) == Err(Decode)
  {
    AtParts(mem, pos, EncodePdos(ps), EncodeHeader(last));
    EncodedPdosAt(mem, pos, ps);
    WholePdosAreParsed(mem, pos, pos + |EncodePdos(ps)|, end, 0, ps);
    var at := pos + |EncodePdos(ps)|;
    HeaderIsRead(mem, at, last);
    MissingEntryIsNoticed(mem, at + ITEM, end, |last.entries|);
  }

  /** The whole way: a first category of the direction that holds encoded PDOs is read back. */
  lemma {:induction false} EncodedPdosAreFound(mem: Memory, entries: seq<Entry>, direction: PdoType, ps: seq<PdoRecord>)
    requires Countable(ps) && Searchable(mem, entries, CategoryOf(direction))
    requires FirstData(entries, CategoryOf(direction)) == Some(EncodePdos(ps))
    ensures PdosIn(mem, direction) == if |ps| <= 64 then Ok(Views(ps)) else Err(Capacity)
  {
    SearchDeliversData(mem, entries, CategoryOf(direction));
    SectionRoundTrip(mem, Walk(mem, SII_FIRST_CATEGORY_START, 0, CategoryOf(direction)).value.value, ps);
  }

  /** Inputs are the PDOs that the device transmits, category 50, outputs those that it receives, category 51. */
  lemma {:induction false} DirectionsAre(raw: u16)
    ensures FromRaw(raw) == CategoryOf(Tx) <==> raw == 50
    ensures FromRaw(raw) == CategoryOf(Rx) <==> raw == 51
  {
  }

  /** Without a category of the direction there are no PDOs. */
  lemma {:induction false} NoCategoryNoPdos(mem: Memory, entries: seq<Entry>, direction: PdoType)
    requires Searchable(mem, entries, CategoryOf(direction)) && FirstData(entries, CategoryOf(direction)) == None
    ensures PdosIn(mem, direction) == Ok([])
  {
    SearchDeliversData(mem, entries, CategoryOf(direction));
  }
}
