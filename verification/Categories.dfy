/** Walking the linked categories of an SII EEPROM. */
module Categories {
  import opened Common
  import opened Eeprom

  const SII_FIRST_CATEGORY_START: nat := 0x40
  const MAX_EMPTY: nat := 32

  datatype CategoryType =
    | Nop | DeviceSpecific | Strings | DataTypes | General | Fmmu | SyncManager
    | FmmuExtended | SyncUnit | TxPdo | RxPdo | DistributedClock | End

  /** ETG1000.6 Table 19; what is not listed decodes to the default `Nop`. */
  function FromRaw(raw: u16): CategoryType {
    if 1 <= raw <= 9 then DeviceSpecific
    else match raw
      case 10 => Strings
      case 20 => DataTypes
      case 30 => General
      case 40 => Fmmu
      case 41 => SyncManager
      case 42 => FmmuExtended
      case 43 => SyncUnit
      case 50 => TxPdo
      case 51 => RxPdo
      case 60 => DistributedClock
      case 0xffff => End
      case _ => Nop
  }

  /** The categories by their codes; 0x0a is the string table, 0x32 and 0x33 are inputs and outputs. */
  lemma {:induction false} CodesAre(raw: u16)
    ensures FromRaw(raw).Strings? <==> raw == 0x0a
    ensures FromRaw(raw).DataTypes? <==> raw == 0x14
    ensures FromRaw(raw).General? <==> raw == 0x1e
    ensures FromRaw(raw).Fmmu? <==> raw == 0x28
    ensures FromRaw(raw).SyncManager? <==> raw == 0x29
    ensures FromRaw(raw).FmmuExtended? <==> raw == 0x2a
    ensures FromRaw(raw).SyncUnit? <==> raw == 0x2b
    ensures FromRaw(raw).TxPdo? <==> raw == 0x32
    ensures FromRaw(raw).RxPdo? <==> raw == 0x33
    ensures FromRaw(raw).DistributedClock? <==> raw == 0x3c
    ensures FromRaw(raw).End? <==> raw == 0xffff
    ensures FromRaw(raw).DeviceSpecific? <==> 0x01 <= raw <= 0x09
  {
  }

  /** Where a category's data lies, in words. */
  datatype Section = Section(start: nat, len: nat) {
    /** The byte addresses of the section can be held in `u16`. */
    predicate Addressable() {
      2 * start + 2 * len <= U16_MAX
    }
  }

  /** One pass of the walk: it stops with an answer, or goes on at a later word. */
  datatype Visit =
    | Stop(answer: Result<Option<Section>, EepromError>)
    | Go(word: u16, empty: nat)

  /** What the header at `word` decides, `empty` empty categories having been seen before it. */
  function VisitOf(mem: Memory, word: u16, empty: nat, wanted: CategoryType): (v: Visit)
    ensures v.Go? ==> v.word >= word + 2 && v.empty < MAX_EMPTY
  {
    if word + 2 > U16_MAX then Stop(Ok(None))
    else
      var kind, len := FromRaw(WordAt(mem, word)), WordAt(mem, word + 1);
      var nowEmpty := if len == 0 then empty + 1 else empty;
      if nowEmpty >= MAX_EMPTY then Stop(Ok(None))
      else if kind == wanted then
        Stop(if Section(word + 2, len).Addressable() then Ok(Some(Section(word + 2, len))) else Err(Overflow))
      else if kind.End? then Stop(Ok(None))
      else if word + 2 + len > U16_MAX then Stop(Err(Overflow))
      else Go(word + 2 + len, nowEmpty)
  }

  /** The walk from word `word` on. */
  function Walk(mem: Memory, word: u16, empty: nat, wanted: CategoryType): (r: Result<Option<Section>, EepromError>)
    ensures r.Ok? && r.value.Some? ==> r.value.value.Addressable()
    decreases U16_MAX - word
  {
    match VisitOf(mem, word, empty, wanted)
    case Stop(answer) => answer
    case Go(next, nowEmpty) => Walk(mem, next, nowEmpty, wanted)
  }

  /** Chunks read by the walk. */
  function ChunksRead(mem: Memory, word: u16, empty: nat, wanted: CategoryType): nat
    decreases U16_MAX - word
  {
    match VisitOf(mem, word, empty, wanted)
    case Stop(_) => 1
    case Go(next, nowEmpty) => 1 + ChunksRead(mem, next, nowEmpty, wanted)
  }

  /** Read and judge one category header. */
  method VisitHeader(device: Device, word: u16, empty: nat, wanted: CategoryType) returns (v: Visit)
    ensures v == VisitOf(device.mem, word, empty, wanted)
  {
    var chunk := device.ReadChunk(word);
    if word + 2 > U16_MAX {
      return Stop(Ok(None));
    }
    var dataAddr := word + 2;
    var categoryType := FromRaw(chunk[0] as int + 256 * (chunk[1] as int));
    var lenWords: u16 := chunk[2] as int + 256 * (chunk[3] as int);
    assert lenWords == WordAt(device.mem, word + 1);
    var numEmpty := empty;
    if lenWords == 0 {
      numEmpty := numEmpty + 1;
    }
    if numEmpty >= MAX_EMPTY {
      return Stop(Ok(None));
    }
    if categoryType == wanted {
      return Stop(if 2 * dataAddr + 2 * lenWords > U16_MAX then Err(Overflow)
                  else Ok(Some(Section(dataAddr, lenWords))));
    }
    if categoryType.End? {
      return Stop(Ok(None));
    }
    if dataAddr + lenWords > U16_MAX {
      return Stop(Err(Overflow));
    }
    v := Go(dataAddr + lenWords, numEmpty);
  }

  /** Search for a category. The chunks read are counted for the sake of the bound. */
  method Category(device: Device, wanted: CategoryType)
    returns (r: Result<Option<Section>, EepromError>, ghost chunks: nat)
    ensures r == Walk(device.mem, 0x40, 0, wanted)
    ensures chunks <= 32 + (0xffff - 0x40) / 3
  {
    var wordAddr: u16 := SII_FIRST_CATEGORY_START;
    var numEmpty := 0;
    chunks := 0;
    WalkIsBounded(device.mem, wordAddr, numEmpty, wanted);
    while true
      invariant Walk(device.mem, wordAddr, numEmpty, wanted) == Walk(device.mem, SII_FIRST_CATEGORY_START, 0, wanted)
      invariant chunks + ChunksRead(device.mem, wordAddr, numEmpty, wanted)
             == ChunksRead(device.mem, SII_FIRST_CATEGORY_START, 0, wanted)
      decreases U16_MAX - wordAddr
    {
      var v := VisitHeader(device, wordAddr, numEmpty, wanted);
      chunks := chunks + 1;
      match v
      case Stop(answer) =>
        return answer, chunks;
      case Go(next, nowEmpty) =>
        wordAddr, numEmpty := next, nowEmpty;
    }
  }

  /** Whatever the EEPROM holds, each chunk read stops the walk, uses up one of 32 empty categories
      or moves on by at least three words. */
  lemma {:induction false} WalkIsBounded(mem: Memory, word: u16, empty: nat, wanted: CategoryType)
    requires empty < MAX_EMPTY
    ensures ChunksRead(mem, word, empty, wanted) <= (MAX_EMPTY - empty) + (U16_MAX - word) / 3
    decreases U16_MAX - word
  {
    var v := VisitOf(mem, word, empty, wanted);
    if v.Go? {
      assert v.empty == empty + 1 || v.word >= word + 3;
      WalkIsBounded(mem, v.word, v.empty, wanted);
    }
  }

  /** One header of any memory, in numbers: at the top of the address space the search ends; a wanted category is
      found, if it is not the 32nd empty one, and is an error if its bytes have no 16-bit addresses. */
  lemma {:induction false} HeaderDecides(mem: Memory, word: u16, empty: nat, wanted: CategoryType)
    ensures word > 0xfffd ==> VisitOf(mem, word, empty, wanted) == Stop(Ok(None))
    ensures word <= 0xfffd && FromRaw(WordAt(mem, word)) == wanted && empty < 32 ==>
      var len := WordAt(mem, word + 1);
      VisitOf(mem, word, empty, wanted) == Stop(
        if len == 0 && empty == 31 then Ok(None)
        else if 2 * (word + 2) + 2 * len > 0xffff then Err(Overflow)
        else Ok(Some(Section(word + 2, len))))
  {
  }

  // --- Searching a well-formed image

  /** A category as written: its raw type and its data, a whole number of words. */
  datatype Entry = Entry(raw: u16, data: seq<u8>) {
    function Type(): CategoryType {
      FromRaw(raw)
    }

    function DataWords(): nat {
      |data| / 2
    }

    predicate Valid() {
      !Type().End? && |data| % 2 == 0 && DataWords() <= U16_MAX
    }
  }

  function Header(e: Entry): seq<u8>
    requires e.Valid()
  {
    LeBytes(e.raw) + LeBytes(e.DataWords())
  }

  predicate AllValid(entries: seq<Entry>) {
    entries != [] ==> entries[0].Valid() && AllValid(entries[1..])
  }

  /** The bytes of a list of categories, closed by the end marker and a length of zero. */
  function Encoded(entries: seq<Entry>): seq<u8>
    requires AllValid(entries)
  {
    if entries == [] then LeBytes(0xffff) + LeBytes(0)
    else Header(entries[0]) + (entries[0].data + Encoded(entries[1..]))
  }

  /** Memory holds a list of categories from `word` on, all of it reachable with `u16` word addresses. */
  predicate Holds(mem: Memory, word: nat, entries: seq<Entry>)
    decreases |entries|
  {
    && word + 2 <= U16_MAX
    && (if entries == [] then FromRaw(WordAt(mem, word)).End?
        else
          var e := entries[0];
          && e.Valid()
          && WordAt(mem, word) == e.raw && WordAt(mem, word + 1) == e.DataWords()
          && At(mem, 2 * word + 4, e.data)
          && Holds(mem, word + 2 + e.DataWords(), entries[1..]))
  }

  /** One category taken off an image. */
  lemma {:induction false} CategoryIsStored(mem: Memory, word: nat, e: Entry, rest: seq<u8>)
    requires e.Valid() && At(mem, 2 * word, Header(e) + (e.data + rest)) && word < 0x1_0000
    ensures WordAt(mem, word) == e.raw && WordAt(mem, word + 1) == e.DataWords()
    ensures At(mem, 2 * word + 4, e.data) && At(mem, 2 * (word + 2 + e.DataWords()), rest)
  {
    AtParts(mem, 2 * word, Header(e), e.data + rest);
    AtParts(mem, 2 * word + 4, e.data, rest);
    WordsAreRead(mem, word, e.raw, e.DataWords());
  }

  /** The encoder produces images the walk understands. */
  lemma {:induction false} EncodedHolds(mem: Memory, word: nat, entries: seq<Entry>)
    requires AllValid(entries)
    requires At(mem, 2 * word, Encoded(entries)) && 2 * word + |Encoded(entries)| <= 2 * U16_MAX
    ensures Holds(mem, word, entries)
    decreases |entries|
  {
    EncodedIsLong(entries);
    if entries == [] {
      WordsAreRead(mem, word, 0xffff, 0);
    } else {
      var e, rest := entries[0], Encoded(entries[1..]);
      CategoryIsStored(mem, word, e, rest);
      EncodedIsLong(entries[1..]);
      EncodedHolds(mem, word + 2 + e.DataWords(), entries[1..]);
    }
  }

  lemma {:induction false} EncodedIsLong(entries: seq<Entry>)
    requires AllValid(entries)
    ensures |Encoded(entries)| >= 4
  {
    if entries != [] {
      EncodedIsLong(entries[1..]);
    }
  }

  /** Two little-endian words read back. */
  lemma {:induction false} WordsAreRead(mem: Memory, word: nat, first: u16, second: u16)
    requires word + 1 <= 0x1_0000 && At(mem, 2 * word, LeBytes(first) + LeBytes(second))
    ensures WordAt(mem, word) == first && WordAt(mem, word + 1) == second
  {
    var bs := LeBytes(first) + LeBytes(second);
    AtByte(mem, 2 * word, bs, 0);
    AtByte(mem, 2 * word, bs, 1);
    AtByte(mem, 2 * word, bs, 2);
    AtByte(mem, 2 * word, bs, 3);
  }

  /** Position of the first category of the wanted type. */
  function FirstMatch(entries: seq<Entry>, wanted: CategoryType): Option<nat> {
    if entries == [] then None
    else if entries[0].Type() == wanted then Some(0)
    else match FirstMatch(entries[1..], wanted)
      case None => None
      case Some(k) => Some(k + 1)
  }

  /** The word at which category `k` starts. */
  function StartOf(entries: seq<Entry>, word: nat, k: nat): nat {
    if k == 0 || entries == [] then word else StartOf(entries[1..], word + 2 + entries[0].DataWords(), k - 1)
  }

  /** Empty categories up to and including the first match. */
  function EmptyUpTo(entries: seq<Entry>, wanted: CategoryType): nat {
    if entries == [] then 0
    else
      (if entries[0].data == [] then 1 else 0)
      + if entries[0].Type() == wanted then 0 else EmptyUpTo(entries[1..], wanted)
  }

  /** The answer the image calls for: the data range of the first match, if its bytes have `u16` addresses. */
  function Answer(entries: seq<Entry>, word: nat, wanted: CategoryType): Result<Option<Section>, EepromError> {
    match FirstMatch(entries, wanted)
    case None => Ok(None)
    case Some(k) =>
      if k < |entries| then
        var s := Section(StartOf(entries, word, k) + 2, entries[k].DataWords());
        if s.Addressable() then Ok(Some(s)) else Err(Overflow)
      else Ok(None)
  }

  /** What one pass does on a category that is not the wanted one. */
  lemma {:induction false} PassesOver(mem: Memory, word: nat, empty: nat, entries: seq<Entry>, wanted: CategoryType)
    requires Holds(mem, word, entries) && entries != [] && entries[0].Type() != wanted
    requires Holds(mem, word + 2 + entries[0].DataWords(), entries[1..])
    ensures VisitOf(mem, word, empty, wanted)
      == var nowEmpty := if entries[0].data == [] then empty + 1 else empty;
         if nowEmpty >= MAX_EMPTY then Stop(Ok(None)) else Go(word + 2 + entries[0].DataWords(), nowEmpty)
  {
  }

  /** What one pass does on the wanted category. */
  lemma {:induction false} StopsAt(mem: Memory, word: nat, empty: nat, entries: seq<Entry>, wanted: CategoryType)
    requires Holds(mem, word, entries) && entries != [] && entries[0].Type() == wanted
    ensures VisitOf(mem, word, empty, wanted)
      == if (if entries[0].data == [] then empty + 1 else empty) >= MAX_EMPTY then Stop(Ok(None))
         else Stop(Answer(entries, word, wanted))
  {
  }

  lemma {:induction false} AnswerSkips(entries: seq<Entry>, word: nat, wanted: CategoryType)
    requires entries != [] && entries[0].Type() != wanted
    ensures Answer(entries, word, wanted) == Answer(entries[1..], word + 2 + entries[0].DataWords(), wanted)
  {
  }

  /** On an encoded list the walk finds the first match, and nothing when there is none, exactly as long as
      fewer than 32 empty categories lie up to the answer; with more it gives up and reports nothing. */
  lemma {:induction false} WalkFindsFirstMatch(mem: Memory, word: nat, empty: nat, entries: seq<Entry>,
                                               wanted: CategoryType)
    requires Holds(mem, word, entries) && !wanted.End? && empty < MAX_EMPTY
    ensures Walk(mem, word, empty, wanted)
      == if empty + EmptyUpTo(entries, wanted) < 32 then Answer(entries, word, wanted) else Ok(None)
    decreases |entries|
  {
    if entries == [] {
      assert VisitOf(mem, word, empty, wanted) == Stop(Ok(None));
    } else if entries[0].Type() == wanted {
      StopsAt(mem, word, empty, entries, wanted);
    } else {
      PassesOver(mem, word, empty, entries, wanted);
      AnswerSkips(entries, word, wanted);
      var nowEmpty := if entries[0].data == [] then empty + 1 else empty;
      if nowEmpty < MAX_EMPTY {
        var next := word + 2 + entries[0].DataWords();
        WalkFindsFirstMatch(mem, next, nowEmpty, entries[1..], wanted);
      }
    }
  }

  /** The range found holds exactly the data of the first match. */
  lemma {:induction false} FoundRangeHoldsData(mem: Memory, word: nat, entries: seq<Entry>, wanted: CategoryType)
    requires Holds(mem, word, entries) && FirstMatch(entries, wanted).Some?
    ensures var k := FirstMatch(entries, wanted).value;
      && k < |entries| && entries[k].Type() == wanted && |entries[k].data| % 2 == 0
      && (forall j :: 0 <= j < k ==> entries[j].Type() != wanted)
      && At(mem, 2 * (StartOf(entries, word, k) + 2), entries[k].data)
    decreases |entries|
  {
    if entries[0].Type() != wanted {
      FoundRangeHoldsData(mem, word + 2 + entries[0].DataWords(), entries[1..], wanted);
      var k := FirstMatch(entries, wanted).value;
      assert entries[k] == entries[1..][k - 1];
      assert forall j :: 1 <= j < k ==> entries[j] == entries[1..][j - 1];
    }
  }

  /** Data of the first category of the wanted type. */
  function FirstData(entries: seq<Entry>, wanted: CategoryType): Option<seq<u8>> {
    match FirstMatch(entries, wanted)
    case None => None
    case Some(k) => if k < |entries| then Some(entries[k].data) else None
  }

  /** An EEPROM from whose categories a search gets an answer. */
  predicate Searchable(mem: Memory, entries: seq<Entry>, wanted: CategoryType) {
    && Holds(mem, 0x40, entries)
    && !wanted.End?
    && EmptyUpTo(entries, wanted) < 32
    && Answer(entries, 0x40, wanted).Ok?
  }

  /** A search delivers a section with exactly the first match's data, or nothing when there is no match. */
  lemma {:induction false} SearchDeliversData(mem: Memory, entries: seq<Entry>, wanted: CategoryType)
    requires Searchable(mem, entries, wanted)
    ensures match FirstData(entries, wanted)
      case None => Walk(mem, SII_FIRST_CATEGORY_START, 0, wanted) == Ok(None)
      case Some(data) =>
        var w := Walk(mem, SII_FIRST_CATEGORY_START, 0, wanted);
        w.Ok? && w.value.Some? && |data| == 2 * w.value.value.len && At(mem, 2 * w.value.value.start, data)
  {
    WalkFindsFirstMatch(mem, SII_FIRST_CATEGORY_START, 0, entries, wanted);
    if FirstMatch(entries, wanted).Some? {
      FoundRangeHoldsData(mem, SII_FIRST_CATEGORY_START, entries, wanted);
    }
  }
}
