/** Mapping a device's sync managers into the process data image with FMMUs, as values. */
module FmmuMapping {
  import opened Common
  import SiiPdos

  const REGISTERS: nat := 16

  datatype SmType = Unknown | MailboxWrite | MailboxRead | ProcessDataWrite | ProcessDataRead

  datatype FmmuUsage = Unused | Outputs | Inputs | SyncManagerStatus

  datatype Direction = MasterRead | MasterWrite

  function WantedSm(d: Direction): SmType {
    if d.MasterRead? then ProcessDataRead else ProcessDataWrite
  }

  function WantedFmmu(d: Direction): FmmuUsage {
    if d.MasterRead? then Inputs else Outputs
  }

  /** A sync manager as the EEPROM describes it. */
  datatype SyncManager = SyncManager(startAddr: u16, usage: SmType, mailbox: bool, masterRead: bool, enabled: bool) {
    /** Its use, recovered from its control byte when it is not stated. */
    function UsageType(): SmType {
      if !usage.Unknown? then usage
      else if mailbox then (if masterRead then MailboxRead else MailboxWrite)
      else (if masterRead then ProcessDataRead else ProcessDataWrite)
    }
  }

  /** ETG1000.4 Table 56. */
  datatype Fmmu = Fmmu(logicalStart: u32, length: u16, logicalStartBit: u3, logicalEndBit: u3,
                       physicalStart: u16, physicalStartBit: u3, readEnable: bool, writeEnable: bool, enable: bool) {
    /** The address of the first bit it maps, counted in bits. */
    function FirstBit(): nat {
      8 * logicalStart + logicalStartBit
    }

    /** The one behind the last bit it would map with a given length. */
    function EndBit(bytes: nat): int {
      8 * (logicalStart + bytes) - 7 + logicalEndBit
    }
  }

  const BLANK: Fmmu := Fmmu(0, 0, 0, 0, 0, 0, false, false, false)

  /** A sync manager register. */
  datatype Channel = Channel(physicalStart: u16, length: u16, enable: bool)

  /** The count of mappings is one byte. */
  type Mappings = lens: seq<u8> | |lens| <= 255 witness []

  /** A PDO assigned to a sync manager over CoE: its index and the bit lengths of its mappings. */
  datatype CoePdo = CoePdo(index: u16, mappings: Mappings)

  /** What is known of a device: EEPROM contents, CoE objects, configuration. */
  datatype Info = Info(syncManagers: seq<SyncManager>, fmmuUsage: seq<FmmuUsage>, fmmuEx: seq<u8>, hasCoe: bool,
                       assignments: seq<seq<CoePdo>>, inputs: seq<SiiPdos.Pdo>, outputs: seq<SiiPdos.Pdo>,
                       oversampling: seq<(u16, u16)>) {
    predicate Valid() {
      |syncManagers| <= 8 && |fmmuUsage| <= REGISTERS && |assignments| == |syncManagers|
    }

    predicate Wanted(d: Direction, k: nat)
      requires k < |syncManagers|
    {
      syncManagers[k].UsageType() == WantedSm(d)
    }

    function PdosOf(d: Direction): seq<SiiPdos.Pdo> {
      if d.MasterRead? then inputs else outputs
    }
  }

  datatype PdiError = Overflow | FmmuNotFound | InvalidState

  // --- Lengths

  /** How often a PDO is sampled: the first setting for it, or once. */
  function Multiplier(oversampling: seq<(u16, u16)>, index: u16): u16 {
    if oversampling == [] then 1
    else if oversampling[0].0 == index then oversampling[0].1
    else Multiplier(oversampling[1..], index)
  }

  function Sum(lens: seq<u8>): (n: nat)
    ensures n <= 255 * |lens|
  {
    if lens == [] then 0 else lens[0] + Sum(lens[1..])
  }

  function CoePdoBits(pdo: CoePdo, oversampling: seq<(u16, u16)>): nat {
    Sum(pdo.mappings) * Multiplier(oversampling, pdo.index)
  }

  function CoeBits(pdos: seq<CoePdo>, oversampling: seq<(u16, u16)>): nat {
    if pdos == [] then 0 else CoePdoBits(pdos[0], oversampling) + CoeBits(pdos[1..], oversampling)
  }

  function EepromPdoBits(pdo: SiiPdos.Pdo, oversampling: seq<(u16, u16)>): nat {
    pdo.bitLen * Multiplier(oversampling, pdo.index)
  }

  function EepromBits(pdos: seq<SiiPdos.Pdo>, k: nat, oversampling: seq<(u16, u16)>): nat {
    if pdos == [] then 0
    else
      (if pdos[0].syncManager == k then EepromPdoBits(pdos[0], oversampling) else 0)
      + EepromBits(pdos[1..], k, oversampling)
  }

  /** Bits of process data behind sync manager `k`. */
  function SmBits(info: Info, d: Direction, k: nat): nat
    requires info.Valid() && k < |info.syncManagers|
  {
    if info.hasCoe then CoeBits(info.assignments[k], info.oversampling)
    else EepromBits(info.PdosOf(d), k, info.oversampling)
  }

  /** Bits rounded up to bytes. */
  function Bytes(bits: nat): nat {
    (bits + 7) / 8
  }

  /** Bytes that the first `k` sync managers of a direction take up. */
  function Mapped(info: Info, d: Direction, k: nat): nat
    requires info.Valid() && k <= |info.syncManagers|
  {
    if k == 0 then 0
    else Mapped(info, d, k - 1) + if info.Wanted(d, k - 1) then Bytes(SmBits(info, d, k - 1)) else 0
  }

  /** All bytes of a direction. */
  function Total(info: Info, d: Direction): nat
    requires info.Valid()
  {
    Mapped(info, d, |info.syncManagers|)
  }

  // --- Configuration

  /** Registers and the next free logical address, as far as a configuration has come. */
  datatype Progress = Progress(fmmus: seq<Fmmu>, channels: seq<Channel>, offset: u32, failed: Option<PdiError>) {
    predicate Valid() {
      |fmmus| == REGISTERS && |channels| == REGISTERS
    }
  }

  /** Position of the first FMMU of a use. */
  function FirstUse(usage: seq<FmmuUsage>, wanted: FmmuUsage): (r: Option<nat>)
    ensures r.Some? ==> r.value < |usage| && usage[r.value] == wanted
    ensures r.Some? ==> forall j :: 0 <= j < r.value ==> usage[j] != wanted
    ensures r.None? ==> wanted !in usage
  {
    if usage == [] then None
    else if usage[0] == wanted then Some(0)
    else match FirstUse(usage[1..], wanted)
      case None => None
      case Some(f) => Some(f + 1)
  }

  /** The FMMU_EX entry for a sync manager. What is taken from it is the sync manager's number. */
  function FindMapping(fmmuEx: seq<u8>, k: u8): Option<u8> {
    if fmmuEx == [] then None
    else if fmmuEx[0] == k then Some(fmmuEx[0])
    else FindMapping(fmmuEx[1..], k)
  }

  function EepromFmmu(info: Info, k: u8): nat {
    match FindMapping(info.fmmuEx, k)
    case Some(sm) => sm
    case None => k
  }

  /** So without CoE the FMMU always has the number of the sync manager, whatever FMMU_EX says. */
  lemma {:induction false} EepromFmmuIsSm(info: Info, k: u8)
    ensures EepromFmmu(info, k) == k
  {
    MappingIsSm(info.fmmuEx, k);
  }

  lemma {:induction false} MappingIsSm(fmmuEx: seq<u8>, k: u8)
    ensures FindMapping(fmmuEx, k).Some? ==> FindMapping(fmmuEx, k).value == k
  {
    if fmmuEx != [] && fmmuEx[0] != k {
      MappingIsSm(fmmuEx[1..], k);
    }
  }

  /** A fresh mapping of a sync manager. */
  function NewFmmu(offset: u32, length: u16, physicalStart: u16, d: Direction): Fmmu {
    Fmmu(offset, length, 0, 7, physicalStart, 0, d.MasterRead?, d.MasterWrite?, true)
  }

  /** Create an FMMU or extend the one that is there, and move the offset on. */
  function WriteFmmu(p: Progress, f: nat, bits: nat, physicalStart: u16, d: Direction): Progress
    requires p.Valid() && f < REGISTERS && Bytes(bits) <= U16_MAX
  {
    var was, len := p.fmmus[f], Bytes(bits);
    if was.enable && was.length + len > U16_MAX then p.(failed := Some(Overflow))
    else
      var now := if was.enable then was.(length := was.length + len) else NewFmmu(p.offset, len, physicalStart, d);
      var q := p.(fmmus := p.fmmus[f := now]);
      if p.offset + len > U32_MAX then q.(failed := Some(Overflow)) else q.(offset := p.offset + len)
  }

  /** Configure sync manager `k`, unless it serves something else or an earlier one failed. */
  function Configure(info: Info, d: Direction, p: Progress, k: nat): (q: Progress)
    requires info.Valid() && p.Valid() && k < |info.syncManagers|
    ensures q.Valid()
  {
    if p.failed.Some? || !info.Wanted(d, k) then p
    else
      var bits, sm := SmBits(info, d, k), info.syncManagers[k];
      if bits + 7 > U16_MAX then p.(failed := Some(Overflow))
      else
        var len := Bytes(bits);
        var q := p.(channels := p.channels[k := Channel(sm.startAddr, len, sm.enabled && len > 0)]);
        if !info.hasCoe then WriteFmmu(q, EepromFmmuOf(info, k), bits, sm.startAddr, d)
        else if bits == 0 then q
        else match FirstUse(info.fmmuUsage, WantedFmmu(d))
          case None => q.(failed := Some(FmmuNotFound))
          case Some(f) => WriteFmmu(q, f, bits, sm.startAddr, d)
  }

  function EepromFmmuOf(info: Info, k: nat): (f: nat)
    requires k < 8
    ensures f == k
  {
    EepromFmmuIsSm(info, k);
    EepromFmmu(info, k)
  }

  /** Configure the first `k` sync managers. */
  function ConfigureUpTo(info: Info, d: Direction, p: Progress, k: nat): (q: Progress)
    requires info.Valid() && p.Valid() && k <= |info.syncManagers|
    ensures q.Valid()
  {
    if k == 0 then p else Configure(info, d, ConfigureUpTo(info, d, p, k - 1), k - 1)
  }

  function ConfigureAll(info: Info, d: Direction, p: Progress): (q: Progress)
    requires info.Valid() && p.Valid()
    ensures q.Valid()
  {
    ConfigureUpTo(info, d, p, |info.syncManagers|)
  }

  // --- The returned segment

  /** A pass that succeeds moves the offset by exactly the bytes of the direction. */
  lemma {:induction false} OffsetMovesByMapped(info: Info, d: Direction, p: Progress, k: nat)
    requires info.Valid() && p.Valid() && k <= |info.syncManagers| && ConfigureUpTo(info, d, p, k).failed.None?
    ensures p.failed.None? && ConfigureUpTo(info, d, p, k).offset == p.offset + Mapped(info, d, k)
  {
    if k > 0 {
      OffsetMovesByMapped(info, d, p, k - 1);
    }
  }

  lemma {:induction false} MappedGrows(info: Info, d: Direction, j: nat, k: nat)
    requires info.Valid() && j <= k <= |info.syncManagers|
    ensures Mapped(info, d, j) <= Mapped(info, d, k)
    decreases k
  {
    if j < k {
      MappedGrows(info, d, j, k - 1);
    }
  }

  // --- With CoE: one FMMU for all sync managers of a direction

  /** The first sync manager among the first `k` that has process data. */
  function FirstMapped(info: Info, d: Direction, k: nat): (r: Option<nat>)
    requires info.Valid() && k <= |info.syncManagers|
    ensures r.Some? ==> r.value < k && info.Wanted(d, r.value) && SmBits(info, d, r.value) > 0
    ensures r.None? ==> forall j :: 0 <= j < k && info.Wanted(d, j) ==> SmBits(info, d, j) == 0
  {
    if k == 0 then None
    else if FirstMapped(info, d, k - 1).Some? then FirstMapped(info, d, k - 1)
    else if info.Wanted(d, k - 1) && SmBits(info, d, k - 1) > 0 then Some(k - 1)
    else None
  }

  lemma {:induction false} FirstMappedStartsSegment(info: Info, d: Direction, k: nat)
    requires info.Valid() && k <= |info.syncManagers|
    ensures FirstMapped(info, d, k).None? <==> Mapped(info, d, k) == 0
    ensures FirstMapped(info, d, k).Some? ==> Mapped(info, d, FirstMapped(info, d, k).value) == 0
  {
    if k > 0 {
      FirstMappedStartsSegment(info, d, k - 1);
    }
  }

  /** An FMMU `k` sync managers of which have been mapped: it is created by the first one with data, and one that was
      enabled when the pass started is extended without end. */
  function CoeFmmu(info: Info, d: Direction, was: Fmmu, offset: u32, k: nat): Fmmu
    requires info.Valid() && k <= |info.syncManagers|
    requires (if was.enable then was.length else 0) + Mapped(info, d, k) <= U16_MAX
  {
    if was.enable then was.(length := was.length + Mapped(info, d, k))
    else match FirstMapped(info, d, k)
      case None => was
      case Some(j) => NewFmmu(offset, Mapped(info, d, k), info.syncManagers[j].startAddr, d)
  }

  /** One more sync manager creates the FMMU or extends it. */
  lemma {:induction false} CoeFmmuGrows(info: Info, d: Direction, was: Fmmu, offset: u32, k: nat, len: nat)
    requires info.Valid() && 0 < k <= |info.syncManagers| && offset + Mapped(info, d, k - 1) <= U32_MAX
    requires len == Mapped(info, d, k) - Mapped(info, d, k - 1)
    requires (if was.enable then was.length else 0) + Mapped(info, d, k) <= U16_MAX
    ensures var now := CoeFmmu(info, d, was, offset, k - 1);
      && (now.enable ==> now.length + len <= U16_MAX)
      && CoeFmmu(info, d, was, offset, k)
        == if now.enable then now.(length := now.length + len)
           else if len == 0 then now
           else NewFmmu(offset + Mapped(info, d, k - 1), len, info.syncManagers[k - 1].startAddr, d)
  {
    FirstMappedStartsSegment(info, d, k - 1);
    FirstMappedStartsSegment(info, d, k);
  }

  /** What one sync manager does to the FMMU of the direction. */
  lemma {:induction false} CoeFmmuStep(info: Info, d: Direction, q: Progress, f: nat, k: nat) returns (len: nat)
    requires info.Valid() && q.Valid() && info.hasCoe && 0 < k <= |info.syncManagers|
    requires FirstUse(info.fmmuUsage, WantedFmmu(d)) == Some(f) && Configure(info, d, q, k - 1).failed.None?
    ensures len == Mapped(info, d, k) - Mapped(info, d, k - 1) <= U16_MAX
    ensures var was := q.fmmus[f];
      && (was.enable ==> was.length + len <= U16_MAX)
      && Configure(info, d, q, k - 1).fmmus == q.fmmus[f :=
           if was.enable then was.(length := was.length + len)
           else if len == 0 then was
           else NewFmmu(q.offset, len, info.syncManagers[k - 1].startAddr, d)]
  {
    len := Mapped(info, d, k) - Mapped(info, d, k - 1);
  }

  /** However often it is extended, the FMMU of the direction covers exactly the bytes mapped so far, from the
      physical address of the first sync manager that has any, or behind what it has covered before the pass; no other
      FMMU is touched. */
  lemma {:induction false} CoeFmmuCoversMapped(info: Info, d: Direction, p: Progress, f: nat, k: nat)
    requires info.Valid() && p.Valid() && info.hasCoe && k <= |info.syncManagers|
    requires FirstUse(info.fmmuUsage, WantedFmmu(d)) == Some(f) && ConfigureUpTo(info, d, p, k).failed.None?
    ensures Mapped(info, d, k) <= U16_MAX && (p.fmmus[f].enable ==> p.fmmus[f].length + Mapped(info, d, k) <= U16_MAX)
    ensures ConfigureUpTo(info, d, p, k).fmmus == p.fmmus[f := CoeFmmu(info, d, p.fmmus[f], p.offset, k)]
  {
    if k > 0 {
      CoeFmmuCoversMapped(info, d, p, f, k - 1);
      OffsetMovesByMapped(info, d, p, k - 1);
      var q := ConfigureUpTo(info, d, p, k - 1);
      var len := CoeFmmuStep(info, d, q, f, k);
      if !p.fmmus[f].enable {
        FirstMappedStartsSegment(info, d, k - 1);
      }
      CoeFmmuGrows(info, d, p.fmmus[f], p.offset, k, len);
    }
  }

  /** Without an FMMU for the direction a pass succeeds only if there is nothing to map, and maps nothing. */
  lemma {:induction false} CoeWithoutFmmu(info: Info, d: Direction, p: Progress, k: nat)
    requires info.Valid() && p.Valid() && info.hasCoe && k <= |info.syncManagers|
    requires FirstUse(info.fmmuUsage, WantedFmmu(d)).None? && ConfigureUpTo(info, d, p, k).failed.None?
    ensures Mapped(info, d, k) == 0 && ConfigureUpTo(info, d, p, k).fmmus == p.fmmus
  {
    if k > 0 {
      CoeWithoutFmmu(info, d, p, k - 1);
    }
  }

  /** Where an FMMU takes a logical address, both counted in bits. */
  function Physical(f: Fmmu, logical: nat): int {
    8 * f.physicalStart + f.physicalStartBit + logical - f.FirstBit()
  }

  /** Byte `b` of sync manager `k` is exchanged with the sync manager's own memory, bit by bit. */
  predicate ByteReaches(info: Info, d: Direction, start: nat, f: Fmmu, k: nat, b: nat)
    requires info.Valid() && k < |info.syncManagers|
  {
    Physical(f, 8 * (start + Mapped(info, d, k) + b)) == 8 * (info.syncManagers[k].startAddr + b)
  }

  predicate Reaches(info: Info, d: Direction, start: nat, f: Fmmu, k: nat)
    requires info.Valid() && k < |info.syncManagers|
  {
    forall b :: 0 <= b < Bytes(SmBits(info, d, k)) ==> ByteReaches(info, d, start, f, k, b)
  }

  /** The one FMMU reaches a sync manager exactly when that one's memory lies at the distance of their data behind the
      first one's, or, if it was enabled before, behind where it takes the start of the segment; otherwise its process
      data is exchanged with the wrong memory. */
  lemma {:induction false} CoeReachesIff(info: Info, d: Direction, p: Progress, f: nat, k: nat)
    requires info.Valid() && p.Valid() && info.hasCoe && k < |info.syncManagers|
    requires FirstUse(info.fmmuUsage, WantedFmmu(d)) == Some(f)
    requires ConfigureAll(info, d, p).failed.None? && info.Wanted(d, k) && SmBits(info, d, k) > 0
    ensures FirstMapped(info, d, |info.syncManagers|).Some?
    ensures Reaches(info, d, p.offset, ConfigureAll(info, d, p).fmmus[f], k)
      <==> (8 * info.syncManagers[k].startAddr
            == 8 * Mapped(info, d, k)
             + (if p.fmmus[f].enable then Physical(p.fmmus[f], 8 * p.offset)
                else 8 * info.syncManagers[FirstMapped(info, d, |info.syncManagers|).value].startAddr))
  {
    CoeFmmuCoversMapped(info, d, p, f, |info.syncManagers|);
    var m := ConfigureAll(info, d, p).fmmus[f];
    if Reaches(info, d, p.offset, m, k) {
      assert ByteReaches(info, d, p.offset, m, k, 0);
    }
  }

  /** Two input sync managers with one byte each, the second one with its memory at address `second`. */
  function TwoInputs(second: u16): Info {
    var pdo := CoePdo(0x1a00, [8]);
    Info([SyncManager(0x1000, ProcessDataRead, false, true, true),
          SyncManager(second, ProcessDataRead, false, true, true)],
         [Outputs, Inputs], [], true, [[pdo], [pdo]], [], [], [])
  }

  lemma {:induction false} TwoInputsHaveOneByteEach(second: u16, k: nat)
    requires k < 2
    ensures TwoInputs(second).Valid() && TwoInputs(second).Wanted(MasterRead, k)
    ensures SmBits(TwoInputs(second), MasterRead, k) == 8
    ensures FirstUse(TwoInputs(second).fmmuUsage, Inputs) == Some(1)
  {
    var pdo := CoePdo(0x1a00, [8]);
    assert Sum(pdo.mappings) == 8 + Sum([]) by {
      assert pdo.mappings[1..] == [];
    }
    assert CoeBits([pdo], []) == CoePdoBits(pdo, []) + CoeBits([], []) by {
      assert [pdo][1..] == [];
    }
    assert FirstUse([Inputs], Inputs) == Some(0) && [Outputs, Inputs][1..] == [Inputs];
  }

  /** Their configuration succeeds while the FMMU's length fits. */
  lemma {:induction false} TwoInputsSucceed(second: u16, p: Progress)
    requires p.Valid() && p.failed.None? && p.offset + 2 <= U32_MAX
    requires p.fmmus[1].enable ==> p.fmmus[1].length + 2 <= U16_MAX
    ensures TwoInputs(second).Valid() && ConfigureAll(TwoInputs(second), MasterRead, p).failed.None?
    ensures Mapped(TwoInputs(second), MasterRead, 1) == 1 && Total(TwoInputs(second), MasterRead) == 2
    ensures FirstMapped(TwoInputs(second), MasterRead, 2) == Some(0)
  {
    var info := TwoInputs(second);
    TwoInputsHaveOneByteEach(second, 0);
    TwoInputsHaveOneByteEach(second, 1);
    var p1 := Configure(info, MasterRead, p, 0);
    assert p1.failed.None? && p1.offset == p.offset + 1;
    var p2 := Configure(info, MasterRead, p1, 1);
    assert p2.failed.None?;
    assert ConfigureUpTo(info, MasterRead, p, 0) == p && ConfigureUpTo(info, MasterRead, p, 1) == p1;
    assert ConfigureAll(info, MasterRead, p) == p2;
    assert Mapped(info, MasterRead, 0) == 0 && Mapped(info, MasterRead, 1) == 1;
    assert FirstMapped(info, MasterRead, 0).None? && FirstMapped(info, MasterRead, 1) == Some(0);
  }

  /** The second one's byte is exchanged with address 0x1001 wherever its memory is. */
  lemma {:induction false} SecondInputIsMisplacedIff(second: u16, p: Progress)
    requires p.Valid() && p.failed.None? && !p.fmmus[1].enable && p.offset + 2 <= U32_MAX
    ensures TwoInputs(second).Valid() && ConfigureAll(TwoInputs(second), MasterRead, p).failed.None?
    ensures Physical(ConfigureAll(TwoInputs(second), MasterRead, p).fmmus[1], 8 * (p.offset + 1)) == 8 * 0x1001
    ensures Reaches(TwoInputs(second), MasterRead, p.offset, ConfigureAll(TwoInputs(second), MasterRead, p).fmmus[1], 1)
      <==> second == 0x1001
  {
    TwoInputsSucceed(second, p);
    TwoInputsHaveOneByteEach(second, 1);
    CoeFmmuCoversMapped(TwoInputs(second), MasterRead, p, 1, 2);
    CoeReachesIff(TwoInputs(second), MasterRead, p, 1, 1);
  }

  // --- Without CoE: one FMMU for each sync manager

  /** Every sync manager of the direction gets an FMMU of its own, for exactly its bytes at its address, or extends the
      one that is there; the other FMMUs stay as they are. */
  lemma {:induction false} EepromFmmusTile(info: Info, d: Direction, p: Progress, k: nat, j: nat)
    requires info.Valid() && p.Valid() && !info.hasCoe && k <= |info.syncManagers| && j < REGISTERS
    requires ConfigureUpTo(info, d, p, k).failed.None?
    ensures var was, now := p.fmmus[j], ConfigureUpTo(info, d, p, k).fmmus[j];
      if j < k && info.Wanted(d, j) then
        && Bytes(SmBits(info, d, j)) <= U16_MAX && p.offset + Mapped(info, d, j) <= U32_MAX
        && (was.enable ==> was.length + Bytes(SmBits(info, d, j)) <= U16_MAX)
        && now == (if was.enable then was.(length := was.length + Bytes(SmBits(info, d, j)))
                   else NewFmmu(p.offset + Mapped(info, d, j), Bytes(SmBits(info, d, j)),
                                info.syncManagers[j].startAddr, d))
      else now == was
  {
    if k > 0 {
      EepromFmmusTile(info, d, p, k - 1, j);
      OffsetMovesByMapped(info, d, p, k - 1);
    }
  }

  /** So without CoE each sync manager's bytes reach its own memory, whatever lies between them, unless an FMMU that was
      enabled before takes them elsewhere. */
  lemma {:induction false} EepromReachesIff(info: Info, d: Direction, p: Progress, k: nat)
    requires info.Valid() && p.Valid() && !info.hasCoe && k < |info.syncManagers|
    requires ConfigureAll(info, d, p).failed.None? && info.Wanted(d, k) && SmBits(info, d, k) > 0
    ensures Reaches(info, d, p.offset, ConfigureAll(info, d, p).fmmus[k], k)
      <==> (p.fmmus[k].enable ==>
              Physical(p.fmmus[k], 8 * (p.offset + Mapped(info, d, k))) == 8 * info.syncManagers[k].startAddr)
  {
    EepromFmmusTile(info, d, p, |info.syncManagers|, k);
    var m := ConfigureAll(info, d, p).fmmus[k];
    if Reaches(info, d, p.offset, m, k) {
      assert ByteReaches(info, d, p.offset, m, k, 0);
    }
  }

  // --- When a pass succeeds, and the sync managers after it

  /** The bytes by which an FMMU that holds `was` is longer afterwards still fit its length. */
  predicate LengthFits(was: Fmmu, bytes: nat) {
    (if was.enable then was.length else 0) + bytes <= U16_MAX
  }

  /** Everything the first `k` sync managers of a direction need fits. */
  predicate FitsUpTo(info: Info, d: Direction, p: Progress, k: nat)
    requires info.Valid() && p.Valid() && k <= |info.syncManagers|
  {
    && p.offset + Mapped(info, d, k) <= U32_MAX
    && (forall j :: 0 <= j < k && info.Wanted(d, j) ==> SmBits(info, d, j) + 7 <= 0xffff)
    && (if info.hasCoe then
          Mapped(info, d, k) > 0 ==>
            var f := FirstUse(info.fmmuUsage, WantedFmmu(d));
            f.Some? && LengthFits(p.fmmus[f.value], Mapped(info, d, k))
        else
          forall j :: 0 <= j < k && info.Wanted(d, j) ==> LengthFits(p.fmmus[j], Bytes(SmBits(info, d, j))))
  }

  /** One more sync manager. */
  lemma {:induction false} OneMoreFitsIff(info: Info, d: Direction, p: Progress, k: nat)
    requires info.Valid() && p.Valid() && 0 < k <= |info.syncManagers| && FitsUpTo(info, d, p, k - 1)
    requires ConfigureUpTo(info, d, p, k - 1).failed.None?
    ensures Configure(info, d, ConfigureUpTo(info, d, p, k - 1), k - 1).failed.None? <==> FitsUpTo(info, d, p, k)
  {
    var last := k - 1;
    var q := ConfigureUpTo(info, d, p, last);
    OffsetMovesByMapped(info, d, p, last);
    if info.Wanted(d, last) && info.hasCoe {
      match FirstUse(info.fmmuUsage, WantedFmmu(d))
      case None =>
      case Some(f) =>
        CoeFmmuCoversMapped(info, d, p, f, last);
        FirstMappedStartsSegment(info, d, last);
        assert q.fmmus[f] == CoeFmmu(info, d, p.fmmus[f], p.offset, last);
    } else if info.Wanted(d, last) {
      EepromFmmusTile(info, d, p, last, last);
    }
  }

  /** A pass succeeds if and only if everything fits: the bits of each sync manager 16 bits, the segment the image,
      and what is mapped the lengths of the FMMUs, of which there is one if there is anything to map. */
  lemma {:induction false} PassSucceedsIff(info: Info, d: Direction, p: Progress, k: nat)
    requires info.Valid() && p.Valid() && p.failed.None? && k <= |info.syncManagers|
    ensures ConfigureUpTo(info, d, p, k).failed.None? <==> FitsUpTo(info, d, p, k)
  {
    if k > 0 {
      var last := k - 1;
      PassSucceedsIff(info, d, p, last);
      if FitsUpTo(info, d, p, last) {
        OneMoreFitsIff(info, d, p, k);
      }
    }
  }

  /** After a pass each sync manager of the direction has its address, its bytes, and is enabled if the EEPROM says so
      and it has data; the others are as before. */
  lemma {:induction false} ChannelsAfterPass(info: Info, d: Direction, p: Progress, k: nat, j: nat)
    requires info.Valid() && p.Valid() && k <= |info.syncManagers| && j < REGISTERS
    requires ConfigureUpTo(info, d, p, k).failed.None?
    ensures var now := ConfigureUpTo(info, d, p, k).channels[j];
      if j < k && info.Wanted(d, j) then
        && now.physicalStart == info.syncManagers[j].startAddr && now.length == Bytes(SmBits(info, d, j))
        && (now.enable <==> info.syncManagers[j].enabled && SmBits(info, d, j) > 0)
      else now == p.channels[j]
  {
    if k > 0 {
      ChannelsAfterPass(info, d, p, k - 1, j);
    }
  }

  // --- Both: what each FMMU maps after a pass, whatever the registers held before

  /** The FMMU is set up for a direction. */
  predicate Faces(f: Fmmu, d: Direction) {
    if d.MasterRead? then f.readEnable else f.writeEnable
  }

  /** The bit lies where the FMMU is with a given length; `n` is its address, counted in bits. */
  predicate Spans(f: Fmmu, bytes: nat, n: nat) {
    bytes > 0 && f.FirstBit() <= n < f.EndBit(bytes)
  }

  /** The FMMU exchanges a bit of the image in a direction. */
  predicate Maps(f: Fmmu, d: Direction, n: nat) {
    f.enable && Faces(f, d) && Spans(f, f.length, n)
  }

  /** The bit lies in one of `len` bytes from byte `start` on. */
  predicate InBytes(start: nat, len: nat, n: nat) {
    8 * start <= n < 8 * (start + len)
  }

  /** With this length the FMMU maps no bit: the length is zero, or one with the last bit before the first. */
  predicate NoBit(f: Fmmu, bytes: nat) {
    bytes == 0 || f.EndBit(bytes) <= f.FirstBit()
  }

  /** A pass in the direction works on FMMU `f`. */
  predicate Uses(info: Info, d: Direction, f: nat)
    requires info.Valid()
  {
    if info.hasCoe then FirstUse(info.fmmuUsage, WantedFmmu(d)) == Some(f)
    else f < |info.syncManagers| && info.Wanted(d, f)
  }

  /** Where in the segment of a direction the part of FMMU `f` starts, and how long it is. */
  function PartStart(info: Info, d: Direction, f: nat): nat
    requires info.Valid()
  {
    if info.hasCoe || !Uses(info, d, f) then 0 else Mapped(info, d, f)
  }

  function PartLen(info: Info, d: Direction, f: nat): nat
    requires info.Valid()
  {
    if !Uses(info, d, f) then 0 else if info.hasCoe then Total(info, d) else Bytes(SmBits(info, d, f))
  }

  /** The bit belongs to the bytes of FMMU `f`, the segment starting at byte `lo`. */
  predicate InPart(info: Info, d: Direction, f: nat, lo: nat, n: nat)
    requires info.Valid()
  {
    InBytes(lo + PartStart(info, d, f), PartLen(info, d, f), n)
  }

  /** No FMMU is used for both directions. */
  lemma {:induction false} UsedForOneDirection(info: Info, d: Direction, e: Direction, f: nat)
    requires info.Valid() && d != e && Uses(info, d, f)
    ensures !Uses(info, e, f) && PartLen(info, e, f) == 0
  {
  }

  /** An FMMU after a successful pass: extended by its part if it was enabled, else set up for its part, else as it
      was. */
  lemma {:induction false} FmmuAfterPass(info: Info, d: Direction, p: Progress, f: nat)
    requires info.Valid() && p.Valid() && f < REGISTERS && ConfigureAll(info, d, p).failed.None?
    ensures var was, now, len := p.fmmus[f], ConfigureAll(info, d, p).fmmus[f], PartLen(info, d, f);
      && (if was.enable then was.length + len <= U16_MAX && now == was.(length := was.length + len)
          else if len > 0 then
            && len <= U16_MAX && p.offset + PartStart(info, d, f) <= U32_MAX
            && now == NewFmmu(p.offset + PartStart(info, d, f), len, now.physicalStart, d)
          else now == was || (now.enable && now.length == 0 && NoBit(now, 0)))
      && (!Uses(info, d, f) ==> now == was)
  {
    var n := |info.syncManagers|;
    if !info.hasCoe {
      EepromFmmusTile(info, d, p, n, f);
    } else {
      match FirstUse(info.fmmuUsage, WantedFmmu(d))
      case None => CoeWithoutFmmu(info, d, p, n);
      case Some(g) =>
        CoeFmmuCoversMapped(info, d, p, g, n);
        FirstMappedStartsSegment(info, d, n);
    }
  }

  /** So after a pass an FMMU maps its part, or, if it was enabled, that many bytes more than before. */
  lemma {:induction false} MapsAfterPass(info: Info, d: Direction, p: Progress, f: nat, e: Direction, n: nat)
    requires info.Valid() && p.Valid() && f < REGISTERS && ConfigureAll(info, d, p).failed.None?
    ensures Maps(ConfigureAll(info, d, p).fmmus[f], e, n)
      <==> (var was := p.fmmus[f];
            if was.enable then
              Faces(was, e) && Spans(was, was.length + PartLen(info, d, f), n)
            else e == d && InPart(info, d, f, p.offset, n))
  {
    FmmuAfterPass(info, d, p, f);
  }

  /** Each FMMU maps exactly the bits of its part of the segment that starts at byte `lo`. */
  ghost predicate Serves(info: Info, d: Direction, fmmus: seq<Fmmu>, lo: nat)
    requires info.Valid() && |fmmus| == REGISTERS
  {
    forall f, n: nat :: 0 <= f < REGISTERS ==> (Maps(fmmus[f], d, n) <==> InPart(info, d, f, lo, n))
  }

  /** An FMMU that is enabled and is going to be `grown` bytes longer can serve a part: it maps no bit and gets none;
      or it is set up for other directions only and has no part; or it is empty, whole bytes from the start of the
      part on. */
  predicate Accepts(was: Fmmu, d: Direction, start: nat, len: nat, grown: nat) {
    was.enable ==>
      if !Faces(was, d) then len == 0
      else if len == 0 then NoBit(was, was.length + grown)
      else was.length + grown == len && was.logicalStart == start && was.logicalStartBit == 0 && was.logicalEndBit == 7
  }

  /** Where the FMMU is with this length are exactly the bits of `len` bytes from byte `start` on. */
  lemma {:induction false} SpansBytesIff(f: Fmmu, bytes: nat, start: nat, len: nat)
    ensures (forall n: nat :: Spans(f, bytes, n) <==> InBytes(start, len, n))
      <==> (if len == 0 then NoBit(f, bytes)
            else bytes == len && f.logicalStart == start && f.logicalStartBit == 0 && f.logicalEndBit == 7)
  {
    if forall n: nat :: Spans(f, bytes, n) <==> InBytes(start, len, n) {
      assert Spans(f, bytes, f.FirstBit()) <==> InBytes(start, len, f.FirstBit());
      if len > 0 {
        assert Spans(f, bytes, 8 * start) <==> InBytes(start, len, 8 * start);
        assert Spans(f, bytes, 8 * (start + len) - 1) <==> InBytes(start, len, 8 * (start + len) - 1);
        assert Spans(f, bytes, f.EndBit(bytes) - 1) <==> InBytes(start, len, f.EndBit(bytes) - 1);
      }
    }
  }

  lemma {:induction false} FmmuServesIff(info: Info, d: Direction, p: Progress, f: nat)
    requires info.Valid() && p.Valid() && f < REGISTERS && ConfigureAll(info, d, p).failed.None?
    ensures (forall n: nat :: Maps(ConfigureAll(info, d, p).fmmus[f], d, n) <==> InPart(info, d, f, p.offset, n))
      <==> Accepts(p.fmmus[f], d, p.offset + PartStart(info, d, f), PartLen(info, d, f), PartLen(info, d, f))
  {
    var was, now := p.fmmus[f], ConfigureAll(info, d, p).fmmus[f];
    var start, len := p.offset + PartStart(info, d, f), PartLen(info, d, f);
    forall n: nat
      ensures Maps(now, d, n)
        <==> (if was.enable then Faces(was, d) && Spans(was, was.length + len, n) else InBytes(start, len, n))
      ensures InPart(info, d, f, p.offset, n) == InBytes(start, len, n)
    {
      MapsAfterPass(info, d, p, f, d, n);
    }
    SpansBytesIff(was, was.length + len, start, len);
    assert InBytes(start, len, 8 * start) <==> len > 0;
  }

  /** Whatever the registers hold: after a successful pass each FMMU maps exactly its part of the returned segment if
      and only if the pass could start from every one of them. */
  lemma {:induction false} PassServesIff(info: Info, d: Direction, p: Progress)
    requires info.Valid() && p.Valid() && ConfigureAll(info, d, p).failed.None?
    ensures Serves(info, d, ConfigureAll(info, d, p).fmmus, p.offset)
      <==> forall f :: 0 <= f < REGISTERS ==>
             Accepts(p.fmmus[f], d, p.offset + PartStart(info, d, f), PartLen(info, d, f), PartLen(info, d, f))
  {
    forall f: nat | f < REGISTERS
      ensures (forall n: nat :: Maps(ConfigureAll(info, d, p).fmmus[f], d, n) <==> InPart(info, d, f, p.offset, n))
        <==> Accepts(p.fmmus[f], d, p.offset + PartStart(info, d, f), PartLen(info, d, f), PartLen(info, d, f))
    {
      FmmuServesIff(info, d, p, f);
    }
  }

  // --- The parts make up the segment

  /** Some FMMU exchanges the bit. */
  predicate IsMapped(fmmus: seq<Fmmu>, d: Direction, n: nat) {
    exists f :: 0 <= f < |fmmus| && Maps(fmmus[f], d, n)
  }

  /** All bits of a byte are mapped. */
  ghost predicate ByteIsMapped(fmmus: seq<Fmmu>, d: Direction, a: nat) {
    forall n: nat :: InBytes(a, 1, n) ==> IsMapped(fmmus, d, n)
  }

  /** In a direction exactly the bits of the bytes from `lo` to `hi` are mapped, each by one FMMU. */
  ghost predicate Covers(fmmus: seq<Fmmu>, d: Direction, lo: nat, hi: nat) {
    && (forall n: nat, f :: 0 <= f < |fmmus| && Maps(fmmus[f], d, n) ==> 8 * lo <= n < 8 * hi)
    && (forall n: nat :: 8 * lo <= n < 8 * hi ==> IsMapped(fmmus, d, n))
    && (forall n: nat, f, g :: 0 <= f < g < |fmmus| && Maps(fmmus[f], d, n) ==> !Maps(fmmus[g], d, n))
  }

  /** The sync manager in whose bytes an address lies. */
  lemma {:induction false} AddressHasSm(info: Info, d: Direction, a: nat, k: nat) returns (j: nat)
    requires info.Valid() && k <= |info.syncManagers| && a < Mapped(info, d, k)
    ensures j < k && info.Wanted(d, j)
    ensures Mapped(info, d, j) <= a < Mapped(info, d, j) + Bytes(SmBits(info, d, j))
  {
    if a < Mapped(info, d, k - 1) {
      j := AddressHasSm(info, d, a, k - 1);
    } else {
      j := k - 1;
    }
  }

  /** A direction with data has an FMMU to map it with; a pass fails otherwise. */
  predicate HasFmmu(info: Info, d: Direction)
    requires info.Valid()
  {
    info.hasCoe && FirstUse(info.fmmuUsage, WantedFmmu(d)).None? ==> Total(info, d) == 0
  }

  lemma {:induction false} PassNeedsFmmu(info: Info, d: Direction, p: Progress)
    requires info.Valid() && p.Valid() && ConfigureAll(info, d, p).failed.None?
    ensures HasFmmu(info, d)
  {
    if info.hasCoe && FirstUse(info.fmmuUsage, WantedFmmu(d)).None? {
      CoeWithoutFmmu(info, d, p, |info.syncManagers|);
    }
  }

  /** A part lies in the segment. */
  lemma {:induction false} PartIsInside(info: Info, d: Direction, f: nat)
    requires info.Valid()
    ensures PartLen(info, d, f) > 0 ==> PartStart(info, d, f) + PartLen(info, d, f) <= Total(info, d)
  {
    if Uses(info, d, f) && !info.hasCoe {
      MappedGrows(info, d, f + 1, |info.syncManagers|);
    }
  }

  /** Every bit of the segment is in some part. */
  lemma {:induction false} BitHasPart(info: Info, d: Direction, lo: nat, n: nat) returns (f: nat)
    requires info.Valid() && HasFmmu(info, d) && 8 * lo <= n < 8 * (lo + Total(info, d))
    ensures f < REGISTERS && InPart(info, d, f, lo, n)
  {
    if info.hasCoe {
      f := FirstUse(info.fmmuUsage, WantedFmmu(d)).value;
    } else {
      f := AddressHasSm(info, d, n / 8 - lo, |info.syncManagers|);
    }
  }

  /** No bit is in two. */
  lemma {:induction false} PartsAreDisjoint(info: Info, d: Direction, f: nat, g: nat, lo: nat, n: nat)
    requires info.Valid() && f < g && InPart(info, d, f, lo, n)
    ensures !InPart(info, d, g, lo, n)
  {
    if !info.hasCoe && Uses(info, d, g) {
      MappedGrows(info, d, f + 1, g);
    }
  }

  /** FMMUs that map their parts map exactly the segment, each byte once. */
  lemma {:induction false} ServingCovers(info: Info, d: Direction, fmmus: seq<Fmmu>, lo: nat)
    requires info.Valid() && |fmmus| == REGISTERS && HasFmmu(info, d) && Serves(info, d, fmmus, lo)
    ensures Covers(fmmus, d, lo, lo + Total(info, d))
  {
    forall n: nat, f | 0 <= f < |fmmus| && Maps(fmmus[f], d, n)
      ensures 8 * lo <= n < 8 * (lo + Total(info, d))
    {
      PartIsInside(info, d, f);
    }
    forall n: nat | 8 * lo <= n < 8 * (lo + Total(info, d))
      ensures IsMapped(fmmus, d, n)
    {
      var f := BitHasPart(info, d, lo, n);
      assert Maps(fmmus[f], d, n);
    }
    forall n: nat, f, g | 0 <= f < g < |fmmus| && Maps(fmmus[f], d, n)
      ensures !Maps(fmmus[g], d, n)
    {
      PartsAreDisjoint(info, d, f, g, lo, n);
    }
  }

  /** After a successful pass from registers that accept it, blank ones among them, the FMMUs map exactly the segment
      returned for the direction. */
  lemma {:induction false} PassCovers(info: Info, d: Direction, p: Progress)
    requires info.Valid() && p.Valid() && ConfigureAll(info, d, p).failed.None?
    requires forall f :: 0 <= f < REGISTERS ==>
      Accepts(p.fmmus[f], d, p.offset + PartStart(info, d, f), PartLen(info, d, f), PartLen(info, d, f))
    ensures ConfigureAll(info, d, p).offset == p.offset + Total(info, d)
    ensures Covers(ConfigureAll(info, d, p).fmmus, d, p.offset, ConfigureAll(info, d, p).offset)
  {
    OffsetMovesByMapped(info, d, p, |info.syncManagers|);
    PassServesIff(info, d, p);
    PassNeedsFmmu(info, d, p);
    ServingCovers(info, d, ConfigureAll(info, d, p).fmmus, p.offset);
  }

  /** A pass in one direction leaves the mapping of the other one alone if and only if it does not extend an FMMU that
      is set up for that one, or not so that it maps a bit. */
  lemma {:induction false} PassKeepsOther(info: Info, d: Direction, e: Direction, p: Progress)
    requires info.Valid() && p.Valid() && d != e && ConfigureAll(info, d, p).failed.None?
    ensures (forall f, n: nat :: 0 <= f < REGISTERS ==>
               Maps(ConfigureAll(info, d, p).fmmus[f], e, n) == Maps(p.fmmus[f], e, n))
      <==> (forall f :: 0 <= f < REGISTERS && p.fmmus[f].enable && Faces(p.fmmus[f], e) ==>
              PartLen(info, d, f) == 0 || NoBit(p.fmmus[f], p.fmmus[f].length + PartLen(info, d, f)))
  {
    var q := ConfigureAll(info, d, p);
    forall f, n: nat | 0 <= f < REGISTERS && (p.fmmus[f].enable && Faces(p.fmmus[f], e) ==>
        PartLen(info, d, f) == 0 || NoBit(p.fmmus[f], p.fmmus[f].length + PartLen(info, d, f)))
      ensures Maps(q.fmmus[f], e, n) == Maps(p.fmmus[f], e, n)
    {
      MapsAfterPass(info, d, p, f, e, n);
    }
    forall f | 0 <= f < REGISTERS && p.fmmus[f].enable && Faces(p.fmmus[f], e) && PartLen(info, d, f) > 0
      && !NoBit(p.fmmus[f], p.fmmus[f].length + PartLen(info, d, f))
      ensures exists n: nat :: Maps(q.fmmus[f], e, n) != Maps(p.fmmus[f], e, n)
    {
      var n: nat := p.fmmus[f].EndBit(p.fmmus[f].length + PartLen(info, d, f)) - 1;
      MapsAfterPass(info, d, p, f, e, n);
      assert Maps(q.fmmus[f], e, n) != Maps(p.fmmus[f], e, n);
    }
  }

  // --- Configuring again

  /** The part at the end of the segment. */
  lemma {:induction false} LastPart(info: Info, d: Direction) returns (f: nat)
    requires info.Valid() && HasFmmu(info, d) && Total(info, d) > 0
    ensures f < REGISTERS && PartLen(info, d, f) > 0
    ensures PartStart(info, d, f) + PartLen(info, d, f) == Total(info, d)
  {
    f := BitHasPart(info, d, 0, 8 * Total(info, d) - 1);
    PartIsInside(info, d, f);
  }

  /** An FMMU that maps its part is enabled for the direction, starts where the part starts, is as long and maps whole
      bytes. */
  lemma {:induction false} ServingFmmuIs(info: Info, d: Direction, fmmus: seq<Fmmu>, lo: nat, f: nat)
    requires info.Valid() && |fmmus| == REGISTERS && f < REGISTERS && Serves(info, d, fmmus, lo)
    ensures var m, len := fmmus[f], PartLen(info, d, f);
      if len > 0 then
        && m.enable && Faces(m, d) && m.logicalStart == lo + PartStart(info, d, f) && m.length == len
        && m.logicalStartBit == 0 && m.logicalEndBit == 7
      else m.enable && Faces(m, d) ==> NoBit(m, m.length)
  {
    var m, start, len := fmmus[f], lo + PartStart(info, d, f), PartLen(info, d, f);
    forall n: nat
      ensures Maps(m, d, n) <==> InBytes(start, len, n)
    {
      assert Maps(m, d, n) <==> InPart(info, d, f, lo, n);
    }
    assert InBytes(start, len, 8 * start) <==> len > 0;
    if m.enable && Faces(m, d) {
      assert forall n: nat :: Spans(m, m.length, n) <==> Maps(m, d, n);
      SpansBytesIff(m, m.length, start, len);
    }
  }

  /** A second pass at the same address, over registers that map their parts already: the byte behind the segment gets
      mapped, so the FMMUs still cover exactly the segment if and only if the direction has no data. */
  lemma {:induction false} SecondPassCoversIff(info: Info, d: Direction, p: Progress)
    requires info.Valid() && p.Valid() && Serves(info, d, p.fmmus, p.offset) && ConfigureAll(info, d, p).failed.None?
    ensures Total(info, d) > 0 ==> ByteIsMapped(ConfigureAll(info, d, p).fmmus, d, p.offset + Total(info, d))
    ensures Covers(ConfigureAll(info, d, p).fmmus, d, p.offset, p.offset + Total(info, d)) <==> Total(info, d) == 0
  {
    PassNeedsFmmu(info, d, p);
    var q := ConfigureAll(info, d, p);
    if Total(info, d) > 0 {
      var f := LastPart(info, d);
      var behind := p.offset + Total(info, d);
      ServingFmmuIs(info, d, p.fmmus, p.offset, f);
      forall n: nat | InBytes(behind, 1, n)
        ensures Maps(q.fmmus[f], d, n)
      {
        MapsAfterPass(info, d, p, f, d, n);
      }
      assert InBytes(behind, 1, 8 * behind) && Maps(q.fmmus[f], d, 8 * behind);
    } else {
      forall f | 0 <= f < REGISTERS
        ensures Accepts(p.fmmus[f], d, p.offset + PartStart(info, d, f), PartLen(info, d, f), PartLen(info, d, f))
      {
        PartIsInside(info, d, f);
        ServingFmmuIs(info, d, p.fmmus, p.offset, f);
      }
      PassCovers(info, d, p);
    }
  }

  /** The device with two inputs, configured twice: both passes succeed, and afterwards two bytes more are mapped. */
  lemma {:induction false} TwoInputsTwice(second: u16, p: Progress)
    requires p.Valid() && p.failed.None? && p.offset + 2 <= U32_MAX
    requires forall f :: 0 <= f < REGISTERS ==> p.fmmus[f] == BLANK
    ensures TwoInputs(second).Valid() && ConfigureAll(TwoInputs(second), MasterRead, p).failed.None?
    ensures var again := ConfigureAll(TwoInputs(second), MasterRead, p).(offset := p.offset);
      && ConfigureAll(TwoInputs(second), MasterRead, again).failed.None?
      && ByteIsMapped(ConfigureAll(TwoInputs(second), MasterRead, again).fmmus, MasterRead, p.offset + 2)
  {
    var info := TwoInputs(second);
    TwoInputsSucceed(second, p);
    TwoInputsHaveOneByteEach(second, 1);
    CoeFmmuCoversMapped(info, MasterRead, p, 1, 2);
    var again := ConfigureAll(info, MasterRead, p).(offset := p.offset);
    TwoInputsSucceed(second, again);
    PassServesIff(info, MasterRead, p);
    SecondPassCoversIff(info, MasterRead, again);
  }

  /** A device without CoE that has two PDOs of eight output bits for its only sync manager. */
  function TwoOutputs(start: u16): Info {
    Info([SyncManager(start, ProcessDataWrite, false, false, true)], [Outputs], [], false, [[]], [],
         [SiiPdos.Pdo(0x1600, 1, 0, 8), SiiPdos.Pdo(0x1601, 1, 0, 8)], [])
  }

  /** Both are mapped, for writing, with whole bytes. */
  lemma {:induction false} TwoOutputsAreMapped(start: u16, p: Progress)
    requires p.Valid() && p.failed.None? && !p.fmmus[0].enable && p.offset + 2 <= U32_MAX
    ensures TwoOutputs(start).Valid()
    ensures var q := ConfigureAll(TwoOutputs(start), MasterWrite, p);
      && q.failed.None? && q.offset == p.offset + 2
      && q.fmmus == p.fmmus[0 := Fmmu(p.offset, 2, 0, 7, start, 0, false, true, true)]
      && q.channels == p.channels[0 := Channel(start, 2, true)]
  {
    var info := TwoOutputs(start);
    var a, b := SiiPdos.Pdo(0x1600, 1, 0, 8), SiiPdos.Pdo(0x1601, 1, 0, 8);
    assert EepromBits([a, b], 0, []) == 8 + EepromBits([b], 0, []) by {
      assert [a, b][1..] == [b];
    }
    assert EepromBits([b], 0, []) == 8 + EepromBits([], 0, []) by {
      assert [b][1..] == [];
    }
    assert SmBits(info, MasterWrite, 0) == 16;
    assert ConfigureUpTo(info, MasterWrite, p, 0) == p;
    assert ConfigureAll(info, MasterWrite, p) == Configure(info, MasterWrite, p, 0);
  }
}
