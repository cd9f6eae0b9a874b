/** Laying out the process data image: devices configure their FMMUs one after the other. */
module Pdi {
  import opened Common
  import opened FmmuMapping
  import SiiPdos

  /** A range of bytes, `end` excluded. */
  datatype Segment = Segment(start: nat, end: nat) {
    predicate Contains(a: nat) {
      start <= a < end
    }
  }

  /** The outcome of a configuration: the new offset, or why it failed. */
  function Ended(p: Progress): Result<u32, PdiError> {
    match p.failed
    case None => Ok(p.offset)
    case Some(e) => Err(e)
  }

  /** A device at one moment. */
  datatype Snapshot = Snapshot(info: Info, fmmus: seq<Fmmu>, channels: seq<Channel>, input: Segment, output: Segment) {
    predicate Valid() {
      info.Valid() && |fmmus| == REGISTERS && |channels| == REGISTERS
    }

    /** The registers, at a given offset. */
    function At(offset: u32): (p: Progress)
      requires Valid()
      ensures p.Valid()
    {
      Progress(fmmus, channels, offset, None)
    }

    function SegmentOf(d: Direction): Segment {
      if d.MasterRead? then input else output
    }
  }

  /** A well-formed device at one moment. */
  type Shot = s: Snapshot | s.Valid()
    witness Snapshot(Info([], [], [], false, [], [], [], []), seq(REGISTERS, _ => BLANK),
                     seq(REGISTERS, _ => Channel(0, 0, false)), Segment(0, 0), Segment(0, 0))

  function Other(d: Direction): Direction {
    if d.MasterRead? then MasterWrite else MasterRead
  }

  /** A successful pass in a direction from an offset on. */
  predicate Configured(was: Shot, now: Shot, d: Direction, offset: nat, groupStart: nat) {
    && offset + Total(was.info, d) <= U32_MAX && groupStart <= offset && now.info == was.info
    && (var q := ConfigureAll(was.info, d, was.At(offset));
        q.failed.None? && now.fmmus == q.fmmus && now.channels == q.channels)
    && now.SegmentOf(d) == Segment(offset - groupStart, offset - groupStart + Total(was.info, d))
    && now.SegmentOf(Other(d)) == was.SegmentOf(Other(d))
  }

  /** A device and the registers it was given. */
  class SubDevice {
    const info: Info
    var inPreOp: bool
    var fmmus: seq<Fmmu>
    var channels: seq<Channel>
    var input: Segment
    var output: Segment

    predicate Valid()
      reads this
    {
      Snapshot(info, fmmus, channels, input, output).Valid()
    }

    function Now(): Shot
      requires Valid()
      reads this
    {
      Snapshot(info, fmmus, channels, input, output)
    }

    /** A device whose registers have been blanked. */
    constructor (info: Info)
      requires info.Valid()
      ensures Valid() && this.info == info && inPreOp && forall f :: 0 <= f < REGISTERS ==> fmmus[f] == BLANK
    {
      this.info := info;
      inPreOp := true;
      fmmus := seq(REGISTERS, _ => BLANK);
      channels := seq(REGISTERS, _ => Channel(0, 0, false));
      input, output := Segment(0, 0), Segment(0, 0);
    }

    /** Add up the bits of the PDOs assigned over CoE; no result when the sum leaves `u16`. */
    method SumCoe(pdos: seq<CoePdo>) returns (r: Option<u16>)
      ensures var n := CoeBits(pdos, info.oversampling); r == if n <= U16_MAX then Some(n) else None
    {
      var bits: u16 := 0;
      for i := 0 to |pdos|
        invariant bits + CoeBits(pdos[i..], info.oversampling) == CoeBits(pdos, info.oversampling)
      {
        assert pdos[i..][0] == pdos[i] && pdos[i..][1..] == pdos[i + 1..];
        var product := CoeLength(pdos[i]);
        if bits + product > U16_MAX {
          return None;
        }
        bits := bits + product;
      }
      r := Some(bits);
    }

    /** The bits of one PDO: its mappings, as often as it is sampled. */
    method CoeLength(pdo: CoePdo) returns (bits: nat)
      ensures bits == CoePdoBits(pdo, info.oversampling)
    {
      var mapped := SumMappings(pdo.mappings);
      bits := mapped * Multiplier(info.oversampling, pdo.index);
    }

    /** The mappings of one PDO cannot add up to more than `u16` holds. */
    method SumMappings(lens: Mappings) returns (bits: u16)
      ensures bits == Sum(lens)
    {
      bits := 0;
      for i := 0 to |lens|
        invariant bits <= 255 * i && bits + Sum(lens[i..]) == Sum(lens)
      {
        assert lens[i..][0] == lens[i] && lens[i..][1..] == lens[i + 1..];
        bits := bits + lens[i];
      }
    }

    /** Add up the bits of the PDOs that the EEPROM assigns to sync manager `k`. */
    method SumEeprom(pdos: seq<SiiPdos.Pdo>, k: nat) returns (r: Option<u16>)
      ensures var n := EepromBits(pdos, k, info.oversampling); r == if n <= U16_MAX then Some(n) else None
    {
      var bits: u16 := 0;
      for i := 0 to |pdos|
        invariant bits + EepromBits(pdos[i..], k, info.oversampling) == EepromBits(pdos, k, info.oversampling)
      {
        assert pdos[i..][0] == pdos[i] && pdos[i..][1..] == pdos[i + 1..];
        if pdos[i].syncManager == k {
          var product := EepromPdoBits(pdos[i], info.oversampling);
          if bits + product > U16_MAX {
            return None;
          }
          bits := bits + product;
        }
      }
      r := Some(bits);
    }

    /** Write the register of sync manager `k`; one without data stays disabled. */
    method WriteSmConfig(k: nat, length: u16) returns (channel: Channel)
      requires Valid() && k < |info.syncManagers|
      modifies this`channels
      ensures Valid() && channels == old(channels)[k := channel]
      ensures channel == Channel(info.syncManagers[k].startAddr, length, info.syncManagers[k].enabled && length > 0)
    {
      var sm := info.syncManagers[k];
      channel := Channel(sm.startAddr, length, sm.enabled && length > 0);
      channels := channels[k := channel];
    }

    /** Create an FMMU, or extend the one that is there, for the data of sync manager `k`. */
    method WriteFmmuConfig(bits: u16, f: nat, offset: u32, d: Direction, channel: Channel)
      returns (r: Result<u32, PdiError>)
      requires Valid() && f < REGISTERS && bits + 7 <= U16_MAX && channel.length == Bytes(bits)
      modifies this`fmmus
      ensures Valid()
      ensures var q := WriteFmmu(old(Now()).At(offset), f, bits, channel.physicalStart, d);
        r == Ended(q) && fmmus == q.fmmus
    {
      var config := fmmus[f];
      if config.enable {
        if config.length + channel.length > U16_MAX {
          return Err(Overflow);
        }
        config := config.(length := config.length + channel.length);
      } else {
        config := Fmmu(offset, channel.length, 0, 7, channel.physicalStart, 0, d.MasterRead?, d.MasterWrite?, true);
      }
      fmmus := fmmus[f := config];
      var inc := (bits + 7) / 8;
      if offset + inc > U32_MAX {
        return Err(Overflow);
      }
      r := Ok(offset + inc);
    }

    /** Configure one sync manager that serves the direction. */
    method ConfigureSm(k: nat, d: Direction, offset: u32) returns (r: Result<u32, PdiError>)
      requires Valid() && k < |info.syncManagers| && info.Wanted(d, k)
      modifies this`fmmus, this`channels
      ensures Valid()
      ensures var q := Configure(info, d, old(Now()).At(offset), k);
        r == Ended(q) && fmmus == q.fmmus && channels == q.channels
    {
      var sum;
      if info.hasCoe {
        sum := SumCoe(info.assignments[k]);
      } else {
        sum := SumEeprom(info.PdosOf(d), k);
      }
      if sum.None? || sum.value + 7 > U16_MAX {
        return Err(Overflow);
      }
      var bits := sum.value;
      var channel := WriteSmConfig(k, (bits + 7) / 8);
      var f := k;
      if info.hasCoe {
        if bits == 0 {
          return Ok(offset);
        }
        var found := FirstUse(info.fmmuUsage, WantedFmmu(d));
        if found.None? {
          return Err(FmmuNotFound);
        }
        f := found.value;
      } else {
        f := EepromFmmu(info, k);
        EepromFmmuIsSm(info, k);
      }
      r := WriteFmmuConfig(bits, f, offset, d, channel);
    }

    /** Configure all sync managers of a direction. */
    method ConfigurePdos(d: Direction, start: u32) returns (r: Result<u32, PdiError>)
      requires Valid()
      modifies this`fmmus, this`channels
      ensures Valid()
      ensures var q := ConfigureAll(info, d, old(Now()).At(start));
        r == Ended(q) && fmmus == q.fmmus && channels == q.channels
    {
      var offset := start;
      ghost var first := Now().At(start);
      for k := 0 to |info.syncManagers|
        invariant Valid() && Now().At(offset) == ConfigureUpTo(info, d, first, k)
      {
        if info.syncManagers[k].UsageType() == WantedSm(d) {
          var moved := ConfigureSm(k, d, offset);
          if moved.Err? {
            FailureStays(info, d, first, k + 1, |info.syncManagers|);
            return moved;
          }
          offset := moved.value;
        }
      }
      r := Ok(offset);
    }

    /** Configure a direction and note the part of the group's image that it got. */
    method ConfigureFmmus(globalOffset: u32, groupStart: u32, d: Direction) returns (r: Result<u32, PdiError>)
      requires Valid() && groupStart <= globalOffset
      modifies this
      ensures Valid() && inPreOp == old(inPreOp)
      ensures !inPreOp ==> r == Err(InvalidState) && Now() == old(Now())
      ensures inPreOp ==> r == Ended(ConfigureAll(info, d, old(Now()).At(globalOffset)))
      ensures r.Ok? ==> Configured(old(Now()), Now(), d, globalOffset, groupStart)
      ensures r.Ok? ==> r.value == globalOffset + Total(info, d)
      ensures r.Err? ==> input == old(input) && output == old(output)
    {
      if !inPreOp {
        return Err(InvalidState);
      }
      r := ConfigurePdos(d, globalOffset);
      if r.Err? {
        return;
      }
      OffsetMovesByMapped(info, d, old(Now()).At(globalOffset), |info.syncManagers|);
      var segment := Segment(globalOffset - groupStart, r.value - groupStart);
      match d
      case MasterRead => input := segment;
      case MasterWrite => output := segment;
    }
  }

  /** Once failed, a configuration does not go on. */
  lemma {:induction false} FailureStays(info: Info, d: Direction, p: Progress, j: nat, k: nat)
    requires info.Valid() && p.Valid() && j <= k <= |info.syncManagers| && ConfigureUpTo(info, d, p, j).failed.Some?
    ensures ConfigureUpTo(info, d, p, k) == ConfigureUpTo(info, d, p, j)
    decreases k
  {
    if j < k {
      FailureStays(info, d, p, j, k - 1);
    }
  }

  // --- A group of devices

  type Infos = infos: seq<Info> | forall j :: 0 <= j < |infos| ==> infos[j].Valid() witness []

  /** Bytes that the first `i` devices take up in a direction. */
  function Before(infos: Infos, d: Direction, i: nat): nat
    requires i <= |infos|
  {
    if i == 0 then 0 else Before(infos, d, i - 1) + Total(infos[i - 1], d)
  }

  /** Where the part of device `i` lies in the group's image: all inputs first, then all outputs. */
  function Share(infos: Infos, d: Direction, i: nat): (s: Segment)
    requires i < |infos|
  {
    var base := if d.MasterRead? then 0 else Before(infos, MasterRead, |infos|);
    Segment(base + Before(infos, d, i), base + Before(infos, d, i + 1))
  }

  /** Bytes of the whole image. */
  function ImageSize(infos: Infos): nat
  {
    Before(infos, MasterRead, |infos|) + Before(infos, MasterWrite, |infos|)
  }

  lemma {:induction false} BeforeGrows(infos: Infos, d: Direction, i: nat, j: nat)
    requires i <= j <= |infos|
    ensures Before(infos, d, i) <= Before(infos, d, j)
    decreases j
  {
    if i < j {
      BeforeGrows(infos, d, i, j - 1);
    }
  }

  lemma {:induction false} ByteHasDevice(infos: Infos, d: Direction, a: nat, n: nat) returns (i: nat)
    requires n <= |infos|
    requires a < Before(infos, d, n)
    ensures i < n && Before(infos, d, i) <= a < Before(infos, d, i + 1)
  {
    if a < Before(infos, d, n - 1) {
      i := ByteHasDevice(infos, d, a, n - 1);
    } else {
      i := n - 1;
    }
  }

  /** Every byte of the image belongs to some device's inputs or outputs. */
  lemma {:induction false} EveryByteHasShare(infos: Infos, a: nat) returns (d: Direction, i: nat)
    requires a < ImageSize(infos)
    ensures i < |infos| && Share(infos, d, i).Contains(a)
  {
    var inputs := Before(infos, MasterRead, |infos|);
    if a < inputs {
      d := MasterRead;
      i := ByteHasDevice(infos, d, a, |infos|);
    } else {
      d := MasterWrite;
      i := ByteHasDevice(infos, d, a - inputs, |infos|);
    }
  }

  /** No byte belongs to two, and none outside the image to any. */
  lemma {:induction false} SharesAreDisjoint(infos: Infos, a: nat, d: Direction, i: nat, e: Direction, j: nat)
    requires i < |infos| && j < |infos| && Share(infos, d, i).Contains(a) && Share(infos, e, j).Contains(a)
    ensures d == e && i == j && a < ImageSize(infos)
  {
    BeforeGrows(infos, d, i + 1, |infos|);
    BeforeGrows(infos, e, j + 1, |infos|);
    if i < j {
      BeforeGrows(infos, d, i + 1, j);
    } else if j < i {
      BeforeGrows(infos, e, j + 1, i);
    }
  }

  datatype GroupError = DeviceFailed(error: PdiError) | PdiTooLong

  /** A group of devices that share one image. */
  class SubDeviceGroup {
    const devices: seq<SubDevice>
    const pdiStart: u32
    const maxPdi: nat
    var readPdiLen: nat
    var pdiLen: nat

    constructor (devices: seq<SubDevice>, pdiStart: u32, maxPdi: nat)
      ensures this.devices == devices && this.pdiStart == pdiStart && this.maxPdi == maxPdi
    {
      this.devices := devices;
      this.pdiStart := pdiStart;
      this.maxPdi := maxPdi;
      readPdiLen, pdiLen := 0, 0;
    }

    function Infos(): (infos: Infos)
      requires forall i :: 0 <= i < |devices| ==> devices[i].info.Valid()
      ensures |infos| == |devices| && forall i :: 0 <= i < |devices| ==> infos[i] == devices[i].info
    {
      seq(|devices|, i requires 0 <= i < |devices| => devices[i].info)
    }

    /** All devices are different and well-formed. */
    ghost predicate Valid()
      reads devices
    {
      && (forall i, j :: 0 <= i < j < |devices| ==> devices[i] != devices[j])
      && (forall i :: 0 <= i < |devices| ==> devices[i].Valid())
    }

    function Now(): (snapshots: seq<Shot>)
      requires Valid()
      reads devices
      ensures |snapshots| == |devices| && forall i :: 0 <= i < |devices| ==> snapshots[i] == devices[i].Now()
    {
      seq(|devices|, i requires 0 <= i < |devices| && devices[i].Valid() reads devices => devices[i].Now())
    }

    /** Configure one device; the others are not touched. */
    method ConfigureDevice(i: nat, position: u32, d: Direction) returns (r: Result<u32, PdiError>)
      requires Valid() && i < |devices| && pdiStart <= position
      modifies devices
      ensures Valid() && forall j :: 0 <= j < |devices| && j != i ==> Now()[j] == old(Now())[j]
      ensures r.Ok? ==> r.value == position + Total(Infos()[i], d)
      ensures r.Ok? ==> Configured(old(Now())[i], Now()[i], d, position, pdiStart)
    {
      r := devices[i].ConfigureFmmus(position, pdiStart, d);
    }

    /** One device after another, each where the one before it ended. */
    method ConfigureDirection(start: u32, d: Direction) returns (r: Result<u32, PdiError>)
      requires Valid() && pdiStart <= start
      modifies devices
      ensures Valid()
      ensures r.Ok? ==> r.value == start + Before(Infos(), d, |devices|)
      ensures r.Ok? ==> AllConfigured(Infos(), old(Now()), Now(), d, start, pdiStart, |devices|)
    {
      var position := start;
      ghost var was := Now();
      for i := 0 to |devices|
        invariant Valid() && position == start + Before(Infos(), d, i)
        invariant forall j :: i <= j < |devices| ==> Now()[j] == was[j]
        invariant AllConfigured(Infos(), was, Now(), d, start, pdiStart, i)
      {
        ghost var before := Now();
        var moved := ConfigureDevice(i, position, d);
        if moved.Err? {
          return moved;
        }
        OneMoreConfigured(Infos(), was, before, Now(), d, start, pdiStart, i);
        position := moved.value;
      }
      r := Ok(position);
    }

    /** Configure the whole group, whatever its registers hold: inputs of all devices, then outputs of all devices. A
        device then mirrors its shares of the image if and only if its registers accepted them. */
    method ConfigureFmmus() returns (r: Result<(), GroupError>)
      requires Valid()
      modifies this, devices
      ensures Valid()
      ensures r.Ok? ==> pdiLen == ImageSize(Infos()) <= maxPdi && readPdiLen == Before(Infos(), MasterRead, |devices|)
      ensures r.Ok? ==> AllMirrorIff(Infos(), old(Now()), Now(), pdiStart)
      ensures r == Err(PdiTooLong) ==> pdiLen == ImageSize(Infos()) > maxPdi
    {
      ghost var was := Now();
      var inputs := ConfigureDirection(pdiStart, MasterRead);
      if inputs.Err? {
        return Err(DeviceFailed(inputs.error));
      }
      ghost var middle := Now();
      readPdiLen := inputs.value - pdiStart;
      assert Valid() && Now() == middle;
      var outputs := ConfigureDirection(inputs.value, MasterWrite);
      if outputs.Err? {
        return Err(DeviceFailed(outputs.error));
      }
      AllMirror(Infos(), was, middle, Now(), pdiStart);
      ghost var now := Now();
      pdiLen := outputs.value - pdiStart;
      assert Valid() && Now() == now;
      r := if pdiLen > maxPdi then Err(PdiTooLong) else Ok(());
    }
  }

  /** Device `i` has been configured where the ones before it end. */
  predicate InPlace(infos: Infos, was: seq<Shot>, now: seq<Shot>, d: Direction, start: nat, groupStart: nat, i: nat)
    requires i < |infos| == |was| == |now|
  {
    was[i].info == infos[i] && Configured(was[i], now[i], d, start + Before(infos, d, i), groupStart)
  }

  /** The first `n` devices have been configured one behind the other. */
  predicate AllConfigured(infos: Infos, was: seq<Shot>, now: seq<Shot>, d: Direction, start: nat, groupStart: nat,
                          n: nat)
    requires n <= |infos| == |was| == |now|
  {
    forall i :: 0 <= i < n ==> InPlace(infos, was, now, d, start, groupStart, i)
  }

  lemma {:induction false} OneMoreConfigured(infos: Infos, was: seq<Shot>, before: seq<Shot>, now: seq<Shot>,
                                             d: Direction, start: nat, groupStart: nat, i: nat)
    requires i < |infos| == |was| == |before| == |now| && was[i].info == infos[i]
    requires AllConfigured(infos, was, before, d, start, groupStart, i)
    requires forall j :: 0 <= j < |now| && j != i ==> now[j] == before[j]
    requires Configured(was[i], now[i], d, start + Before(infos, d, i), groupStart)
    ensures AllConfigured(infos, was, now, d, start, groupStart, i + 1)
  {
    forall j | 0 <= j < i
      ensures InPlace(infos, was, now, d, start, groupStart, j)
    {
      assert InPlace(infos, was, before, d, start, groupStart, j);
    }
  }

  /** The device was configured in both directions as part of the group. */
  predicate ConfiguredTwice(infos: Infos, was: Shot, middle: Shot, now: Shot, i: nat, pdiStart: nat)
    requires i < |infos|
  {
    && was.info == infos[i]
    && Configured(was, middle, MasterRead, pdiStart + Before(infos, MasterRead, i), pdiStart)
    && Configured(middle, now, MasterWrite,
                  pdiStart + Before(infos, MasterRead, |infos|) + Before(infos, MasterWrite, i), pdiStart)
  }

  lemma {:induction false} AllMirror(infos: Infos, was: seq<Shot>, middle: seq<Shot>, now: seq<Shot>, pdiStart: nat)
    requires |infos| == |was| == |middle| == |now|
    requires AllConfigured(infos, was, middle, MasterRead, pdiStart, pdiStart, |infos|)
    requires AllConfigured(infos, middle, now, MasterWrite, pdiStart + Before(infos, MasterRead, |infos|), pdiStart,
                           |infos|)
    ensures AllMirrorIff(infos, was, now, pdiStart)
  {
    forall i | 0 <= i < |infos|
      ensures HasShares(infos, now[i], i)
      ensures Mirrors(infos, now[i], i, pdiStart) <==> Accepting(infos, was[i], i, pdiStart)
    {
      assert InPlace(infos, was, middle, MasterRead, pdiStart, pdiStart, i);
      assert InPlace(infos, middle, now, MasterWrite, pdiStart + Before(infos, MasterRead, |infos|), pdiStart, i);
      BothPassesMirrorIff(infos, was[i], middle[i], now[i], i, pdiStart);
    }
  }

  // --- Image and hardware

  /** A device's segments are its shares of the group's image. */
  predicate HasShares(infos: Infos, s: Shot, i: nat)
    requires i < |infos|
  {
    s.input == Share(infos, MasterRead, i) && s.output == Share(infos, MasterWrite, i)
  }

  /** A device's view of the group's image agrees with its hardware: its segments are its shares, its FMMUs map exactly
      these, each byte once, and each FMMU its own part. */
  ghost predicate Mirrors(infos: Infos, s: Shot, i: nat, pdiStart: nat)
    requires i < |infos|
  {
    && HasShares(infos, s, i)
    && forall d: Direction ::
         var share := Share(infos, d, i);
         && Covers(s.fmmus, d, pdiStart + share.start, pdiStart + share.end)
         && Serves(infos[i], d, s.fmmus, pdiStart + share.start)
  }

  /** Bytes by which the two passes extend FMMU `f` if it is enabled. */
  function Growth(info: Info, f: nat): nat
    requires info.Valid()
  {
    PartLen(info, MasterRead, f) + PartLen(info, MasterWrite, f)
  }

  /** An FMMU is free; or it is empty, set up for the one direction that gives it a part and where that part starts;
      or it gets no part and maps no bit. */
  predicate FmmuAccepts(infos: Infos, was: Fmmu, i: nat, pdiStart: nat, d: Direction, f: nat)
    requires i < |infos|
  {
    Accepts(was, d, pdiStart + Share(infos, d, i).start + PartStart(infos[i], d, f), PartLen(infos[i], d, f),
            Growth(infos[i], f))
  }

  predicate Accepting(infos: Infos, s: Shot, i: nat, pdiStart: nat)
    requires i < |infos|
  {
    forall f :: 0 <= f < REGISTERS ==>
      FmmuAccepts(infos, s.fmmus[f], i, pdiStart, MasterRead, f)
        && FmmuAccepts(infos, s.fmmus[f], i, pdiStart, MasterWrite, f)
  }

  /** All segments are shares, and a device mirrors its shares if and only if its registers accepted them. */
  ghost predicate AllMirrorIff(infos: Infos, was: seq<Shot>, now: seq<Shot>, pdiStart: nat)
    requires |infos| == |was| == |now|
  {
    forall i :: 0 <= i < |infos| ==>
      && HasShares(infos, now[i], i)
      && (Mirrors(infos, now[i], i, pdiStart) <==> Accepting(infos, was[i], i, pdiStart))
  }

  predicate Blank(s: Shot) {
    forall f :: 0 <= f < |s.fmmus| ==> s.fmmus[f] == BLANK
  }

  /** The registers of a device that the main device has reset. */
  lemma {:induction false} BlankIsAccepting(infos: Infos, s: Shot, i: nat, pdiStart: nat)
    requires i < |infos| && Blank(s)
    ensures Accepting(infos, s, i, pdiStart)
  {
  }

  /** An FMMU after both passes maps its part, or, if it was enabled, what it has mapped and its parts of both
      directions behind that. */
  lemma {:induction false} MapsAfterBoth(infos: Infos, was: Shot, middle: Shot, now: Shot, i: nat, pdiStart: nat,
                                         f: nat, d: Direction, n: nat)
    requires i < |infos| && f < REGISTERS && ConfiguredTwice(infos, was, middle, now, i, pdiStart)
    ensures Maps(now.fmmus[f], d, n)
      <==> (var m := was.fmmus[f];
            if m.enable then Faces(m, d) && Spans(m, m.length + Growth(infos[i], f), n)
            else InPart(infos[i], d, f, pdiStart + Share(infos, d, i).start, n))
  {
    var inAt := pdiStart + Before(infos, MasterRead, i);
    var outAt := pdiStart + Before(infos, MasterRead, |infos|) + Before(infos, MasterWrite, i);
    FmmuAfterPass(infos[i], MasterRead, was.At(inAt), f);
    FmmuAfterPass(infos[i], MasterWrite, middle.At(outAt), f);
    if Uses(infos[i], MasterRead, f) {
      UsedForOneDirection(infos[i], MasterRead, MasterWrite, f);
    }
  }

  lemma {:induction false} FmmuServesBothIff(infos: Infos, was: Shot, middle: Shot, now: Shot, i: nat, pdiStart: nat,
                                             f: nat, d: Direction)
    requires i < |infos| && f < REGISTERS && ConfiguredTwice(infos, was, middle, now, i, pdiStart)
    ensures (forall n: nat ::
               Maps(now.fmmus[f], d, n) <==> InPart(infos[i], d, f, pdiStart + Share(infos, d, i).start, n))
      <==> FmmuAccepts(infos, was.fmmus[f], i, pdiStart, d, f)
  {
    var m, lo, grown := was.fmmus[f], pdiStart + Share(infos, d, i).start, Growth(infos[i], f);
    var start, len := lo + PartStart(infos[i], d, f), PartLen(infos[i], d, f);
    forall n: nat
      ensures Maps(now.fmmus[f], d, n)
        <==> (if m.enable then Faces(m, d) && Spans(m, m.length + grown, n) else InBytes(start, len, n))
      ensures InPart(infos[i], d, f, lo, n) == InBytes(start, len, n)
    {
      MapsAfterBoth(infos, was, middle, now, i, pdiStart, f, d, n);
    }
    SpansBytesIff(m, m.length + grown, start, len);
    assert InBytes(start, len, 8 * start) <==> len > 0;
  }

  /** Each FMMU maps exactly its parts after two passes if and only if the registers accept them. */
  lemma {:induction false} BothPassesServeIff(infos: Infos, was: Shot, middle: Shot, now: Shot, i: nat, pdiStart: nat)
    requires i < |infos| && ConfiguredTwice(infos, was, middle, now, i, pdiStart)
    ensures (forall d: Direction :: Serves(infos[i], d, now.fmmus, pdiStart + Share(infos, d, i).start))
      <==> Accepting(infos, was, i, pdiStart)
  {
    forall f: nat, d: Direction | f < REGISTERS
      ensures (forall n: nat ::
                 Maps(now.fmmus[f], d, n) <==> InPart(infos[i], d, f, pdiStart + Share(infos, d, i).start, n))
        <==> FmmuAccepts(infos, was.fmmus[f], i, pdiStart, d, f)
    {
      FmmuServesBothIff(infos, was, middle, now, i, pdiStart, f, d);
    }
  }

  /** Two passes from any registers make a device mirror its shares if and only if the registers accept them. */
  lemma {:induction false} BothPassesMirrorIff(infos: Infos, was: Shot, middle: Shot, now: Shot, i: nat, pdiStart: nat)
    requires i < |infos| && ConfiguredTwice(infos, was, middle, now, i, pdiStart)
    ensures HasShares(infos, now, i) && HasFmmu(infos[i], MasterRead) && HasFmmu(infos[i], MasterWrite)
    ensures Mirrors(infos, now, i, pdiStart) <==> Accepting(infos, was, i, pdiStart)
  {
    BothPassesServeIff(infos, was, middle, now, i, pdiStart);
    PassNeedsFmmu(infos[i], MasterRead, was.At(pdiStart + Before(infos, MasterRead, i)));
    PassNeedsFmmu(infos[i], MasterWrite,
                  middle.At(pdiStart + Before(infos, MasterRead, |infos|) + Before(infos, MasterWrite, i)));
    if Accepting(infos, was, i, pdiStart) {
      forall d: Direction
        ensures Covers(now.fmmus, d, pdiStart + Share(infos, d, i).start, pdiStart + Share(infos, d, i).end)
      {
        ServingCovers(infos[i], d, now.fmmus, pdiStart + Share(infos, d, i).start);
      }
    }
  }

  // --- Configuring a group again

  /** A device that mirrors its shares accepts them again only if it has none. */
  lemma {:induction false} MirroringAcceptsIff(infos: Infos, s: Shot, i: nat, pdiStart: nat)
    requires i < |infos| && s.info == infos[i] && Mirrors(infos, s, i, pdiStart)
    requires HasFmmu(infos[i], MasterRead) && HasFmmu(infos[i], MasterWrite)
    ensures Accepting(infos, s, i, pdiStart)
      <==> (Total(infos[i], MasterRead) == 0 && Total(infos[i], MasterWrite) == 0)
  {
    forall f: nat, d: Direction | f < REGISTERS
      ensures PartLen(infos[i], d, f) > 0 ==> !FmmuAccepts(infos, s.fmmus[f], i, pdiStart, d, f)
      ensures Total(infos[i], d) == 0 ==> PartLen(infos[i], d, f) == 0
      ensures s.fmmus[f].enable && Faces(s.fmmus[f], d) && PartLen(infos[i], d, f) == 0 ==>
        NoBit(s.fmmus[f], s.fmmus[f].length)
    {
      PartIsInside(infos[i], d, f);
      ServingFmmuIs(infos[i], d, s.fmmus, pdiStart + Share(infos, d, i).start, f);
    }
    forall d: Direction | Total(infos[i], d) > 0
      ensures !Accepting(infos, s, i, pdiStart)
    {
      var f := LastPart(infos[i], d);
      assert !FmmuAccepts(infos, s.fmmus[f], i, pdiStart, d, f);
    }
  }

  /** When a group that mirrors its image goes back to PRE-OP and is configured again, its devices mirror their shares
      again if and only if they have none. In a direction with data a device also maps the byte behind its share, which
      belongs to somebody else. */
  lemma {:induction false} SecondConfigurationMirrorsIff(infos: Infos, was: Shot, middle: Shot, now: Shot, i: nat,
                                                         pdiStart: nat)
    requires i < |infos| && Mirrors(infos, was, i, pdiStart) && ConfiguredTwice(infos, was, middle, now, i, pdiStart)
    ensures Mirrors(infos, now, i, pdiStart)
      <==> (Total(infos[i], MasterRead) == 0 && Total(infos[i], MasterWrite) == 0)
    ensures forall d: Direction ::
      Total(infos[i], d) > 0 ==> ByteIsMapped(now.fmmus, d, pdiStart + Share(infos, d, i).end)
  {
    BothPassesMirrorIff(infos, was, middle, now, i, pdiStart);
    MirroringAcceptsIff(infos, was, i, pdiStart);
    forall d: Direction | Total(infos[i], d) > 0
      ensures ByteIsMapped(now.fmmus, d, pdiStart + Share(infos, d, i).end)
    {
      var f := LastPart(infos[i], d);
      ServingFmmuIs(infos[i], d, was.fmmus, pdiStart + Share(infos, d, i).start, f);
      forall n: nat | InBytes(pdiStart + Share(infos, d, i).end, 1, n)
        ensures IsMapped(now.fmmus, d, n)
      {
        MapsAfterBoth(infos, was, middle, now, i, pdiStart, f, d, n);
        assert Maps(now.fmmus[f], d, n);
      }
    }
  }
}
