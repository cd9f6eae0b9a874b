/** What the bits of a process data image are made of: every PDO of a direction, as often as it is sampled. */
module ImageSizes {
  import opened Common
  import opened FmmuMapping
  import SiiPdos

  // --- Sums

  lemma {:induction false} SumOfParts(a: seq<u8>, b: seq<u8>)
    ensures Sum(a + b) == Sum(a) + Sum(b)
    ensures forall x: u8 :: Sum([x]) == x
  {
    if a == [] {
      assert a + b == b;
    } else {
      assert (a + b)[0] == a[0] && (a + b)[1..] == a[1..] + b;
      SumOfParts(a[1..], b);
    }
    forall x: u8
      ensures Sum([x]) == x
    {
      assert Sum([x]) == x + Sum([x][1..]);
    }
  }

  /** None of the first `n` settings is for this PDO. */
  predicate NotSet(oversampling: seq<(u16, u16)>, index: u16, n: nat)
    requires n <= |oversampling|
  {
    forall j :: 0 <= j < n ==> oversampling[j].0 != index
  }

  /** A PDO is sampled as often as the first setting for its index says, and once if there is none. */
  lemma {:induction false} MultiplierIs(oversampling: seq<(u16, u16)>, index: u16)
    ensures NotSet(oversampling, index, |oversampling|) ==> Multiplier(oversampling, index) == 1
    ensures forall k :: 0 <= k < |oversampling| && oversampling[k].0 == index && NotSet(oversampling, index, k) ==>
      Multiplier(oversampling, index) == oversampling[k].1
  {
    if oversampling != [] && oversampling[0].0 != index {
      MultiplierIs(oversampling[1..], index);
      assert forall j :: 1 <= j < |oversampling| ==> oversampling[j] == oversampling[1..][j - 1];
    }
  }

  /** Over CoE every PDO assigned counts its mappings as often as it is sampled. */
  lemma {:induction false} CoeBitsOfParts(a: seq<CoePdo>, b: seq<CoePdo>, oversampling: seq<(u16, u16)>)
    ensures CoeBits(a + b, oversampling) == CoeBits(a, oversampling) + CoeBits(b, oversampling)
    ensures forall pdo: CoePdo ::
      CoeBits([pdo], oversampling) == Sum(pdo.mappings) * Multiplier(oversampling, pdo.index)
  {
    if a == [] {
      assert a + b == b;
    } else {
      assert (a + b)[0] == a[0] && (a + b)[1..] == a[1..] + b;
      CoeBitsOfParts(a[1..], b, oversampling);
    }
    forall pdo: CoePdo
      ensures CoeBits([pdo], oversampling) == Sum(pdo.mappings) * Multiplier(oversampling, pdo.index)
    {
      assert CoeBits([pdo], oversampling) == CoePdoBits(pdo, oversampling) + CoeBits([pdo][1..], oversampling);
    }
  }

  /** In the EEPROM every PDO counts for the sync manager it names, as often as it is sampled. */
  lemma {:induction false} EepromBitsOfParts(a: seq<SiiPdos.Pdo>, b: seq<SiiPdos.Pdo>, k: nat,
                                             oversampling: seq<(u16, u16)>)
    ensures EepromBits(a + b, k, oversampling) == EepromBits(a, k, oversampling) + EepromBits(b, k, oversampling)
    ensures forall pdo: SiiPdos.Pdo ::
      EepromBits([pdo], k, oversampling)
        == if pdo.syncManager == k then pdo.bitLen * Multiplier(oversampling, pdo.index) else 0
  {
    if a == [] {
      assert a + b == b;
    } else {
      assert (a + b)[0] == a[0] && (a + b)[1..] == a[1..] + b;
      EepromBitsOfParts(a[1..], b, k, oversampling);
    }
    forall pdo: SiiPdos.Pdo
      ensures EepromBits([pdo], k, oversampling)
        == if pdo.syncManager == k then pdo.bitLen * Multiplier(oversampling, pdo.index) else 0
    {
      assert EepromBits([pdo][1..], k, oversampling) == 0;
    }
  }

  // --- Sync managers and directions

  /** Inputs are process data the main device reads, outputs those it writes; a sync manager that does not say what it
      is for is told by its control byte. */
  lemma {:induction false} WantedIff(info: Info, d: Direction, k: nat)
    requires k < |info.syncManagers|
    ensures var sm := info.syncManagers[k];
      info.Wanted(d, k) <==>
        match d
        case MasterRead => sm.usage.ProcessDataRead? || (sm.usage.Unknown? && !sm.mailbox && sm.masterRead)
        case MasterWrite => sm.usage.ProcessDataWrite? || (sm.usage.Unknown? && !sm.mailbox && !sm.masterRead)
    ensures WantedFmmu(MasterRead) == Inputs && WantedFmmu(MasterWrite) == Outputs
  {
  }

  /** Bits of the first `k` sync managers of a direction. */
  function BitsUpTo(info: Info, d: Direction, k: nat): nat
    requires info.Valid() && k <= |info.syncManagers|
  {
    if k == 0 then 0 else BitsUpTo(info, d, k - 1) + if info.Wanted(d, k - 1) then SmBits(info, d, k - 1) else 0
  }

  /** How many of the first `k` sync managers serve the direction. */
  function WantedUpTo(info: Info, d: Direction, k: nat): nat
    requires k <= |info.syncManagers|
  {
    if k == 0 then 0 else WantedUpTo(info, d, k - 1) + if info.Wanted(d, k - 1) then 1 else 0
  }

  /** The bytes mapped hold all bits, with less than a byte of padding for each sync manager. */
  lemma {:induction false} MappedHoldsBits(info: Info, d: Direction, k: nat)
    requires info.Valid() && k <= |info.syncManagers|
    ensures BitsUpTo(info, d, k) <= 8 * Mapped(info, d, k) <= BitsUpTo(info, d, k) + 7 * WantedUpTo(info, d, k)
  {
    if k > 0 {
      MappedHoldsBits(info, d, k - 1);
    }
  }

  /** PDOs assigned to the first `k` sync managers of a direction over CoE. */
  function Assigned(info: Info, d: Direction, k: nat): seq<CoePdo>
    requires info.Valid() && k <= |info.syncManagers|
  {
    if k == 0 then []
    else Assigned(info, d, k - 1) + if info.Wanted(d, k - 1) then info.assignments[k - 1] else []
  }

  lemma {:induction false} CoeBitsAreAssigned(info: Info, d: Direction, k: nat)
    requires info.Valid() && info.hasCoe && k <= |info.syncManagers|
    ensures BitsUpTo(info, d, k) == CoeBits(Assigned(info, d, k), info.oversampling)
  {
    if k > 0 {
      CoeBitsAreAssigned(info, d, k - 1);
      var more := if info.Wanted(d, k - 1) then info.assignments[k - 1] else [];
      CoeBitsOfParts(Assigned(info, d, k - 1), more, info.oversampling);
    }
  }

  /** The PDO belongs to one of the first `k` sync managers of the direction. */
  predicate Belongs(info: Info, d: Direction, pdo: SiiPdos.Pdo, k: nat)
    requires k <= |info.syncManagers|
  {
    pdo.syncManager < k && info.Wanted(d, pdo.syncManager)
  }

  /** Bits of the PDOs in a list that belong there, sampled ones counted as often. */
  function PdoBits(info: Info, d: Direction, pdos: seq<SiiPdos.Pdo>, k: nat): nat
    requires k <= |info.syncManagers|
  {
    if pdos == [] then 0
    else
      (if Belongs(info, d, pdos[0], k) then pdos[0].bitLen * Multiplier(info.oversampling, pdos[0].index) else 0)
      + PdoBits(info, d, pdos[1..], k)
  }

  lemma {:induction false} OneMoreSm(info: Info, d: Direction, pdos: seq<SiiPdos.Pdo>, k: nat)
    requires 0 < k <= |info.syncManagers|
    ensures PdoBits(info, d, pdos, k) == PdoBits(info, d, pdos, k - 1)
      + if info.Wanted(d, k - 1) then EepromBits(pdos, k - 1, info.oversampling) else 0
  {
    if pdos != [] {
      OneMoreSm(info, d, pdos[1..], k);
    }
  }

  lemma {:induction false} NoSmNoBits(info: Info, d: Direction, pdos: seq<SiiPdos.Pdo>)
    ensures PdoBits(info, d, pdos, 0) == 0
  {
    if pdos != [] {
      NoSmNoBits(info, d, pdos[1..]);
    }
  }

  lemma {:induction false} EepromBitsArePdos(info: Info, d: Direction, k: nat)
    requires info.Valid() && !info.hasCoe && k <= |info.syncManagers|
    ensures BitsUpTo(info, d, k) == PdoBits(info, d, info.PdosOf(d), k)
  {
    if k == 0 {
      NoSmNoBits(info, d, info.PdosOf(d));
    } else {
      EepromBitsArePdos(info, d, k - 1);
      OneMoreSm(info, d, info.PdosOf(d), k);
    }
  }

  /** All bits of a direction, PDO by PDO. */
  function DirectionBits(info: Info, d: Direction): nat
    requires info.Valid()
  {
    if info.hasCoe then CoeBits(Assigned(info, d, |info.syncManagers|), info.oversampling)
    else PdoBits(info, d, info.PdosOf(d), |info.syncManagers|)
  }

  /** A pass that succeeds returns a segment that holds every PDO of the direction, as often as it is sampled, with less
      than a byte of padding for each sync manager. */
  lemma {:induction false} SegmentHoldsAllPdos(info: Info, d: Direction, p: Progress)
    requires info.Valid() && p.Valid() && ConfigureAll(info, d, p).failed.None?
    ensures var bits := 8 * (ConfigureAll(info, d, p).offset - p.offset);
      DirectionBits(info, d) <= bits <= DirectionBits(info, d) + 7 * WantedUpTo(info, d, |info.syncManagers|)
  {
    var n := |info.syncManagers|;
    OffsetMovesByMapped(info, d, p, n);
    MappedHoldsBits(info, d, n);
    if info.hasCoe {
      CoeBitsAreAssigned(info, d, n);
    } else {
      EepromBitsArePdos(info, d, n);
    }
  }
}
