/** Frame slots as values: their states, and how a free one is searched. */
module FrameSlots {
  import opened Common

  /** The states of a frame; `Free` is the source's `None`. */
  datatype FrameState = Free | Created | Sendable | Sending | Sent | RxBusy | RxDone | RxProcessing

  /** Marks a frame without PDUs; no PDU index compares equal to it. */
  const FIRST_PDU_EMPTY: u16 := 0xff00

  datatype Slot = Slot(state: FrameState, firstPdu: u16, data: seq<u8>)

  function Zeros(len: nat): (bs: seq<u8>)
    ensures |bs| == len
  {
    seq(len, _ => 0)
  }

  function CountOnes(n: nat): nat {
    if n == 0 then 0 else n % 2 + CountOnes(n / 2)
  }

  /** Sizes the constructor accepts. */
  predicate ValidSize(n: nat) {
    0 < n <= 255 && (n > 1 ==> CountOnes(n) == 1)
  }

  /** These are the powers of two that fit one byte. */
  lemma {:induction false} ValidSizeIff(n: nat)
    ensures ValidSize(n)
      <==> (n == 1 || n == 2 || n == 4 || n == 8 || n == 16 || n == 32 || n == 64 || n == 128)
  {
    if n > 1 {
      assert CountOnes(1) == 1 + CountOnes(0);
    }
    if ValidSize(n) && n > 1 {
      var e := OneOneIsPower(n);
      PowersUpTo(e);
    }
  }

  lemma {:induction false} PowersUpTo(e: nat)
    ensures if e <= 7 then Pow2(e) in {1, 2, 4, 8, 16, 32, 64, 128} else Pow2(e) >= 256
  {
    if e > 0 {
      PowersUpTo(e - 1);
    }
  }

  function Pow2(e: nat): (p: nat)
    ensures p > 0
  {
    if e == 0 then 1 else 2 * Pow2(e - 1)
  }

  lemma {:induction false} NoOnesIsZero(n: nat)
    requires CountOnes(n) == 0
    ensures n == 0
  {
    if n > 0 {
      NoOnesIsZero(n / 2);
    }
  }

  lemma {:induction false} OneOneIsPower(n: nat) returns (e: nat)
    requires CountOnes(n) == 1
    ensures n == Pow2(e)
  {
    if n % 2 == 1 {
      NoOnesIsZero(n / 2);
      e := 0;
    } else {
      e := OneOneIsPower(n / 2);
      e := e + 1;
    }
  }

  lemma {:induction false} PowersMultiply(a: nat, b: nat)
    ensures Pow2(a + b) == Pow2(a) * Pow2(b)
  {
    if a > 0 {
      PowersMultiply(a - 1, b);
    }
  }

  /** An accepted size divides the 256 values of the counter. */
  lemma {:induction false} ValidSizeDivides256(n: nat) returns (m: nat)
    requires ValidSize(n)
    ensures 256 == n * m
  {
    if n == 1 {
      m := 256;
    } else {
      var e := OneOneIsPower(n);
      if e >= 8 {
        PowersMultiply(e - 8, 8);
        PowersOfEight();
        assert Pow2(e) >= 256 by {
          AtLeast(Pow2(e - 8), 256);
        }
      } else {
        PowersMultiply(e, 8 - e);
        PowersOfEight();
        m := Pow2(8 - e);
      }
    }
  }

  lemma {:induction false} PowersOfEight()
    ensures Pow2(8) == 256
  {
    assert Pow2(4) == 16;
    PowersMultiply(4, 4);
  }

  lemma {:induction false} AtLeast(a: nat, b: nat)
    requires a > 0
    ensures a * b >= b
  {
    if a > 1 {
      AtLeast(a - 1, b);
    }
  }

  lemma {:induction false} MultiplesVanish(r: nat, n: nat, t: nat)
    requires n > 0
    ensures (r + n * t) % n == r % n
  {
    if t > 0 {
      MultiplesVanish(r, n, t - 1);
      assert r + n * t == (r + n * (t - 1)) + n;
      OneMultipleVanishes(r + n * (t - 1), n);
    }
  }

  lemma {:induction false} OneMultipleVanishes(x: nat, n: nat)
    requires n > 0
    ensures (x + n) % n == x % n
  {
    var q, r := x / n, x % n;
    assert x + n == (q + 1) * n + r;
    RemainderIs(x + n, n, q + 1, r);
  }

  lemma {:induction false} RemainderFirst(x: nat, n: nat, k: nat)
    requires n > 0
    ensures (x + k) % n == (x % n + k) % n
  {
    var q, i := x / n, x % n;
    assert x + k == (i + k) + n * q;
    MultiplesVanish(i + k, n, q);
  }

  lemma {:induction false} RemainderIs(x: nat, n: nat, q: nat, r: nat)
    requires r < n && x == q * n + r
    ensures x % n == r
  {
    var p := x / n;
    assert x == p * n + x % n;
    if q < p {
      assert p * n - q * n == (p - q) * n;
      AtLeast(p - q, n);
    } else if p < q {
      assert q * n - p * n == (q - p) * n;
      AtLeast(q - p, n);
    }
  }

  /** The slot a counter value stands for. */
  function SlotOf(idx: u8, n: nat): (s: nat)
    requires n > 0
    ensures s < n
  {
    idx % n
  }

  /** The counter after `k` increments; it wraps. */
  function Advance(idx: u8, k: nat): u8 {
    (idx + k) % 256
  }

  /** The probe that looks at slot `s` when the first one looks at slot `first`. */
  function ProbeOf(first: nat, n: nat, s: nat): (k: nat)
    requires s < n && first < n
    ensures k < n
  {
    if s >= first then s - first else s + n - first
  }

  /** A wrap of the counter does not disturb the order of the slots. */
  lemma {:induction false} WrapKeepsSlot(x: nat, n: nat)
    requires ValidSize(n)
    ensures (x % 256) % n == x % n
  {
    var m := ValidSizeDivides256(n);
    var q, r := x / 256, x % 256;
    assert n * (m * q) == (n * m) * q == 256 * q;
    MultiplesVanish(r, n, m * q);
  }

  lemma {:induction false} SmallRemainders(x: nat, n: nat)
    requires x < 2 * n
    ensures x % n == if x < n then x else x - n
  {
    if x >= n {
      OneMultipleVanishes(x - n, n);
    }
  }

  /** The slot of the `k`-th probe, without the wrap. */
  lemma {:induction false} SlotOfProbe(idx: u8, n: nat, k: nat)
    requires ValidSize(n) && k < n
    ensures SlotOf(Advance(idx, k), n) == var i := SlotOf(idx, n); if i + k < n then i + k else i + k - n
  {
    WrapKeepsSlot(idx + k, n);
    RemainderFirst(idx, n, k);
    SmallRemainders(SlotOf(idx, n) + k, n);
  }

  /** Any `n` consecutive probes look at every slot exactly once, even when the counter wraps on the way. */
  lemma {:induction false} ProbesCoverSlotsOnce(idx: u8, n: nat, k: nat, s: nat)
    requires ValidSize(n) && k < n && s < n
    ensures SlotOf(Advance(idx, k), n) == s <==> k == ProbeOf(SlotOf(idx, n), n, s)
  {
    SlotOfProbe(idx, n, k);
  }

  /** Counter increments that fail before the first free slot is hit. */
  function Probe(states: seq<FrameState>, idx: u8, tries: nat): (r: Option<nat>)
    requires states != []
    ensures r.Some? ==> r.value < tries
    decreases tries
  {
    if tries == 0 then None
    else if states[SlotOf(idx, |states|)].Free? then Some(0)
    else match Probe(states, Advance(idx, 1), tries - 1)
      case None => None
      case Some(k) => Some(k + 1)
  }

  lemma {:induction false} AdvanceOneMore(idx: u8, k: nat)
    requires k > 0
    ensures Advance(Advance(idx, 1), k - 1) == Advance(idx, k)
  {
  }

  lemma {:induction false} AdvanceStep(idx: u8, k: nat)
    ensures Advance(Advance(idx, k), 1) == Advance(idx, k + 1)
  {
  }

  /** Where the whole search ends, seen from after `done` probes. */
  function Later(done: nat, rest: Option<nat>): Option<nat> {
    match rest
    case None => None
    case Some(k) => Some(done + k)
  }

  /** One failed probe leaves the outcome of the search as it was. */
  lemma {:induction false} ProbeMisses(states: seq<FrameState>, idx: u8, done: nat, tries: nat)
    requires states != [] && tries > 0 && !states[SlotOf(idx, |states|)].Free?
    ensures Later(done + 1, Probe(states, Advance(idx, 1), tries - 1)) == Later(done, Probe(states, idx, tries))
  {
  }

  /** The probe that ends the search meets a free slot. */
  lemma {:induction false} ProbeHits(states: seq<FrameState>, idx: u8, tries: nat)
    requires states != [] && Probe(states, idx, tries).Some?
    ensures states[SlotOf(Advance(idx, Probe(states, idx, tries).value), |states|)].Free?
    decreases tries
  {
    if !states[SlotOf(idx, |states|)].Free? {
      ProbeHits(states, Advance(idx, 1), tries - 1);
      AdvanceOneMore(idx, Probe(states, idx, tries).value);
    }
  }

  /** A probe that meets a free slot ends the search, unless an earlier one did. */
  lemma {:induction false} ProbeStopsBy(states: seq<FrameState>, idx: u8, tries: nat, k: nat)
    requires states != [] && k < tries && states[SlotOf(Advance(idx, k), |states|)].Free?
    ensures Probe(states, idx, tries).Some? && Probe(states, idx, tries).value <= k
    decreases tries
  {
    if k > 0 && !states[SlotOf(idx, |states|)].Free? {
      AdvanceOneMore(idx, k);
      ProbeStopsBy(states, Advance(idx, 1), tries - 1, k - 1);
    }
  }

  /** Run alone, a search of `2n` probes succeeds exactly when some slot is free, and then within `n`. */
  lemma {:induction false} SearchSucceedsIff(states: seq<FrameState>, idx: u8)
    requires ValidSize(|states|)
    ensures Probe(states, idx, 2 * |states|).Some? <==> exists s :: 0 <= s < |states| && states[s].Free?
    ensures Probe(states, idx, 2 * |states|).Some? ==> Probe(states, idx, 2 * |states|).value < |states|
  {
    var n, r := |states|, Probe(states, idx, 2 * |states|);
    if r.Some? {
      ProbeHits(states, idx, 2 * n);
    }
    forall s | 0 <= s < n && states[s].Free?
      ensures r.Some? && r.value < n
    {
      var k := ProbeOf(SlotOf(idx, n), n, s);
      ProbesCoverSlotsOnce(idx, n, k, s);
      ProbeStopsBy(states, idx, 2 * n, k);
    }
  }

  // --- Series of allocations

  datatype Allocation = Allocation(slot: Option<nat>, states: seq<FrameState>, idx: u8)

  /** One allocation. */
  function Allocate(states: seq<FrameState>, idx: u8): Allocation
    requires states != []
  {
    var n := |states|;
    match Probe(states, idx, 2 * n)
    case None => Allocation(None, states, Advance(idx, 2 * n))
    case Some(k) =>
      var s := SlotOf(Advance(idx, k), n);
      Allocation(Some(s), states[s := Created], Advance(idx, k + 1))
  }

  /** Run alone, an allocation takes the first free slot from the counter on, round the end, and leaves the counter
      behind it; one that finds none has advanced it by two rounds. */
  lemma {:induction false} AllocationTakesFirstFree(states: seq<FrameState>, idx: u8) returns (k: nat)
    requires ValidSize(|states|)
    ensures var a, n := Allocate(states, idx), |states|;
      if forall s :: 0 <= s < n ==> !states[s].Free? then a == Allocation(None, states, (idx + 2 * n) % 256)
      else
        && k < n && (forall j :: 0 <= j < k ==> !states[SlotOf(Advance(idx, j), n)].Free?)
        && var s := ((idx + k) % 256) % n;
           states[s].Free? && a == Allocation(Some(s), states[s := Created], (idx + k + 1) % 256)
  {
    var n, r := |states|, Probe(states, idx, 2 * |states|);
    SearchSucceedsIff(states, idx);
    k := if r.Some? then r.value else 0;
    if r.Some? {
      ProbeHits(states, idx, 2 * n);
      forall j | 0 <= j < k
        ensures !states[SlotOf(Advance(idx, j), n)].Free?
      {
        if states[SlotOf(Advance(idx, j), n)].Free? {
          ProbeStopsBy(states, idx, 2 * n, j);
        }
      }
    }
  }

  /** Slots handed out by `count` allocations in a row. */
  function Allocations(states: seq<FrameState>, idx: u8, count: nat): (r: seq<Option<nat>>)
    requires states != []
    ensures |r| == count
    decreases count
  {
    if count == 0 then [] else
    var a := Allocate(states, idx);
    [a.slot] + Allocations(a.states, a.idx, count - 1)
  }

  function FreeCount(states: seq<FrameState>): nat {
    if states == [] then 0 else (if states[0].Free? then 1 else 0) + FreeCount(states[1..])
  }

  lemma {:induction false} TakingOneFree(states: seq<FrameState>, s: nat)
    requires s < |states| && states[s].Free?
    ensures FreeCount(states[s := Created]) == FreeCount(states) - 1
  {
    if s > 0 {
      TakingOneFree(states[1..], s - 1);
      assert states[s := Created][1..] == states[1..][s - 1 := Created];
    } else {
      assert states[0 := Created][1..] == states[1..];
    }
  }

  lemma {:induction false} FreeCountIsPositiveIff(states: seq<FrameState>)
    ensures FreeCount(states) > 0 <==> exists s :: 0 <= s < |states| && states[s].Free?
  {
    if states != [] {
      FreeCountIsPositiveIff(states[1..]);
      if FreeCount(states[1..]) > 0 {
        var s :| 0 <= s < |states| - 1 && states[1..][s].Free?;
        assert states[s + 1].Free?;
      }
      if exists s :: 0 < s < |states| && states[s].Free? {
        var s :| 0 < s < |states| && states[s].Free?;
        assert states[1..][s - 1].Free?;
      }
    }
  }

  /** One allocation succeeds exactly when a slot is free, and takes one that was. */
  lemma {:induction false} AllocationTakesFreeSlot(states: seq<FrameState>, idx: u8)
    requires ValidSize(|states|)
    ensures var a := Allocate(states, idx);
      && (a.slot.Some? <==> FreeCount(states) > 0)
      && (a.slot.Some? ==>
            a.slot.value < |states| && states[a.slot.value].Free? && a.states == states[a.slot.value := Created]
            && FreeCount(a.states) == FreeCount(states) - 1)
      && (a.slot.None? ==> a.states == states)
  {
    SearchSucceedsIff(states, idx);
    FreeCountIsPositiveIff(states);
    var a := Allocate(states, idx);
    if a.slot.Some? {
      ProbeHits(states, idx, 2 * |states|);
      TakingOneFree(states, a.slot.value);
    }
  }

  /** A list of allocations that ends when the `free` free slots of `states` are used up, none given out twice. */
  predicate Exhausts(r: seq<Option<nat>>, states: seq<FrameState>, free: nat) {
    && (forall j :: 0 <= j < |r| ==> (r[j].Some? <==> j < free))
    && (forall j :: 0 <= j < |r| && r[j].Some? ==> r[j].value < |states| && states[r[j].value].Free?)
    && (forall j, k :: 0 <= j < k < |r| && r[j].Some? && r[k].Some? ==> r[j].value != r[k].value)
  }

  /** From any counter value exactly as many allocations succeed as slots are free, all later ones fail, and no
      slot is handed out twice. */
  lemma {:induction false} AllocationsExhaustFreeSlots(states: seq<FrameState>, idx: u8, count: nat)
    requires ValidSize(|states|)
    ensures Exhausts(Allocations(states, idx, count), states, FreeCount(states))
    decreases count
  {
    if count > 0 {
      var a := Allocate(states, idx);
      AllocationTakesFreeSlot(states, idx);
      AllocationsExhaustFreeSlots(a.states, a.idx, count - 1);
      ExhaustsOneMore(a.slot, Allocations(a.states, a.idx, count - 1), states, a.states, FreeCount(states));
    }
  }

  lemma {:induction false} ExhaustsOneMore(slot: Option<nat>, rest: seq<Option<nat>>, states: seq<FrameState>,
                                           after: seq<FrameState>, free: nat)
    requires slot.Some? <==> free > 0
    requires slot.Some? ==> slot.value < |states| && states[slot.value].Free? && after == states[slot.value := Created]
    requires slot.None? ==> after == states
    requires Exhausts(rest, after, if slot.Some? then free - 1 else free)
    ensures Exhausts([slot] + rest, states, free)
  {
    var r := [slot] + rest;
    forall j | 0 <= j < |r|
      ensures r[j].Some? <==> j < free
      ensures r[j].Some? ==> r[j].value < |states| && states[r[j].value].Free?
      ensures j > 0 && r[j].Some? && slot.Some? ==> r[j].value != slot.value
    {
      if j > 0 {
        assert r[j] == rest[j - 1];
      }
    }
  }

  lemma {:induction false} AllFree(states: seq<FrameState>)
    requires forall s :: 0 <= s < |states| ==> states[s].Free?
    ensures FreeCount(states) == |states|
  {
    if states != [] {
      AllFree(states[1..]);
    }
  }

  /** After a reset exactly `n` allocations succeed. */
  lemma {:induction false} ResetMakesAllSlotsAvailable(states: seq<FrameState>, idx: u8, count: nat)
    requires ValidSize(|states|) && forall s :: 0 <= s < |states| ==> states[s].Free?
    ensures Exhausts(Allocations(states, idx, count), states, |states|)
  {
    AllFree(states);
    AllocationsExhaustFreeSlots(states, idx, count);
  }
}
