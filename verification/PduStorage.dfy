/** The frame slot storage: handing out slots and routing responses back to them. */
module PduStorage {
  import opened Common
  import opened FrameRouting
  import opened FrameSlots

  datatype AllocError = SwapState

  function StatesOf(slots: seq<Slot>): (states: seq<FrameState>)
    ensures |states| == |slots| && forall s :: 0 <= s < |slots| ==> states[s] == slots[s].state
  {
    seq(|slots|, s requires 0 <= s < |slots| => slots[s].state)
  }

  /** A slot as claimed: no PDU yet, payload zeroed. */
  function Claimed(slot: Slot): Slot {
    Slot(Created, FIRST_PDU_EMPTY, Zeros(|slot.data|))
  }

  class PduStorage {
    const n: nat
    const slots: array<Slot>
    var frameIdx: u8
    var pduIdx: u8

    ghost predicate Valid()
      reads this, slots
    {
      slots.Length == n && ValidSize(n)
    }

    /** What the events of the routing model act on. */
    function Contents(): Store
      reads this, slots
    {
      Store(slots[..], pduIdx)
    }

    /** Storage for `n` frames of `dataLen` payload bytes each; the memory starts zeroed. */
    constructor (n: nat, dataLen: nat)
      requires ValidSize(n)
      ensures Valid() && fresh(slots) && this.n == n && frameIdx == 0 && pduIdx == 0
      ensures Contents() == Constructed(n, dataLen)
    {
      this.n := n;
      slots := new Slot[n](_ => Slot(Free, 0, Zeros(dataLen)));
      frameIdx := 0;
      pduIdx := 0;
      new;
      assert slots[..] == Constructed(n, dataLen).slots;
    }

    /** Reset all state ready for reuse. */
    method Reset()
      requires Valid()
      modifies this, slots
      ensures Valid() && frameIdx == 0 && pduIdx == 0
      ensures forall s :: 0 <= s < n ==> slots[s] == old(slots[s]).(state := Free)
      ensures Contents() == Happens(old(Contents()), Event.Reset)
    {
      frameIdx := 0;
      pduIdx := 0;
      for i := 0 to n
        invariant frameIdx == 0 && pduIdx == 0
        invariant forall s :: 0 <= s < n ==> slots[s] == if s < i then old(slots[s]).(state := Free) else old(slots[s])
      {
        slots[i] := slots[i].(state := Free);
      }
      assert slots[..] == Happens(old(Contents()), Event.Reset).slots;
    }

    /** Claim a slot if it is free. */
    method ClaimCreated(s: nat) returns (ok: bool)
      requires Valid() && s < n
      modifies slots
      ensures ok == old(slots[s]).state.Free?
      ensures slots[..] == if ok then old(slots[..])[s := Claimed(old(slots[s]))] else old(slots[..])
      ensures ok ==> slots[s].firstPdu == 0xff00 && slots[s].state.Created? && forall b <- slots[s].data :: b == 0
      ensures ok ==> Contents() == Happens(Happens(old(Contents()), Turn(s, Created)), Init(s))
    {
      ok := slots[s].state.Free?;
      if ok {
        slots[s] := slots[s].(state := Created);
        slots[s] := slots[s].(firstPdu := FIRST_PDU_EMPTY);
        slots[s] := slots[s].(data := Zeros(|slots[s].data|));
      }
    }

    /** One probe: take the next counter value and try to claim its slot. */
    method ClaimNext() returns (r: Option<nat>)
      requires Valid()
      modifies this`frameIdx, slots
      ensures Valid() && frameIdx == Advance(old(frameIdx), 1)
      ensures var s := SlotOf(old(frameIdx), n);
        if old(slots[..])[s].state.Free?
          then r == Some(s) && slots[..] == old(slots[..])[s := Claimed(old(slots[..])[s])]
        else r == None && slots[..] == old(slots[..])
    {
      var s := frameIdx % n;
      frameIdx := (frameIdx + 1) % 256;
      var ok := ClaimCreated(s);
      r := if ok then Some(s) else None;
    }

    /** Allocate a frame: at most two rounds of probes. */
    method AllocFrame() returns (r: Result<nat, AllocError>)
      requires Valid()
      modifies this`frameIdx, slots
      ensures Valid()
      ensures var a := Allocate(StatesOf(old(slots[..])), old(frameIdx));
        && frameIdx == a.idx && StatesOf(slots[..]) == a.states
        && r == (if a.slot.Some? then Ok(a.slot.value) else Err(SwapState))
      ensures r.Ok? ==> r.value < n && slots[..] == old(slots[..])[r.value := Claimed(old(slots[..])[r.value])]
      ensures r.Err? ==> slots[..] == old(slots[..])
    {
      ghost var was, start := slots[..], frameIdx;
      ghost var states := StatesOf(was);
      ghost var found := Probe(states, start, 2 * n);
      assert Advance(start, 0) == start && Later(0, found) == found;
      for i := 0 to 2 * n
        invariant Valid() && slots[..] == was && frameIdx == Advance(start, i)
        invariant Later(i, Probe(states, frameIdx, 2 * n - i)) == found
      {
        AdvanceStep(start, i);
        ghost var idx := frameIdx;
        var claimed := ClaimNext();
        if claimed.Some? {
          assert Probe(states, idx, 2 * n - i) == Some(0);
          assert StatesOf(slots[..]) == states[claimed.value := Created];
          return Ok(claimed.value);
        }
        ProbeMisses(states, idx, i, 2 * n - i);
      }
      r := Err(SwapState);
    }

    /** Hand out a PDU index and, if the PDU fits into the frame, let the frame be found by its first one. */
    method PushPdu(s: nat, fits: bool) returns (r: Option<u8>)
      requires Valid() && s < n
      modifies this`pduIdx, slots
      ensures Valid()
      ensures var taken := Happens(old(Contents()), Take);
        Contents() == if fits then Happens(taken, Remember(s, old(pduIdx))) else taken
      ensures r == if fits then Some(old(pduIdx)) else None
      ensures slots[..] == if fits && old(slots[s]).firstPdu == FIRST_PDU_EMPTY
                           then old(slots[..])[s := old(slots[s]).(firstPdu := old(pduIdx))] else old(slots[..])
    {
      var idx := pduIdx;
      pduIdx := (pduIdx + 1) % 256;
      if !fits {
        return None;
      }
      if slots[s].firstPdu == FIRST_PDU_EMPTY {
        slots[s] := slots[s].(firstPdu := idx);
      }
      r := Some(idx);
    }

    /** The caller is done with a received frame: the slot is free and no longer found. */
    method DropReceived(s: nat)
      requires Valid() && s < n && slots[s].state.RxProcessing?
      modifies slots
      ensures Valid() && Contents() == Happens(Happens(old(Contents()), Turn(s, Free)), Clear(s))
    {
      slots[s] := slots[s].(state := Free);
      slots[s] := slots[s].(firstPdu := FIRST_PDU_EMPTY);
    }

    /** Linear search for the slot with the given first PDU. */
    method FrameIndexByFirstPduIndex(search: u8) returns (r: Option<nat>)
      requires Valid()
      ensures r == Route(slots[..], search)
    {
      for i := 0 to n
        invariant match Route(slots[i..], search)
                  case None => Route(slots[..], search) == None
                  case Some(k) => Route(slots[..], search) == Some(i + k)
      {
        assert slots[i..][0] == slots[i] && slots[i..][1..] == slots[i + 1..];
        if slots[i].firstPdu == search {
          return Some(i);
        }
      }
      r := None;
    }

    /** Claim the slot of a sent frame for its response. */
    method ClaimReceiving(s: nat) returns (ok: bool)
      requires Valid()
      modifies slots
      ensures ok == (s < n && old(slots[..])[s].state.Sent?)
      ensures slots[..] == if ok then old(slots[..])[s := old(slots[..])[s].(state := RxBusy)] else old(slots[..])
    {
      ok := s < n && slots[s].state.Sent?;
      if ok {
        slots[s] := slots[s].(state := RxBusy);
      }
    }

    /** Store a response in the frame that asked for it. */
    method ReceiveFrame(payload: seq<u8>) returns (r: Result<(), ReceiveError>)
      requires Valid()
      modifies slots
      ensures Valid() && Receipt(r, slots[..]) == Receive(old(slots[..]), payload)
    {
      if |payload| < 2 {
        return Err(Internal);
      }
      var found := FrameIndexByFirstPduIndex(payload[1]);
      if found.None? {
        return Err(Decode);
      }
      var s := found.value;
      var claimed := ClaimReceiving(s);
      if !claimed {
        return Err(InvalidIndex(s));
      }
      if |payload| > |slots[s].data| {
        return Err(Internal);
      }
      slots[s] := slots[s].(data := payload + slots[s].data[|payload|..]);
      slots[s] := slots[s].(state := RxDone);
      r := Ok(());
    }
  }
}
