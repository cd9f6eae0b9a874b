/** What the single pass records on any list, with any mix of devices with and without DC support. */
module DcTotals {
  import opened Common
  import opened Ports
  import opened Dc
  import opened DcMislinks

  /** A device that gets a delay: it has DC support and a parent. */
  predicate Measured(d: SubDevice) {
    d.dcSupport && d.parentIndex.Some?
  }

  /** The last delay recorded among the first `n` devices, zero if there is none. */
  function LastTotal(devs: seq<SubDevice>, n: nat): u32
    requires n <= |devs|
  {
    if n == 0 then 0
    else if Measured(devs[n - 1]) then devs[n - 1].propagationDelay
    else LastTotal(devs, n - 1)
  }

  /** No delay is recorded yet. */
  predicate Unmeasured(devs: seq<SubDevice>) {
    forall i :: 0 <= i < |devs| ==> devs[i].propagationDelay == 0
  }

  lemma {:induction false} SameTotals(a: seq<SubDevice>, b: seq<SubDevice>, n: nat)
    requires n <= |a| && n <= |b|
    requires forall i :: 0 <= i < n ==>
      Measured(a[i]) == Measured(b[i]) && a[i].propagationDelay == b[i].propagationDelay
    ensures LastTotal(a, n) == LastTotal(b, n)
  {
    if n > 0 {
      SameTotals(a, b, n - 1);
    }
  }

  /** An iteration touches the delay of its own device only: it adds to the running total and records it, or, without DC
      support or a parent, leaves both alone. */
  lemma {:induction false} IterationRecords(devs: seq<SubDevice>, i: nat, accum: u32)
    requires i < |devs| && AssignOne(devs, i, accum).Ok?
    ensures var r := AssignOne(devs, i, accum).value;
      && (forall k :: 0 <= k < |devs| ==> r.devs[k].dcSupport == devs[k].dcSupport)
      && (forall k :: 0 <= k < |devs| && k != i ==>
            r.devs[k].propagationDelay == devs[k].propagationDelay && r.devs[k].parentIndex == devs[k].parentIndex)
      && (if Measured(r.devs[i]) then accum <= r.accum == r.devs[i].propagationDelay
          else r.accum == accum && r.devs[i].propagationDelay == devs[i].propagationDelay)
  {
    var placed := SetParent(devs, i, FindSubdeviceParent(devs[..i]).value);
    var linked := LinkToParent(placed, i).value;
    if placed[i].parentIndex.Some? {
      PositionStays(placed, linked, i);
    }
    if linked[i].dcSupport {
      OffsetsAdd(linked[i], linked[..i], accum);
    }
  }

  lemma {:induction false} OffsetsAdd(sub: SubDevice, parents: seq<SubDevice>, accum: u32)
    requires ConfigureSubdeviceOffsets(sub, parents, accum).Ok?
    ensures var step := ConfigureSubdeviceOffsets(sub, parents, accum).value;
      && step.sub == sub.(propagationDelay := step.sub.propagationDelay)
      && (if sub.parentIndex.Some? && Position(parents, sub.parentIndex.value).Some?
          then accum <= step.accum == step.sub.propagationDelay else step == Step(sub, accum))
  {
  }

  /** Linking moves no device. */
  lemma {:induction false} PositionStays(placed: seq<SubDevice>, linked: seq<SubDevice>, i: nat)
    requires i < |placed| && placed[i].parentIndex.Some? && LinkToParent(placed, i) == Ok(linked)
    ensures Position(linked[..i], placed[i].parentIndex.value).Some?
  {
    var p := Position(placed[..i], placed[i].parentIndex.value).value;
    assert linked[..i][p].index == placed[i].parentIndex.value;
  }

  /** For every list that starts without delays: after any number of iterations the running total is the last delay
      recorded, devices without DC support or without a parent have none, and recorded delays never fall. */
  lemma {:induction false} TotalsAreRecorded(devs: seq<SubDevice>, n: nat)
    requires Unmeasured(devs) && n <= |devs|
    ensures AssignFirst(devs, n).Ok? ==>
      var r := AssignFirst(devs, n).value;
      && r.accum == LastTotal(r.devs, n)
      && (forall k :: 0 <= k < |devs| ==> r.devs[k].dcSupport == devs[k].dcSupport)
      && (forall k :: 0 <= k < |devs| && (k >= n || !Measured(r.devs[k])) ==> r.devs[k].propagationDelay == 0)
      && (forall k :: 0 <= k < n ==> r.devs[k].propagationDelay <= r.accum)
      && (forall j, k :: 0 <= j < k < n && Measured(r.devs[k]) ==>
            r.devs[j].propagationDelay <= r.devs[k].propagationDelay)
  {
    if n > 0 && AssignFirst(devs, n).Ok? {
      var last := n - 1;
      var before := AssignFirst(devs, last).value;
      TotalsAreRecorded(devs, last);
      assert AssignFirst(devs, n) == AssignOne(before.devs, last, before.accum);
      IterationRecords(before.devs, last, before.accum);
      var out := AssignFirst(devs, n).value.devs;
      SameTotals(before.devs, out, last);
    }
  }

  // --- Each delay, from the devices as they are in the end

  /** Every device knows its position. */
  predicate Indexed(devs: seq<SubDevice>) {
    |devs| <= U16_MAX && forall i :: 0 <= i < |devs| ==> devs[i].index == i
  }

  /** The delay recorded at `k` is the last one before it plus what the device adds by the port of its parent that it is
      linked to. */
  predicate Recorded(devs: seq<SubDevice>, k: nat)
    requires k < |devs|
  {
    Measured(devs[k]) ==>
      var p := devs[k].parentIndex.value;
      && p < k
      && var port := PortAssignedTo(devs[p].ports, devs[k].index);
         && port.Some?
         && var added := DelayFrom(devs[k], devs[p], port.value, LastTotal(devs, k));
            added.Some? && devs[k].propagationDelay == SatAdd32(LastTotal(devs, k), added.value)
  }

  /** Same open ports, same receive times. */
  predicate SameTimes(a: Ports, b: Ports) {
    && a.p0.active == b.p0.active && a.p0.receiveTime == b.p0.receiveTime
    && a.p3.active == b.p3.active && a.p3.receiveTime == b.p3.receiveTime
    && a.p1.active == b.p1.active && a.p1.receiveTime == b.p1.receiveTime
    && a.p2.active == b.p2.active && a.p2.receiveTime == b.p2.receiveTime
  }

  lemma {:induction false} SameSpread(a: Ports, b: Ports, lo: nat, hi: nat)
    requires SameTimes(a, b)
    ensures Spread(a, lo, hi) == Spread(b, lo, hi)
  {
    assert forall i :: 0 <= i < 4 ==> TimeIfBetween(a, i, lo, hi) == TimeIfBetween(b, i, lo, hi);
  }

  lemma {:induction false} SameEntry(a: Ports, b: Ports)
    requires SameTimes(a, b)
    ensures EntryPort(a) == EntryPort(b) && OpenPorts(a) == OpenPorts(b) && LastPort(a) == LastPort(b)
  {
    var lateA, lateB := Earlier(a, IfOpen(a, 2), IfOpen(a, 3)), Earlier(b, IfOpen(b, 2), IfOpen(b, 3));
    assert lateA == lateB;
    assert Earlier(a, IfOpen(a, 1), lateA) == Earlier(b, IfOpen(b, 1), lateB);
  }

  /** The delay depends on nothing but times and the port that the device is linked to. */
  lemma {:induction false} SameDelay(sub: SubDevice, sub': SubDevice, parent: SubDevice, parent': SubDevice,
                                     port: nat, accum: u32)
    requires sub.index == sub'.index && SameTimes(sub.ports, sub'.ports) && SameTimes(parent.ports, parent'.ports)
    requires PortAssignedTo(parent.ports, sub.index) == PortAssignedTo(parent'.ports, sub.index)
    ensures DelayFrom(sub, parent, port, accum) == DelayFrom(sub', parent', port, accum)
  {
    SameEntry(parent.ports, parent'.ports);
    SameSpread(sub.ports, sub'.ports, 0, 3);
    SameSpread(parent.ports, parent'.ports, 0, 3);
    SameSpread(parent.ports, parent'.ports, EntryPort(parent.ports), port);
  }

  /** Linking a device to a free port keeps the times and the ports of all other devices. */
  lemma {:induction false} LinkedKeepsOthers(ps: Ports, q: nat, index: u16, other: u16)
    requires q < 4 && At(ps, q).downstream.None? && index != other
    ensures SameTimes(ps, Linked(ps, q, index))
    ensures PortAssignedTo(Linked(ps, q, index), other) == PortAssignedTo(ps, other)
  {
  }

  /** What the iteration for device `i` does to the ports: its parent's next free port is given to it. */
  lemma {:induction false} IterationLinks(devs: seq<SubDevice>, i: nat, accum: u32)
    requires Indexed(devs) && i < |devs| && AssignOne(devs, i, accum).Ok?
    ensures var out := AssignOne(devs, i, accum).value.devs;
      && Indexed(out)
      && (if out[i].parentIndex.None? then forall k :: 0 <= k < |devs| ==> out[k].ports == devs[k].ports
          else
            var p := out[i].parentIndex.value;
            && p < i
            && var q := NextAssignablePort(devs[p].ports, EntryPort(devs[p].ports));
               && q.Some? && out[p].ports == Linked(devs[p].ports, q.value, i)
               && forall k :: 0 <= k < |devs| && k != p ==> out[k].ports == devs[k].ports)
  {
    var placed := SetParent(devs, i, FindSubdeviceParent(devs[..i]).value);
    if placed[i].parentIndex.Some? {
      var p := Position(placed[..i], placed[i].parentIndex.value).value;
      assert placed[p].index == p;
    }
  }

  /** The iteration for a device records it. */
  lemma {:induction false} IterationRecordsOwn(devs: seq<SubDevice>, i: nat, accum: u32)
    requires Indexed(devs) && i < |devs| && AssignOne(devs, i, accum).Ok? && accum == LastTotal(devs, i)
    ensures Recorded(AssignOne(devs, i, accum).value.devs, i)
  {
    var out := AssignOne(devs, i, accum).value.devs;
    IterationRecords(devs, i, accum);
    IterationLinks(devs, i, accum);
    SameTotals(devs, out, i);
    if Measured(out[i]) {
      var placed := SetParent(devs, i, FindSubdeviceParent(devs[..i]).value);
      var linked := LinkToParent(placed, i).value;
      PositionStays(placed, linked, i);
      var p := Position(linked[..i], linked[i].parentIndex.value).value;
      assert linked[p].index == p;
      var port := PortAssignedTo(linked[p].ports, i).value;
      SameDelay(linked[i], out[i], linked[p], out[p], port, accum);
    }
  }

  /** Later iterations do not disturb a record. */
  lemma {:induction false} IterationKeepsRecord(devs: seq<SubDevice>, i: nat, accum: u32, k: nat)
    requires Indexed(devs) && k < i < |devs| && AssignOne(devs, i, accum).Ok? && Recorded(devs, k)
    ensures Recorded(AssignOne(devs, i, accum).value.devs, k)
  {
    var out := AssignOne(devs, i, accum).value.devs;
    IterationRecords(devs, i, accum);
    IterationLinks(devs, i, accum);
    SameTotals(devs, out, k);
    if Measured(devs[k]) && out[i].parentIndex.Some? {
      var p, at := devs[k].parentIndex.value, out[i].parentIndex.value;
      var q := NextAssignablePort(devs[at].ports, EntryPort(devs[at].ports)).value;
      LinkedKeepsOthers(devs[at].ports, q, i, k);
      assert SameTimes(devs[k].ports, out[k].ports) && SameTimes(devs[p].ports, out[p].ports);
      assert PortAssignedTo(devs[p].ports, k) == PortAssignedTo(out[p].ports, k);
      SameDelay(devs[k], out[k], devs[p], out[p], PortAssignedTo(devs[p].ports, k).value, LastTotal(devs, k));
    }
  }

  /** For every list that starts without delays, with any mix of DC support: the whole result, read off the devices as
      they are in the end. */
  lemma {:induction false} EachDelayIsRecorded(devs: seq<SubDevice>, n: nat)
    requires Indexed(devs) && Unmeasured(devs) && n <= |devs|
    ensures AssignFirst(devs, n).Ok? ==>
      var out := AssignFirst(devs, n).value.devs;
      Indexed(out) && forall k :: 0 <= k < n ==> Recorded(out, k)
  {
    if n > 0 && AssignFirst(devs, n).Ok? {
      var last := n - 1;
      var before := AssignFirst(devs, last).value;
      EachDelayIsRecorded(devs, last);
      TotalsAreRecorded(devs, last);
      assert AssignFirst(devs, n) == AssignOne(before.devs, last, before.accum);
      IterationLinks(before.devs, last, before.accum);
      IterationRecordsOwn(before.devs, last, before.accum);
      forall k | 0 <= k < last
        ensures Recorded(AssignFirst(devs, n).value.devs, k)
      {
        IterationKeepsRecord(before.devs, last, before.accum, k);
      }
    }
  }

  /** A device whose ports have latched no times. */
  predicate Untimed(ps: Ports) {
    ps.p0.receiveTime == 0 && ps.p3.receiveTime == 0 && ps.p1.receiveTime == 0 && ps.p2.receiveTime == 0
  }

  lemma {:induction false} UntimedIsZero(sub: SubDevice, parent: SubDevice, port: nat, accum: u32)
    requires Untimed(parent.ports)
    ensures DelayFrom(sub, parent, port, accum) == Some(0)
  {
    assert forall i :: 0 <= i < 4 ==> At(parent.ports, i).receiveTime == 0;
    assert Spread(parent.ports, 0, 3).None? && Spread(parent.ports, EntryPort(parent.ports), port).None?;
  }

  /** A device behind one without receive times adds nothing: it gets the total of the last measured device before it,
      whatever lies in between. */
  lemma {:induction false} UntimedParentAddsNothing(devs: seq<SubDevice>, k: nat)
    requires Indexed(devs) && Unmeasured(devs) && k < |devs|
    ensures AssignFirst(devs, |devs|).Ok? ==>
      var out := AssignFirst(devs, |devs|).value.devs;
      && |out| == |devs|
      && (Measured(out[k]) ==>
            && out[k].parentIndex.value < k
            && (Untimed(out[out[k].parentIndex.value].ports) ==> out[k].propagationDelay == LastTotal(out, k)))
  {
    EachDelayIsRecorded(devs, |devs|);
    if AssignFirst(devs, |devs|).Ok? {
      var out := AssignFirst(devs, |devs|).value.devs;
      assert Recorded(out, k);
      if Measured(out[k]) && Untimed(out[out[k].parentIndex.value].ports) {
        var p := out[k].parentIndex.value;
        UntimedIsZero(out[k], out[p], PortAssignedTo(out[p].ports, out[k].index).value, LastTotal(out, k));
      }
    }
  }
}
