/** The four ports of a SubDevice, kept in EtherCAT processing order 0 -> 3 -> 1 -> 2.
    A port is named by its position in that order. */
module Ports {
  import opened Common

  datatype Port = Port(active: bool, receiveTime: u32, downstream: Option<u16>)

  datatype Topology = LineEnd | Passthrough | Fork | Cross {
    predicate IsJunction() {
      Fork? || Cross?
    }
  }

  datatype FourPorts = FourPorts(p0: Port, p3: Port, p1: Port, p2: Port)

  /** A device that answers has at least one open port; anything else is `unreachable!`. */
  type Ports = ps: FourPorts | ps.p0.active || ps.p3.active || ps.p1.active || ps.p2.active
    witness FourPorts(Port(true, 0, None), Port(false, 0, None), Port(false, 0, None), Port(false, 0, None))

  /** The port at position `i` in processing order. */
  function At(ps: Ports, i: nat): Port
    requires i < 4
  {
    match i
    case 0 => ps.p0
    case 1 => ps.p3
    case 2 => ps.p1
    case _ => ps.p2
  }

  function OpenPorts(ps: Ports): (n: nat)
    ensures 1 <= n <= 4
  {
    (if ps.p0.active then 1 else 0) + (if ps.p3.active then 1 else 0)
    + (if ps.p1.active then 1 else 0) + (if ps.p2.active then 1 else 0)
  }

  function TopologyOf(ps: Ports): Topology {
    match OpenPorts(ps)
    case 1 => LineEnd
    case 2 => Passthrough
    case 3 => Fork
    case _ => Cross
  }

  /** Position of open port number `k`, in processing order. */
  function Nth(ps: Ports, k: nat): (i: nat)
    requires k < OpenPorts(ps)
    ensures i < 4 && At(ps, i).active
  {
    var after0 := if ps.p0.active then 1 else 0;
    var after3 := after0 + if ps.p3.active then 1 else 0;
    var after1 := after3 + if ps.p1.active then 1 else 0;
    if k < after0 then 0 else if k < after3 then 1 else if k < after1 then 2 else 3
  }

  function Earlier(ps: Ports, a: Option<nat>, b: Option<nat>): (r: Option<nat>)
    requires (a.Some? ==> a.value < 4) && (b.Some? ==> b.value < 4)
    ensures r.Some? ==> r == a || r == b
  {
    if a.None? then b
    else if b.None? then a
    else if At(ps, a.value).receiveTime <= At(ps, b.value).receiveTime then a else b
  }

  function IfOpen(ps: Ports, i: nat): (r: Option<nat>)
    requires i < 4
  {
    if At(ps, i).active then Some(i) else None
  }

  /** The port that first sees traffic: the first open one with the smallest receive time. */
  function EntryPort(ps: Ports): (e: nat)
    ensures e < 4 && At(ps, e).active
  {
    Earlier(ps, IfOpen(ps, 0), Earlier(ps, IfOpen(ps, 1), Earlier(ps, IfOpen(ps, 2), IfOpen(ps, 3)))).value
  }

  /** No open port saw the frame before the entry port, and none before it in order at the same time. */
  lemma {:induction false} EntryPortIsFirst(ps: Ports, i: nat)
    requires i < 4 && At(ps, i).active
    ensures At(ps, EntryPort(ps)).receiveTime <= At(ps, i).receiveTime
    ensures i < EntryPort(ps) ==> At(ps, EntryPort(ps)).receiveTime < At(ps, i).receiveTime
  {
    var late := Earlier(ps, IfOpen(ps, 2), IfOpen(ps, 3));
    assert late.Some? ==> At(ps, late.value).active && 2 <= late.value;
  }

  /** The open ports are numbered in processing order, without a gap. */
  lemma {:induction false} NthNumbersOpenPorts(ps: Ports, i: nat) returns (k: nat)
    requires i < 4 && At(ps, i).active
    ensures k < OpenPorts(ps) && Nth(ps, k) == i
    ensures forall j :: 0 <= j < OpenPorts(ps) ==> (j < k <==> Nth(ps, j) < i)
  {
    k := (if i > 0 && ps.p0.active then 1 else 0) + (if i > 1 && ps.p3.active then 1 else 0)
       + (if i > 2 && ps.p1.active then 1 else 0);
  }

  function LastPort(ps: Ports): nat {
    Nth(ps, OpenPorts(ps) - 1)
  }

  /** First unassigned port among `tries` open ports, taken cyclically from number `from` on. */
  function FindFree(ps: Ports, from: nat, tries: nat): (r: Option<nat>)
    requires from < OpenPorts(ps)
    ensures r.Some? ==> r.value < 4 && At(ps, r.value).active && At(ps, r.value).downstream.None?
    decreases tries
  {
    if tries == 0 then None
    else if At(ps, Nth(ps, from)).downstream.None? then Some(Nth(ps, from))
    else FindFree(ps, if from + 1 == OpenPorts(ps) then 0 else from + 1, tries - 1)
  }

  /** The open ports are cycled through, starting `port + 1` places on. */
  function NextAssignablePort(ps: Ports, port: nat): (r: Option<nat>)
    ensures r.Some? ==> r.value < 4 && At(ps, r.value).active && At(ps, r.value).downstream.None?
  {
    FindFree(ps, (port + 1) % OpenPorts(ps), 4)
  }

  predicate AllTaken(ps: Ports) {
    && (ps.p0.active ==> ps.p0.downstream.Some?) && (ps.p3.active ==> ps.p3.downstream.Some?)
    && (ps.p1.active ==> ps.p1.downstream.Some?) && (ps.p2.active ==> ps.p2.downstream.Some?)
  }

  /** The cycle comes back to where the frame enters: no port is found only if all open ones are taken, the entry port
      included. */
  lemma {:induction false} NoPortIsLeftIff(ps: Ports, port: nat)
    requires port < 4
    ensures NextAssignablePort(ps, port).None? <==> AllTaken(ps)
  {
    var n, first := OpenPorts(ps), (port + 1) % OpenPorts(ps);
    var second := if first + 1 == n then 0 else first + 1;
    var third := if second + 1 == n then 0 else second + 1;
    var fourth := if third + 1 == n then 0 else third + 1;
    assert NextAssignablePort(ps, port).None? <==>
      (At(ps, Nth(ps, first)).downstream.Some? && At(ps, Nth(ps, second)).downstream.Some?
       && At(ps, Nth(ps, third)).downstream.Some? && At(ps, Nth(ps, fourth)).downstream.Some?) by {
      assert FindFree(ps, fourth, 1).None? <==> At(ps, Nth(ps, fourth)).downstream.Some?;
      assert FindFree(ps, third, 2).None? <==> At(ps, Nth(ps, third)).downstream.Some? && FindFree(ps, fourth, 1).None?;
      assert FindFree(ps, second, 3).None?
        <==> At(ps, Nth(ps, second)).downstream.Some? && FindFree(ps, third, 2).None?;
    }
  }

  /** How many steps lead from open port number `from` round to number `to`. */
  function Steps(ps: Ports, from: nat, to: nat): (n: nat)
    requires from < OpenPorts(ps) && to < OpenPorts(ps)
    ensures n < OpenPorts(ps)
  {
    if from <= to then to - from else to + OpenPorts(ps) - from
  }

  /** Open ports that come before number `to` when one goes round from number `from` on are taken. */
  predicate TakenBefore(ps: Ports, from: nat, to: nat)
    requires from < OpenPorts(ps) && to < OpenPorts(ps)
  {
    forall k :: 0 <= k < OpenPorts(ps) && Steps(ps, from, k) < Steps(ps, from, to) ==>
      At(ps, Nth(ps, k)).downstream.Some?
  }

  lemma {:induction false} NthsDiffer(ps: Ports, k: nat, m: nat)
    requires k < OpenPorts(ps) && m < OpenPorts(ps) && Nth(ps, k) == Nth(ps, m)
    ensures k == m
  {
  }

  /** The search finds an open port exactly when that one is free and those on the way to it are taken. */
  lemma {:induction false} FindFreeIff(ps: Ports, from: nat, tries: nat, to: nat)
    requires from < OpenPorts(ps) && to < OpenPorts(ps) && Steps(ps, from, to) < tries
    ensures FindFree(ps, from, tries) == Some(Nth(ps, to))
      <==> (At(ps, Nth(ps, to)).downstream.None? && TakenBefore(ps, from, to))
    decreases tries
  {
    var next := if from + 1 == OpenPorts(ps) then 0 else from + 1;
    if from != to {
      FindFreeIff(ps, next, tries - 1, to);
      if At(ps, Nth(ps, from)).downstream.None? {
        if Nth(ps, from) == Nth(ps, to) {
          NthsDiffer(ps, from, to);
        }
        assert Steps(ps, from, from) < Steps(ps, from, to);
      } else {
        assert TakenBefore(ps, next, to) ==> TakenBefore(ps, from, to);
        assert TakenBefore(ps, from, to) ==> TakenBefore(ps, next, to);
      }
    }
  }

  /** Wherever a device is entered: an open port is given to the next downstream device exactly when it is free and all
      open ports are taken that come before it, starting with the one whose number follows the entry port's position.
      Positions count closed ports, numbers do not. */
  lemma {:induction false} NextPortIff(ps: Ports, to: nat)
    requires to < OpenPorts(ps)
    ensures NextAssignablePort(ps, EntryPort(ps)) == Some(Nth(ps, to))
      <==> (At(ps, Nth(ps, to)).downstream.None? && TakenBefore(ps, (EntryPort(ps) + 1) % OpenPorts(ps), to))
  {
    FindFreeIff(ps, (EntryPort(ps) + 1) % OpenPorts(ps), 4, to);
  }

  /** So a device gives away the port by which frames enter it exactly when that port, number `entry` of the open
      ones, is free and all open ports before it are taken. */
  lemma {:induction false} EntryPortIsGivenAwayIff(ps: Ports) returns (entry: nat)
    ensures entry < OpenPorts(ps) && Nth(ps, entry) == EntryPort(ps)
    ensures NextAssignablePort(ps, EntryPort(ps)) == Some(EntryPort(ps))
      <==> (At(ps, EntryPort(ps)).downstream.None? && TakenBefore(ps, (EntryPort(ps) + 1) % OpenPorts(ps), entry))
  {
    entry := NthNumbersOpenPorts(ps, EntryPort(ps));
    NextPortIff(ps, entry);
  }

  /** A device that is entered at port 0 does so exactly when that port is all it has left. */
  lemma {:induction false} EntryPortZeroIsGivenAwayIff(ps: Ports)
    requires EntryPort(ps) == 0 && ps.p0.downstream.None?
    ensures NextAssignablePort(ps, EntryPort(ps)) == Some(EntryPort(ps)) <==> AllTaken(Linked(ps, 0, 0))
  {
    var entry := EntryPortIsGivenAwayIff(ps);
    NthsDiffer(ps, entry, 0);
    forall i | 0 <= i < 4 && At(ps, i).active
      ensures exists k :: 0 <= k < OpenPorts(ps) && Nth(ps, k) == i
    {
      var k := NthNumbersOpenPorts(ps, i);
    }
  }

  /** Nobody is linked to the device yet. */
  predicate NothingLinked(ps: Ports) {
    ps.p0.downstream.None? && ps.p3.downstream.None? && ps.p1.downstream.None? && ps.p2.downstream.None?
  }

  /** A device with a downstream device gives away its entry port first of all exactly when it has two open ports and
      is entered at port 1, port 2 being closed, or at port 3, port 0 being closed: the position of its entry port is
      larger than the number by one or two. */
  lemma {:induction false} EntryPortGoesFirstIff(ps: Ports)
    requires NothingLinked(ps) && OpenPorts(ps) >= 2
    ensures NextAssignablePort(ps, EntryPort(ps)) == Some(EntryPort(ps))
      <==> (OpenPorts(ps) == 2 && ((EntryPort(ps) == 2 && !ps.p2.active) || (EntryPort(ps) == 1 && !ps.p0.active)))
  {
  }

  /** Link a downstream device to the next open port; nothing when every port is taken. */
  function AssignNextDownstreamPort(ps: Ports, index: u16): Option<Ports> {
    match NextAssignablePort(ps, EntryPort(ps))
    case None => None
    case Some(p) => Some(Linked(ps, p, index))
  }

  function Linked(ps: Ports, p: nat, index: u16): (r: Ports)
    requires p < 4
  {
    var port := At(ps, p).(downstream := Some(index));
    match p
    case 0 => ps.(p0 := port)
    case 1 => ps.(p3 := port)
    case 2 => ps.(p1 := port)
    case _ => ps.(p2 := port)
  }

  /** The port assigned to the device with the given index. */
  function PortAssignedTo(ps: Ports, index: u16): (r: Option<nat>)
    ensures r.Some? ==> r.value < 4
  {
    if ps.p0.active && ps.p0.downstream == Some(index) then Some(0)
    else if ps.p3.active && ps.p3.downstream == Some(index) then Some(1)
    else if ps.p1.active && ps.p1.downstream == Some(index) then Some(2)
    else if ps.p2.active && ps.p2.downstream == Some(index) then Some(3)
    else None
  }

  /** It is the first open port that is linked to it. */
  lemma {:induction false} PortAssignedToIff(ps: Ports, index: u16, i: nat)
    requires i < 4
    ensures PortAssignedTo(ps, index) == Some(i)
      <==> (At(ps, i).active && At(ps, i).downstream == Some(index)
            && forall j :: 0 <= j < i && At(ps, j).active ==> At(ps, j).downstream != Some(index))
  {
    assert At(ps, 0) == ps.p0 && At(ps, 1) == ps.p3 && At(ps, 2) == ps.p1 && At(ps, 3) == ps.p2;
  }

  function TimeIfBetween(ps: Ports, i: nat, lo: nat, hi: nat): Option<u32>
    requires i < 4
  {
    if At(ps, i).active && lo <= i <= hi then Some(At(ps, i).receiveTime) else None
  }

  function Latest(a: Option<u32>, b: Option<u32>): Option<u32> {
    if a.None? then b else if b.None? then a else Some(Max(a.value, b.value))
  }

  function Earliest(a: Option<u32>, b: Option<u32>): Option<u32> {
    if a.None? then b else if b.None? then a else Some(Min(a.value, b.value))
  }

  /** Largest minus smallest time of the open ports in `lo..=hi`, `None` when that is zero or there
      is no such port. */
  function Spread(ps: Ports, lo: nat, hi: nat): Option<u32> {
    var t0, t3, t1, t2 := TimeIfBetween(ps, 0, lo, hi), TimeIfBetween(ps, 1, lo, hi),
                          TimeIfBetween(ps, 2, lo, hi), TimeIfBetween(ps, 3, lo, hi);
    match (Latest(t0, Latest(t3, Latest(t1, t2))), Earliest(t0, Earliest(t3, Earliest(t1, t2))))
    case (Some(max), Some(min)) => if SatSub(max, min) > 0 then Some(SatSub(max, min)) else None
    case _ => None
  }

  function TotalPropagationTime(ps: Ports): Option<u32> {
    Spread(ps, 0, 3)
  }

  function PropagationTimeTo(ps: Ports, port: nat): Option<u32> {
    Spread(ps, EntryPort(ps), port)
  }

  function Gap(ps: Ports, i: nat, port: nat): u32
    requires i < 3
  {
    if i < port && At(ps, i).active && At(ps, i + 1).active
    then SatSub(At(ps, i + 1).receiveTime, At(ps, i).receiveTime) else 0
  }

  /** Sum of the gaps between neighbouring open ports before `port`; the sum may leave `u32`. */
  function IntermediatePropagationTimeTo(ps: Ports, port: nat): nat {
    Gap(ps, 0, port) + Gap(ps, 1, port) + Gap(ps, 2, port)
  }
}
