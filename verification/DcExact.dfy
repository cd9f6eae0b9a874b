/** What the single pass over the discovery list achieves, for every network. */
module DcExact {
  import opened Common
  import opened Ports
  import opened Topology
  import opened Dc

  /** The list has one entry per device of the walk, in discovery order, with the right number of
      open ports. */
  predicate Shape(devs: seq<SubDevice>, f: seq<Info>) {
    |devs| == |f| && forall i :: 0 <= i < |f| ==> devs[i].index == i && OpenPorts(devs[i].ports) == |f[i].echoes| + 1
  }

  // --- Parents

  lemma {:induction false} NearestIs(devs: seq<SubDevice>, n: nat, p: nat)
    requires p < n <= |devs| && TopologyOf(devs[p].ports).IsJunction()
    requires forall k :: p < k < n ==> !TopologyOf(devs[k].ports).IsJunction()
    ensures NearestJunction(devs, n) == Some(p)
  {
  }

  lemma {:induction false} ParentFound(devs: seq<SubDevice>, f: seq<Info>, i: nat)
    requires Shape(devs, f) && 0 < i < |f| && Local(f, i) && AfterChains(f, i)
    ensures FindSubdeviceParent(devs[..i]) == Ok(f[i].parent)
  {
    var p := f[i].parent.value;
    if f[i].rank > 0 {
      NearestIs(devs[..i], i - 1, p);
    }
  }

  lemma {:induction false} ParentMissed(devs: seq<SubDevice>, f: seq<Info>, i: nat, j: nat)
    requires Shape(devs, f) && 0 < i < |f| && Local(f, i)
    requires f[i].parent.value < j < i && f[i - 1].echoes == [] && |f[j].echoes| >= 2
    ensures FindSubdeviceParent(devs[..i]) != Ok(f[i].parent)
  {
    assert TopologyOf(devs[..i][j].ports).IsJunction();
  }

  /** Scanning the list recovers the parent of every device exactly when no junction hides in a
      branch other than the last one of its device. */
  lemma {:induction false} ParentsRecoveredIff(t: Tree, devs: seq<SubDevice>)
    requires Shape(devs, Discovered(t))
    ensures (forall i :: 0 <= i < |devs| ==> FindSubdeviceParent(devs[..i]) == Ok(Discovered(t)[i].parent))
      <==> SideBranchesAreChains(t)
  {
    var f := Discovered(t);
    DiscoveredIsPlaced(t);
    if SideBranchesAreChains(t) {
      forall i | 0 <= i < |devs|
        ensures FindSubdeviceParent(devs[..i]) == Ok(f[i].parent)
      {
        if i > 0 {
          AfterChainsAt(f, t, 0, None, 0, 0, 0, i);
          ParentFound(devs, f, i);
        }
      }
    } else {
      var i, j := JunctionInSideBranch(f, t, 0, None, 0, 0, 0);
      ParentMissed(devs, f, i, j);
    }
  }

  // --- Ports and receive times

  /** Open port number `m` shows the ideal time, on the device's own clock. */
  predicate IdealAt(ps: Ports, info: Info, m: nat) {
    m < OpenPorts(ps) == |info.echoes| + 1 ==> At(ps, Nth(ps, m)).receiveTime == info.clock + LeavesAt(info, m)
  }

  /** Receive times of an ideal walk that enters at port 0. Closed ports may hold anything. */
  predicate IdealTimes(ps: Ports, info: Info) {
    && ps.p0.active && OpenPorts(ps) == |info.echoes| + 1
    && IdealAt(ps, info, 0) && IdealAt(ps, info, 1) && IdealAt(ps, info, 2) && IdealAt(ps, info, 3)
  }

  predicate Growing(s: seq<nat>) {
    forall j, k :: 0 <= j <= k < |s| ==> s[j] <= s[k]
  }

  lemma {:induction false} EchoesGrow(bs: Branches, now: nat)
    ensures Growing(Echoes(bs, now))
    ensures bs.Branch? ==> now <= Echoes(bs, now)[0]
  {
    if bs.Branch? {
      EchoesGrow(bs.rest, now + 2 * bs.link + Loop(bs.child));
    }
  }

  lemma {:induction false} FlattenGrows(t: Tree, at: nat, parent: Option<nat>, rank: nat, link: nat, arrival: nat)
    ensures forall x :: x in Flatten(t, at, parent, rank, link, arrival) ==> Growing(x.echoes)
    decreases t, 1
  {
    EchoesGrow(t.branches, 0);
    FlattenAllGrows(t.branches, at + 1, at, 0, arrival);
  }

  lemma {:induction false} FlattenAllGrows(bs: Branches, at: nat, parent: nat, rank: nat, now: nat)
    ensures forall x :: x in FlattenAll(bs, at, parent, rank, now) ==> Growing(x.echoes)
    decreases bs, 0
  {
    if bs.Branch? {
      FlattenGrows(bs.child, at, Some(parent), rank, bs.link, now + bs.link);
      FlattenAllGrows(bs.rest, at + Size(bs.child), parent, rank + 1, now + 2 * bs.link + Loop(bs.child));
    }
  }

  /** The entry port of an ideal device is its port 0. */
  lemma {:induction false} EntryIsPortZero(ps: Ports, info: Info)
    requires IdealTimes(ps, info) && Growing(info.echoes)
    ensures EntryPort(ps) == 0
  {
  }

  /** The total propagation time of an ideal device is its loop time. */
  lemma {:induction false} TotalIsLoop(ps: Ports, info: Info)
    requires IdealTimes(ps, info) && Growing(info.echoes)
    ensures OrZero(TotalPropagationTime(ps)) == info.Loop()
  {
  }

  /** The propagation time to downstream port `k` is the echo time on that port. */
  lemma {:induction false} TimeToIsEcho(ps: Ports, info: Info, k: nat)
    requires IdealTimes(ps, info) && Growing(info.echoes) && k < |info.echoes|
    ensures OrZero(PropagationTimeTo(ps, Nth(ps, k + 1))) == info.echoes[k]
  {
    EntryIsPortZero(ps, info);
  }

  lemma {:induction false} CrossGapsSumToEcho(ps: Ports, info: Info, k: nat)
    requires IdealTimes(ps, info) && Growing(info.echoes) && k < |info.echoes| == 3
    ensures IntermediatePropagationTimeTo(ps, Nth(ps, k + 1)) == info.echoes[k]
  {
  }

  // --- One device at a time

  /** Downstream port `k` of device `p` holds the child of rank `k` once that child is among the
      first `n` devices, and is free before. */
  predicate PortLink(f: seq<Info>, n: nat, ps: Ports, p: nat, k: nat)
    requires n <= |f|
  {
    k + 1 < OpenPorts(ps) ==>
      var d := At(ps, Nth(ps, k + 1)).downstream;
      if k < Kids(f, n, p)
      then d.Some? && d.value < n && f[d.value].parent == Some(p) && f[d.value].rank == k
      else d.None?
  }

  predicate LinksOk(f: seq<Info>, n: nat, ps: Ports, p: nat)
    requires n <= |f|
  {
    ps.p0.downstream.None? && PortLink(f, n, ps, p, 0) && PortLink(f, n, ps, p, 1) && PortLink(f, n, ps, p, 2)
  }

  /** Linking keeps the receive times and the set of open ports. */
  lemma {:induction false} LinkedKeepsTimes(ps: Ports, info: Info, q: nat, index: u16)
    requires IdealTimes(ps, info) && q < 4
    ensures IdealTimes(Linked(ps, q, index), info)
    ensures forall k :: 0 <= k < OpenPorts(ps) == OpenPorts(Linked(ps, q, index)) ==>
      Nth(Linked(ps, q, index), k) == Nth(ps, k)
  {
  }

  /** The next child takes the next downstream port in processing order. */
  lemma {:induction false} ChildTakesNextPort(f: seq<Info>, n: nat, ps: Ports, p: nat, k: nat)
    requires 0 < n < |f| <= U16_MAX + 1 && p < n && f[n].parent == Some(p) && f[n].rank == k
    requires IdealTimes(ps, f[p]) && Growing(f[p].echoes)
    requires k == Kids(f, n, p) < |f[p].echoes| && LinksOk(f, n, ps, p)
    ensures var q := Nth(ps, k + 1);
      && AssignNextDownstreamPort(ps, n) == Some(Linked(ps, q, n))
      && LinksOk(f, n + 1, Linked(ps, q, n), p)
      && PortAssignedTo(Linked(ps, q, n), n) == Some(q)
  {
    EntryIsPortZero(ps, f[p]);
    assert Kids(f, n + 1, p) == k + 1;
  }

  /** Other devices do not notice that device `n` has been linked. */
  lemma {:induction false} LinksOkElsewhere(f: seq<Info>, n: nat, ps: Ports, p: nat)
    requires n < |f| && f[n].parent != Some(p) && LinksOk(f, n, ps, p)
    ensures LinksOk(f, n + 1, ps, p)
  {
    assert Kids(f, n + 1, p) == Kids(f, n, p);
  }

  /** What the walk says about every device, all of it known to hold when side branches are chains. */
  predicate Explored(f: seq<Info>) {
    && |f| <= U16_MAX + 1
    && (forall i :: 0 < i < |f| ==> Local(f, i) && AfterChains(f, i))
    && (forall i :: 0 <= i < |f| ==> Growing(f[i].echoes))
  }

  /** The delay the pass adds for a device hanging off port `k` of its parent, when the running
      total is `accum`. */
  function OwnDelay(parent: Info, k: nat, own: Info, accum: nat): nat
    requires k < |parent.echoes|
  {
    if k == 2 then SatSub(parent.Loop(), accum) else SatSub(parent.echoes[k], own.Loop()) / 2
  }

  function OwnDelayAt(f: seq<Info>, i: nat, accum: nat): nat
    requires 0 < i < |f| && Local(f, i)
  {
    OwnDelay(f[f[i].parent.value], f[i].rank, f[i], accum)
  }

  /** The running total after the first `n` devices. */
  function Total(f: seq<Info>, n: nat): u32
    requires n <= |f| && Explored(f)
  {
    if n <= 1 then 0 else Min(U32_MAX, Total(f, n - 1) + OwnDelayAt(f, n - 1, Total(f, n - 1)))
  }

  lemma {:induction false} ChildIffNotLast(sub: SubDevice, parent: SubDevice, m: nat)
    requires 0 < m < OpenPorts(parent.ports)
    requires PortAssignedTo(parent.ports, sub.index) == Some(Nth(parent.ports, m))
    ensures IsChildOf(sub, parent) <==> m + 1 < OpenPorts(parent.ports)
  {
  }

  /** The code's delay formula, read on ideal receive times. */
  lemma {:induction false} DelayIs(sub: SubDevice, parent: SubDevice, info: Info, own: Info, k: nat, accum: u32)
    requires Growing(info.echoes) && Growing(own.echoes) && k < |info.echoes| && own.Loop() <= info.echoes[k]
    requires IdealTimes(parent.ports, info) && IdealTimes(sub.ports, own)
    requires PortAssignedTo(parent.ports, sub.index) == Some(Nth(parent.ports, k + 1))
    ensures DelayFrom(sub, parent, Nth(parent.ports, k + 1), accum) == Some(OwnDelay(info, k, own, accum))
  {
    ChildIffNotLast(sub, parent, k + 1);
    TotalIsLoop(parent.ports, info);
    TotalIsLoop(sub.ports, own);
    TimeToIsEcho(parent.ports, info, k);
    if |info.echoes| == 3 {
      CrossGapsSumToEcho(parent.ports, info, k);
    }
  }

  // --- The whole pass

  /** Device `i` while the first `n` devices are done. */
  predicate Ready(d: SubDevice, f: seq<Info>, n: nat, i: nat)
    requires n <= |f| && i < |f|
  {
    && d.index == i && d.dcSupport && IdealTimes(d.ports, f[i]) && LinksOk(f, n, d.ports, i)
    && (n <= i ==> d.propagationDelay == 0)
  }

  predicate Done(d: SubDevice, f: seq<Info>, i: nat)
    requires i < |f| && Explored(f)
  {
    d.parentIndex == f[i].parent && d.propagationDelay == Total(f, i + 1)
  }

  predicate Good(devs: seq<SubDevice>, f: seq<Info>, n: nat)
    requires n <= |f| && Explored(f)
  {
    && |devs| == |f|
    && (forall i :: 0 <= i < |f| ==> Ready(devs[i], f, n, i))
    && (forall i :: 0 <= i < n ==> Done(devs[i], f, i))
  }

  /** The devices as they are when the pass starts: ideal receive times, every device with DC
      support, nothing linked, no delay. */
  predicate Latched(devs: seq<SubDevice>, f: seq<Info>) {
    |devs| == |f| && forall i :: 0 <= i < |f| ==>
      && devs[i].index == i && devs[i].dcSupport && devs[i].propagationDelay == 0
      && IdealTimes(devs[i].ports, f[i])
      && devs[i].ports.p0.downstream.None? && devs[i].ports.p3.downstream.None?
      && devs[i].ports.p1.downstream.None? && devs[i].ports.p2.downstream.None?
  }

  lemma {:induction false} PositionIs(devs: seq<SubDevice>, p: nat)
    requires p < |devs| && p <= U16_MAX && forall i :: 0 <= i < |devs| ==> devs[i].index == i
    ensures Position(devs, p) == Some(p)
  {
    assert devs[p].index == p;
  }

  lemma {:induction false} FirstDevice(devs: seq<SubDevice>, f: seq<Info>)
    requires |f| > 0 && Explored(f) && f[0].parent.None? && Good(devs, f, 0)
    ensures AssignOne(devs, 0, 0).Ok?
    ensures AssignOne(devs, 0, 0).value.accum == Total(f, 1) && Good(AssignOne(devs, 0, 0).value.devs, f, 1)
  {
    var out := AssignOne(devs, 0, 0).value.devs;
    assert out == devs[0 := devs[0].(parentIndex := None)];
    forall i | 0 <= i < |f|
      ensures Ready(out[i], f, 1, i)
    {
      assert Ready(devs[i], f, 0, i);
      LinksOkElsewhere(f, 0, devs[i].ports, i);
    }
  }

  /** The list after device `n` has been linked to its parent `p` and given its delay. */
  function After(devs: seq<SubDevice>, f: seq<Info>, n: nat): (out: seq<SubDevice>)
    requires 0 < n < |f| && Explored(f) && Good(devs, f, n)
    ensures |out| == |devs|
  {
    assert Local(f, n);
    var p := f[n].parent.value;
    assert Ready(devs[p], f, n, p) && Ready(devs[n], f, n, n);
    devs[p := devs[p].(ports := Linked(devs[p].ports, Nth(devs[p].ports, f[n].rank + 1), n))]
        [n := devs[n].(parentIndex := Some(p), propagationDelay := Total(f, n + 1))]
  }

  /** One iteration, put together from what each of its calls returns. */
  lemma {:induction false} IterationIs(devs: seq<SubDevice>, n: nat, accum: u32, p: nat, ports: Ports, q: nat,
                                       delay: u32)
    requires p < n < |devs| && 0 < n <= U16_MAX && forall i :: 0 <= i <= n ==> devs[i].index == i
    requires devs[n].dcSupport && FindSubdeviceParent(devs[..n]) == Ok(Some(p))
    requires AssignNextDownstreamPort(devs[p].ports, n) == Some(ports) && PortAssignedTo(ports, n) == Some(q)
    requires DelayFrom(devs[n].(parentIndex := Some(p)), devs[p].(ports := ports), q, accum) == Some(delay)
    ensures AssignOne(devs, n, accum) == Ok(Progress(
      devs[p := devs[p].(ports := ports)]
          [n := devs[n].(parentIndex := Some(p), propagationDelay := SatAdd32(accum, delay))], SatAdd32(accum, delay)))
  {
    var set1 := SetParent(devs, n, Some(p));
    PositionIs(set1[..n], p);
    var linked := set1[p := set1[p].(ports := ports)];
    assert LinkToParent(set1, n) == Ok(linked);
    PositionIs(linked[..n], p);
    var sub := linked[n].(propagationDelay := SatAdd32(accum, delay));
    assert ConfigureSubdeviceOffsets(linked[n], linked[..n], accum) == Ok(Step(sub, SatAdd32(accum, delay)));
    assert linked[n := sub] == devs[p := devs[p].(ports := ports)][n := sub];
  }

  lemma {:induction false} ShapeOfGood(devs: seq<SubDevice>, f: seq<Info>, n: nat)
    requires n <= |f| && Explored(f) && Good(devs, f, n)
    ensures Shape(devs, f)
  {
    forall i | 0 <= i < |f|
      ensures devs[i].index == i && OpenPorts(devs[i].ports) == |f[i].echoes| + 1
    {
      assert Ready(devs[i], f, n, i);
    }
  }

  lemma {:induction false} NextDevice(devs: seq<SubDevice>, f: seq<Info>, n: nat)
    requires 0 < n < |f| && Explored(f) && Good(devs, f, n)
    ensures AssignOne(devs, n, Total(f, n)) == Ok(Progress(After(devs, f, n), Total(f, n + 1)))
  {
    assert Local(f, n) && AfterChains(f, n);
    var p, k := f[n].parent.value, f[n].rank;
    assert Ready(devs[p], f, n, p) && Ready(devs[n], f, n, n);
    var q := Nth(devs[p].ports, k + 1);
    var ports := Linked(devs[p].ports, q, n);
    var delay := OwnDelayAt(f, n, Total(f, n));
    assert Shape(devs, f) && FindSubdeviceParent(devs[..n]) == Ok(Some(p)) by {
      ShapeOfGood(devs, f, n);
      ParentFound(devs, f, n);
    }
    ChildTakesNextPort(f, n, devs[p].ports, p, k);
    LinkedKeepsTimes(devs[p].ports, f[p], q, n);
    DelayIs(devs[n].(parentIndex := Some(p)), devs[p].(ports := ports), f[p], f[n], k, Total(f, n));
    IterationIs(devs, n, Total(f, n), p, ports, q, delay);
  }

  lemma {:induction false} StaysGood(devs: seq<SubDevice>, f: seq<Info>, n: nat)
    requires 0 < n < |f| && Explored(f) && Good(devs, f, n)
    ensures Good(After(devs, f, n), f, n + 1)
  {
    assert Local(f, n);
    var p, out := f[n].parent.value, After(devs, f, n);
    forall i | 0 <= i < |f|
      ensures Ready(out[i], f, n + 1, i)
    {
      assert Ready(devs[i], f, n, i);
      if i == p {
        ChildTakesNextPort(f, n, devs[p].ports, p, f[n].rank);
      } else {
        LinksOkElsewhere(f, n, devs[i].ports, i);
      }
    }
    forall i | 0 <= i < n + 1
      ensures Done(out[i], f, i)
    {
      assert i < n ==> Done(devs[i], f, i);
    }
  }

  /** One more device keeps all the work done so far good. */
  lemma {:induction false} OneMoreDevice(before: seq<SubDevice>, f: seq<Info>, n: nat)
    requires 0 < n <= |f| && Explored(f) && f[0].parent.None? && Good(before, f, n - 1)
    ensures var r := AssignOne(before, n - 1, Total(f, n - 1));
      r.Ok? && r.value.accum == Total(f, n) && Good(r.value.devs, f, n)
  {
    if n == 1 {
      FirstDevice(before, f);
    } else {
      NextDevice(before, f, n - 1);
      StaysGood(before, f, n - 1);
    }
  }

  lemma {:induction false} PassIsGood(devs: seq<SubDevice>, f: seq<Info>, n: nat)
    requires 0 < |f| && n <= |f| && Explored(f) && f[0].parent.None? && Good(devs, f, 0)
    ensures AssignFirst(devs, n).Ok?
    ensures AssignFirst(devs, n).value.accum == Total(f, n) && Good(AssignFirst(devs, n).value.devs, f, n)
  {
    if n > 0 {
      PassIsGood(devs, f, n - 1);
      OneMoreDevice(AssignFirst(devs, n - 1).value.devs, f, n);
    }
  }

  // --- The theorems

  lemma {:induction false} NetworkIsExplored(t: Tree, devs: seq<SubDevice>)
    requires SideBranchesAreChains(t) && Latched(devs, Discovered(t))
    ensures Explored(Discovered(t)) && Good(devs, Discovered(t), 0)
  {
    var f := Discovered(t);
    DiscoveredIsPlaced(t);
    FlattenGrows(t, 0, None, 0, 0, 0);
    assert devs[|f| - 1].index == |f| - 1;
    forall i | 0 < i < |f|
      ensures Local(f, i) && AfterChains(f, i)
    {
      AfterChainsAt(f, t, 0, None, 0, 0, 0, i);
    }
  }

  /** The frame is back at the first device after everything else has happened. */
  lemma {:induction false} ArrivalWithinLoop(f: seq<Info>, i: nat)
    requires Explored(f) && i < |f| && f[0].arrival == 0
    ensures f[i].arrival + f[i].Loop() <= f[0].Loop()
  {
    if i > 0 {
      assert Local(f, i);
      var p := f[i].parent.value;
      ArrivalWithinLoop(f, p);
      assert f[p].echoes[f[i].rank] <= f[p].Loop();
    }
  }

  /** For the last child of a cross: the frame needs as long to reach the cross as to cross the last
      link and walk the last branch. (The second case needs links without delay.) */
  predicate Balanced(f: seq<Info>, i: nat)
    requires 0 < i < |f| && Local(f, i)
  {
    var reached, ahead := f[f[i].parent.value].arrival, f[i].link + f[i].Loop();
    reached == ahead || (reached > ahead && f[i - 1].arrival == f[i].arrival)
  }

  predicate CrossesBalanced(f: seq<Info>, n: nat)
    requires Explored(f) && n <= |f|
  {
    forall i :: 0 < i < n && f[i].rank == 2 ==> Local(f, i) && Balanced(f, i)
  }

  predicate TotalsExact(f: seq<Info>, n: nat)
    requires Explored(f) && n <= |f|
  {
    forall i :: 0 <= i < n ==> Total(f, i + 1) == f[i].arrival
  }

  /** Once the total is right, it stays right except after an unbalanced cross. */
  lemma {:induction false} NextTotal(f: seq<Info>, i: nat)
    requires Explored(f) && 0 < i < |f| && f[0].arrival == 0 && f[0].Loop() <= U32_MAX
    requires forall j :: 0 <= j < |f| ==> |f[j].echoes| <= 3
    requires Total(f, i) == f[i - 1].arrival
    ensures Local(f, i) && (Total(f, i + 1) == f[i].arrival <==> (f[i].rank == 2 ==> Balanced(f, i)))
  {
    assert Local(f, i) && AfterChains(f, i);
    var p, k := f[i].parent.value, f[i].rank;
    ArrivalWithinLoop(f, i);
    ArrivalWithinLoop(f, p);
    assert f[p].echoes[k] <= f[p].Loop();
    if k == 1 {
      HalvesAdd(f[i - 1].arrival, f[p].arrival, f[p].echoes[0], f[i].link);
      assert f[i].arrival == f[p].arrival + f[p].echoes[0] + f[i].link;
    }
  }

  lemma {:induction false} HalvesAdd(turn: nat, from: nat, echo: nat, link: nat)
    requires 2 * turn == 2 * from + echo
    ensures turn + (echo + 2 * link) / 2 == from + echo + link
  {
  }

  lemma {:induction false} ExactNeedsBalance(f: seq<Info>, n: nat)
    requires Explored(f) && 0 < n <= |f| && f[0].arrival == 0 && f[0].Loop() <= U32_MAX
    requires forall j :: 0 <= j < |f| ==> |f[j].echoes| <= 3
    requires TotalsExact(f, n)
    ensures CrossesBalanced(f, n)
  {
    forall i | 0 < i < n && f[i].rank == 2
      ensures Local(f, i) && Balanced(f, i)
    {
      assert Total(f, (i - 1) + 1) == f[i - 1].arrival;
      NextTotal(f, i);
    }
  }

  lemma {:induction false} BalancedTotal(f: seq<Info>, n: nat, i: nat)
    requires Explored(f) && i < n <= |f| && f[0].arrival == 0 && f[0].Loop() <= U32_MAX
    requires forall j :: 0 <= j < |f| ==> |f[j].echoes| <= 3
    requires CrossesBalanced(f, n)
    ensures Total(f, i + 1) == f[i].arrival
  {
    if i > 0 {
      BalancedTotal(f, n, i - 1);
      NextTotal(f, i);
    }
  }

  lemma {:induction false} BalanceMakesExact(f: seq<Info>, n: nat)
    requires Explored(f) && 0 < n <= |f| && f[0].arrival == 0 && f[0].Loop() <= U32_MAX
    requires forall j :: 0 <= j < |f| ==> |f[j].echoes| <= 3
    requires CrossesBalanced(f, n)
    ensures TotalsExact(f, n)
  {
    forall i | 0 <= i < n
      ensures Total(f, i + 1) == f[i].arrival
    {
      BalancedTotal(f, n, i);
    }
  }

  /** The devices after the pass: every parent is right, every downstream port holds the child that
      hangs off it, and the recorded delays are those of the running total. */
  predicate TreeRecovered(out: seq<SubDevice>, f: seq<Info>) {
    |out| == |f| && forall p :: 0 <= p < |f| ==>
      && out[p].parentIndex == f[p].parent
      && OpenPorts(out[p].ports) == |f[p].echoes| + 1
      && ChildOnPort(out[p].ports, f, p, 0) && ChildOnPort(out[p].ports, f, p, 1) && ChildOnPort(out[p].ports, f, p, 2)
  }

  predicate ChildOnPort(ps: Ports, f: seq<Info>, p: nat, k: nat) {
    k + 1 < OpenPorts(ps) ==>
      var d := At(ps, Nth(ps, k + 1)).downstream;
      d.Some? && d.value < |f| && f[d.value].parent == Some(p) && f[d.value].rank == k
  }

  lemma {:induction false} PassOver(t: Tree, devs: seq<SubDevice>)
    requires SideBranchesAreChains(t) && Latched(devs, Discovered(t))
    ensures Explored(Discovered(t)) && AssignFirst(devs, |devs|).Ok?
    ensures Good(AssignFirst(devs, |devs|).value.devs, Discovered(t), |devs|)
    ensures forall p :: 0 <= p < |devs| ==> Kids(Discovered(t), |devs|, p) == |Discovered(t)[p].echoes| <= 3
    ensures Discovered(t)[0].Loop() <= U32_MAX
  {
    var f := Discovered(t);
    NetworkIsExplored(t, devs);
    PassIsGood(devs, f, |f|);
    DiscoveredIsPlaced(t);
    forall p | 0 <= p < |f|
      ensures Kids(f, |f|, p) == |f[p].echoes| <= 3
    {
      AllKidsIn(f, t, 0, None, 0, 0, 0, p);
      assert IdealTimes(devs[p].ports, f[p]);
    }
    assert IdealTimes(devs[0].ports, f[0]);
  }

  lemma {:induction false} TreeIsRecovered(out: seq<SubDevice>, f: seq<Info>)
    requires Explored(f) && Good(out, f, |f|) && forall p :: 0 <= p < |f| ==> Kids(f, |f|, p) == |f[p].echoes|
    ensures TreeRecovered(out, f)
  {
    forall p | 0 <= p < |f|
      ensures out[p].parentIndex == f[p].parent && OpenPorts(out[p].ports) == |f[p].echoes| + 1
      ensures ChildOnPort(out[p].ports, f, p, 0) && ChildOnPort(out[p].ports, f, p, 1)
        && ChildOnPort(out[p].ports, f, p, 2)
    {
      assert Ready(out[p], f, |f|, p) && Done(out[p], f, p);
    }
  }

  /** The pass succeeds and recovers the network whenever side branches are chains; the recorded
      delays are the true arrival times exactly when every cross is balanced. */
  lemma {:induction false} DelaysExactIff(t: Tree, devs: seq<SubDevice>)
    requires SideBranchesAreChains(t) && Latched(devs, Discovered(t))
    ensures AssignFirst(devs, |devs|).Ok?
    ensures TreeRecovered(AssignFirst(devs, |devs|).value.devs, Discovered(t))
    ensures Explored(Discovered(t))
    ensures (forall i :: 0 <= i < |devs| ==>
      AssignFirst(devs, |devs|).value.devs[i].propagationDelay == Discovered(t)[i].arrival)
      <==> CrossesBalanced(Discovered(t), |devs|)
  {
    var f := Discovered(t);
    PassOver(t, devs);
    var out := AssignFirst(devs, |f|).value.devs;
    TreeIsRecovered(out, f);
    assert forall i :: 0 <= i < |f| ==> Done(out[i], f, i);
    if TotalsExact(f, |f|) {
      ExactNeedsBalance(f, |f|);
    }
    if CrossesBalanced(f, |f|) {
      BalanceMakesExact(f, |f|);
    }
    assert (forall i :: 0 <= i < |f| ==> out[i].propagationDelay == f[i].arrival) <==> TotalsExact(f, |f|);
  }

  /** Without crosses the delays are always exact. */
  lemma {:induction false} ForkNetworksAreExact(t: Tree, devs: seq<SubDevice>)
    requires SideBranchesAreChains(t) && Latched(devs, Discovered(t))
    requires forall i :: 0 <= i < |devs| ==> !TopologyOf(devs[i].ports).Cross?
    ensures AssignFirst(devs, |devs|).Ok?
    ensures forall i :: 0 <= i < |devs| ==>
      AssignFirst(devs, |devs|).value.devs[i].propagationDelay == Discovered(t)[i].arrival
  {
    DelaysExactIff(t, devs);
    ForksHaveNoThirdChild(t, devs);
  }

  lemma {:induction false} ForksHaveNoThirdChild(t: Tree, devs: seq<SubDevice>)
    requires SideBranchesAreChains(t) && Latched(devs, Discovered(t)) && Explored(Discovered(t))
    requires forall i :: 0 <= i < |devs| ==> !TopologyOf(devs[i].ports).Cross?
    ensures forall i :: 0 < i < |devs| ==> Discovered(t)[i].rank < 2
  {
    var f := Discovered(t);
    forall i | 0 < i < |f|
      ensures f[i].rank < 2
    {
      assert Local(f, i);
      assert !TopologyOf(devs[f[i].parent.value].ports).Cross?;
    }
  }

  /** When the first device is a cross, its last child is given the whole loop time of the network
      instead of its arrival time, which is earlier by its own link and loop. */
  lemma {:induction false} FirstCrossIsOverestimated(t: Tree, devs: seq<SubDevice>, i: nat)
    requires SideBranchesAreChains(t) && Latched(devs, Discovered(t))
    requires 0 < i < |devs| && Discovered(t)[i].parent == Some(0) && Discovered(t)[i].rank == 2
    requires forall j :: 0 <= j < i ==> Discovered(t)[j].rank < 2
    ensures AssignFirst(devs, |devs|).Ok?
    ensures AssignFirst(devs, |devs|).value.devs[i].propagationDelay == Loop(t)
    ensures Discovered(t)[i].arrival + Discovered(t)[i].link + Discovered(t)[i].Loop() == Loop(t)
  {
    var f := Discovered(t);
    PassOver(t, devs);
    DiscoveredIsPlaced(t);
    BalanceMakesExact(f, i);
    assert Total(f, (i - 1) + 1) == f[i - 1].arrival;
    assert Local(f, i) && Done(AssignFirst(devs, |f|).value.devs[i], f, i);
    ArrivalWithinLoop(f, i - 1);
  }
}
