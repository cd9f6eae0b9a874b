/** What the single pass does to networks for which it was not made: junctions in side branches, and devices that are
    entered by a port other than 0. */
module DcMislinks {
  import opened Common
  import opened Ports
  import opened Topology
  import opened Dc
  import opened DcExact

  /** The search fails exactly behind a line end with no junction before it; what it finds has a port besides the one by
      which it is entered. */
  lemma {:induction false} SearchFailsIff(parents: seq<SubDevice>)
    requires forall k :: 0 <= k < |parents| ==> parents[k].index == k
    ensures FindSubdeviceParent(parents) == Err(TopologyError)
      <==> (parents != [] && OpenPorts(parents[|parents| - 1].ports) == 1
            && forall k :: 0 <= k < |parents| ==> OpenPorts(parents[k].ports) < 3)
    ensures FindSubdeviceParent(parents) == Ok(None) <==> parents == []
    ensures forall p: nat :: FindSubdeviceParent(parents) == Ok(Some(p)) ==>
      p < |parents| && OpenPorts(parents[p].ports) >= 2
  {
  }

  // --- Parents after the pass

  /** Nothing has changed that the search for parents looks at. */
  predicate SameSearch(a: seq<SubDevice>, b: seq<SubDevice>) {
    |a| == |b| && forall k :: 0 <= k < |a| ==>
      a[k].index == b[k].index && OpenPorts(a[k].ports) == OpenPorts(b[k].ports)
  }

  lemma {:induction false} SameJunction(a: seq<SubDevice>, b: seq<SubDevice>, n: nat)
    requires SameSearch(a, b) && n <= |a|
    ensures NearestJunction(a, n) == NearestJunction(b, n)
  {
    if n > 0 {
      SameJunction(a, b, n - 1);
    }
  }

  lemma {:induction false} SameParent(a: seq<SubDevice>, b: seq<SubDevice>, i: nat)
    requires SameSearch(a, b) && i <= |a|
    ensures FindSubdeviceParent(a[..i]) == FindSubdeviceParent(b[..i])
  {
    if i > 0 {
      SameJunction(a[..i], b[..i], i - 1);
    }
  }

  lemma {:induction false} LinkedKeepsEntry(ps: Ports, q: nat, index: u16)
    requires q < 4
    ensures EntryPort(Linked(ps, q, index)) == EntryPort(ps) && OpenPorts(Linked(ps, q, index)) == OpenPorts(ps)
    ensures forall k :: 0 <= k < OpenPorts(ps) ==> Nth(Linked(ps, q, index), k) == Nth(ps, k)
  {
  }

  /** An iteration sets the parent of its own device to what the search says, and of no other. */
  lemma {:induction false} IterationSetsParent(devs: seq<SubDevice>, i: nat, accum: u32)
    requires i < |devs| && AssignOne(devs, i, accum).Ok?
    ensures var out := AssignOne(devs, i, accum).value.devs;
      && SameSearch(devs, out) && FindSubdeviceParent(devs[..i]) == Ok(out[i].parentIndex)
      && forall k :: 0 <= k < |devs| && k != i ==> out[k].parentIndex == devs[k].parentIndex
  {
    var placed := SetParent(devs, i, FindSubdeviceParent(devs[..i]).value);
    var linked := LinkToParent(placed, i).value;
    if placed[i].parentIndex.Some? {
      var p := Position(placed[..i], placed[i].parentIndex.value).value;
      var q := NextAssignablePort(placed[p].ports, EntryPort(placed[p].ports)).value;
      LinkedKeepsEntry(placed[p].ports, q, placed[i].index);
    }
    assert SameSearch(devs, linked) && linked[i].parentIndex == placed[i].parentIndex;
  }

  /** The pass leaves the parents that the search finds on the list as it was at the start. */
  lemma {:induction false} PassSetsParents(devs: seq<SubDevice>, n: nat)
    requires n <= |devs|
    ensures AssignFirst(devs, n).Ok? ==>
      var out := AssignFirst(devs, n).value.devs;
      && SameSearch(devs, out)
      && forall i :: 0 <= i < n ==> FindSubdeviceParent(devs[..i]) == Ok(out[i].parentIndex)
  {
    if n > 0 && AssignFirst(devs, n).Ok? {
      var last := n - 1;
      var done := AssignFirst(devs, last).value;
      var out := AssignOne(done.devs, last, done.accum).value.devs;
      assert AssignFirst(devs, n).value.devs == out;
      PassSetsParents(devs, last);
      IterationSetsParent(done.devs, last, done.accum);
      SameParent(devs, done.devs, last);
      forall i | 0 <= i < n
        ensures FindSubdeviceParent(devs[..i]) == Ok(out[i].parentIndex)
      {
        assert i < last ==> out[i].parentIndex == done.devs[i].parentIndex;
      }
    }
  }

  /** On whatever receive times and links: a pass that succeeds gives all devices their parents exactly when side
      branches are chains. */
  lemma {:induction false} ParentsAfterPassIff(t: Tree, devs: seq<SubDevice>)
    requires Shape(devs, Discovered(t))
    ensures AssignFirst(devs, |devs|).Ok? ==>
      var out := AssignFirst(devs, |devs|).value.devs;
      (forall i :: 0 <= i < |devs| ==> out[i].parentIndex == Discovered(t)[i].parent) <==> SideBranchesAreChains(t)
  {
    if AssignFirst(devs, |devs|).Ok? {
      PassSetsParents(devs, |devs|);
      ParentsRecoveredIff(t, devs);
      var out, f := AssignFirst(devs, |devs|).value.devs, Discovered(t);
      assert forall i :: 0 <= i < |devs| ==>
          (FindSubdeviceParent(devs[..i]) == Ok(f[i].parent) <==> out[i].parentIndex == f[i].parent);
    }
  }

  /** The pass succeeds and recovers the network, parents and ports, exactly when side branches are chains. */
  lemma {:induction false} NetworkRecoveredIff(t: Tree, devs: seq<SubDevice>)
    requires Latched(devs, Discovered(t))
    ensures (AssignFirst(devs, |devs|).Ok? && TreeRecovered(AssignFirst(devs, |devs|).value.devs, Discovered(t)))
      <==> SideBranchesAreChains(t)
  {
    if SideBranchesAreChains(t) {
      DelaysExactIff(t, devs);
    } else if AssignFirst(devs, |devs|).Ok? {
      ParentsAfterPassIff(t, devs);
    }
  }

  // --- Links to upstream ports

  /** A device is linked to the port by which the parent found for it is entered exactly when that port is free and all
      open ports before it are taken. */
  lemma {:induction false} LinksUpstreamIff(devs: seq<SubDevice>, i: nat, p: nat) returns (entry: nat)
    requires i < |devs| && devs[i].parentIndex.Some? && Position(devs[..i], devs[i].parentIndex.value) == Some(p)
    requires devs[i].index != 0
    ensures var ps := devs[p].ports;
      && entry < OpenPorts(ps) && Nth(ps, entry) == EntryPort(ps)
      && (LinkToParent(devs, i) == Ok(devs[p := devs[p].(ports := Linked(ps, EntryPort(ps), devs[i].index))])
          <==> (At(ps, EntryPort(ps)).downstream.None? && TakenBefore(ps, (EntryPort(ps) + 1) % OpenPorts(ps), entry)))
  {
    var ps := devs[p].ports;
    var e, q := EntryPort(ps), NextAssignablePort(ps, EntryPort(ps));
    entry := EntryPortIsGivenAwayIff(ps);
    if q.Some? && q.value != e {
      var out := devs[p := devs[p].(ports := Linked(ps, q.value, devs[i].index))];
      assert At(out[p].ports, q.value).downstream.Some?;
      assert At(devs[p := devs[p].(ports := Linked(ps, e, devs[i].index))][p].ports, q.value).downstream.None?;
    }
  }

  /** One iteration for a device whose parent, at position `p`, is no cross: nothing can fail. */
  lemma {:induction false} LinkOne(devs: seq<SubDevice>, i: nat, accum: u32, p: nat, q: nat)
    requires p < i < |devs| <= U16_MAX && forall k :: 0 <= k < |devs| ==> devs[k].index == k
    requires FindSubdeviceParent(devs[..i]) == Ok(Some(p)) && OpenPorts(devs[p].ports) <= 3
    requires NextAssignablePort(devs[p].ports, EntryPort(devs[p].ports)) == Some(q)
    ensures var r := AssignOne(devs, i, accum);
      && r.Ok?
      && var delay := r.value.devs[i].propagationDelay;
         r.value.devs == devs[i := devs[i].(parentIndex := Some(p), propagationDelay := delay)]
                             [p := devs[p].(ports := Linked(devs[p].ports, q, i))]
  {
    var placed := SetParent(devs, i, Some(p));
    assert placed[..i] == devs[..i];
    PositionIs(devs[..i], p);
    var ports := Linked(devs[p].ports, q, i);
    var linked := placed[p := placed[p].(ports := ports)];
    assert LinkToParent(placed, i) == Ok(linked);
    PositionIs(linked[..i], p);
    LinkedKeepsEntry(devs[p].ports, q, i);
    assert PortAssignedTo(ports, i).Some?;
  }

  /** The first device has no parent. */
  lemma {:induction false} FirstIteration(devs: seq<SubDevice>)
    requires |devs| > 0
    ensures AssignOne(devs, 0, 0) == Ok(Progress(devs[0 := devs[0].(parentIndex := None)], 0))
    ensures AssignFirst(devs, 1) == AssignOne(devs, 0, 0)
  {
    var d1 := devs[0 := devs[0].(parentIndex := None)];
    assert d1[0 := d1[0]] == d1;
    assert AssignFirst(devs, 0) == Ok(Progress(devs, 0));
  }

  // --- A fork in the side branch of a fork

  /** A fork that is entered at port 0, nobody being linked to that port. */
  predicate ForkAtZero(ps: Ports) {
    OpenPorts(ps) == 3 && EntryPort(ps) == 0 && ps.p0.downstream.None?
  }

  predicate Free(ps: Ports, k: nat)
    requires k < OpenPorts(ps)
  {
    At(ps, Nth(ps, k)).downstream.None?
  }

  /** Its downstream ports are given away in order, the entry port in the end. */
  lemma {:induction false} ForkGivesPorts(ps: Ports)
    requires ForkAtZero(ps)
    ensures NextAssignablePort(ps, EntryPort(ps))
      == Some(if Free(ps, 1) then Nth(ps, 1) else if Free(ps, 2) then Nth(ps, 2) else 0)
  {
    NextPortIff(ps, 1);
    NextPortIff(ps, 2);
    NextPortIff(ps, 0);
  }

  /** A leaf in the discovery list. */
  lemma {:induction false} LeafIsDiscovered(t: Tree, at: nat, parent: Option<nat>, rank: nat, link: nat, arrival: nat)
    requires t.branches.Nil?
    ensures Flatten(t, at, parent, rank, link, arrival) == [Info(parent, rank, link, arrival, t.clock, [])]
      && Size(t) == 1
  {
    assert FlattenAll(t.branches, at + 1, at, 0, arrival) == [];
  }

  predicate TwoLeaves(t: Tree) {
    && t.branches.Branch? && t.branches.child.branches.Nil?
    && t.branches.rest.Branch? && t.branches.rest.child.branches.Nil? && t.branches.rest.rest.Nil?
  }

  /** The second of two branches, when it is a leaf. */
  lemma {:induction false} LastLeafIsDiscovered(bs: Branches, at: nat, parent: nat, rank: nat, now: nat)
    requires bs.Branch? && bs.child.branches.Nil? && bs.rest.Nil?
    ensures SizeOf(bs) == 1
    ensures FlattenAll(bs, at, parent, rank, now)
      == [Info(Some(parent), rank, bs.link, now + bs.link, bs.child.clock, [])]
  {
    LeafIsDiscovered(bs.child, at, Some(parent), rank, bs.link, now + bs.link);
  }

  /** A fork with two leaves in the discovery list. */
  lemma {:induction false} ForkIsDiscovered(t: Tree, at: nat, parent: Option<nat>, rank: nat, link: nat, arrival: nat)
    requires TwoLeaves(t)
    ensures var f := Flatten(t, at, parent, rank, link, arrival);
      && |f| == 3 == Size(t) && f[0].parent == parent && |f[0].echoes| == 2
      && f[1].parent == Some(at) == f[2].parent && f[1].echoes == [] == f[2].echoes
  {
    var bs := t.branches;
    LeafIsDiscovered(bs.child, at + 1, Some(at), 0, bs.link, arrival + bs.link);
    LastLeafIsDiscovered(bs.rest, at + 2, at, 1, arrival + 2 * bs.link + Loop(bs.child));
    assert Len(bs.rest) == 1 && Len(bs) == 2;
  }

  /** A fork with a fork in its side branch. */
  predicate ForkInSideBranch(t: Tree) {
    && t.branches.Branch? && TwoLeaves(t.branches.child)
    && t.branches.rest.Branch? && t.branches.rest.child.branches.Nil? && t.branches.rest.rest.Nil?
  }

  lemma {:induction false} FiveAreDiscovered(t: Tree)
    requires ForkInSideBranch(t)
    ensures var f := Discovered(t);
      && |f| == 5 && f[4].parent == Some(0)
      && |f[0].echoes| == 2 && |f[1].echoes| == 2 && f[2].echoes == [] && f[3].echoes == [] && f[4].echoes == []
  {
    var bs := t.branches;
    ForkIsDiscovered(bs.child, 1, Some(0), 0, bs.link, 0 + bs.link);
    LastLeafIsDiscovered(bs.rest, 4, 0, 1, 0 + 2 * bs.link + Loop(bs.child));
    assert Len(bs.rest) == 1 && Len(bs) == 2;
    var inner := Flatten(bs.child, 1, Some(0), 0, bs.link, 0 + bs.link);
    var last := FlattenAll(bs.rest, 4, 0, 1, 0 + 2 * bs.link + Loop(bs.child));
    assert FlattenAll(bs, 1, 0, 0, 0) == inner + last;
    assert forall k :: 1 <= k < 4 ==> Discovered(t)[k] == inner[k - 1];
    assert Discovered(t)[4] == last[0];
  }

  /** Five devices, two forks and three line ends. */
  predicate Five(devs: seq<SubDevice>) {
    && |devs| == 5 && (forall k :: 0 <= k < 5 ==> devs[k].index == k)
    && ForkAtZero(devs[0].ports) && ForkAtZero(devs[1].ports)
    && OpenPorts(devs[2].ports) == 1 && OpenPorts(devs[3].ports) == 1 && OpenPorts(devs[4].ports) == 1
  }

  /** After `n` iterations: the outer fork is linked to the inner one, the inner one to its leaves so far. */
  predicate FiveAfter(devs: seq<SubDevice>, n: nat) {
    && Five(devs)
    && Free(devs[0].ports, 2) && (Free(devs[0].ports, 1) <==> n < 2)
    && (Free(devs[1].ports, 1) <==> n < 3) && (Free(devs[1].ports, 2) <==> n < 4)
  }

  /** Open ports stay the same. */
  predicate SameOpen(a: Ports, b: Ports) {
    a.p0.active == b.p0.active && a.p3.active == b.p3.active && a.p1.active == b.p1.active && a.p2.active == b.p2.active
  }

  /** The parent that the search finds for device `n`. */
  lemma {:induction false} FiveSearch(devs: seq<SubDevice>, n: nat)
    requires Five(devs) && 0 < n < 5
    ensures FindSubdeviceParent(devs[..n]) == Ok(Some(if n == 1 then 0 else 1))
  {
    if n > 2 {
      NearestIs(devs[..n], n - 1, 1);
    }
  }

  lemma {:induction false} FiveStep(devs: seq<SubDevice>, n: nat, accum: u32)
    requires 0 < n < 5 && FiveAfter(devs, n)
    ensures AssignOne(devs, n, accum).Ok?
    ensures var out := AssignOne(devs, n, accum).value.devs;
      if n < 4 then FiveAfter(out, n + 1) && SameOpen(out[0].ports, devs[0].ports)
      else
        && |out| == 5 && out[4].parentIndex == Some(1) && out[1].ports.p0.downstream == Some(4)
        && out[0].ports == devs[0].ports
  {
    var p := if n == 1 then 0 else 1;
    var ps := devs[p].ports;
    var q := NextAssignablePort(ps, EntryPort(ps)).value;
    assert q == if Free(ps, 1) then Nth(ps, 1) else if Free(ps, 2) then Nth(ps, 2) else 0 by {
      ForkGivesPorts(ps);
    }
    FiveSearch(devs, n);
    LinkOne(devs, n, accum, p, q);
    LinkedKeepsEntry(ps, q, n);
  }

  lemma {:induction false} FivePasses(devs: seq<SubDevice>, n: nat)
    requires FiveAfter(devs, 1) && 0 < n <= 4
    ensures AssignFirst(devs, n).Ok? && FiveAfter(AssignFirst(devs, n).value.devs, n)
    ensures SameOpen(AssignFirst(devs, n).value.devs[0].ports, devs[0].ports)
  {
    if n == 1 {
      FirstIteration(devs);
    } else {
      FivePasses(devs, n - 1);
      FiveStep(AssignFirst(devs, n - 1).value.devs, n - 1, AssignFirst(devs, n - 1).value.accum);
    }
  }

  lemma {:induction false} FiveAreLinked(devs: seq<SubDevice>, n: nat)
    requires FiveAfter(devs, 1) && n == 4
    ensures AssignFirst(devs, n + 1).Ok?
    ensures var out := AssignFirst(devs, n + 1).value.devs;
      && out[4].parentIndex == Some(1) && out[1].ports.p0.downstream == Some(4)
      && At(out[0].ports, Nth(devs[0].ports, 2)).downstream.None?
  {
    FivePasses(devs, n);
    var done := AssignFirst(devs, n).value;
    FiveStep(done.devs, n, done.accum);
    assert AssignFirst(devs, n + 1) == AssignOne(done.devs, n, done.accum);
  }

  /** A fork with a fork in its side branch, with or without DC support and whatever the receive times, as long as the
      forks are entered at port 0: the device behind the side branch is linked to the upstream port of the inner fork,
      while the last port of the outer fork, where it hangs, stays free. Nothing fails. */
  lemma {:induction false} JunctionInSideBranchLinksUpstream(t: Tree, devs: seq<SubDevice>)
    requires ForkInSideBranch(t) && Five(devs)
    requires Free(devs[0].ports, 1) && Free(devs[0].ports, 2) && Free(devs[1].ports, 1) && Free(devs[1].ports, 2)
    ensures !SideBranchesAreChains(t) && Shape(devs, Discovered(t)) && Discovered(t)[4].parent == Some(0)
    ensures AssignFirst(devs, |devs|).Ok?
    ensures var out := AssignFirst(devs, |devs|).value.devs;
      && out[4].parentIndex == Some(1) && out[1].ports.p0.downstream == Some(4)
      && At(out[0].ports, Nth(devs[0].ports, 2)).downstream.None?
  {
    assert Shape(devs, Discovered(t)) && Discovered(t)[4].parent == Some(0) by {
      FiveAreDiscovered(t);
    }
    FiveAreLinked(devs, 4);
  }

  // --- A device entered by its second port

  /** Two devices in a line, the first one not entered at port 0: the pass succeeds, and it links the second device to
      the port by which the first one is entered exactly when that one is port 1 with port 2 closed, or port 3 with
      port 0 closed. */
  lemma {:induction false} ReversedDeviceLinksUpstreamIff(devs: seq<SubDevice>)
    requires |devs| == 2 && devs[0].index == 0 && devs[1].index == 1
    requires NothingLinked(devs[0].ports) && OpenPorts(devs[0].ports) == 2 && OpenPorts(devs[1].ports) == 1
    ensures AssignFirst(devs, |devs|).Ok?
    ensures var ps, out := devs[0].ports, AssignFirst(devs, |devs|).value.devs[0].ports;
      EntryPort(out) == EntryPort(ps)
      && (At(out, EntryPort(out)).downstream == Some(1)
          <==> ((EntryPort(ps) == 2 && !ps.p2.active) || (EntryPort(ps) == 1 && !ps.p0.active)))
  {
    var ps := devs[0].ports;
    var q := NextAssignablePort(ps, EntryPort(ps));
    EntryPortGoesFirstIff(ps);
    NoPortIsLeftIff(ps, EntryPort(ps));
    var d1 := devs[0 := devs[0].(parentIndex := None)];
    FirstIteration(devs);
    LinkOne(d1, 1, 0, 0, q.value);
    LinkedKeepsEntry(ps, q.value, 1);
  }
}
