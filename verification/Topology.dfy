/** The network as a tree, and what an ideal frame does when it walks that tree.

    A frame enters a device on its upstream port, leaves on each downstream port in turn, crosses a
    link with the same delay in both directions, and comes back on that port when the whole branch
    has been visited. Processing delays are part of the link delays. */
module Topology {
  import opened Common

  /** `clock` is the reading of the device's own, unsynchronised clock when the frame arrives. */
  datatype Tree = Node(clock: nat, branches: Branches)

  datatype Branches = Nil | Branch(link: nat, child: Tree, rest: Branches)

  function Len(bs: Branches): nat {
    match bs
    case Nil => 0
    case Branch(_, _, rest) => 1 + Len(rest)
  }

  function Size(t: Tree): (n: nat)
    ensures n >= 1
  {
    1 + SizeOf(t.branches)
  }

  function SizeOf(bs: Branches): nat {
    match bs
    case Nil => 0
    case Branch(_, child, rest) => Size(child) + SizeOf(rest)
  }

  /** Time from entering a device to coming back from its last branch. */
  function Loop(t: Tree): nat {
    LoopOf(t.branches)
  }

  function LoopOf(bs: Branches): nat {
    match bs
    case Nil => 0
    case Branch(link, child, rest) => 2 * link + Loop(child) + LoopOf(rest)
  }

  /** Times, counted from arrival at the device, at which each downstream port sees the frame come
      back; `now` is the time at which it leaves for the first branch. */
  function Echoes(bs: Branches, now: nat): (s: seq<nat>)
    ensures |s| == Len(bs)
  {
    match bs
    case Nil => []
    case Branch(link, child, rest) =>
      var seen := now + 2 * link + Loop(child);
      [seen] + Echoes(rest, seen)
  }

  /** What an observer of the walk knows about one device. `parent` is a position in the preorder
      list, `rank` the number of earlier siblings, `arrival` the time since the walk started and
      `echoes` the times, counted from `arrival`, at which its downstream ports see the frame. */
  datatype Info = Info(parent: Option<nat>, rank: nat, link: nat, arrival: nat, clock: nat, echoes: seq<nat>) {
    function Loop(): nat {
      if echoes == [] then 0 else echoes[|echoes| - 1]
    }
  }

  /** Preorder list of a tree placed at position `at`: the order in which devices are discovered. */
  function Flatten(t: Tree, at: nat, parent: Option<nat>, rank: nat, link: nat, arrival: nat): (f: seq<Info>)
    ensures |f| == Size(t)
    ensures f[0] == Info(parent, rank, link, arrival, t.clock, Echoes(t.branches, 0))
    decreases t, 0
  {
    [Info(parent, rank, link, arrival, t.clock, Echoes(t.branches, 0))]
    + FlattenAll(t.branches, at + 1, at, 0, arrival)
  }

  /** `now` is the time at which the frame leaves the parent for the first of these branches. */
  function FlattenAll(bs: Branches, at: nat, parent: nat, rank: nat, now: nat): (f: seq<Info>)
    ensures |f| == SizeOf(bs)
    decreases bs, 0
  {
    match bs
    case Nil => []
    case Branch(link, child, rest) =>
      Flatten(child, at, Some(parent), rank, link, now + link)
      + FlattenAll(rest, at + Size(child), parent, rank + 1, now + 2 * link + Loop(child))
  }

  /** The discovery list of a whole network. */
  function Discovered(t: Tree): (f: seq<Info>)
    ensures |f| == Size(t)
  {
    Flatten(t, 0, None, 0, 0, 0)
  }

  /** A line of devices with no junction. */
  predicate Chain(t: Tree) {
    match t.branches
    case Nil => true
    case Branch(_, child, rest) => rest.Nil? && Chain(child)
  }

  /** Only the last branch of a device may hold a junction. */
  predicate SideBranchesAreChains(t: Tree) {
    SideChains(t.branches)
  }

  predicate SideChains(bs: Branches) {
    match bs
    case Nil => true
    case Branch(_, child, rest) => SideBranchesAreChains(child) && (rest.Nil? || Chain(child)) && SideChains(rest)
  }

  // --- Facts about the discovery list, position by position

  /** Number of children of `p` among the first `i` devices. */
  function Kids(f: seq<Info>, i: nat, p: nat): nat
    requires i <= |f|
  {
    if i == 0 then 0 else Kids(f, i - 1, p) + (if f[i - 1].parent == Some(p) then 1 else 0)
  }

  /** `t` occupies the list `f` from `at` on. */
  predicate Placed(f: seq<Info>, t: Tree, at: nat, parent: Option<nat>, rank: nat, link: nat, arrival: nat)
    decreases t, 0
  {
    && at + Size(t) <= |f|
    && f[at].parent == parent && f[at].rank == rank && f[at].link == link && f[at].arrival == arrival
    && f[at].clock == t.clock && |f[at].echoes| == Len(t.branches) && f[at].Loop() == Loop(t)
    && PlacedAll(f, t.branches, at + 1, at, 0, arrival)
  }

  /** The branches `bs` of `parent`, the first of them number `rank`, occupy `f` from `at` on. */
  predicate PlacedAll(f: seq<Info>, bs: Branches, at: nat, parent: nat, rank: nat, now: nat)
    decreases bs, 0
  {
    && parent < at && at + SizeOf(bs) <= |f|
    && |f[parent].echoes| == rank + Len(bs)
    && now == f[parent].arrival + LeavesAt(f[parent], rank)
    && match bs
       case Nil => true
       case Branch(link, child, rest) =>
         var later := now + 2 * link + Loop(child);
         && f[parent].arrival + f[parent].echoes[rank] == later
         && Placed(f, child, at, Some(parent), rank, link, now + link)
         && PlacedAll(f, rest, at + Size(child), parent, rank + 1, later)
  }

  lemma {:induction false} LoopIsLastEcho(bs: Branches, now: nat)
    ensures bs.Nil? ==> LoopOf(bs) == 0
    ensures bs.Branch? ==> Echoes(bs, now)[Len(bs) - 1] == now + LoopOf(bs)
  {
    if bs.Branch? {
      LoopIsLastEcho(bs.rest, now + 2 * bs.link + Loop(bs.child));
    }
  }

  /** Every device below the root of `t` hangs off an earlier device of `t`. */
  lemma {:induction false} ParentsBefore(f: seq<Info>, t: Tree, at: nat, parent: Option<nat>, rank: nat, link: nat,
                                         arrival: nat)
    requires Placed(f, t, at, parent, rank, link, arrival)
    ensures forall i :: at < i < at + Size(t) ==> f[i].parent.Some? && at <= f[i].parent.value < i
    decreases t, 1
  {
    ParentsBeforeAll(f, t.branches, at + 1, at, 0, arrival);
  }

  lemma {:induction false} ParentsBeforeAll(f: seq<Info>, bs: Branches, at: nat, parent: nat, rank: nat, now: nat)
    requires PlacedAll(f, bs, at, parent, rank, now) && parent < at
    ensures forall i :: at <= i < at + SizeOf(bs) ==>
      f[i].parent.Some? && (f[i].parent.value == parent || at <= f[i].parent.value < i)
    decreases bs, 0
  {
    if bs.Branch? {
      ParentsBefore(f, bs.child, at, Some(parent), rank, bs.link, now + bs.link);
      ParentsBeforeAll(f, bs.rest, at + Size(bs.child), parent, rank + 1, now + 2 * bs.link + Loop(bs.child));
    }
  }

  /** The last device of any tree is a line end. */
  lemma {:induction false} LastIsLineEnd(f: seq<Info>, t: Tree, at: nat, parent: Option<nat>, rank: nat, link: nat,
                                         arrival: nat)
    requires Placed(f, t, at, parent, rank, link, arrival)
    ensures f[at + Size(t) - 1].echoes == []
    decreases t, 1
  {
    if t.branches.Branch? {
      LastIsLineEndAll(f, t.branches, at + 1, at, 0, arrival);
    }
  }

  lemma {:induction false} LastIsLineEndAll(f: seq<Info>, bs: Branches, at: nat, parent: nat, rank: nat, now: nat)
    requires PlacedAll(f, bs, at, parent, rank, now) && bs.Branch?
    ensures SizeOf(bs) > 0 && f[at + SizeOf(bs) - 1].echoes == []
    decreases bs, 0
  {
    if bs.rest.Branch? {
      LastIsLineEndAll(f, bs.rest, at + Size(bs.child), parent, rank + 1, now + 2 * bs.link + Loop(bs.child));
    } else {
      LastIsLineEnd(f, bs.child, at, Some(parent), rank, bs.link, now + bs.link);
    }
  }

  /** A chain has no junction, and its far end is reached half way through its loop. */
  lemma {:induction false} ChainTurnsAtHalfLoop(f: seq<Info>, t: Tree, at: nat, parent: Option<nat>, rank: nat,
                                                link: nat, arrival: nat)
    requires Placed(f, t, at, parent, rank, link, arrival) && Chain(t)
    ensures forall j :: at <= j < at + Size(t) ==> |f[j].echoes| <= 1
    ensures 2 * f[at + Size(t) - 1].arrival == 2 * arrival + Loop(t)
  {
    if t.branches.Branch? {
      assert t.branches.rest.Nil?;
      assert SizeOf(t.branches.rest) == 0 && LoopOf(t.branches.rest) == 0;
      assert Size(t) == 1 + Size(t.branches.child) && Loop(t) == 2 * t.branches.link + Loop(t.branches.child);
      ChainTurnsAtHalfLoop(f, t.branches.child, at + 1, Some(at), 0, t.branches.link, arrival + t.branches.link);
    }
  }

  /** A tree that is not a chain holds a junction. */
  lemma {:induction false} NonChainHasJunction(f: seq<Info>, t: Tree, at: nat, parent: Option<nat>, rank: nat,
                                               link: nat, arrival: nat)
    returns (j: nat)
    requires Placed(f, t, at, parent, rank, link, arrival) && !Chain(t)
    ensures at <= j < at + Size(t) && |f[j].echoes| >= 2
  {
    if Len(t.branches) >= 2 {
      j := at;
    } else {
      assert t.branches.rest.Branch? ==> Len(t.branches) >= 2;
      j := NonChainHasJunction(f, t.branches.child, at + 1, Some(at), 0, t.branches.link, arrival + t.branches.link);
    }
  }

  /** What the list says about device `i` and its parent, for every tree. */
  predicate Local(f: seq<Info>, i: nat)
    requires 0 < i < |f|
  {
    f[i].parent.Some? && f[i].parent.value < i &&
    var p, k := f[f[i].parent.value], f[i].rank;
    && k < |p.echoes|
    && Kids(f, i, f[i].parent.value) == k
    && (k == 0 ==> f[i].parent.value == i - 1)
    && (k > 0 ==> f[i - 1].echoes == [])
    && f[i].arrival == p.arrival + LeavesAt(p, k) + f[i].link
    && p.echoes[k] == LeavesAt(p, k) + 2 * f[i].link + f[i].Loop()
  }

  /** Time since arrival at which the frame leaves on downstream port `k`. */
  function LeavesAt(p: Info, k: nat): nat
    requires k <= |p.echoes|
  {
    if k == 0 then 0 else p.echoes[k - 1]
  }

  /** What more holds when the branches before `i`'s are chains. */
  predicate AfterChains(f: seq<Info>, i: nat)
    requires 0 < i < |f| && Local(f, i)
  {
    var p, k := f[i].parent.value, f[i].rank;
    k > 0 ==>
      && (forall j :: p < j < i ==> |f[j].echoes| <= 1)
      && 2 * f[i - 1].arrival == 2 * f[p].arrival + LeavesAt(f[p], k - 1) + f[p].echoes[k - 1]
  }

  /** Parents come before their children. */
  predicate Ordered(f: seq<Info>) {
    forall j :: 0 <= j < |f| && f[j].parent.Some? ==> f[j].parent.value < j
  }

  lemma {:induction false} KidsStep(f: seq<Info>, i: nat, n: nat, p: nat)
    requires i <= n <= |f|
    requires forall j :: i <= j < n ==> f[j].parent != Some(p)
    ensures Kids(f, n, p) == Kids(f, i, p)
  {
    if i < n {
      KidsStep(f, i, n - 1, p);
    }
  }

  /** Branch `rank` of `p` starts at `at`; earlier branches have been placed before it. */
  predicate BranchContext(f: seq<Info>, bs: Branches, at: nat, parent: nat, rank: nat, now: nat)
  {
    && PlacedAll(f, bs, at, parent, rank, now)
    && Kids(f, at, parent) == rank
    && (rank == 0 ==> parent == at - 1)
    && (rank > 0 ==> f[at - 1].echoes == [])
  }

  lemma {:induction false} NoKidsYet(f: seq<Info>, at: nat)
    requires Ordered(f) && at < |f|
    ensures Kids(f, at + 1, at) == 0
  {
    KidsStep(f, 0, at + 1, at);
  }

  lemma {:induction false} BranchRoot(f: seq<Info>, bs: Branches, at: nat, parent: nat, rank: nat, now: nat)
    requires BranchContext(f, bs, at, parent, rank, now) && bs.Branch?
    ensures Local(f, at) && f[at].parent == Some(parent) && f[at].rank == rank
    ensures f[parent].echoes[rank] == LeavesAt(f[parent], rank) + 2 * bs.link + Loop(bs.child)
  {
    assert Placed(f, bs.child, at, Some(parent), rank, bs.link, now + bs.link);
  }

  lemma {:induction false} BranchNext(f: seq<Info>, bs: Branches, at: nat, parent: nat, rank: nat, now: nat)
    requires BranchContext(f, bs, at, parent, rank, now) && bs.Branch?
    ensures BranchContext(f, bs.rest, at + Size(bs.child), parent, rank + 1, now + 2 * bs.link + Loop(bs.child))
  {
    var next := at + Size(bs.child);
    BranchRoot(f, bs, at, parent, rank, now);
    assert Kids(f, at + 1, parent) == rank + 1;
    assert Kids(f, next, parent) == rank + 1 by {
      ParentsBefore(f, bs.child, at, Some(parent), rank, bs.link, now + bs.link);
      KidsStep(f, at + 1, next, parent);
    }
    assert f[next - 1].echoes == [] by {
      LastIsLineEnd(f, bs.child, at, Some(parent), rank, bs.link, now + bs.link);
    }
  }

  lemma {:induction false} LocalAt(f: seq<Info>, t: Tree, at: nat, parent: Option<nat>, rank: nat, link: nat,
                                   arrival: nat, i: nat)
    requires Placed(f, t, at, parent, rank, link, arrival) && Ordered(f)
    requires at < i < at + Size(t)
    ensures Local(f, i)
    decreases t, 1
  {
    NoKidsYet(f, at);
    LocalAmong(f, t.branches, at + 1, at, 0, arrival, i);
  }

  lemma {:induction false} LocalAmong(f: seq<Info>, bs: Branches, at: nat, parent: nat, rank: nat, now: nat, i: nat)
    requires BranchContext(f, bs, at, parent, rank, now) && Ordered(f)
    requires at <= i < at + SizeOf(bs)
    ensures Local(f, i)
    decreases bs, 0
  {
    if i == at {
      BranchRoot(f, bs, at, parent, rank, now);
    } else if i < at + Size(bs.child) {
      LocalAt(f, bs.child, at, Some(parent), rank, bs.link, now + bs.link, i);
    } else {
      BranchNext(f, bs, at, parent, rank, now);
      LocalAmong(f, bs.rest, at + Size(bs.child), parent, rank + 1, now + 2 * bs.link + Loop(bs.child), i);
    }
  }

  /** The branches before `at` are chains and the last of them has just been walked to its end. */
  predicate ChainsBefore(f: seq<Info>, at: nat, parent: nat, rank: nat)
    requires parent < at <= |f| && rank <= |f[parent].echoes|
  {
    && (forall j :: parent < j < at ==> |f[j].echoes| <= 1)
    && (rank > 0 ==>
          2 * f[at - 1].arrival == 2 * f[parent].arrival + LeavesAt(f[parent], rank - 1) + f[parent].echoes[rank - 1])
  }

  lemma {:induction false} ChainsNext(f: seq<Info>, bs: Branches, at: nat, parent: nat, rank: nat, now: nat)
    requires BranchContext(f, bs, at, parent, rank, now) && bs.Branch? && Chain(bs.child)
    requires ChainsBefore(f, at, parent, rank)
    ensures Local(f, at) && f[at].parent == Some(parent) && AfterChains(f, at)
    ensures at + Size(bs.child) <= |f| && rank < |f[parent].echoes|
    ensures ChainsBefore(f, at + Size(bs.child), parent, rank + 1)
  {
    BranchRoot(f, bs, at, parent, rank, now);
    ChainTurnsAtHalfLoop(f, bs.child, at, Some(parent), rank, bs.link, now + bs.link);
  }

  /** When side branches are chains, what a device sees just before it is the turning point of the
      branch before it, and no junction lies between it and its parent. */
  lemma {:induction false} AfterChainsAt(f: seq<Info>, t: Tree, at: nat, parent: Option<nat>, rank: nat, link: nat,
                                         arrival: nat, i: nat)
    requires Placed(f, t, at, parent, rank, link, arrival) && Ordered(f) && SideBranchesAreChains(t)
    requires at < i < at + Size(t)
    ensures Local(f, i) && AfterChains(f, i)
    decreases t, 1
  {
    NoKidsYet(f, at);
    AfterChainsAmong(f, t.branches, at + 1, at, 0, arrival, i);
  }

  lemma {:induction false} AfterChainsAmong(f: seq<Info>, bs: Branches, at: nat, parent: nat, rank: nat, now: nat,
                                            i: nat)
    requires BranchContext(f, bs, at, parent, rank, now) && Ordered(f) && SideChains(bs)
    requires ChainsBefore(f, at, parent, rank)
    requires at <= i < at + SizeOf(bs)
    ensures Local(f, i) && AfterChains(f, i)
    decreases bs, 0
  {
    if i == at {
      BranchRoot(f, bs, at, parent, rank, now);
    } else if i < at + Size(bs.child) {
      AfterChainsAt(f, bs.child, at, Some(parent), rank, bs.link, now + bs.link, i);
    } else {
      ChainsNext(f, bs, at, parent, rank, now);
      BranchNext(f, bs, at, parent, rank, now);
      AfterChainsAmong(f, bs.rest, at + Size(bs.child), parent, rank + 1, now + 2 * bs.link + Loop(bs.child), i);
    }
  }

  /** Otherwise some device is preceded by a line end and has a junction between it and its parent. */
  lemma {:induction false} JunctionInSideBranch(f: seq<Info>, t: Tree, at: nat, parent: Option<nat>, rank: nat,
                                                link: nat, arrival: nat)
    returns (i: nat, j: nat)
    requires Placed(f, t, at, parent, rank, link, arrival) && Ordered(f) && !SideBranchesAreChains(t)
    ensures at < i < at + Size(t) && Local(f, i) && f[i].parent.value < j < i
    ensures f[i - 1].echoes == [] && |f[j].echoes| >= 2
    decreases t, 1
  {
    NoKidsYet(f, at);
    i, j := JunctionAmongSideBranches(f, t.branches, at + 1, at, 0, arrival);
  }

  lemma {:induction false} JunctionBeforeNext(f: seq<Info>, bs: Branches, at: nat, parent: nat, rank: nat,
                                              now: nat)
    returns (j: nat)
    requires BranchContext(f, bs, at, parent, rank, now) && bs.Branch? && bs.rest.Branch? && !Chain(bs.child)
    ensures at + Size(bs.child) < at + SizeOf(bs) && Local(f, at + Size(bs.child))
    ensures f[at + Size(bs.child)].parent.value < j < at + Size(bs.child)
    ensures f[at + Size(bs.child) - 1].echoes == [] && |f[j].echoes| >= 2
  {
    var next := at + Size(bs.child);
    j := NonChainHasJunction(f, bs.child, at, Some(parent), rank, bs.link, now + bs.link);
    BranchNext(f, bs, at, parent, rank, now);
    BranchRoot(f, bs.rest, next, parent, rank + 1, now + 2 * bs.link + Loop(bs.child));
  }

  lemma {:induction false} JunctionAmongSideBranches(f: seq<Info>, bs: Branches, at: nat, parent: nat, rank: nat,
                                                     now: nat)
    returns (i: nat, j: nat)
    requires BranchContext(f, bs, at, parent, rank, now) && Ordered(f) && !SideChains(bs)
    ensures at <= i < at + SizeOf(bs) && Local(f, i) && f[i].parent.value < j < i
    ensures f[i - 1].echoes == [] && |f[j].echoes| >= 2
    decreases bs, 0
  {
    var next, later := at + Size(bs.child), now + 2 * bs.link + Loop(bs.child);
    if !SideBranchesAreChains(bs.child) {
      i, j := JunctionInSideBranch(f, bs.child, at, Some(parent), rank, bs.link, now + bs.link);
    } else if !SideChains(bs.rest) {
      BranchNext(f, bs, at, parent, rank, now);
      i, j := JunctionAmongSideBranches(f, bs.rest, next, parent, rank + 1, later);
    } else {
      i := next;
      j := JunctionBeforeNext(f, bs, at, parent, rank, now);
    }
  }

  /** After its branches have been listed, a device has all its children. */
  lemma {:induction false} AllKidsOf(f: seq<Info>, bs: Branches, at: nat, parent: nat, rank: nat, now: nat)
    requires BranchContext(f, bs, at, parent, rank, now) && Ordered(f)
    ensures Kids(f, at + SizeOf(bs), parent) == |f[parent].echoes|
  {
    if bs.Branch? {
      BranchNext(f, bs, at, parent, rank, now);
      AllKidsOf(f, bs.rest, at + Size(bs.child), parent, rank + 1, now + 2 * bs.link + Loop(bs.child));
    }
  }

  lemma {:induction false} AllKidsIn(f: seq<Info>, t: Tree, at: nat, parent: Option<nat>, rank: nat, link: nat,
                                     arrival: nat, p: nat)
    requires Placed(f, t, at, parent, rank, link, arrival) && Ordered(f) && at <= p < at + Size(t)
    ensures Kids(f, at + Size(t), p) == |f[p].echoes|
    decreases t, 1
  {
    if p == at {
      NoKidsYet(f, at);
      AllKidsOf(f, t.branches, at + 1, at, 0, arrival);
    } else {
      AllKidsAmong(f, t.branches, at + 1, at, 0, arrival, p);
    }
  }

  lemma {:induction false} AllKidsAmong(f: seq<Info>, bs: Branches, at: nat, parent: nat, rank: nat, now: nat, p: nat)
    requires PlacedAll(f, bs, at, parent, rank, now) && Ordered(f) && at <= p < at + SizeOf(bs)
    ensures Kids(f, at + SizeOf(bs), p) == |f[p].echoes|
    decreases bs, 0
  {
    var next, later := at + Size(bs.child), now + 2 * bs.link + Loop(bs.child);
    if p < next {
      AllKidsIn(f, bs.child, at, Some(parent), rank, bs.link, now + bs.link, p);
      ParentsBeforeAll(f, bs.rest, next, parent, rank + 1, later);
      KidsStep(f, next, at + SizeOf(bs), p);
    } else {
      AllKidsAmong(f, bs.rest, next, parent, rank + 1, later, p);
    }
  }

  // --- The whole network

  lemma {:induction false} FlattenIsPlaced(pre: seq<Info>, t: Tree, parent: Option<nat>, rank: nat, link: nat,
                                           arrival: nat, post: seq<Info>)
    ensures Placed(pre + Flatten(t, |pre|, parent, rank, link, arrival) + post, t, |pre|, parent, rank, link, arrival)
    decreases t, 1
  {
    var root := [Info(parent, rank, link, arrival, t.clock, Echoes(t.branches, 0))];
    var below := FlattenAll(t.branches, |pre| + 1, |pre|, 0, arrival);
    assert pre + (root + below) + post == (pre + root) + below + post;
    LoopIsLastEcho(t.branches, 0);
    assert Echoes(t.branches, 0)[0..] == Echoes(t.branches, 0);
    FlattenAllIsPlaced(pre + root, t.branches, |pre|, 0, arrival, post);
  }

  lemma {:induction false} FlattenAllIsPlaced(pre: seq<Info>, bs: Branches, parent: nat, rank: nat, now: nat,
                                              post: seq<Info>)
    requires parent < |pre| && rank <= |pre[parent].echoes|
    requires now == pre[parent].arrival + LeavesAt(pre[parent], rank)
    requires pre[parent].echoes[rank..] == Echoes(bs, LeavesAt(pre[parent], rank))
    ensures PlacedAll(pre + FlattenAll(bs, |pre|, parent, rank, now) + post, bs, |pre|, parent, rank, now)
    decreases bs, 0
  {
    if bs.Branch? {
      var later := now + 2 * bs.link + Loop(bs.child);
      var first := Flatten(bs.child, |pre|, Some(parent), rank, bs.link, now + bs.link);
      var others := FlattenAll(bs.rest, |pre| + Size(bs.child), parent, rank + 1, later);
      assert pre + (first + others) + post == pre + first + (others + post) == (pre + first) + others + post;
      assert pre[parent].echoes[rank] == pre[parent].echoes[rank..][0];
      assert pre[parent].echoes[rank..][1..] == pre[parent].echoes[rank + 1..];
      FlattenIsPlaced(pre, bs.child, Some(parent), rank, bs.link, now + bs.link, others + post);
      FlattenAllIsPlaced(pre + first, bs.rest, parent, rank + 1, later, post);
    }
  }

  lemma {:induction false} DiscoveredIsPlaced(t: Tree)
    ensures Placed(Discovered(t), t, 0, None, 0, 0, 0)
    ensures Ordered(Discovered(t))
  {
    var f := Discovered(t);
    assert [] + f + [] == f;
    FlattenIsPlaced([], t, None, 0, 0, 0, []);
    ParentsBefore(f, t, 0, None, 0, 0, 0);
  }
}
