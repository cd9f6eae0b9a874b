/** Routing under concurrency: every access to slots and PDU indices in the order in which the program makes it, and
    interleaved in any way with those of other callers, the sender and the receiver. */
module FrameProgram {
  import opened Common
  import opened FrameSlots
  import opened FrameInterleaving
  import R = FrameRouting

  /** What a caller is in the middle of: it has claimed the slot and not made it blank, it has taken the index for a PDU
      and not put the PDU into the frame, or it has freed the slot of a received frame and not cleared its index. */
  datatype Task =
    | Nothing
    | MustInit(s: nat)
    | HasIndex(s: nat, number: nat)
    | MustClear(s: nat)

  /** The system, what the slots carry, and the tasks of the callers. */
  datatype World = World(sys: System, routing: R.Routing, tasks: seq<Task>)

  datatype Action =
    | Atomic(step: Step)  // a change of state; a caller in the middle of something does not make one
    | InitSlot(t: nat)
    | TakeIndex(t: nat)   // begin to push a PDU
    | PushFits(t: nat)    // the PDU fits
    | PushTooLong(t: nat) // it does not
    | ClearSlot(t: nat)

  /** Free slots have no frame, tasks go with what their callers are doing, and a slot that has been made blank is blank
      until its frame has a PDU. */
  predicate Ordered(w: World) {
    && Inv(w.sys) && w.routing.Valid() && |w.tasks| == |w.sys.callers| && |w.routing.awaited| == |w.sys.states|
    && (forall s :: 0 <= s < |w.sys.states| ==> SlotAgrees(w, s))
    && (forall t :: 0 <= t < |w.tasks| ==> TaskFits(w, t) && BlankUntilPdu(w, t))
  }

  predicate SlotAgrees(w: World, s: nat)
    requires w.routing.Valid() && s < |w.sys.states| == |w.routing.awaited|
  {
    w.routing.store.slots[s].state == w.sys.states[s] && (w.sys.states[s].Free? ==> w.routing.awaited[s].None?)
  }

  predicate TaskFits(w: World, t: nat)
    requires t < |w.tasks| == |w.sys.callers|
  {
    match w.tasks[t]
    case Nothing => true
    case MustInit(s) => w.sys.callers[t] == Building(s) && s < |w.routing.awaited| && w.routing.awaited[s].None?
    case HasIndex(s, _) => w.sys.callers[t] == Building(s)
    case MustClear(s) => w.sys.callers[t].Idle? && s < |w.routing.awaited|
  }

  predicate BlankUntilPdu(w: World, t: nat)
    requires w.routing.Valid() && t < |w.tasks| == |w.sys.callers|
  {
    match Owned(w.sys.callers[t])
    case None => true
    case Some(s) =>
      s < |w.routing.awaited| && !w.tasks[t].MustInit? && w.routing.awaited[s].None? ==>
        w.routing.store.slots[s].firstPdu == FIRST_PDU_EMPTY
  }

  /** The access that an action makes, if the caller is at that point. */
  function EventOf(w: World, a: Action): Option<R.Event>
    requires Ordered(w)
  {
    match a
    case Atomic(step) =>
      if step.CallerDoes? && step.t < |w.tasks| && !w.tasks[step.t].Nothing? then None
      else
        StepTouchesOneSlot(w.sys, step);
        Some(R.Turn(Touched(w.sys, step), Next(w.sys, step).states[Touched(w.sys, step)]))
    case InitSlot(t) => if t < |w.tasks| && w.tasks[t].MustInit? then Some(R.Init(w.tasks[t].s)) else None
    case TakeIndex(t) =>
      if t < |w.tasks| && w.tasks[t].Nothing? && w.sys.callers[t].Building? then Some(R.Take) else None
    case PushFits(t) =>
      if t < |w.tasks| && w.tasks[t].HasIndex? then Some(R.Remember(w.tasks[t].s, w.tasks[t].number)) else None
    case PushTooLong(_) => None
    case ClearSlot(t) => if t < |w.tasks| && w.tasks[t].MustClear? then Some(R.Clear(w.tasks[t].s)) else None
  }

  /** What a caller is in the middle of after a change of state: claiming a slot and dropping a received frame are not
      finished with that. */
  function TaskAfter(was: Caller, now: Caller): Task {
    if was.Claiming? && now.Building? then MustInit(now.slot)
    else if was.Reading? && now.Idle? then MustClear(was.slot)
    else Nothing
  }

  function Do(w: World, a: Action): World
    requires Ordered(w)
  {
    var routing := match EventOf(w, a)
      case None => w.routing
      case Some(e) => R.Step(w.routing, e);
    match a
    case Atomic(step) =>
      if EventOf(w, a).None? then w
      else
        var sys := Next(w.sys, step);
        if step.CallerDoes? && step.t < |w.tasks| && |sys.callers| == |w.tasks| then
          World(sys, routing, w.tasks[step.t := TaskAfter(w.sys.callers[step.t], sys.callers[step.t])])
        else World(sys, routing, w.tasks)
    case InitSlot(t) => if EventOf(w, a).Some? then World(w.sys, routing, w.tasks[t := Nothing]) else w
    case TakeIndex(t) =>
      if EventOf(w, a).Some?
      then World(w.sys, routing, w.tasks[t := HasIndex(w.sys.callers[t].slot, w.routing.next)]) else w
    case PushFits(t) => if EventOf(w, a).Some? then World(w.sys, routing, w.tasks[t := Nothing]) else w
    case PushTooLong(t) => if t < |w.tasks| && w.tasks[t].HasIndex? then w.(tasks := w.tasks[t := Nothing]) else w
    case ClearSlot(t) => if EventOf(w, a).Some? then World(w.sys, routing, w.tasks[t := Nothing]) else w
  }

  // --- What every action keeps

  /** Slots after a change of state. */
  lemma {:induction false} StepKeepsSlots(w: World, step: Step)
    requires Ordered(w) && EventOf(w, Atomic(step)).Some?
    ensures var now := Do(w, Atomic(step));
      && now.sys == Next(w.sys, step) && now.routing == R.Step(w.routing, EventOf(w, Atomic(step)).value)
      && now.routing.Valid() && |now.tasks| == |w.tasks|
      && |now.routing.awaited| == |w.routing.awaited| == |now.sys.states|
      && (forall s :: 0 <= s < |now.sys.states| ==> SlotAgrees(now, s))
      && (forall s :: 0 <= s < |now.sys.states| ==>
            && now.routing.store.slots[s].firstPdu == w.routing.store.slots[s].firstPdu
            && (now.routing.awaited[s] == w.routing.awaited[s]
                || (now.routing.awaited[s].None? && now.sys.states[s].Free?)))
  {
    var now := Do(w, Atomic(step));
    StepTouchesOneSlot(w.sys, step);
    forall s | 0 <= s < |w.sys.states|
      ensures SlotAgrees(now, s)
    {
      assert SlotAgrees(w, s);
    }
  }

  /** A caller's own step. */
  lemma {:induction false} OwnStepFits(w: World, t: nat, step: CallerStep)
    requires Ordered(w) && t < |w.tasks| && w.tasks[t].Nothing?
    ensures var now := Do(w, Atomic(CallerDoes(t, step)));
      && |now.tasks| == |now.sys.callers| == |w.tasks| && now.routing.Valid()
      && TaskFits(now, t) && BlankUntilPdu(now, t)
  {
    assert BlankUntilPdu(w, t) && SlotAgrees(w, Touched(w.sys, CallerDoes(t, step)));
  }

  /** Callers that do not make the step. */
  lemma {:induction false} OtherStepFits(w: World, step: Step, u: nat)
    requires Ordered(w) && u < |w.tasks| && EventOf(w, Atomic(step)).Some?
    requires step.CallerDoes? ==> step.t != u
    ensures var now := Do(w, Atomic(step));
      && |now.tasks| == |now.sys.callers| == |w.tasks| && now.routing.Valid()
      && TaskFits(now, u) && BlankUntilPdu(now, u)
  {
    StepKeepsSlots(w, step);
    StepKeepsInv(w.sys, step);
    var now := Do(w, Atomic(step));
    assert now.tasks[u] == w.tasks[u] && now.sys.callers[u] == w.sys.callers[u];
    assert SlotFits(now.sys.callers[u], now.sys.states);
    assert TaskFits(w, u) && BlankUntilPdu(w, u);
  }

  lemma {:induction false} StepKeepsOrdered(w: World, step: Step)
    requires Ordered(w) && EventOf(w, Atomic(step)).Some?
    ensures Ordered(Do(w, Atomic(step)))
  {
    var now := Do(w, Atomic(step));
    StepKeepsSlots(w, step);
    StepKeepsInv(w.sys, step);
    forall u | 0 <= u < |w.tasks|
      ensures |now.tasks| == |now.sys.callers| == |w.tasks| && TaskFits(now, u) && BlankUntilPdu(now, u)
    {
      if step.CallerDoes? && step.t == u {
        OwnStepFits(w, u, step.step);
      } else {
        OtherStepFits(w, step, u);
      }
    }
  }

  lemma {:induction false} AccessKeepsSlots(w: World, a: Action)
    requires Ordered(w) && !a.Atomic?
    ensures var now := Do(w, a);
      && now.sys == w.sys && now.routing.Valid() && |now.tasks| == |w.tasks|
      && |now.routing.awaited| == |w.routing.awaited|
      && forall s :: 0 <= s < |now.sys.states| ==> SlotAgrees(now, s)
  {
    var now := Do(w, a);
    if a.t < |w.tasks| {
      assert TaskFits(w, a.t) && SlotFits(w.sys.callers[a.t], w.sys.states);
    }
    forall s | 0 <= s < |w.sys.states|
      ensures SlotAgrees(now, s)
    {
      assert SlotAgrees(w, s);
    }
  }

  lemma {:induction false} AccessKeepsOrdered(w: World, a: Action)
    requires Ordered(w) && !a.Atomic?
    ensures Ordered(Do(w, a))
  {
    var now := Do(w, a);
    AccessKeepsSlots(w, a);
    forall u | 0 <= u < |w.tasks|
      ensures TaskFits(now, u) && BlankUntilPdu(now, u)
    {
      assert TaskFits(w, u) && BlankUntilPdu(w, u);
      if u != a.t && a.t < |w.tasks| && Owned(w.sys.callers[u]).Some? {
        assert TaskFits(w, a.t) && Owned(w.sys.callers[u]) != Owned(w.sys.callers[a.t]);
      }
    }
  }

  lemma {:induction false} ActionKeepsOrdered(w: World, a: Action)
    requires Ordered(w)
    ensures Ordered(Do(w, a))
  {
    if !a.Atomic? {
      AccessKeepsOrdered(w, a);
    } else if EventOf(w, a).Some? {
      StepKeepsOrdered(w, a.step);
    }
  }

  // --- Exactly when responses find their slots

  /** The action makes a response go astray. A late clearing wipes out the index of the frame that has the slot by now;
      the first PDU of a frame gets an index that a lower slot carries, in use, left over or fresh, or that a frame in a
      higher slot waits for. */
  predicate Astray(w: World, a: Action)
    requires Ordered(w)
  {
    match a
    case ClearSlot(t) =>
      && t < |w.tasks| && w.tasks[t].MustClear?
      && w.tasks[t].s < |w.routing.awaited| && w.routing.awaited[w.tasks[t].s].Some?
    case PushFits(t) =>
      && t < |w.tasks| && w.tasks[t].HasIndex?
      && w.tasks[t].s < |w.routing.awaited| && w.routing.awaited[w.tasks[t].s].None?
      && var s, x: u8 := w.tasks[t].s, w.tasks[t].number % 256;
         || (exists j :: 0 <= j < s && w.routing.store.slots[j].firstPdu == x)
         || (exists j :: s < j < |w.routing.awaited| && w.routing.awaited[j] == Some(x))
    case _ => false
  }

  /** In program order nothing else clashes: slots are made blank before they have a frame, and are blank when their
      frame gets its first PDU. */
  lemma {:induction false} ClashesIffAstray(w: World, a: Action)
    requires Ordered(w) && EventOf(w, a).Some?
    ensures R.Clashes(w.routing, EventOf(w, a).value) <==> Astray(w, a)
  {
    if !a.Atomic? && a.t < |w.tasks| {
      assert TaskFits(w, a.t) && BlankUntilPdu(w, a.t);
    }
  }

  /** An action keeps all responses on their way if and only if it does not make one go astray. */
  lemma {:induction false} ActionRoutesIff(w: World, a: Action)
    requires Ordered(w) && R.Routable(w.routing)
    ensures Do(w, a).routing.Valid() && (R.Routable(Do(w, a).routing) <==> !Astray(w, a))
  {
    if EventOf(w, a).Some? {
      R.StepRoutesIff(w.routing, EventOf(w, a).value);
      ClashesIffAstray(w, a);
    }
  }

  /** Responses find their slots before, between and after the actions. */
  predicate AlwaysRoutable(w: World, actions: seq<Action>)
    requires Ordered(w)
    decreases |actions|
  {
    && R.Routable(w.routing)
    && (actions != [] ==> (ActionKeepsOrdered(w, actions[0]); AlwaysRoutable(Do(w, actions[0]), actions[1..])))
  }

  predicate NeverAstray(w: World, actions: seq<Action>)
    requires Ordered(w)
    decreases |actions|
  {
    actions != [] ==>
      && !Astray(w, actions[0])
      && (ActionKeepsOrdered(w, actions[0]); NeverAstray(Do(w, actions[0]), actions[1..]))
  }

  lemma {:induction false} RunRoutesIff(w: World, actions: seq<Action>)
    requires Ordered(w) && R.Routable(w.routing)
    ensures AlwaysRoutable(w, actions) <==> NeverAstray(w, actions)
    decreases |actions|
  {
    if actions != [] {
      ActionKeepsOrdered(w, actions[0]);
      ActionRoutesIff(w, actions[0]);
      if R.Routable(Do(w, actions[0]).routing) {
        RunRoutesIff(Do(w, actions[0]), actions[1..]);
      }
    }
  }

  /** Fresh storage, nobody doing anything. */
  predicate Fresh(w: World, dataLen: nat) {
    && Initial(w.sys) && w.routing == R.Start(|w.sys.states|, dataLen)
    && |w.tasks| == |w.sys.callers| && forall t :: 0 <= t < |w.tasks| ==> w.tasks[t].Nothing?
  }

  /** From fresh storage on, with any number of callers in any interleaving: every frame's response finds its slot at
      every moment if and only if no late clearing hits a new frame and no first PDU gets an index that is carried by
      a lower slot or awaited in a higher one. */
  lemma {:induction false} ProgramsRouteRightIff(w: World, dataLen: nat, actions: seq<Action>)
    requires Fresh(w, dataLen)
    ensures Ordered(w)
    ensures AlwaysRoutable(w, actions) <==> NeverAstray(w, actions)
  {
    RunRoutesIff(w, actions);
  }

  // --- A run on which a response goes astray

  lemma {:induction false} FirstAction(w: World, a: Action, rest: seq<Action>)
    requires Ordered(w)
    ensures Ordered(Do(w, a))
    ensures NeverAstray(w, [a] + rest) <==> !Astray(w, a) && NeverAstray(Do(w, a), rest)
  {
    ActionKeepsOrdered(w, a);
    assert ([a] + rest)[1..] == rest;
  }

  /** A caller that gets a slot and an index for its first PDU. */
  function PushActions(t: nat): seq<Action> {
    [Atomic(CallerDoes(t, TryClaim))] + ([InitSlot(t)] + ([TakeIndex(t)] + ([PushFits(t)] + [])))
  }

  lemma {:induction false} FreshLowerSlotIsHit(w: World, t: nat)
    requires Ordered(w) && t < |w.tasks| && w.tasks[t].Nothing? && w.sys.callers[t].Claiming?
      && w.sys.callers[t].slot > 0
    requires w.sys.states[w.sys.callers[t].slot].Free?
    requires w.routing.store.slots[0].firstPdu == w.routing.next % 256
    ensures !NeverAstray(w, PushActions(t))
  {
    var s := w.sys.callers[t].slot;
    assert SlotAgrees(w, s);
    var w1 := Do(w, Atomic(CallerDoes(t, TryClaim)));
    FirstAction(w, Atomic(CallerDoes(t, TryClaim)), [InitSlot(t)] + ([TakeIndex(t)] + ([PushFits(t)] + [])));
    assert w1.tasks[t] == MustInit(s) && w1.routing.awaited[s].None? && w1.sys.callers[t] == Building(s);
    var w2 := Do(w1, InitSlot(t));
    FirstAction(w1, InitSlot(t), [TakeIndex(t)] + ([PushFits(t)] + []));
    assert w2.tasks[t] == Nothing && w2.routing.awaited[s].None?;
    var w3 := Do(w2, TakeIndex(t));
    FirstAction(w2, TakeIndex(t), [PushFits(t)] + []);
    assert w3.tasks[t] == HasIndex(s, w.routing.next) && w3.routing.awaited[s].None?;
    FirstAction(w3, PushFits(t), []);
    assert w3.routing.store.slots[0].firstPdu == w.routing.next % 256;
    assert Astray(w3, PushFits(t));
  }

  /** A caller that enters the allocation and is given a slot to try. */
  function ProbeActions(t: nat, rest: seq<Action>): seq<Action> {
    [Atomic(CallerDoes(t, Begin))] + ([Atomic(CallerDoes(t, FetchAdd))] + rest)
  }

  lemma {:induction false} SlotIsGiven(w: World, t: nat, rest: seq<Action>) returns (now: World)
    requires Ordered(w) && t < |w.tasks| && w.tasks[t].Nothing? && w.sys.callers[t].Idle?
    ensures Ordered(now) && now.tasks == w.tasks && now.sys.states == w.sys.states
    ensures now.sys.frameIdx == Advance(w.sys.frameIdx, 1)
    ensures var n := |w.sys.states|;
      now.sys.callers == w.sys.callers[t := Claiming(2 * n - 1, SlotOf(w.sys.frameIdx, n))]
    ensures now.routing.next == w.routing.next
    ensures forall s :: 0 <= s < |w.sys.states| ==>
      now.routing.store.slots[s].firstPdu == w.routing.store.slots[s].firstPdu
    ensures NeverAstray(w, ProbeActions(t, rest)) ==> NeverAstray(now, rest)
  {
    var w1 := Do(w, Atomic(CallerDoes(t, Begin)));
    FirstAction(w, Atomic(CallerDoes(t, Begin)), [Atomic(CallerDoes(t, FetchAdd))] + rest);
    assert w1.sys.callers[t] == Probing(2 * |w.sys.states|) && w1.tasks == w.tasks;
    now := Do(w1, Atomic(CallerDoes(t, FetchAdd)));
    FirstAction(w1, Atomic(CallerDoes(t, FetchAdd)), rest);
    assert now.tasks == w.tasks;
  }

  lemma {:induction false} FreshBegins(w: World, dataLen: nat, n: nat)
    requires Fresh(w, dataLen) && n == |w.sys.states| >= 2
    ensures Ordered(w) && w.routing.store.slots[0].firstPdu == 0 && w.routing.next == 0
    ensures SlotOf(Advance(0, 1), n) == 1
  {
  }

  /** Two callers enter the allocation on fresh storage, and the one that was given slot 1 is first to claim and to
      push: its PDU gets index 0, which the fresh slot 0 carries. */
  lemma {:induction false} OvertakingGoesAstray(w: World, dataLen: nat, t: nat, u: nat)
    requires Fresh(w, dataLen) && |w.sys.states| >= 2 && w.sys.frameIdx == 0
    requires t < |w.tasks| && u < |w.tasks| && t != u
    ensures Ordered(w) && !AlwaysRoutable(w, ProbeActions(t, ProbeActions(u, PushActions(u))))
  {
    var push := PushActions(u);
    var rest := ProbeActions(u, push);
    FreshBegins(w, dataLen, |w.sys.states|);
    var w1 := SlotIsGiven(w, t, rest);
    var w2 := SlotIsGiven(w1, u, push);
    assert w2.sys.callers[u].slot == 1 && w2.routing.store.slots[0].firstPdu == 0 && w2.routing.next == 0;
    assert !NeverAstray(w2, push) by {
      FreshLowerSlotIsHit(w2, u);
    }
    ProgramsRouteRightIff(w, dataLen, ProbeActions(t, rest));
  }
}
