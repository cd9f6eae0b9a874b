/** Frames under concurrency: any interleaving of the atomic steps of callers, the sender and the receiver. */
module FrameInterleaving {
  import opened Common
  import opened FrameSlots

  /** What a caller is doing; from `Building` on it owns a slot. `Checking` is a poll of the future that found the
      slot in state `was` instead of `RxDone`. */
  datatype Caller =
    | Idle
    | Probing(left: nat)
    | Claiming(left: nat, slot: nat)
    | Building(slot: nat)
    | Waiting(slot: nat)
    | Checking(slot: nat, was: FrameState)
    | Reading(slot: nat)

  /** Slot states, the probe counter, the callers, and the slots held by the one sender and the one receiver.
      `probes` counts the probes of each caller's latest allocation. */
  datatype System = System(states: seq<FrameState>, frameIdx: u8, callers: seq<Caller>, probes: seq<nat>,
                           sender: Option<nat>, receiver: Option<nat>)

  datatype CallerStep =
    | Begin         // enter the allocation
    | FetchAdd      // take a counter value
    | TryClaim      // compare-and-swap the slot from `Free` to `Created`
    | DropCreated   // drop a frame that was not sent
    | MarkSendable
    | Poll          // compare-and-swap the slot from `RxDone` to `RxProcessing`
    | StillPending  // the poll found no response, and no timeout either
    | Retry         // the poll found a timeout, with retries left
    | TimedOut      // the poll found a timeout, without retries left
    | DropFuture
    | DropReceived

  datatype Step =
    | CallerDoes(t: nat, step: CallerStep)
    | SenderClaims(s: nat)
    | SenderSent
    | SenderFailed
    | ReceiverClaims(s: nat)
    | ReceiverDone
    | ReceiverFailed

  /** The slot a caller owns. */
  function Owned(c: Caller): Option<nat> {
    match c
    case Building(s) => Some(s)
    case Waiting(s) => Some(s)
    case Checking(s, _) => Some(s)
    case Reading(s) => Some(s)
    case _ => None
  }

  /** The slot a caller refers to, owned or not. */
  function Refers(c: Caller): Option<nat> {
    if c.Claiming? then Some(c.slot) else Owned(c)
  }

  predicate WellFormed(sys: System) {
    && 0 < |sys.states| && |sys.probes| == |sys.callers|
    && (forall t :: 0 <= t < |sys.callers| && Refers(sys.callers[t]).Some? ==>
         Refers(sys.callers[t]).value < |sys.states|)
    && (sys.sender.Some? ==> sys.sender.value < |sys.states|)
    && (sys.receiver.Some? ==> sys.receiver.value < |sys.states|)
  }

  /** A poll that finds one of these states leaves the future waiting. */
  predicate Pending(state: FrameState) {
    state.Sendable? || state.Sending? || state.Sent? || state.RxBusy?
  }

  /** What a step leaves of its caller and of the slot that caller refers to. */
  datatype Effect = Effect(caller: Caller, state: FrameState)

  /** A caller's step on the slot it refers to, which is in state `now`. */
  function Act(c: Caller, step: CallerStep, now: FrameState): Effect
    requires Refers(c).Some?
  {
    match (c, step)
    case (Claiming(left, s), TryClaim) => if now.Free? then Effect(Building(s), Created) else Effect(Probing(left), now)
    case (Building(s), DropCreated) => Effect(Idle, if now.Created? then Free else now)
    case (Building(s), MarkSendable) => Effect(Waiting(s), Sendable)
    case (Waiting(s), Poll) => if now.RxDone? then Effect(Reading(s), RxProcessing) else Effect(Checking(s, now), now)
    case (Waiting(s), DropFuture) => Effect(Idle, Free)
    case (Checking(s, was), StillPending) => Effect(if Pending(was) then Waiting(s) else Idle, now)
    case (Checking(s, was), Retry) => Effect(if Pending(was) then Waiting(s) else Idle, Sendable)
    case (Checking(s, was), TimedOut) => Effect(Idle, Free)
    case (Reading(s), DropReceived) => if now.RxProcessing? then Effect(Idle, Free) else Effect(c, now)
    case _ => Effect(c, now)
  }

  /** A step on a slot. */
  function ActOnSlot(sys: System, t: nat, step: CallerStep): System
    requires WellFormed(sys) && t < |sys.callers| && Refers(sys.callers[t]).Some?
  {
    var s := Refers(sys.callers[t]).value;
    var e := Act(sys.callers[t], step, sys.states[s]);
    sys.(callers := sys.callers[t := e.caller], states := sys.states[s := e.state])
  }

  /** A step without a slot: entering the allocation, taking a counter value, giving up. */
  function Search(sys: System, t: nat, step: CallerStep): System
    requires WellFormed(sys) && t < |sys.callers|
  {
    var c, n := sys.callers[t], |sys.states|;
    if c.Idle? && step.Begin? then
      sys.(callers := sys.callers[t := Probing(2 * n)], probes := sys.probes[t := 0])
    else if c.Probing? && step.FetchAdd? && c.left == 0 then
      sys.(callers := sys.callers[t := Idle])
    else if c.Probing? && step.FetchAdd? then
      sys.(callers := sys.callers[t := Claiming(c.left - 1, SlotOf(sys.frameIdx, n))],
           probes := sys.probes[t := sys.probes[t] + 1], frameIdx := Advance(sys.frameIdx, 1))
    else sys
  }

  /** Compare-and-swap of a slot state. */
  function Swap(states: seq<FrameState>, s: nat, from: FrameState, to: FrameState): seq<FrameState>
    requires s < |states|
  {
    if states[s] == from then states[s := to] else states
  }

  /** One atomic step; a step that is not possible does nothing. The sender finishes a frame with a plain store,
      everybody else but the owner uses compare-and-swap. */
  function Next(sys: System, step: Step): System
    requires WellFormed(sys)
  {
    match step
    case CallerDoes(t, cs) =>
      if t >= |sys.callers| then sys
      else if Refers(sys.callers[t]).Some? then ActOnSlot(sys, t, cs)
      else Search(sys, t, cs)
    case SenderClaims(s) =>
      if sys.sender.None? && s < |sys.states| && sys.states[s].Sendable?
      then sys.(sender := Some(s), states := sys.states[s := Sending]) else sys
    case SenderSent =>
      if sys.sender.Some? then sys.(sender := None, states := sys.states[sys.sender.value := Sent]) else sys
    case SenderFailed =>
      if sys.sender.Some? then sys.(sender := None, states := sys.states[sys.sender.value := Sendable]) else sys
    case ReceiverClaims(s) =>
      if sys.receiver.None? && s < |sys.states| && sys.states[s].Sent?
      then sys.(receiver := Some(s), states := sys.states[s := RxBusy]) else sys
    case ReceiverDone =>
      if sys.receiver.Some?
      then sys.(receiver := None, states := Swap(sys.states, sys.receiver.value, RxBusy, RxDone)) else sys
    case ReceiverFailed =>
      sys.(receiver := None)
  }

  // --- What every step keeps

  /** No slot has two owners. */
  predicate Exclusive(sys: System) {
    forall t, u :: 0 <= t < u < |sys.callers| && Owned(sys.callers[t]).Some? ==>
      Owned(sys.callers[t]) != Owned(sys.callers[u])
  }

  /** An owned slot is not free; one whose response is being read is in `RxProcessing`. */
  predicate SlotFits(c: Caller, states: seq<FrameState>)
    requires Owned(c).Some? ==> Owned(c).value < |states|
  {
    Owned(c).Some? ==> !states[Owned(c).value].Free? && (c.Reading? ==> states[c.slot].RxProcessing?)
  }

  /** A slot the sender holds has not been answered. */
  predicate Unanswered(state: FrameState) {
    state.Free? || state.Created? || state.Sendable? || state.Sending?
  }

  /** Probes done and probes left make two rounds. */
  predicate Counted(c: Caller, probes: nat, n: nat) {
    match c
    case Probing(left) => probes + left == 2 * n
    case Claiming(left, _) => probes + left == 2 * n
    case _ => probes <= 2 * n
  }

  predicate Inv(sys: System) {
    && WellFormed(sys)
    && Exclusive(sys)
    && (forall t :: 0 <= t < |sys.callers| ==> SlotFits(sys.callers[t], sys.states))
    && (forall t :: 0 <= t < |sys.callers| ==> Counted(sys.callers[t], sys.probes[t], |sys.states|))
    && (sys.sender.Some? ==> Unanswered(sys.states[sys.sender.value]))
  }

  lemma {:induction false} ActKeepsInv(sys: System, t: nat, step: CallerStep)
    requires Inv(sys) && t < |sys.callers| && Refers(sys.callers[t]).Some?
    ensures Inv(ActOnSlot(sys, t, step))
  {
    var after := ActOnSlot(sys, t, step);
    var c, s := sys.callers[t], Refers(sys.callers[t]).value;
    assert SlotFits(c, sys.states) && Counted(c, sys.probes[t], |sys.states|);
    assert forall u :: 0 <= u < |sys.callers| && u != t ==> after.callers[u] == sys.callers[u];
    forall u | 0 <= u < |sys.callers|
      ensures SlotFits(after.callers[u], after.states) && Counted(after.callers[u], after.probes[u], |after.states|)
    {
      assert SlotFits(sys.callers[u], sys.states) && Counted(sys.callers[u], sys.probes[u], |sys.states|);
    }
  }

  lemma {:induction false} SearchKeepsInv(sys: System, t: nat, step: CallerStep)
    requires Inv(sys) && t < |sys.callers| && Refers(sys.callers[t]).None?
    ensures Inv(Search(sys, t, step))
  {
    var after := Search(sys, t, step);
    assert Counted(sys.callers[t], sys.probes[t], |sys.states|);
    forall u | 0 <= u < |sys.callers|
      ensures SlotFits(after.callers[u], after.states) && Counted(after.callers[u], after.probes[u], |after.states|)
    {
      assert SlotFits(sys.callers[u], sys.states) && Counted(sys.callers[u], sys.probes[u], |sys.states|);
    }
  }

  lemma {:induction false} WireKeepsInv(sys: System, step: Step)
    requires Inv(sys) && !step.CallerDoes?
    ensures Inv(Next(sys, step))
  {
    var after := Next(sys, step);
    forall u | 0 <= u < |sys.callers|
      ensures SlotFits(after.callers[u], after.states) && Counted(after.callers[u], after.probes[u], |after.states|)
    {
      assert SlotFits(sys.callers[u], sys.states) && Counted(sys.callers[u], sys.probes[u], |sys.states|);
    }
  }

  lemma {:induction false} StepKeepsInv(sys: System, step: Step)
    requires Inv(sys)
    ensures Inv(Next(sys, step))
  {
    if step.CallerDoes? {
      if step.t < |sys.callers| {
        if Refers(sys.callers[step.t]).Some? {
          ActKeepsInv(sys, step.t, step.step);
        } else {
          SearchKeepsInv(sys, step.t, step.step);
        }
      }
    } else {
      WireKeepsInv(sys, step);
    }
  }

  /** The slot whose state a step may change. */
  function Touched(sys: System, step: Step): (s: nat)
    requires WellFormed(sys)
    ensures s < |sys.states|
  {
    match step
    case CallerDoes(t, _) =>
      if t < |sys.callers| && Refers(sys.callers[t]).Some? then Refers(sys.callers[t]).value else 0
    case SenderClaims(s) => if s < |sys.states| then s else 0
    case ReceiverClaims(s) => if s < |sys.states| then s else 0
    case SenderSent => if sys.sender.Some? then sys.sender.value else 0
    case SenderFailed => if sys.sender.Some? then sys.sender.value else 0
    case ReceiverDone => if sys.receiver.Some? then sys.receiver.value else 0
    case ReceiverFailed => 0
  }

  /** A step changes the state of no other slot. */
  lemma {:induction false} StepTouchesOneSlot(sys: System, step: Step)
    requires WellFormed(sys)
    ensures |Next(sys, step).states| == |sys.states|
    ensures Next(sys, step).states == sys.states[Touched(sys, step) := Next(sys, step).states[Touched(sys, step)]]
  {
  }

  /** The state after a run of steps. */
  function Run(sys: System, steps: seq<Step>): System
    requires Inv(sys)
    decreases |steps|
  {
    if steps == [] then sys
    else
      StepKeepsInv(sys, steps[0]);
      Run(Next(sys, steps[0]), steps[1..])
  }

  /** All slots free, nobody doing anything; the counter may have any value. */
  predicate Initial(sys: System) {
    && 0 < |sys.states| && |sys.probes| == |sys.callers| && sys.sender.None? && sys.receiver.None?
    && (forall s :: 0 <= s < |sys.states| ==> sys.states[s].Free?)
    && (forall t :: 0 <= t < |sys.callers| ==> sys.callers[t].Idle? && sys.probes[t] == 0)
  }

  lemma {:induction false} RunKeepsInv(sys: System, steps: seq<Step>)
    requires Inv(sys)
    ensures Inv(Run(sys, steps))
    decreases |steps|
  {
    if steps != [] {
      StepKeepsInv(sys, steps[0]);
      RunKeepsInv(Next(sys, steps[0]), steps[1..]);
    }
  }

  /** In every interleaving: no slot ever has two owners, and none is up for grabs while it has one. */
  lemma {:induction false} SlotsHaveOneOwner(sys: System, steps: seq<Step>, t: nat, u: nat)
    requires Initial(sys) && t < u < |sys.callers|
    ensures Inv(sys)
    ensures var now := Run(sys, steps);
      && u < |now.callers|
      && (Owned(now.callers[t]).Some? ==>
            && Owned(now.callers[t]) != Owned(now.callers[u])
            && Owned(now.callers[t]).value < |now.states| && !now.states[Owned(now.callers[t]).value].Free?)
  {
    RunKeepsInv(sys, steps);
    RunKeepsShape(sys, steps);
    var now := Run(sys, steps);
    assert SlotFits(now.callers[t], now.states);
  }

  lemma {:induction false} RunKeepsShape(sys: System, steps: seq<Step>)
    requires Inv(sys)
    ensures |Run(sys, steps).callers| == |sys.callers| && |Run(sys, steps).states| == |sys.states|
    decreases |steps|
  {
    if steps != [] {
      StepKeepsInv(sys, steps[0]);
      RunKeepsShape(Next(sys, steps[0]), steps[1..]);
    }
  }

  /** In every interleaving each allocation makes at most two rounds of probes, and gives up only after all of them. */
  lemma {:induction false} AllocationsAreBounded(sys: System, steps: seq<Step>, t: nat)
    requires Initial(sys) && t < |sys.callers|
    ensures Inv(sys)
    ensures t < |Run(sys, steps).probes| && Run(sys, steps).probes[t] <= 2 * |sys.states|
    ensures t < |Run(sys, steps).callers| && Run(sys, steps).callers[t] == Probing(0) ==>
      Run(sys, steps).probes[t] == 2 * |sys.states|
  {
    RunKeepsInv(sys, steps);
    RunKeepsShape(sys, steps);
    var now := Run(sys, steps);
    assert Counted(now.callers[t], now.probes[t], |now.states|);
  }

  /** In every interleaving a received frame is dropped in state `RxProcessing`, so the unwrap of that swap
      never panics. */
  lemma {:induction false} DropOfReceivedFrameSucceeds(sys: System, steps: seq<Step>, t: nat)
    requires Initial(sys) && t < |sys.callers|
    ensures Inv(sys) && Inv(Run(sys, steps))
    ensures var now := Run(sys, steps);
      && t < |now.callers|
      && (now.callers[t].Reading? ==>
            && now.callers[t].slot < |now.states| && now.states[now.callers[t].slot].RxProcessing?
            && Next(now, CallerDoes(t, DropReceived)).states[now.callers[t].slot].Free?)
  {
    RunKeepsInv(sys, steps);
    RunKeepsShape(sys, steps);
    var now := Run(sys, steps);
    assert SlotFits(now.callers[t], now.states);
  }

  // --- Slots that nobody can free any more

  predicate Owns(sys: System, t: nat, s: nat) {
    t < |sys.callers| && Owned(sys.callers[t]) == Some(s)
  }

  predicate Unowned(sys: System, s: nat) {
    forall t :: 0 <= t < |sys.callers| ==> !Owns(sys, t, s)
  }

  /** A slot in use without an owner. */
  predicate Leaked(sys: System, s: nat) {
    s < |sys.states| && !sys.states[s].Free? && Unowned(sys, s)
  }

  /** Only an owner frees a slot, so a leak is for ever. */
  lemma {:induction false} LeakIsPermanent(sys: System, steps: seq<Step>, s: nat)
    requires Inv(sys) && Leaked(sys, s)
    ensures Leaked(Run(sys, steps), s)
    decreases |steps|
  {
    if steps != [] {
      StepKeepsInv(sys, steps[0]);
      StepKeepsLeak(sys, steps[0], s);
      LeakIsPermanent(Next(sys, steps[0]), steps[1..], s);
    }
  }

  lemma {:induction false} StepKeepsLeak(sys: System, step: Step, s: nat)
    requires Inv(sys) && Leaked(sys, s)
    ensures Leaked(Next(sys, step), s)
  {
    var after := Next(sys, step);
    forall t | 0 <= t < |sys.callers|
      ensures !Owns(after, t, s)
    {
      assert !Owns(sys, t, s);
    }
    if step.CallerDoes? && step.t < |sys.callers| {
      assert !Owns(sys, step.t, s);
    }
  }

  /** The step frees the slot that the sender is busy with. */
  predicate FreesUnderSender(sys: System, step: Step) {
    && step.CallerDoes? && step.t < |sys.callers| && sys.sender.Some? && Owned(sys.callers[step.t]) == sys.sender
    && ((sys.callers[step.t].Waiting? && step.step.DropFuture?)
        || (sys.callers[step.t].Checking? && step.step.TimedOut?))
  }

  /** The sender finishes, or a caller is about to look whether the slot is free. */
  predicate Disturbs(sys: System, step: Step, s: nat) {
    || step.SenderSent? || step.SenderFailed?
    || (step.CallerDoes? && step.t < |sys.callers| && step.step.TryClaim?
        && sys.callers[step.t].Claiming? && sys.callers[step.t].slot == s)
  }

  predicate Undisturbed(sys: System, steps: seq<Step>, s: nat)
    requires Inv(sys)
    decreases |steps|
  {
    steps != [] ==>
      && !Disturbs(sys, steps[0], s)
      && (StepKeepsInv(sys, steps[0]); Undisturbed(Next(sys, steps[0]), steps[1..], s))
  }

  /** While the sender is busy with an ownerless slot, that stays so. */
  lemma {:induction false} OwnerlessWhileSent(sys: System, steps: seq<Step>, s: nat)
    requires Inv(sys) && sys.sender == Some(s) && Unowned(sys, s) && Undisturbed(sys, steps, s)
    ensures Run(sys, steps).sender == Some(s) && Unowned(Run(sys, steps), s)
    decreases |steps|
  {
    if steps != [] {
      StepKeepsInv(sys, steps[0]);
      OwnerlessStep(sys, steps[0], s);
      OwnerlessWhileSent(Next(sys, steps[0]), steps[1..], s);
    }
  }

  lemma {:induction false} OwnerlessStep(sys: System, step: Step, s: nat)
    requires Inv(sys) && sys.sender == Some(s) && Unowned(sys, s) && !Disturbs(sys, step, s)
    ensures Next(sys, step).sender == Some(s) && Unowned(Next(sys, step), s)
  {
    forall t: nat | t < |Next(sys, step).callers|
      ensures !Owns(Next(sys, step), t, s)
    {
      assert !Owns(sys, t, s);
    }
  }

  /** If a future is dropped, or runs out of retries, while its frame is being sent, and nobody claims the slot before
      the sender is done, then the slot is lost, whether sending succeeds or fails and whatever happens afterwards. */
  lemma {:induction false} FreeingUnderSenderLeaks(sys: System, step: Step, between: seq<Step>, finish: Step,
                                                   later: seq<Step>)
    requires Inv(sys) && FreesUnderSender(sys, step) && Inv(Next(sys, step))
    requires Undisturbed(Next(sys, step), between, sys.sender.value) && (finish.SenderSent? || finish.SenderFailed?)
    ensures Inv(Run(Next(sys, step), between)) && Inv(Next(Run(Next(sys, step), between), finish))
    ensures Leaked(Run(Next(Run(Next(sys, step), between), finish), later), sys.sender.value)
  {
    var s, freed := sys.sender.value, Next(sys, step);
    forall t: nat | t < |freed.callers|
      ensures !Owns(freed, t, s)
    {
      assert t != step.t ==> Owned(sys.callers[t]) != Owned(sys.callers[step.t]);
    }
    OwnerlessWhileSent(freed, between, s);
    RunKeepsInv(freed, between);
    var before := Run(freed, between);
    StepKeepsInv(before, finish);
    forall t: nat | t < |before.callers|
      ensures !Owns(Next(before, finish), t, s)
    {
      assert !Owns(before, t, s);
    }
    LeakIsPermanent(Next(before, finish), later, s);
  }

  /** The steps of a caller that claims the slot the counter points to, sends a frame and gives it up under the
      sender. */
  function LosingRun(s: nat, finish: Step): seq<Step> {
    [CallerDoes(0, Begin), CallerDoes(0, FetchAdd), CallerDoes(0, TryClaim), CallerDoes(0, MarkSendable),
     SenderClaims(s), CallerDoes(0, DropFuture), finish]
  }

  lemma {:induction false} RunFirst(sys: System, step: Step, rest: seq<Step>)
    requires Inv(sys)
    ensures Inv(Next(sys, step)) && Run(sys, [step] + rest) == Run(Next(sys, step), rest)
  {
    StepKeepsInv(sys, step);
    assert ([step] + rest)[1..] == rest;
  }

  lemma {:induction false} CallerClaims(sys: System, rest: seq<Step>) returns (now: System)
    requires Initial(sys) && |sys.callers| > 0
    ensures Inv(sys) && Inv(now)
    ensures var s := SlotOf(sys.frameIdx, |sys.states|);
      && |now.callers| > 0 && now.callers[0] == Building(s) && now.states == sys.states[s := Created]
         && now.sender.None? && now.receiver.None?
      && Run(sys, [CallerDoes(0, Begin)] + ([CallerDoes(0, FetchAdd)] + ([CallerDoes(0, TryClaim)] + rest)))
         == Run(now, rest)
  {
    var s, n := SlotOf(sys.frameIdx, |sys.states|), |sys.states|;
    var s1 := Next(sys, CallerDoes(0, Begin));
    RunFirst(sys, CallerDoes(0, Begin), [CallerDoes(0, FetchAdd)] + ([CallerDoes(0, TryClaim)] + rest));
    assert s1.callers[0] == Probing(2 * n);
    var s2 := Next(s1, CallerDoes(0, FetchAdd));
    RunFirst(s1, CallerDoes(0, FetchAdd), [CallerDoes(0, TryClaim)] + rest);
    assert s2.callers[0] == Claiming(2 * n - 1, s);
    now := Next(s2, CallerDoes(0, TryClaim));
    RunFirst(s2, CallerDoes(0, TryClaim), rest);
  }

  lemma {:induction false} CallerIsSent(sys: System, s: nat, rest: seq<Step>) returns (now: System)
    requires Inv(sys) && |sys.callers| > 0 && sys.callers[0] == Building(s) && sys.sender.None?
    ensures Inv(now) && |now.callers| > 0 && now.callers[0] == Waiting(s) && now.sender == Some(s)
    ensures Run(sys, [CallerDoes(0, MarkSendable)] + ([SenderClaims(s)] + rest)) == Run(now, rest)
  {
    var s4 := Next(sys, CallerDoes(0, MarkSendable));
    RunFirst(sys, CallerDoes(0, MarkSendable), [SenderClaims(s)] + rest);
    assert s4.callers[0] == Waiting(s) && s4.states[s].Sendable?;
    now := Next(s4, SenderClaims(s));
    RunFirst(s4, SenderClaims(s), rest);
  }

  /** From any initial system with a caller a slot can be lost. */
  lemma {:induction false} LossIsReachable(sys: System, finish: Step)
    requires Initial(sys) && |sys.callers| > 0 && (finish.SenderSent? || finish.SenderFailed?)
    ensures Inv(sys)
    ensures var s := SlotOf(sys.frameIdx, |sys.states|); Leaked(Run(sys, LosingRun(s, finish)), s)
  {
    var s := SlotOf(sys.frameIdx, |sys.states|);
    LosingRunSplits(s, finish);
    var s3 := CallerClaims(sys, LosingRun(s, finish)[3..]);
    var s5 := CallerIsSent(s3, s, [CallerDoes(0, DropFuture)] + [finish]);
    var s6 := Next(s5, CallerDoes(0, DropFuture));
    RunFirst(s5, CallerDoes(0, DropFuture), [finish]);
    RunFirst(s6, finish, []);
    FreeingUnderSenderLeaks(s5, CallerDoes(0, DropFuture), [], finish, []);
  }

  lemma {:induction false} LosingRunSplits(s: nat, finish: Step)
    ensures var run := LosingRun(s, finish);
      && run == [run[0]] + ([run[1]] + ([run[2]] + run[3..]))
      && run[3..] == [CallerDoes(0, MarkSendable)] + ([SenderClaims(s)] + ([CallerDoes(0, DropFuture)] + [finish]))
      && [finish] == [finish] + []
  {
  }

  // --- Exactly when a slot is lost

  /** Every slot in use has an owner. */
  predicate NoLeak(sys: System) {
    forall s :: 0 <= s < |sys.states| && !sys.states[s].Free? ==> exists t :: 0 <= t < |sys.callers| && Owns(sys, t, s)
  }

  /** The step loses a slot: the sender finishes a slot without an owner, or a caller lets go of a slot that is not in
      the state the caller expects. */
  predicate Loses(sys: System, step: Step) {
    match step
    case SenderSent => sys.sender.Some? && Unowned(sys, sys.sender.value)
    case SenderFailed => sys.sender.Some? && Unowned(sys, sys.sender.value)
    case CallerDoes(t, cs) =>
      t < |sys.callers| &&
      (match (sys.callers[t], cs)
       case (Building(s), DropCreated) => s < |sys.states| && !sys.states[s].Created?
       case (Checking(_, was), StillPending) => !Pending(was)
       case (Checking(_, was), Retry) => !Pending(was)
       case _ => false)
    case _ => false
  }

  lemma {:induction false} LosingStepLeaks(sys: System, step: Step) returns (s: nat)
    requires Inv(sys) && Loses(sys, step)
    ensures Leaked(Next(sys, step), s)
  {
    if step.CallerDoes? {
      s := Owned(sys.callers[step.t]).value;
      assert SlotFits(sys.callers[step.t], sys.states);
      forall t: nat | t < |sys.callers|
        ensures !Owns(Next(sys, step), t, s)
      {
        assert t != step.t ==> Owned(sys.callers[t]) != Owned(sys.callers[step.t]);
      }
    } else {
      s := sys.sender.value;
      forall t: nat | t < |sys.callers|
        ensures !Owns(Next(sys, step), t, s)
      {
        assert !Owns(sys, t, s);
      }
    }
  }

  lemma {:induction false} OtherStepsLoseNothing(sys: System, step: Step)
    requires Inv(sys) && NoLeak(sys) && !Loses(sys, step)
    ensures NoLeak(Next(sys, step))
  {
    var after := Next(sys, step);
    if sys.sender.Some? && !Unowned(sys, sys.sender.value) {
      var t: nat :| t < |sys.callers| && Owns(sys, t, sys.sender.value);
      assert SlotFits(sys.callers[t], sys.states);
    }
    forall s | 0 <= s < |after.states| && !after.states[s].Free?
      ensures exists t :: 0 <= t < |after.callers| && Owns(after, t, s)
    {
      if !sys.states[s].Free? {
        var t: nat :| t < |sys.callers| && Owns(sys, t, s);
        assert SlotFits(sys.callers[t], sys.states);
        assert Owns(after, t, s);
      } else {
        assert step.CallerDoes? && Owns(after, step.t, s);
      }
    }
  }

  /** A step keeps every slot in use owned exactly if it does not lose one. */
  lemma {:induction false} StepLosesIff(sys: System, step: Step)
    requires Inv(sys) && NoLeak(sys)
    ensures NoLeak(Next(sys, step)) <==> !Loses(sys, step)
  {
    if Loses(sys, step) {
      var s := LosingStepLeaks(sys, step);
      assert forall t :: 0 <= t < |Next(sys, step).callers| ==> !Owns(Next(sys, step), t, s);
    } else {
      OtherStepsLoseNothing(sys, step);
    }
  }

  /** No slot is lost before, between and after the steps. */
  predicate NeverLeaks(sys: System, steps: seq<Step>)
    requires Inv(sys)
    decreases |steps|
  {
    NoLeak(sys) && (steps != [] ==> (StepKeepsInv(sys, steps[0]); NeverLeaks(Next(sys, steps[0]), steps[1..])))
  }

  predicate NeverLoses(sys: System, steps: seq<Step>)
    requires Inv(sys)
    decreases |steps|
  {
    steps != [] ==>
      && !Loses(sys, steps[0])
      && (StepKeepsInv(sys, steps[0]); NeverLoses(Next(sys, steps[0]), steps[1..]))
  }

  lemma {:induction false} RunLosesIff(sys: System, steps: seq<Step>)
    requires Inv(sys) && NoLeak(sys)
    ensures NeverLeaks(sys, steps) <==> NeverLoses(sys, steps)
    decreases |steps|
  {
    if steps != [] {
      StepKeepsInv(sys, steps[0]);
      StepLosesIff(sys, steps[0]);
      if NoLeak(Next(sys, steps[0])) {
        RunLosesIff(Next(sys, steps[0]), steps[1..]);
      }
    }
  }

  /** In every interleaving from the start: no slot is ever lost if and only if no step loses one. */
  lemma {:induction false} SlotsAreLostIff(sys: System, steps: seq<Step>)
    requires Initial(sys)
    ensures Inv(sys)
    ensures NeverLeaks(sys, steps) <==> NeverLoses(sys, steps)
  {
    RunLosesIff(sys, steps);
  }

  // --- Runs without that race

  /** A caller's slot is in one of the states that its place in a frame's journey allows. */
  predicate OnJourney(c: Caller, states: seq<FrameState>)
    requires Owned(c).Some? ==> Owned(c).value < |states|
  {
    match c
    case Building(s) => states[s].Created?
    case Waiting(s) => Pending(states[s]) || states[s].RxDone?
    case Checking(s, was) => (Pending(states[s]) || states[s].RxDone?) && Pending(was)
    case Reading(s) => states[s].RxProcessing?
    case _ => true
  }

  /** The sender's slot is being sent for somebody who waits. */
  predicate SentForSomebody(sys: System)
    requires WellFormed(sys)
  {
    sys.sender.Some? ==>
      && (sys.states[sys.sender.value].Sending? || sys.states[sys.sender.value].Sendable?)
      && exists t :: 0 <= t < |sys.callers| && Owns(sys, t, sys.sender.value)
  }

  predicate Tidy(sys: System) {
    && Inv(sys) && NoLeak(sys) && SentForSomebody(sys)
    && forall t :: 0 <= t < |sys.callers| ==> OnJourney(sys.callers[t], sys.states)
  }

  /** No step of the run frees a slot that the sender is busy with. */
  predicate Prompt(sys: System, steps: seq<Step>)
    requires Inv(sys)
    decreases |steps|
  {
    steps != [] ==>
      && !FreesUnderSender(sys, steps[0])
      && (StepKeepsInv(sys, steps[0]); Prompt(Next(sys, steps[0]), steps[1..]))
  }

  lemma {:induction false} StepKeepsTidy(sys: System, step: Step)
    requires Tidy(sys) && !FreesUnderSender(sys, step)
    ensures Tidy(Next(sys, step))
  {
    StepKeepsInv(sys, step);
    StepKeepsJourney(sys, step);
    StepKeepsOwners(sys, step);
  }

  /** The state of an owned slot after a step of somebody else. */
  lemma {:induction false} OthersLeaveJourney(sys: System, step: Step, t: nat)
    requires Tidy(sys) && t < |sys.callers| && Owned(sys.callers[t]).Some?
    requires step.CallerDoes? ==> step.t != t
    ensures var after := Next(sys, step);
      |after.callers| == |sys.callers| && |after.states| == |sys.states| && after.callers[t] == sys.callers[t]
      && OnJourney(sys.callers[t], after.states)
  {
    assert OnJourney(sys.callers[t], sys.states) && SlotFits(sys.callers[t], sys.states);
    if step.CallerDoes? && step.t < |sys.callers| {
      assert Owned(sys.callers[step.t]) != Owned(sys.callers[t]);
    } else if sys.sender == Owned(sys.callers[t]) {
      assert sys.callers[t].Waiting? || sys.callers[t].Checking?;
    }
  }

  /** The state of an owned slot after a step of its owner. */
  lemma {:induction false} OwnStepIsOnJourney(sys: System, t: nat, step: CallerStep)
    requires Tidy(sys) && t < |sys.callers|
    ensures var after := Next(sys, CallerDoes(t, step));
      |after.callers| == |sys.callers| && |after.states| == |sys.states|
      && (Owned(after.callers[t]).Some? ==> Owned(after.callers[t]).value < |after.states|)
      && OnJourney(after.callers[t], after.states)
  {
    assert OnJourney(sys.callers[t], sys.states);
  }

  lemma {:induction false} StepKeepsJourney(sys: System, step: Step)
    requires Tidy(sys) && Inv(Next(sys, step))
    ensures var after := Next(sys, step);
      |after.callers| == |sys.callers| && forall t :: 0 <= t < |after.callers| ==>
        OnJourney(after.callers[t], after.states)
  {
    var after := Next(sys, step);
    assert |after.callers| == |sys.callers|;
    forall t | 0 <= t < |after.callers|
      ensures OnJourney(after.callers[t], after.states)
    {
      if step.CallerDoes? && step.t == t {
        OwnStepIsOnJourney(sys, t, step.step);
      } else if Owned(sys.callers[t]).Some? {
        OthersLeaveJourney(sys, step, t);
      }
    }
  }

  /** An owner stays the owner until it frees the slot. */
  lemma {:induction false} OwnerStays(sys: System, step: Step, t: nat, s: nat)
    requires Tidy(sys) && Owns(sys, t, s) && s < |Next(sys, step).states| && !Next(sys, step).states[s].Free?
    ensures Owns(Next(sys, step), t, s)
  {
    assert OnJourney(sys.callers[t], sys.states);
  }

  lemma {:induction false} StepKeepsOwners(sys: System, step: Step)
    requires Tidy(sys) && Inv(Next(sys, step)) && !FreesUnderSender(sys, step)
    ensures NoLeak(Next(sys, step)) && SentForSomebody(Next(sys, step))
  {
    var after := Next(sys, step);
    forall s | 0 <= s < |after.states| && !after.states[s].Free?
      ensures exists t :: 0 <= t < |after.callers| && Owns(after, t, s)
    {
      if step == SenderSent || step == SenderFailed {
        SenderFinishesForSomebody(sys, s);
      }
      if !sys.states[s].Free? {
        var t: nat :| t < |sys.callers| && Owns(sys, t, s);
        OwnerStays(sys, step, t, s);
      } else {
        assert step.CallerDoes? && Owns(after, step.t, s);
      }
    }
    SenderStillServes(sys, step);
  }

  lemma {:induction false} SenderFinishesForSomebody(sys: System, s: nat)
    requires Tidy(sys) && s < |sys.states|
    ensures sys.sender == Some(s) ==> !sys.states[s].Free?
  {
  }

  lemma {:induction false} SenderStillServes(sys: System, step: Step)
    requires Tidy(sys) && Inv(Next(sys, step)) && !FreesUnderSender(sys, step)
    ensures SentForSomebody(Next(sys, step))
  {
    var after := Next(sys, step);
    if after.sender.Some? {
      var s := after.sender.value;
      var t: nat :| t < |sys.callers| && Owns(sys, t, s);
      assert OnJourney(sys.callers[t], sys.states);
      if step.CallerDoes? && step.t < |sys.callers| && step.t != t {
        assert Owned(sys.callers[step.t]) != Some(s);
      }
      assert after.states[s].Sending? || after.states[s].Sendable?;
      OwnerStays(sys, step, t, s);
    }
  }

  /** The step after which things are not tidy any more is the one that frees a slot under the sender. */
  lemma {:induction false} StepKeepsTidyIff(sys: System, step: Step)
    requires Tidy(sys)
    ensures Tidy(Next(sys, step)) <==> !FreesUnderSender(sys, step)
  {
    if FreesUnderSender(sys, step) {
      var s, after := sys.sender.value, Next(sys, step);
      forall t: nat | t < |after.callers|
        ensures !Owns(after, t, s)
      {
        assert t != step.t ==> Owned(sys.callers[t]) != Owned(sys.callers[step.t]);
      }
      assert !SentForSomebody(after);
    } else {
      StepKeepsTidy(sys, step);
    }
  }

  lemma {:induction false} TidyStepsLoseNothing(sys: System, step: Step)
    requires Tidy(sys)
    ensures !Loses(sys, step)
  {
    if step.CallerDoes? && step.t < |sys.callers| {
      assert OnJourney(sys.callers[step.t], sys.states);
    } else if sys.sender.Some? {
      var t: nat :| t < |sys.callers| && Owns(sys, t, sys.sender.value);
    }
  }

  /** Every slot in use has an owner, every poll finds its slot in a state it expects and the sender works for somebody:
      before, between and after the steps. */
  predicate AlwaysTidy(sys: System, steps: seq<Step>)
    requires Inv(sys)
    decreases |steps|
  {
    Tidy(sys) && (steps != [] ==> (StepKeepsInv(sys, steps[0]); AlwaysTidy(Next(sys, steps[0]), steps[1..])))
  }

  lemma {:induction false} RunKeepsTidyIff(sys: System, steps: seq<Step>)
    requires Tidy(sys)
    ensures AlwaysTidy(sys, steps) <==> Prompt(sys, steps)
    ensures Prompt(sys, steps) ==> NeverLoses(sys, steps) && Tidy(Run(sys, steps))
    decreases |steps|
  {
    if steps != [] {
      StepKeepsInv(sys, steps[0]);
      StepKeepsTidyIff(sys, steps[0]);
      TidyStepsLoseNothing(sys, steps[0]);
      if Tidy(Next(sys, steps[0])) {
        RunKeepsTidyIff(Next(sys, steps[0]), steps[1..]);
      }
    }
  }

  lemma {:induction false} InitialIsTidy(sys: System)
    requires Initial(sys)
    ensures Tidy(sys)
  {
  }

  /** In every interleaving from the start: all is tidy at every moment if and only if no slot is ever freed under the
      sender, and then no slot is ever lost. */
  lemma {:induction false} PromptRunsLoseNothing(sys: System, steps: seq<Step>)
    requires Initial(sys)
    ensures Inv(sys)
    ensures AlwaysTidy(sys, steps) <==> Prompt(sys, steps)
    ensures Prompt(sys, steps) ==> NeverLeaks(sys, steps) && Tidy(Run(sys, steps))
  {
    InitialIsTidy(sys);
    RunKeepsTidyIff(sys, steps);
    SlotsAreLostIff(sys, steps);
  }
}
