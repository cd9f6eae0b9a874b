/** Frames get through: what a waiting caller can count on, whatever the other callers do. */
module FrameProgress {
  import opened Common
  import opened FrameSlots
  import opened FrameInterleaving

  /** Where the frame of caller `t` in slot `s` is on its way. */
  datatype Stage = Built | Queued | BeingSent | OnTheWire | BeingReceived | Answered | InUse

  predicate At(sys: System, t: nat, s: nat, stage: Stage)
    requires t < |sys.callers| && s < |sys.states|
  {
    match stage
    case Built => sys.callers[t] == Building(s)
    case Queued => sys.callers[t] == Waiting(s) && sys.states[s].Sendable? && sys.sender != Some(s)
    case BeingSent => sys.callers[t] == Waiting(s) && sys.states[s].Sending? && sys.sender == Some(s)
    case OnTheWire => sys.callers[t] == Waiting(s) && sys.states[s].Sent? && sys.sender != Some(s)
    case BeingReceived => sys.callers[t] == Waiting(s) && sys.states[s].RxBusy? && sys.receiver == Some(s)
    case Answered => sys.callers[t] == Waiting(s) && sys.states[s].RxDone?
    case InUse => sys.callers[t] == Reading(s) && sys.states[s].RxProcessing?
  }

  /** The step that takes the frame on, and the stage it leads to. */
  function NextStep(t: nat, s: nat, stage: Stage): Step
    requires !stage.InUse?
  {
    match stage
    case Built => CallerDoes(t, MarkSendable)
    case Queued => SenderClaims(s)
    case BeingSent => SenderSent
    case OnTheWire => ReceiverClaims(s)
    case BeingReceived => ReceiverDone
    case Answered => CallerDoes(t, Poll)
  }

  function NextStage(stage: Stage): Stage
    requires !stage.InUse?
  {
    match stage
    case Built => Queued
    case Queued => BeingSent
    case BeingSent => OnTheWire
    case OnTheWire => BeingReceived
    case BeingReceived => Answered
    case Answered => InUse
  }

  /** The sender or receiver is there for it. */
  predicate Ready(sys: System, s: nat, stage: Stage) {
    match stage
    case Built => sys.sender != Some(s)
    case Queued => sys.sender.None?
    case OnTheWire => sys.receiver.None?
    case _ => true
  }

  /** A step of another caller, or of the sender or receiver on another slot. */
  predicate Elsewhere(sys: System, step: Step, t: nat, s: nat) {
    match step
    case CallerDoes(u, _) => u != t
    case SenderClaims(x) => x != s
    case SenderSent => sys.sender != Some(s)
    case SenderFailed => sys.sender != Some(s)
    case ReceiverClaims(x) => x != s
    case ReceiverDone => sys.receiver != Some(s)
    case ReceiverFailed => sys.receiver != Some(s)
  }

  /** Steps elsewhere leave a frame where it is. */
  lemma {:induction false} ElsewhereKeepsStage(sys: System, step: Step, t: nat, s: nat, stage: Stage)
    requires Inv(sys) && t < |sys.callers| && s < |sys.states| && At(sys, t, s, stage) && Elsewhere(sys, step, t, s)
    ensures var now := Next(sys, step);
      t < |now.callers| && s < |now.states| && At(now, t, s, stage)
  {
    if step.CallerDoes? && step.t < |sys.callers| && step.t != t {
      assert Owned(sys.callers[step.t]) != Owned(sys.callers[t]);
      assert SlotFits(sys.callers[t], sys.states);
    }
  }

  /** A step of its own takes it on. */
  lemma {:induction false} NextStepLeadsOn(sys: System, t: nat, s: nat, stage: Stage)
    requires Inv(sys) && t < |sys.callers| && s < |sys.states| && At(sys, t, s, stage)
    requires !stage.InUse? && Ready(sys, s, stage)
    ensures var now := Next(sys, NextStep(t, s, stage));
      t < |now.callers| && s < |now.states| && At(now, t, s, NextStage(stage))
  {
  }

  /** The steps bring the frame of caller `t` from a stage to the end of its way, with any steps elsewhere in between.
      */
  predicate Brings(sys: System, steps: seq<Step>, t: nat, s: nat, stage: Stage)
    requires Inv(sys)
    decreases |steps|
  {
    if steps == [] then stage.InUse?
    else
      StepKeepsInv(sys, steps[0]);
      var now := Next(sys, steps[0]);
      || (Elsewhere(sys, steps[0], t, s) && Brings(now, steps[1..], t, s, stage))
      || (!stage.InUse? && Ready(sys, s, stage) && steps[0] == NextStep(t, s, stage)
          && Brings(now, steps[1..], t, s, NextStage(stage)))
  }

  /** So the caller reads its response in the end. */
  lemma {:induction false} FrameGetsThrough(sys: System, steps: seq<Step>, t: nat, s: nat, stage: Stage)
    requires Inv(sys) && t < |sys.callers| && s < |sys.states| && At(sys, t, s, stage)
    requires Brings(sys, steps, t, s, stage)
    ensures var now := Run(sys, steps);
      && t < |now.callers| && s < |now.states|
      && now.callers[t] == Reading(s) && now.states[s].RxProcessing?
    decreases |steps|
  {
    if steps != [] {
      StepKeepsInv(sys, steps[0]);
      var now := Next(sys, steps[0]);
      if Elsewhere(sys, steps[0], t, s) && Brings(now, steps[1..], t, s, stage) {
        ElsewhereKeepsStage(sys, steps[0], t, s, stage);
        FrameGetsThrough(now, steps[1..], t, s, stage);
      } else {
        NextStepLeadsOn(sys, t, s, stage);
        FrameGetsThrough(now, steps[1..], t, s, NextStage(stage));
      }
    }
  }

  // --- Failures and retries

  /** A frame that could not be sent is sent again; a response that could not be stored leaves its slot busy, which
      only a retry or a timeout of the caller ends. */
  lemma {:induction false} FailuresLeadBack(sys: System, t: nat, s: nat)
    requires Inv(sys) && t < |sys.callers| && s < |sys.states|
    ensures At(sys, t, s, BeingSent) ==>
      var now := Next(sys, SenderFailed);
      t < |now.callers| && s < |now.states| && At(now, t, s, Queued) && now.sender.None?
    ensures At(sys, t, s, BeingReceived) ==>
      var now := Next(sys, ReceiverFailed);
      t < |now.callers| && now.callers[t] == Waiting(s) && now.states == sys.states && now.receiver.None?
  {
  }

  /** A poll with retries left that finds no response queues the frame again. */
  lemma {:induction false} RetryQueuesAgain(sys: System, t: nat, s: nat)
    requires Inv(sys) && t < |sys.callers| && sys.callers[t] == Waiting(s) && s < |sys.states| && Pending(sys.states[s])
    ensures Inv(Next(sys, CallerDoes(t, Poll)))
    ensures var now := Next(Next(sys, CallerDoes(t, Poll)), CallerDoes(t, Retry));
      && Inv(now) && t < |now.callers| && s < |now.states| && now.callers[t] == Waiting(s) && now.states[s].Sendable?
      && now.sender == sys.sender && now.receiver == sys.receiver
  {
    StepKeepsInv(sys, CallerDoes(t, Poll));
    StepKeepsInv(Next(sys, CallerDoes(t, Poll)), CallerDoes(t, Retry));
  }

  function Left(stage: Stage): nat {
    match stage
    case Built => 6
    case Queued => 5
    case BeingSent => 4
    case OnTheWire => 3
    case BeingReceived => 2
    case Answered => 1
    case InUse => 0
  }

  /** The steps from a stage to the end. */
  function Rest(t: nat, s: nat, stage: Stage): seq<Step>
    decreases Left(stage)
  {
    if stage.InUse? then [] else [NextStep(t, s, stage)] + Rest(t, s, NextStage(stage))
  }

  /** With sender and receiver idle they lead to the end. */
  lemma {:induction false} RestLeadsToEnd(sys: System, t: nat, s: nat, stage: Stage)
    requires Inv(sys) && t < |sys.callers| && s < |sys.states| && At(sys, t, s, stage)
    requires (stage.Built? || stage.Queued? ==> sys.sender.None?)
    requires (stage.Built? || stage.Queued? || stage.BeingSent? || stage.OnTheWire? ==> sys.receiver.None?)
    ensures var now := Run(sys, Rest(t, s, stage));
      t < |now.callers| && now.callers[t] == Reading(s)
    decreases Left(stage)
  {
    if !stage.InUse? {
      var step := NextStep(t, s, stage);
      NextStepLeadsOn(sys, t, s, stage);
      RunFirst(sys, step, Rest(t, s, NextStage(stage)));
      RestLeadsToEnd(Next(sys, step), t, s, NextStage(stage));
    }
  }

  /** From any initial system a caller that goes through all steps reads its response. */
  lemma {:induction false} LoneFrameGetsThrough(sys: System)
    requires Initial(sys) && |sys.callers| > 0
    ensures Inv(sys)
    ensures var s := SlotOf(sys.frameIdx, |sys.states|);
      var rest := Rest(0, s, Built);
      var now := Run(sys, [CallerDoes(0, Begin)] + ([CallerDoes(0, FetchAdd)] + ([CallerDoes(0, TryClaim)] + rest)));
      |now.callers| > 0 && now.callers[0] == Reading(s)
  {
    var s := SlotOf(sys.frameIdx, |sys.states|);
    var claimed := CallerClaims(sys, Rest(0, s, Built));
    RestLeadsToEnd(claimed, 0, s, Built);
  }

  /** Sender and receiver finish what they are busy with. */
  lemma {:induction false} WireBecomesIdle(sys: System, t: nat, s: nat) returns (now: System)
    requires Tidy(sys) && t < |sys.callers| && sys.callers[t] == Waiting(s)
    ensures Tidy(now) && now.sender.None? && now.receiver.None?
    ensures t < |now.callers| && now.callers[t] == Waiting(s)
    ensures forall rest :: Run(sys, [SenderSent] + ([ReceiverDone] + rest)) == Run(now, rest)
  {
    var sent := Next(sys, SenderSent);
    StepKeepsTidy(sys, SenderSent);
    now := Next(sent, ReceiverDone);
    StepKeepsTidy(sent, ReceiverDone);
    forall rest
      ensures Run(sys, [SenderSent] + ([ReceiverDone] + rest)) == Run(now, rest)
    {
      RunFirst(sys, SenderSent, [ReceiverDone] + rest);
      RunFirst(sent, ReceiverDone, rest);
    }
  }

  /** Wherever a frame that somebody waits for has got to, it is never stuck: there is a run after which the caller
      reads its response. */
  lemma {:induction false} WaitingFrameCanComplete(sys: System, t: nat, s: nat) returns (steps: seq<Step>)
    requires Tidy(sys) && t < |sys.callers| && sys.callers[t] == Waiting(s)
    ensures t < |Run(sys, steps).callers| && Run(sys, steps).callers[t] == Reading(s)
  {
    var idle := WireBecomesIdle(sys, t, s);
    assert OnJourney(idle.callers[t], idle.states);
    if idle.states[s].RxDone? {
      steps := [SenderSent] + ([ReceiverDone] + Rest(t, s, Answered));
      RestLeadsToEnd(idle, t, s, Answered);
    } else {
      var polled := Next(idle, CallerDoes(t, Poll));
      var queued := Next(polled, CallerDoes(t, Retry));
      RetryQueuesAgain(idle, t, s);
      var rest := Rest(t, s, Queued);
      steps := [SenderSent] + ([ReceiverDone] + ([CallerDoes(t, Poll)] + ([CallerDoes(t, Retry)] + rest)));
      RunFirst(idle, CallerDoes(t, Poll), [CallerDoes(t, Retry)] + rest);
      RunFirst(polled, CallerDoes(t, Retry), rest);
      RestLeadsToEnd(queued, t, s, Queued);
    }
  }

  /** In every interleaving from the start, as long as no slot is freed under the sender: whoever waits for a response
      can still get it. */
  lemma {:induction false} NobodyWaitsInVain(sys: System, before: seq<Step>, t: nat, s: nat) returns (steps: seq<Step>)
    requires Initial(sys) && Inv(sys) && Prompt(sys, before)
    requires t < |Run(sys, before).callers| && Run(sys, before).callers[t] == Waiting(s)
    ensures Inv(Run(sys, before))
    ensures t < |Run(Run(sys, before), steps).callers| && Run(Run(sys, before), steps).callers[t] == Reading(s)
  {
    PromptRunsLoseNothing(sys, before);
    steps := WaitingFrameCanComplete(Run(sys, before), t, s);
  }
}
