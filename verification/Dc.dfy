/** Distributed clocks: rebuilding the network from the flat discovery list and computing
    propagation delays in one pass over it. */
module Dc {
  import opened Common
  import opened Ports

  datatype SubDevice = SubDevice(
    index: u16, ports: Ports, dcSupport: bool, parentIndex: Option<u16>, propagationDelay: u32)

  /** `Panic` stands for a failed `unwrap` or an arithmetic overflow. */
  datatype Failure = TopologyError | Panic

  /** Nearest device before position `n` that is a fork or a cross. */
  function NearestJunction(devs: seq<SubDevice>, n: nat): (r: Option<nat>)
    requires n <= |devs|
    ensures r.Some? ==> r.value < n && TopologyOf(devs[r.value].ports).IsJunction()
    ensures match r
            case Some(j) => forall k :: j < k < n ==> !TopologyOf(devs[k].ports).IsJunction()
            case None => forall k :: 0 <= k < n ==> !TopologyOf(devs[k].ports).IsJunction()
  {
    if n == 0 then None
    else if TopologyOf(devs[n - 1].ports).IsJunction() then Some(n - 1)
    else NearestJunction(devs, n - 1)
  }

  /** The parent of a device, from the devices discovered before it. */
  function FindSubdeviceParent(parents: seq<SubDevice>): Result<Option<u16>, Failure> {
    if parents == [] then Ok(None)
    else
      var last := |parents| - 1;
      if TopologyOf(parents[last].ports).LineEnd? then
        match NearestJunction(parents, last)
        case Some(j) => Ok(Some(parents[j].index))
        case None => Err(TopologyError)
      else Ok(Some(parents[last].index))
  }

  /** First device with the given index. */
  function Position(devs: seq<SubDevice>, index: u16): (r: Option<nat>)
    ensures r.Some? ==> r.value < |devs| && devs[r.value].index == index
    ensures r.None? ==> forall k :: 0 <= k < |devs| ==> devs[k].index != index
    ensures r.Some? ==> forall k :: 0 <= k < r.value ==> devs[k].index != index
  {
    if devs == [] then None
    else if devs[0].index == index then Some(0)
    else match Position(devs[1..], index)
      case None => None
      case Some(k) => Some(k + 1)
  }

  function OrZero(t: Option<u32>): u32 {
    if t.Some? then t.value else 0
  }

  /** Attached to a junction by a port other than its last. */
  predicate IsChildOf(sub: SubDevice, parent: SubDevice) {
    TopologyOf(parent.ports).IsJunction() && PortAssignedTo(parent.ports, sub.index) != Some(LastPort(parent.ports))
  }

  /** Delay added by a device to the running total, given the parent port it hangs off. */
  function DelayFrom(sub: SubDevice, parent: SubDevice, port: nat, accum: u32): Option<u32> {
    var parentTime := OrZero(TotalPropagationTime(parent.ports));
    var thisTime := OrZero(TotalPropagationTime(sub.ports));
    var delta := SatSub(parentTime, thisTime);
    match TopologyOf(parent.ports)
    case Passthrough => Some(delta / 2)
    case Fork =>
      if IsChildOf(sub, parent)
      then Some(SatSub(OrZero(PropagationTimeTo(parent.ports, port)), thisTime) / 2)
      else Some(delta / 2)
    case Cross =>
      if IsChildOf(sub, parent) then
        var loop := IntermediatePropagationTimeTo(parent.ports, port);
        if loop > U32_MAX then None else Some(SatSub(loop, thisTime) / 2)
      else Some(SatSub(parentTime, accum))
    case LineEnd => Some(0)
  }

  datatype Step = Step(sub: SubDevice, accum: u32)

  /** Add the device's own delay to the running total and record it. */
  function ConfigureSubdeviceOffsets(sub: SubDevice, parents: seq<SubDevice>, accum: u32): Result<Step, Failure> {
    match sub.parentIndex
    case None => Ok(Step(sub, accum))
    case Some(parentIndex) =>
      match Position(parents, parentIndex)
      case None => Ok(Step(sub, accum))
      case Some(p) =>
        match PortAssignedTo(parents[p].ports, sub.index)
        case None => Err(Panic)
        case Some(port) =>
          match DelayFrom(sub, parents[p], port, accum)
          case None => Err(Panic)
          case Some(delay) =>
            var total := SatAdd32(accum, delay);
            Ok(Step(sub.(propagationDelay := total), total))
  }

  /** What remains to be said once devices `0..i` are done: the list and the running total. */
  datatype Progress = Progress(devs: seq<SubDevice>, accum: u32)

  function SetParent(devs: seq<SubDevice>, i: nat, parent: Option<u16>): (r: seq<SubDevice>)
    requires i < |devs|
    ensures |r| == |devs|
  {
    devs[i := devs[i].(parentIndex := parent)]
  }

  /** Take the next free port of the parent for device `i`. */
  function LinkToParent(devs: seq<SubDevice>, i: nat): (r: Result<seq<SubDevice>, Failure>)
    requires i < |devs|
    ensures r.Ok? ==> |r.value| == |devs|
  {
    match devs[i].parentIndex
    case None => Ok(devs)
    case Some(parentIndex) =>
      match Position(devs[..i], parentIndex)
      case None => Err(Panic)
      case Some(p) =>
        if devs[i].index == 0 then Err(Panic)
        else match AssignNextDownstreamPort(devs[p].ports, devs[i].index)
          case None => Err(Panic)
          case Some(ports) => Ok(devs[p := devs[p].(ports := ports)])
  }

  /** The body of the loop for device `i`. */
  function AssignOne(devs: seq<SubDevice>, i: nat, accum: u32): (r: Result<Progress, Failure>)
    requires i < |devs|
    ensures r.Ok? ==> |r.value.devs| == |devs|
  {
    match FindSubdeviceParent(devs[..i])
    case Err(e) => Err(e)
    case Ok(parent) =>
      match LinkToParent(SetParent(devs, i, parent), i)
      case Err(e) => Err(e)
      case Ok(linked) =>
        if !linked[i].dcSupport then Ok(Progress(linked, accum))
        else
          match ConfigureSubdeviceOffsets(linked[i], linked[..i], accum)
          case Err(e) => Err(e)
          case Ok(step) => Ok(Progress(linked[i := step.sub], step.accum))
  }

  /** The first `n` iterations of the loop. */
  function AssignFirst(devs: seq<SubDevice>, n: nat): (r: Result<Progress, Failure>)
    requires n <= |devs|
    ensures r.Ok? ==> |r.value.devs| == |devs|
  {
    if n == 0 then Ok(Progress(devs, 0))
    else match AssignFirst(devs, n - 1)
      case Err(e) => Err(e)
      case Ok(done) => AssignOne(done.devs, n - 1, done.accum)
  }

  lemma {:induction false} FailureIsFinal(devs: seq<SubDevice>, i: nat, n: nat)
    requires i <= n <= |devs| && AssignFirst(devs, i).Err?
    ensures AssignFirst(devs, n) == AssignFirst(devs, i)
  {
    if i < n {
      FailureIsFinal(devs, i, n - 1);
      assert AssignFirst(devs, n - 1).Err?;
    }
  }

  /** Link device `i` to the next free port of its parent, in place. */
  method LinkInPlace(devs: array<SubDevice>, i: nat) returns (r: Result<(), Failure>)
    requires i < devs.Length
    modifies devs
    ensures match LinkToParent(old(devs[..]), i)
            case Ok(linked) => r == Ok(()) && devs[..] == linked
            case Err(e) => r == Err(e)
  {
    if devs[i].parentIndex.Some? {
      var p := Position(devs[..i], devs[i].parentIndex.value);
      assert devs[..][..i] == devs[..i];
      if p.None? || devs[i].index == 0 {
        return Err(Panic);
      }
      var ports := AssignNextDownstreamPort(devs[p.value].ports, devs[i].index);
      if ports.None? {
        return Err(Panic);
      }
      devs[p.value] := devs[p.value].(ports := ports.value);
    }
    r := Ok(());
  }

  /** Assign parent/child relationships and compute propagation delays, in place. */
  method AssignParentRelationships(devs: array<SubDevice>) returns (r: Result<(), Failure>)
    modifies devs
    ensures match AssignFirst(old(devs[..]), devs.Length)
            case Ok(done) => r == Ok(()) && devs[..] == done.devs
            case Err(e) => r == Err(e)
  {
    ghost var before := devs[..];
    var accum: u32 := 0;
    for i := 0 to devs.Length
      invariant AssignFirst(before, i) == Ok(Progress(devs[..], accum))
    {
      ghost var was := devs[..];
      assert AssignFirst(before, i + 1) == AssignOne(was, i, accum);
      if AssignFirst(before, i + 1).Err? {
        FailureIsFinal(before, i + 1, devs.Length);
      }
      var parent := FindSubdeviceParent(devs[..i]);
      assert was[..i] == devs[..i];
      if parent.Err? {
        return Err(parent.error);
      }
      devs[i] := devs[i].(parentIndex := parent.value);
      assert devs[..] == SetParent(was, i, parent.value);
      var linked := LinkInPlace(devs, i);
      if linked.Err? {
        return Err(linked.error);
      }
      if devs[i].dcSupport {
        assert devs[..][..i] == devs[..i];
        var step := ConfigureSubdeviceOffsets(devs[i], devs[..i], accum);
        if step.Err? {
          return Err(step.error);
        }
        devs[i], accum := step.value.sub, step.value.accum;
      }
    }
    r := Ok(());
  }
}
