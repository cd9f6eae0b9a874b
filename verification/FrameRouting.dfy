/** Which slot a response goes to, in the course of any events on the slots. */
module FrameRouting {
  import opened Common
  import opened FrameSlots

  /** The lowest slot whose first PDU has the index, whatever its state. */
  function Route(slots: seq<Slot>, pdu: u8): (r: Option<nat>)
    ensures r.Some? ==> r.value < |slots|
  {
    if slots == [] then None
    else if slots[0].firstPdu == pdu then Some(0)
    else match Route(slots[1..], pdu)
      case None => None
      case Some(s) => Some(s + 1)
  }

  /** A response reaches slot `s` exactly when the slot carries the index and no lower slot does, be it in use or a
      leftover of an abandoned frame. */
  lemma {:induction false} RoutedToIff(slots: seq<Slot>, pdu: u8, s: nat)
    requires s < |slots|
    ensures Route(slots, pdu) == Some(s)
      <==> (slots[s].firstPdu == pdu && forall j :: 0 <= j < s ==> slots[j].firstPdu != pdu)
  {
    if s > 0 {
      RoutedToIff(slots[1..], pdu, s - 1);
      assert forall j :: 1 <= j <= s ==> slots[j] == slots[1..][j - 1];
    }
  }

  datatype ReceiveError = Internal | Decode | InvalidIndex(slot: u8)

  datatype Receipt = Receipt(result: Result<(), ReceiveError>, slots: seq<Slot>)

  /** What the storage makes of a frame payload, the second byte of which is the index of its first PDU. */
  function Receive(slots: seq<Slot>, payload: seq<u8>): Receipt
    requires |slots| <= 256
  {
    if |payload| < 2 then Receipt(Err(Internal), slots)
    else match Route(slots, payload[1])
      case None => Receipt(Err(Decode), slots)
      case Some(s) =>
        if !slots[s].state.Sent? then Receipt(Err(InvalidIndex(s)), slots)
        else if |payload| > |slots[s].data| then Receipt(Err(Internal), slots[s := slots[s].(state := RxBusy)])
        else Receipt(Ok(()), slots[s := slots[s].(state := RxDone, data := payload + slots[s].data[|payload|..])])
  }

  /** A response is stored exactly when the lowest slot that carries its index is waiting and has room; it ends
      up at the front of that slot's payload and no other slot changes. */
  lemma {:induction false} StoredIff(slots: seq<Slot>, payload: seq<u8>)
    requires |slots| <= 256
    ensures var r := Receive(slots, payload);
      && |r.slots| == |slots|
      && (r.result.Ok? <==>
            |payload| >= 2 && exists s ::
              && 0 <= s < |slots| && slots[s].firstPdu == payload[1] && slots[s].state.Sent?
              && |payload| <= |slots[s].data| && forall j :: 0 <= j < s ==> slots[j].firstPdu != payload[1])
      && (r.result.Ok? ==> exists s ::
            && Route(slots, payload[1]) == Some(s) && r.slots[s].state.RxDone? && payload <= r.slots[s].data
            && r.slots == slots[s := r.slots[s]] && r.slots[s].data[|payload|..] == slots[s].data[|payload|..])
  {
    if |payload| >= 2 {
      var to := Route(slots, payload[1]);
      forall s: nat | s < |slots|
        ensures to == Some(s)
          <==> (slots[s].firstPdu == payload[1] && forall j :: 0 <= j < s ==> slots[j].firstPdu != payload[1])
      {
        RoutedToIff(slots, payload[1], s);
      }
      if Receive(slots, payload).result.Ok? {
        var s, r := to.value, Receive(slots, payload);
        assert r.slots[s].data[..|payload|] == payload && r.slots[s].data[|payload|..] == slots[s].data[|payload|..];
      }
    }
  }

  /** Each refusal and what it leaves: a payload without an index, an index that no slot carries, or a lowest carrier
      that does not wait change nothing; a response too long for a slot that waits leaves it busy. */
  lemma {:induction false} RefusedIff(slots: seq<Slot>, payload: seq<u8>)
    requires |slots| <= 256
    ensures var r := Receive(slots, payload);
      && (|payload| < 2 ==> r == Receipt(Err(Internal), slots))
      && (|payload| >= 2 ==>
            && (r.result == Err(Decode) <==> forall s :: 0 <= s < |slots| ==> slots[s].firstPdu != payload[1])
            && (r.result.Err? && (r.result.error.Decode? || r.result.error.InvalidIndex?) ==> r.slots == slots)
            && (forall s: u8 :: r.result == Err(InvalidIndex(s)) <==>
                  s < |slots| && Route(slots, payload[1]) == Some(s) && !slots[s].state.Sent?)
            && (r.result == Err(Internal) ==> exists s: u8 ::
                  && s < |slots| && Route(slots, payload[1]) == Some(s) && slots[s].state.Sent?
                  && |payload| > |slots[s].data| && r.slots == slots[s := slots[s].(state := RxBusy)]))
  {
    if |payload| >= 2 {
      NoRouteIff(slots, payload[1]);
      var to := Route(slots, payload[1]);
      if to.Some? && slots[to.value].state.Sent? && |payload| > |slots[to.value].data| {
        assert Receive(slots, payload).slots == slots[to.value := slots[to.value].(state := RxBusy)];
      }
    }
  }

  lemma {:induction false} NoRouteIff(slots: seq<Slot>, pdu: u8)
    ensures Route(slots, pdu).None? <==> forall s :: 0 <= s < |slots| ==> slots[s].firstPdu != pdu
  {
    if slots != [] {
      NoRouteIff(slots[1..], pdu);
      assert forall s :: 1 <= s < |slots| ==> slots[s] == slots[1..][s - 1];
    }
  }

  /** The same response a second time is refused and changes nothing. */
  lemma {:induction false} ResponseIsStoredOnce(slots: seq<Slot>, first: seq<u8>, second: seq<u8>)
    requires |slots| <= 256 && Receive(slots, first).result.Ok?
    requires |second| >= 2 && second[1] == first[1]
    ensures var r := Receive(slots, first);
      Receive(r.slots, second) == Receipt(Err(InvalidIndex(Route(slots, first[1]).value)), r.slots)
  {
    var r, s := Receive(slots, first), Route(slots, first[1]).value;
    SameRoute(slots, r.slots, first[1]);
  }

  lemma {:induction false} SameRoute(a: seq<Slot>, b: seq<Slot>, pdu: u8)
    requires |a| == |b| && forall s :: 0 <= s < |a| ==> a[s].firstPdu == b[s].firstPdu
    ensures Route(a, pdu) == Route(b, pdu)
  {
    if a != [] {
      SameRoute(a[1..], b[1..], pdu);
    }
  }

  // --- Events

  /** What the slots and the counter of PDU indices hold. */
  datatype Store = Store(slots: seq<Slot>, pduIdx: u8)

  /** An access to a slot or to the counter, or a reset. PDUs are numbered as they take their indices, and a PDU's index
      is the remainder of its number modulo 256. Claiming a slot is `Turn(s, Created)` and then `Init(s)`, pushing a PDU
      `Take` and, if it fits, `Remember`, dropping a received frame `Turn(s, Free)` and then `Clear(s)`; other accesses
      may come in between. */
  datatype Event =
    | Turn(s: nat, to: FrameState) // any change of state
    | Init(s: nat)                 // make a claimed frame blank
    | Clear(s: nat)                // forget the first PDU
    | Take                         // take a PDU index
    | Remember(s: nat, number: nat) // a PDU with this number fits into the frame; the first one is remembered
    | Reset

  /** The effect of an event; on a slot that does not exist there is none. */
  function Happens(st: Store, e: Event): (now: Store)
    ensures |now.slots| == |st.slots|
  {
    match e
    case Reset => Store(seq(|st.slots|, i requires 0 <= i < |st.slots| => st.slots[i].(state := Free)), 0)
    case Turn(s, to) => if s < |st.slots| then st.(slots := st.slots[s := st.slots[s].(state := to)]) else st
    case Init(s) =>
      if s < |st.slots|
      then st.(slots := st.slots[s := st.slots[s].(firstPdu := FIRST_PDU_EMPTY, data := Zeros(|st.slots[s].data|))])
      else st
    case Clear(s) =>
      if s < |st.slots| then st.(slots := st.slots[s := st.slots[s].(firstPdu := FIRST_PDU_EMPTY)]) else st
    case Take => st.(pduIdx := (st.pduIdx + 1) % 256)
    case Remember(s, number) =>
      if s < |st.slots| && st.slots[s].firstPdu == FIRST_PDU_EMPTY
      then st.(slots := st.slots[s := st.slots[s].(firstPdu := number % 256)])
      else st
  }

  /** Fresh storage: zeroed memory, so that every slot carries index 0. */
  function Constructed(n: nat, dataLen: nat): Store {
    Store(seq(n, _ => Slot(Free, 0, Zeros(dataLen))), 0)
  }

  /** A store together with what an observer of the events knows. `awaited` is the index of the first PDU that was
      pushed to a frame, `issued` the number of the PDU whose index a slot carries, `next` the number of the next one to
      take an index; a reset goes on with the next multiple of 256. */
  datatype Routing = Routing(store: Store, awaited: seq<Option<u8>>, issued: seq<Option<nat>>, next: nat) {
    predicate Valid() {
      |awaited| == |store.slots| == |issued|
    }

    /** Slot `s` has never been claimed. */
    predicate Fresh(s: nat)
      requires Valid() && s < |store.slots|
    {
      store.slots[s].firstPdu == 0 && issued[s].None?
    }
  }

  function Start(n: nat, dataLen: nat): (r: Routing)
    ensures r.Valid()
  {
    Routing(Constructed(n, dataLen), seq(n, _ => None), seq(n, _ => None), 0)
  }

  function Step(r: Routing, e: Event): (now: Routing)
    requires r.Valid()
    ensures now.Valid() && |now.store.slots| == |r.store.slots|
  {
    var n, store := |r.store.slots|, Happens(r.store, e);
    match e
    case Reset => Routing(store, seq(n, _ => None), r.issued, 256 * ((r.next + 255) / 256))
    case Turn(s, to) => r.(store := store, awaited := if s < n && to.Free? then r.awaited[s := None] else r.awaited)
    case Init(s) => r.(store := store, issued := if s < n then r.issued[s := None] else r.issued)
    case Clear(s) => r.(store := store, issued := if s < n then r.issued[s := None] else r.issued)
    case Take => r.(store := store, next := r.next + 1)
    case Remember(s, number) =>
      r.(store := store,
         awaited := if s < n && r.awaited[s].None? then r.awaited[s := Some(number % 256)] else r.awaited,
         issued := if s < n && r.store.slots[s].firstPdu == FIRST_PDU_EMPTY then r.issued[s := Some(number)]
                   else r.issued)
  }

  function After(r: Routing, events: seq<Event>): (now: Routing)
    requires r.Valid()
    ensures now.Valid() && |now.store.slots| == |r.store.slots|
    decreases |events|
  {
    if events == [] then r else After(Step(r, events[0]), events[1..])
  }

  // --- Exactly when responses find their slots

  /** Every frame that has a PDU gets its response. */
  predicate Routable(r: Routing)
    requires r.Valid()
  {
    forall s :: 0 <= s < |r.awaited| && r.awaited[s].Some? ==> Route(r.store.slots, r.awaited[s].value) == Some(s)
  }

  /** The frame's index is carried by its slot and by no lower one. */
  predicate FirstCarrier(r: Routing, s: nat)
    requires r.Valid() && s < |r.awaited| && r.awaited[s].Some?
  {
    && r.store.slots[s].firstPdu == r.awaited[s].value
    && forall j :: 0 <= j < s ==> r.store.slots[j].firstPdu != r.awaited[s].value
  }

  predicate AllFirstCarriers(r: Routing)
    requires r.Valid()
  {
    forall s :: 0 <= s < |r.awaited| && r.awaited[s].Some? ==> FirstCarrier(r, s)
  }

  /** Responses find their slots exactly when no lower slot, in use, left over or fresh, carries the same index and no
      frame has lost its own. */
  lemma {:induction false} RoutableIff(r: Routing)
    requires r.Valid()
    ensures Routable(r) <==> AllFirstCarriers(r)
  {
    forall s: nat | s < |r.awaited| && r.awaited[s].Some?
      ensures Route(r.store.slots, r.awaited[s].value) == Some(s) <==> FirstCarrier(r, s)
    {
      RoutedToIff(r.store.slots, r.awaited[s].value, s);
    }
  }

  /** The event makes a response go astray: a frame's index is wiped out, or a frame's first PDU gets an index that its
      slot does not remember, that a lower slot carries, or that a frame in a higher slot waits for. */
  predicate Clashes(r: Routing, e: Event)
    requires r.Valid()
  {
    match e
    case Init(s) => s < |r.awaited| && r.awaited[s].Some?
    case Clear(s) => s < |r.awaited| && r.awaited[s].Some?
    case Remember(s, number) =>
      && s < |r.awaited| && r.awaited[s].None?
      && var x: u8 := number % 256;
         || (r.store.slots[s].firstPdu != FIRST_PDU_EMPTY && r.store.slots[s].firstPdu != x)
         || (exists j :: 0 <= j < s && r.store.slots[j].firstPdu == x)
         || (r.store.slots[s].firstPdu == FIRST_PDU_EMPTY && exists j :: s < j < |r.awaited| && r.awaited[j] == Some(x))
    case _ => false
  }

  lemma {:induction false} ClearRoutesIff(r: Routing, e: Event)
    requires r.Valid() && AllFirstCarriers(r) && (e.Init? || e.Clear?)
    ensures AllFirstCarriers(Step(r, e)) <==> !Clashes(r, e)
  {
    var now := Step(r, e);
    if Clashes(r, e) {
      assert !FirstCarrier(now, e.s);
    } else {
      forall j | 0 <= j < |now.awaited| && now.awaited[j].Some?
        ensures FirstCarrier(now, j)
      {
        assert FirstCarrier(r, j);
      }
    }
  }

  lemma {:induction false} RememberRoutesIff(r: Routing, s: nat, number: nat)
    requires r.Valid() && AllFirstCarriers(r) && s < |r.awaited|
    ensures AllFirstCarriers(Step(r, Remember(s, number))) <==> !Clashes(r, Remember(s, number))
  {
    var now, x: u8 := Step(r, Remember(s, number)), number % 256;
    assert r.awaited[s].Some? ==> FirstCarrier(r, s);
    if Clashes(r, Remember(s, number)) {
      if j :| s < j < |r.awaited| && r.awaited[j] == Some(x) && r.store.slots[s].firstPdu == FIRST_PDU_EMPTY {
        assert now.store.slots[s].firstPdu == x && !FirstCarrier(now, j);
      } else if j :| 0 <= j < s && r.store.slots[j].firstPdu == x {
        assert now.store.slots[j].firstPdu == x && !FirstCarrier(now, s);
      } else {
        assert !FirstCarrier(now, s);
      }
    } else {
      forall j | 0 <= j < |now.awaited| && now.awaited[j].Some?
        ensures FirstCarrier(now, j)
      {
        if j != s || r.awaited[s].Some? {
          assert FirstCarrier(r, j);
        }
      }
    }
  }

  lemma {:induction false} TurnRoutes(r: Routing, e: Event)
    requires r.Valid() && AllFirstCarriers(r) && (e.Turn? || e.Take? || e.Reset?)
    ensures AllFirstCarriers(Step(r, e))
  {
    var now := Step(r, e);
    forall j | 0 <= j < |now.awaited| && now.awaited[j].Some?
      ensures FirstCarrier(now, j)
    {
      assert FirstCarrier(r, j);
    }
  }

  /** An event keeps all responses on their way exactly if it does not clash. */
  lemma {:induction false} StepRoutesIff(r: Routing, e: Event)
    requires r.Valid() && Routable(r)
    ensures Routable(Step(r, e)) <==> !Clashes(r, e)
  {
    RoutableIff(r);
    RoutableIff(Step(r, e));
    assert AllFirstCarriers(r);
    if e.Turn? || e.Take? || e.Reset? {
      TurnRoutes(r, e);
    } else if e.Remember? {
      if e.s < |r.awaited| {
        RememberRoutesIff(r, e.s, e.number);
      }
    } else {
      ClearRoutesIff(r, e);
    }
  }

  /** Responses find their slots before, between and after the events. */
  predicate AlwaysRoutable(r: Routing, events: seq<Event>)
    requires r.Valid()
    decreases |events|
  {
    Routable(r) && (events != [] ==> AlwaysRoutable(Step(r, events[0]), events[1..]))
  }

  predicate NeverClashes(r: Routing, events: seq<Event>)
    requires r.Valid()
    decreases |events|
  {
    events != [] ==> !Clashes(r, events[0]) && NeverClashes(Step(r, events[0]), events[1..])
  }

  lemma {:induction false} RunRoutesIff(r: Routing, events: seq<Event>)
    requires r.Valid() && Routable(r)
    ensures AlwaysRoutable(r, events) <==> NeverClashes(r, events)
    ensures NeverClashes(r, events) ==> Routable(After(r, events))
    decreases |events|
  {
    if events != [] {
      StepRoutesIff(r, events[0]);
      if Routable(Step(r, events[0])) {
        RunRoutesIff(Step(r, events[0]), events[1..]);
      } else {
        assert !AlwaysRoutable(Step(r, events[0]), events[1..]);
      }
    }
  }

  /** From construction on, in any order of events: responses always find their slots if and only if no event
      clashes. */
  lemma {:induction false} ResponsesFindTheirSlotsIff(n: nat, dataLen: nat, events: seq<Event>)
    ensures AlwaysRoutable(Start(n, dataLen), events) <==> NeverClashes(Start(n, dataLen), events)
    ensures NeverClashes(Start(n, dataLen), events) ==> Routable(After(Start(n, dataLen), events))
  {
    RunRoutesIff(Start(n, dataLen), events);
  }

  /** A frame that is waiting gets its own response. */
  lemma {:induction false} OwnResponseIsStored(r: Routing, s: nat, payload: seq<u8>)
    requires r.Valid() && Routable(r) && s < |r.awaited| <= 256 && r.store.slots[s].state.Sent?
    requires 2 <= |payload| <= |r.store.slots[s].data| && r.awaited[s] == Some(payload[1])
    ensures var slots := r.store.slots;
      Receive(slots, payload)
        == Receipt(Ok(()), slots[s := slots[s].(state := RxDone, data := payload + slots[s].data[|payload|..])])
  {
  }

  // --- A rule that avoids clashes

  /** The record of numbers agrees with the slots. */
  predicate Tracks(r: Routing)
    requires r.Valid()
  {
    && r.store.pduIdx == r.next % 256
    && forall s :: 0 <= s < |r.issued| ==>
         match r.issued[s]
         case None => r.store.slots[s].firstPdu == FIRST_PDU_EMPTY || r.store.slots[s].firstPdu == 0
         case Some(number) => r.store.slots[s].firstPdu == number % 256
  }

  lemma {:induction false} StepKeepsTrack(r: Routing, e: Event)
    requires r.Valid() && Tracks(r)
    ensures Tracks(Step(r, e))
  {
  }

  /** Less than 256 PDUs lie between two different ones. */
  predicate Near(a: nat, b: nat) {
    a != b && a < b + 256 && b < a + 256
  }

  /** Frames are cleared only when they are not in use. A frame's first PDU is pushed to a blank slot, near all PDUs
      that any slot carries, and index 0 only when no lower slot is fresh. */
  predicate Careful(r: Routing, e: Event)
    requires r.Valid()
  {
    match e
    case Init(s) => s < |r.awaited| ==> r.awaited[s].None?
    case Clear(s) => s < |r.awaited| ==> r.awaited[s].None?
    case Remember(s, number) =>
      s < |r.awaited| && r.awaited[s].None? ==>
        && r.store.slots[s].firstPdu == FIRST_PDU_EMPTY
        && (forall j :: 0 <= j < |r.issued| && r.issued[j].Some? ==> Near(r.issued[j].value, number))
        && (forall j :: 0 <= j < |r.issued| && number % 256 == 0 && r.Fresh(j) ==> j > s && r.awaited[j].None?)
    case _ => true
  }

  lemma {:induction false} NearIndicesDiffer(a: nat, b: nat)
    requires Near(a, b)
    ensures a % 256 != b % 256
  {
  }

  lemma {:induction false} CarefulDoesNotClash(r: Routing, e: Event)
    requires r.Valid() && Tracks(r) && Routable(r) && Careful(r, e)
    ensures !Clashes(r, e)
  {
    RoutableIff(r);
    if e.Remember? && e.s < |r.awaited| && r.awaited[e.s].None? {
      var x: u8 := e.number % 256;
      forall j: nat | j < |r.issued| && r.store.slots[j].firstPdu == x
        ensures j > e.s && r.awaited[j].None?
      {
        if r.issued[j].Some? {
          NearIndicesDiffer(r.issued[j].value, e.number);
        } else {
          assert r.Fresh(j);
        }
      }
      assert forall j :: 0 <= j < |r.awaited| && r.awaited[j].Some? ==> FirstCarrier(r, j);
    }
  }

  predicate CarefulRun(r: Routing, events: seq<Event>)
    requires r.Valid()
    decreases |events|
  {
    events != [] ==> Careful(r, events[0]) && CarefulRun(Step(r, events[0]), events[1..])
  }

  /** Following the rule from construction on, every response finds its slot at every moment. */
  lemma {:induction false} CarefulRunsNeverClash(r: Routing, events: seq<Event>)
    requires r.Valid() && Tracks(r) && Routable(r) && CarefulRun(r, events)
    ensures NeverClashes(r, events)
    decreases |events|
  {
    if events != [] {
      CarefulDoesNotClash(r, events[0]);
      StepRoutesIff(r, events[0]);
      StepKeepsTrack(r, events[0]);
      CarefulRunsNeverClash(Step(r, events[0]), events[1..]);
    }
  }

  lemma {:induction false} CarefulRunsRouteRight(n: nat, dataLen: nat, events: seq<Event>)
    requires CarefulRun(Start(n, dataLen), events)
    ensures AlwaysRoutable(Start(n, dataLen), events) && Routable(After(Start(n, dataLen), events))
  {
    CarefulRunsNeverClash(Start(n, dataLen), events);
    ResponsesFindTheirSlotsIff(n, dataLen, events);
  }

  // --- Runs on which responses go astray

  lemma {:induction false} AfterTwoParts(r: Routing, a: seq<Event>, b: seq<Event>)
    requires r.Valid()
    ensures After(r, a + b) == After(After(r, a), b)
    decreases |a|
  {
    if a == [] {
      assert a + b == b;
    } else {
      assert (a + b)[0] == a[0] && (a + b)[1..] == a[1..] + b;
      AfterTwoParts(Step(r, a[0]), a[1..], b);
    }
  }

  lemma {:induction false} AfterFourParts(r: Routing, a: seq<Event>, b: seq<Event>, c: seq<Event>, d: seq<Event>)
    requires r.Valid()
    ensures After(r, a + (b + (c + d))) == After(After(After(After(r, a), b), c), d)
  {
    AfterTwoParts(r, a, b + (c + d));
    AfterTwoParts(After(r, a), b, c + d);
    AfterTwoParts(After(After(r, a), b), c, d);
  }

  /** Allocate a frame in slot `s` and push the PDU with this number. */
  function NewFrame(s: nat, number: nat): seq<Event> {
    [Turn(s, Created), Init(s), Take, Remember(s, number)]
  }

  /** A slot goes through some states. */
  function Turns(s: nat, states: seq<FrameState>): seq<Event> {
    if states == [] then [] else [Turn(s, states[0])] + Turns(s, states[1..])
  }

  const TO_SENT: seq<FrameState> := [Sendable, Sending, Sent]
  const TO_READ: seq<FrameState> := [Sendable, Sending, Sent, RxBusy, RxDone, RxProcessing]

  lemma {:induction false} FourEvents(r: Routing, a: Event, b: Event, c: Event, d: Event)
    requires r.Valid()
    ensures After(r, [a, b, c, d]) == Step(Step(Step(Step(r, a), b), c), d)
  {
    assert [a, b, c, d][1..] == [b, c, d] && [b, c, d][1..] == [c, d] && [c, d][1..] == [d] && [d][1..] == [];
    var r1 := Step(r, a);
    var r2 := Step(r1, b);
    var r3 := Step(r2, c);
    assert After(r3, [d]) == Step(r3, d);
    assert After(r2, [c, d]) == After(r3, [d]);
    assert After(r1, [b, c, d]) == After(r2, [c, d]);
  }

  lemma {:induction false} NewFrameHasPdu(r: Routing, s: nat)
    requires r.Valid() && s < |r.awaited| && r.awaited[s].None?
    ensures var now := After(r, NewFrame(s, r.next));
      && now.store == Store(r.store.slots[s := Slot(Created, r.next % 256, Zeros(|r.store.slots[s].data|))],
                            (r.store.pduIdx + 1) % 256)
      && now.awaited == r.awaited[s := Some(r.next % 256)] && now.next == r.next + 1
  {
    FourEvents(r, Turn(s, Created), Init(s), Take, Remember(s, r.next));
  }

  lemma {:induction false} TurnsLead(r: Routing, s: nat, states: seq<FrameState>)
    requires r.Valid() && s < |r.awaited| && states != [] && forall k :: 0 <= k < |states| ==> !states[k].Free?
    ensures After(r, Turns(s, states))
      == r.(store := r.store.(slots := r.store.slots[s := r.store.slots[s].(state := states[|states| - 1])]))
    decreases |states|
  {
    assert Turns(s, states)[1..] == Turns(s, states[1..]);
    if |states| > 1 {
      TurnsLead(Step(r, Turn(s, states[0])), s, states[1..]);
    }
  }

  /** A frame with a PDU is brought to a state. */
  lemma {:induction false} FrameIsBrought(r: Routing, s: nat, states: seq<FrameState>)
    requires r.Valid() && s < |r.awaited| && r.awaited[s].None?
    requires states != [] && forall k :: 0 <= k < |states| ==> !states[k].Free?
    ensures var now := After(r, NewFrame(s, r.next) + Turns(s, states));
      && now.store.slots == r.store.slots[s := Slot(states[|states| - 1], r.next % 256, Zeros(|r.store.slots[s].data|))]
      && now.store.pduIdx == (r.store.pduIdx + 1) % 256
      && now.awaited == r.awaited[s := Some(r.next % 256)] && now.next == r.next + 1
  {
    AfterTwoParts(r, NewFrame(s, r.next), Turns(s, states));
    NewFrameHasPdu(r, s);
    TurnsLead(After(r, NewFrame(s, r.next)), s, states);
  }

  function SentFrame(s: nat, number: nat): seq<Event> {
    NewFrame(s, number) + Turns(s, TO_SENT)
  }

  /** On fresh storage: a caller that was about to claim slot 0 is overtaken by one that claims slot 1 and sends the
      very first PDU. The fresh slot 0 carries its index 0 too, and the response is refused. */
  lemma {:induction false} FreshSlotTakesFirstResponse(n: nat, dataLen: nat, payload: seq<u8>)
    requires 2 <= n <= 256 && |payload| >= 2 && payload[1] == 0
    ensures var r := After(Start(n, dataLen), SentFrame(1, 0));
      && r.awaited[1] == Some(payload[1]) && r.store.slots[1].state.Sent?
      && Receive(r.store.slots, payload) == Receipt(Err(InvalidIndex(0)), r.store.slots)
  {
    FrameIsBrought(Start(n, dataLen), 1, TO_SENT);
    var slots := After(Start(n, dataLen), SentFrame(1, 0)).store.slots;
    RoutedToIff(slots, 0, 0);
  }

  /** PDUs that do not fit any more. */
  function Wasted(k: nat): seq<Event> {
    if k == 0 then [] else [Take] + Wasted(k - 1)
  }

  lemma {:induction false} IndexMovesOn(idx: u8, a: nat, b: nat)
    ensures ((idx + a) % 256 + b) % 256 == (idx + a + b) % 256
  {
  }

  lemma {:induction false} WastedIndices(r: Routing, k: nat)
    requires r.Valid()
    ensures After(r, Wasted(k)) == r.(store := r.store.(pduIdx := (r.store.pduIdx + k) % 256), next := r.next + k)
    decreases k
  {
    if k > 0 {
      assert Wasted(k)[1..] == Wasted(k - 1);
      WastedIndices(Step(r, Take), k - 1);
      IndexMovesOn(r.store.pduIdx, 1, k - 1);
    }
  }

  /** A frame is sent in slot 0 after further PDUs have used up the other 255 indices, and given up if `lost`; then
      another one is sent in slot 1. */
  function TwoFrames(lost: bool): seq<Event> {
    NewFrame(0, 0) + (Wasted(255) + (Turns(0, TO_SENT) + ((if lost then [Turn(0, Free)] else []) + SentFrame(1, 256))))
  }

  lemma {:induction false} NewFrameWithWastedPdus(r0: Routing, k: nat)
    requires r0.Valid() && |r0.awaited| > 0 && r0.awaited[0].None?
    ensures var r := After(After(r0, NewFrame(0, r0.next)), Wasted(k));
      && r.store.slots == r0.store.slots[0 := Slot(Created, r0.next % 256, Zeros(|r0.store.slots[0].data|))]
      && r.store.pduIdx == (r0.store.pduIdx + 1 + k) % 256 && r.next == r0.next + 1 + k
      && r.awaited == r0.awaited[0 := Some(r0.next % 256)]
  {
    NewFrameHasPdu(r0, 0);
    WastedIndices(After(r0, NewFrame(0, r0.next)), k);
    IndexMovesOn(r0.store.pduIdx, 1, k);
  }

  lemma {:induction false} FirstFrameUsesUpIndices(r0: Routing, k: nat, rest: seq<Event>) returns (r: Routing)
    requires r0.Valid() && |r0.awaited| > 0 && r0.awaited[0].None?
    ensures r.Valid() && After(r0, NewFrame(0, r0.next) + (Wasted(k) + (Turns(0, TO_SENT) + rest))) == After(r, rest)
    ensures r.store == Store(r0.store.slots[0 := Slot(Sent, r0.next % 256, Zeros(|r0.store.slots[0].data|))],
                             (r0.store.pduIdx + 1 + k) % 256)
    ensures r.awaited == r0.awaited[0 := Some(r0.next % 256)] && r.next == r0.next + 1 + k
  {
    var r2 := After(After(r0, NewFrame(0, r0.next)), Wasted(k));
    r := After(r2, Turns(0, TO_SENT));
    AfterFourParts(r0, NewFrame(0, r0.next), Wasted(k), Turns(0, TO_SENT), rest);
    NewFrameWithWastedPdus(r0, k);
    TurnsLead(r2, 0, TO_SENT);
  }

  lemma {:induction false} SecondFrameFollows(r: Routing, lost: bool)
    requires r.Valid() && |r.awaited| > 1 && r.awaited[1].None? && r.store.slots[0].state.Sent?
    ensures var now := After(r, (if lost then [Turn(0, Free)] else []) + SentFrame(1, r.next));
      && now.store.slots[0] == r.store.slots[0].(state := if lost then Free else Sent)
      && now.store.slots[1] == Slot(Sent, r.next % 256, Zeros(|r.store.slots[1].data|))
      && now.awaited[0] == (if lost then None else r.awaited[0]) && now.awaited[1] == Some(r.next % 256)
  {
    if lost {
      AfterTwoParts(r, [Turn(0, Free)], SentFrame(1, r.next));
      assert [Turn(0, Free)][1..] == [] && After(r, [Turn(0, Free)]) == Step(r, Turn(0, Free));
      FrameIsBrought(Step(r, Turn(0, Free)), 1, TO_SENT);
    } else {
      assert [] + SentFrame(1, r.next) == SentFrame(1, r.next);
      FrameIsBrought(r, 1, TO_SENT);
    }
  }

  lemma {:induction false} TwoFramesShareIndex(n: nat, dataLen: nat, lost: bool)
    requires n >= 2
    ensures var r := After(Start(n, dataLen), TwoFrames(lost));
      && r.store.slots[0] == Slot(if lost then Free else Sent, 0, Zeros(dataLen))
      && r.store.slots[1] == Slot(Sent, 0, Zeros(dataLen))
      && r.awaited[0] == (if lost then None else Some(0)) && r.awaited[1] == Some(0)
  {
    var rest := (if lost then [Turn(0, Free)] else []) + SentFrame(1, 256);
    var r := FirstFrameUsesUpIndices(Start(n, dataLen), 255, rest);
    SecondFrameFollows(r, lost);
  }

  /** Limiting the number of frames is not enough: with two frames in flight the response of the second one is stored
      in the slot of the first. */
  lemma {:induction false} ResponseReachesWrongFrame(n: nat, dataLen: nat, payload: seq<u8>)
    requires 2 <= n <= 256 && 2 <= |payload| <= dataLen
    ensures var r := After(Start(n, dataLen), TwoFrames(false));
      && r.awaited[1].Some? && r.store.slots[1].state.Sent?
      && (payload[1] == r.awaited[1].value ==>
            var now := Receive(r.store.slots, payload);
            now.result.Ok? && now.slots[0].state.RxDone? && payload <= now.slots[0].data
              && now.slots[1] == r.store.slots[1])
  {
    TwoFramesShareIndex(n, dataLen, false);
    var slots := After(Start(n, dataLen), TwoFrames(false)).store.slots;
    RoutedToIff(slots, 0, 0);
    assert (payload + slots[0].data[|payload|..])[..|payload|] == payload;
  }

  /** A frame that was given up, by a timeout or a dropped future, leaves its index behind; 256 PDUs later that keeps
      the response from the frame that waits for it. */
  lemma {:induction false} LeftoverIndexBlocksResponse(n: nat, dataLen: nat, payload: seq<u8>)
    requires 2 <= n <= 256 && |payload| >= 2
    ensures var r := After(Start(n, dataLen), TwoFrames(true));
      && r.awaited[0].None? && r.awaited[1].Some? && r.store.slots[1].state.Sent?
      && (payload[1] == r.awaited[1].value ==>
            Receive(r.store.slots, payload) == Receipt(Err(InvalidIndex(0)), r.store.slots))
  {
    TwoFramesShareIndex(n, dataLen, true);
    RoutedToIff(After(Start(n, dataLen), TwoFrames(true)).store.slots, 0, 0);
  }

  function ReadFrame(s: nat, number: nat): seq<Event> {
    NewFrame(s, number) + Turns(s, TO_READ)
  }

  /** A received frame in slot 0 is dropped: the slot is free before its index is cleared. Another caller claims it in
      between, so that the late clearing hits the index of the new frame. */
  function LateClear(number: nat): seq<Event> {
    ReadFrame(0, number) + ([Turn(0, Free)] + (SentFrame(0, number + 1) + [Clear(0)]))
  }

  lemma {:induction false} LateClearWipesIndex(r0: Routing)
    requires r0.Valid() && |r0.awaited| > 0 && r0.awaited[0].None?
    ensures var r := After(r0, LateClear(r0.next));
      && r.store.slots == r0.store.slots[0 := Slot(Sent, FIRST_PDU_EMPTY, Zeros(|r0.store.slots[0].data|))]
      && r.awaited[0] == Some((r0.next + 1) % 256)
  {
    var r1 := After(r0, ReadFrame(0, r0.next));
    var r2 := Step(r1, Turn(0, Free));
    var r3 := After(r2, SentFrame(0, r0.next + 1));
    assert After(r0, LateClear(r0.next)) == Step(r3, Clear(0)) by {
      AfterFourParts(r0, ReadFrame(0, r0.next), [Turn(0, Free)], SentFrame(0, r0.next + 1), [Clear(0)]);
      assert [Turn(0, Free)][1..] == [] && [Clear(0)][1..] == [];
      assert After(r1, [Turn(0, Free)]) == r2;
    }
    FrameIsBrought(r0, 0, TO_READ);
    FrameIsBrought(r2, 0, TO_SENT);
  }

  lemma {:induction false} LateClearLosesResponse(n: nat, dataLen: nat, payload: seq<u8>)
    requires 1 <= n <= 256 && |payload| >= 2
    ensures var r := After(Start(n, dataLen), LateClear(0));
      && r.awaited[0].Some? && r.store.slots[0].state.Sent?
      && (payload[1] == r.awaited[0].value ==>
            Receive(r.store.slots, payload) == Receipt(Err(Decode), r.store.slots))
  {
    LateClearWipesIndex(Start(n, dataLen));
    var slots := After(Start(n, dataLen), LateClear(0)).store.slots;
    assert forall j :: 0 <= j < n ==> slots[j].firstPdu != 1;
    if Route(slots, 1).Some? {
      RoutedToIff(slots, 1, Route(slots, 1).value);
    }
  }
}
