/** Endpoint 0 as the controller reads it: following the cycle bits of its ring, it
  finds exactly the TRBs of the control transfer that is out. */
module UsbEndpointZero {
  import opened Common
  import R = Rings
  import opened UsbDriver
  import opened UsbSafety
  import opened UsbController
  import Desc = Descriptors
  import Hid = HidReport

  // ----- The controller's side -----

  /** The TRBs of one transfer, up to its Status TRB, and where the controller stands then. */
  function ReadTransfer(trbs: seq<R.Trb>, at: R.Consumer, fuel: nat): (seq<R.Trb>, R.Consumer)
    requires at.dequeue < |trbs| == R.EP_RING_SIZE
    decreases fuel
  {
    var (got, next) := R.Fetch(trbs, at);
    if got.None? || fuel == 0 || next.dequeue >= R.EP_RING_SIZE then ([], at)
    else if IsStatusStage(got.value) then ([got.value], next)
    else
      var (rest, end) := ReadTransfer(trbs, next, fuel - 1);
      ([got.value] + rest, end)
  }

  const TRANSFER_TRBS := 3

  predicate OnRing0(z: Option<R.Consumer>) {
    z.Some? ==> z.value.dequeue < R.EP_RING_SIZE
  }

  /** Its position on the endpoint-0 ring: the start, from each accepted address command
      on; behind the transfer that an event ends; none while the slot is disabled. */
  function Ep0After(z: Option<R.Consumer>, c: Controller, s: State, e: Event): (z': Option<R.Consumer>)
    requires Sized(s) && OnRing0(z)
    ensures OnRing0(z')
  {
    match e
    case CommandCompletion(code, _) =>
      var next := NextCommand(c, s);
      if code == 1 && (next == AddressDevice || next == AddressDeviceBsr) then Some(R.FRESH_CONSUMER)
      else if code == 1 && next == DisableSlot then None
      else z
    case TransferEvent(_, trb) =>
      if trb.OnEp0? && z.Some? then
        var end := ReadTransfer(s.ep0.trbs, z.value, TRANSFER_TRBS).1;
        if end.dequeue < R.EP_RING_SIZE then Some(end) else None
      else z
    case _ => z
  }

  // ----- What is out -----

  /** The TRBs that ask for a request (section 6.4.1.2 of xHCI 1.2): setup, data if there
      are any, status, which goes the other way and brings the event. The type stands in
      bits 10 to 15 of the control word, the direction in bit 16. */
  predicate AsksFor(setup: R.Setup, buffer: R.Parameter, ts: seq<R.Trb>) {
    var incoming := setup.requestType >= 0x80;
    var data := incoming || setup.length != 0;
    && |ts| == (if data then 3 else 2)
    && IsSetupStage(ts[0], setup, if incoming then 3 else if data then 2 else 0)
    && (data ==> IsDataStage(ts[1], setup, buffer, incoming))
    && ts[|ts| - 1].parameter == R.Zero && ts[|ts| - 1].status == 0
    && ts[|ts| - 1].control == 4 * 0x400 + 0x20 + (if incoming then 0 else 0x1_0000)
  }

  /** Descriptors are read into the buffer for their kind. */
  function BufferFor(setup: R.Setup): R.Parameter {
    if setup.value == 0x0100 then R.DeviceDescriptor else R.ConfigDescriptor
  }

  /** The eight bytes of the request stand in the TRB itself; `kind` tells what stage follows. */
  predicate IsSetupStage(t: R.Trb, setup: R.Setup, kind: nat) {
    t.parameter == R.Packet(setup) && t.status == 8 && t.control == 2 * 0x400 + 0x40 + kind * 0x1_0000
  }

  predicate IsDataStage(t: R.Trb, setup: R.Setup, buffer: R.Parameter, incoming: bool) {
    && t.parameter == buffer && t.status == setup.length
    && t.control == 3 * 0x400 + (if incoming then 0x1_0000 else 0)
  }

  predicate IsStatusStage(t: R.Trb) {
    t.control / 1024 % 64 == 4
  }

  predicate AsksForLast(setup: R.Setup, ts: seq<R.Trb>) {
    AsksFor(setup, BufferFor(setup), ts)
  }

  /** The last doorbell was a control request; its TRBs lie between the controller and
      the driver, and the driver waits for the last one of them. */
  ghost predicate Offered(s: State, at: R.Consumer) {
    && R.ProducerInv(s.ep0) && at.ccs == s.ep0.cycle && at.dequeue < s.ep0.enqueue <= 13
    && s.issued != [] && s.issued[|s.issued| - 1].Control?
    && |s.ep0.trbs[at.dequeue..s.ep0.enqueue]| <= TRANSFER_TRBS
    && AsksForLast(s.issued[|s.issued| - 1].setup, s.ep0.trbs[at.dequeue..s.ep0.enqueue])
    && s.ep0Wait == Some(s.ep0.enqueue - 1)
  }

  ghost predicate Ep0Match(z: Option<R.Consumer>, c: Controller, s: State) {
    && OnRing0(z)
    && (s.pending == AddressDevice || s.pending == AddressDeviceBsr ==> s.ep0 == R.ZeroedRing())
    && (c.controlsAnswered < Controls(s.issued) ==> z.Some? && Offered(s, z.value))
  }

  /** Following the cycle bits up to the first Status TRB, when that is the last one pushed. */
  lemma {:induction false} ReadsUpToStatus(r: R.Ring, at: R.Consumer, fuel: nat)
    requires R.ProducerInv(r) && at.ccs == r.cycle && at.dequeue < r.enqueue <= at.dequeue + fuel
    requires IsStatusStage(r.trbs[r.enqueue - 1])
    requires forall k :: at.dequeue <= k < r.enqueue - 1 ==> !IsStatusStage(r.trbs[k])
    ensures ReadTransfer(r.trbs, at, fuel) == (r.trbs[at.dequeue..r.enqueue], R.Consumer(r.enqueue, r.cycle))
    decreases fuel
  {
    var next := R.Consumer(at.dequeue + 1, at.ccs);
    assert R.Fetch(r.trbs, at) == (Some(r.trbs[at.dequeue]), next);
    if at.dequeue + 1 < r.enqueue {
      ReadsUpToStatus(r, next, fuel - 1);
    }
    SliceCons(r.trbs, at.dequeue, r.enqueue);
  }

  lemma SliceCons(trbs: seq<R.Trb>, from: nat, to: nat)
    requires from < to <= |trbs|
    ensures trbs[from..to] == [trbs[from]] + trbs[from + 1..to]
    ensures from + 1 == to ==> trbs[from..to] == [trbs[from]]
  {
  }

  /** The controller reads the request that is out, all of it, and nothing else. */
  lemma ReadsWhatIsOut(s: State, at: R.Consumer)
    requires Offered(s, at)
    ensures ReadTransfer(s.ep0.trbs, at, TRANSFER_TRBS)
            == (s.ep0.trbs[at.dequeue..s.ep0.enqueue], R.Consumer(s.ep0.enqueue, s.ep0.cycle))
  {
    var ts := s.ep0.trbs[at.dequeue..s.ep0.enqueue];
    assert forall k :: 0 <= k < |ts| ==> ts[k] == s.ep0.trbs[at.dequeue + k];
    assert ts[|ts| - 1] == s.ep0.trbs[s.ep0.enqueue - 1];
    forall k | at.dequeue <= k < s.ep0.enqueue - 1
      ensures !IsStatusStage(s.ep0.trbs[k])
    {
      assert s.ep0.trbs[k] == ts[k - at.dequeue];
    }
    ReadsUpToStatus(s.ep0, at, TRANSFER_TRBS);
  }

  // ----- Every allowed event keeps it -----

  lemma ControlInOffers(s: State, setup: R.Setup, buffer: R.Parameter)
    requires Sized(s) && R.ProducerInv(s.ep0) && s.ep0.enqueue <= 10 && setup.requestType >= 0x80
    requires buffer == BufferFor(setup)
    ensures Offered(WithControlIn(s, setup, buffer), R.Consumer(s.ep0.enqueue, s.ep0.cycle))
  {
    var s' := WithControlIn(s, setup, buffer);
    var n := s.ep0.enqueue;
    ControlInTrbs(s, setup, buffer);
    SetupInBits(setup, buffer, s.ep0.cycle);
    assert s'.ep0.trbs[n..n + 3] == ControlInAs(setup, buffer, s.ep0.cycle);
  }

  /** The three TRBs of a read request. */
  function ControlInAs(setup: R.Setup, buffer: R.Parameter, cycle: bool): seq<R.Trb> {
    [R.Trb(R.Packet(setup), 8, SETUP_IN, cycle), R.Trb(buffer, setup.length, DATA_IN, cycle),
     R.Trb(R.Zero, 0, STATUS_OUT, cycle)]
  }

  lemma ControlInTrbs(s: State, setup: R.Setup, buffer: R.Parameter)
    requires Sized(s) && R.ProducerInv(s.ep0) && s.ep0.enqueue <= 10
    ensures var s', n := WithControlIn(s, setup, buffer), s.ep0.enqueue;
            && R.ProducerInv(s'.ep0) && s'.ep0.cycle == s.ep0.cycle && s'.ep0.enqueue == n + 3
            && (forall k :: 0 <= k < 3 ==> s'.ep0.trbs[n + k] == ControlInAs(setup, buffer, s.ep0.cycle)[k])
            && s'.ep0Wait == Some(n + 2) && s'.issued == s.issued + [Control(setup)]
  {
  }

  lemma SetupInBits(setup: R.Setup, buffer: R.Parameter, cycle: bool)
    requires setup.requestType >= 0x80
    requires buffer == BufferFor(setup)
    ensures AsksForLast(setup, ControlInAs(setup, buffer, cycle))
  {
  }

  /** The TRBs of a write request, with or without data. */
  function ControlOutAs(setup: R.Setup, buffer: R.Parameter, cycle: bool): seq<R.Trb> {
    var status := R.Trb(R.Zero, 0, STATUS_IN, cycle);
    if setup.length == 0 then [R.Trb(R.Packet(setup), 8, SETUP_NO_DATA, cycle), status]
    else [R.Trb(R.Packet(setup), 8, SETUP_OUT, cycle), R.Trb(buffer, setup.length, DATA_OUT, cycle), status]
  }

  lemma ControlOutTrbs(s: State, setup: R.Setup, buffer: R.Parameter)
    requires Sized(s) && R.ProducerInv(s.ep0) && s.ep0.enqueue <= 11 - (if setup.length == 0 then 0 else 1)
    requires setup.length != 0 ==> buffer != R.Zero
    ensures var s', n := WithControlOut(s, setup, buffer), s.ep0.enqueue;
            var ts := ControlOutAs(setup, buffer, s.ep0.cycle);
            && R.ProducerInv(s'.ep0) && s'.ep0.cycle == s.ep0.cycle && s'.ep0.enqueue == n + |ts|
            && (forall k :: 0 <= k < |ts| ==> s'.ep0.trbs[n + k] == ts[k])
            && s'.ep0Wait == Some(n + |ts| - 1) && s'.issued == s.issued + [Control(setup)]
  {
  }

  lemma SetupOutBits(setup: R.Setup, buffer: R.Parameter, cycle: bool)
    requires setup.requestType < 0x80
    ensures AsksFor(setup, buffer, ControlOutAs(setup, buffer, cycle))
  {
  }

  /** A write request of any length puts the TRBs on the ring that ask for it. */
  lemma ControlOutAsks(s: State, setup: R.Setup, buffer: R.Parameter)
    requires Sized(s) && R.ProducerInv(s.ep0) && s.ep0.enqueue <= 10 && setup.requestType < 0x80
    requires setup.length != 0 ==> buffer != R.Zero
    ensures var s', n := WithControlOut(s, setup, buffer), s.ep0.enqueue;
            n <= s'.ep0.enqueue <= 64 && AsksFor(setup, buffer, s'.ep0.trbs[n..s'.ep0.enqueue])
  {
    var s', n := WithControlOut(s, setup, buffer), s.ep0.enqueue;
    ControlOutTrbs(s, setup, buffer);
    SetupOutBits(setup, buffer, s.ep0.cycle);
    assert s'.ep0.trbs[n..s'.ep0.enqueue] == ControlOutAs(setup, buffer, s.ep0.cycle);
  }

  lemma ControlOutOffers(s: State, setup: R.Setup)
    requires Sized(s) && R.ProducerInv(s.ep0) && s.ep0.enqueue <= 11 && setup.requestType < 0x80 && setup.length == 0
    ensures Offered(WithControlOut(s, setup, R.Zero), R.Consumer(s.ep0.enqueue, s.ep0.cycle))
  {
    var s', n := WithControlOut(s, setup, R.Zero), s.ep0.enqueue;
    ControlOutTrbs(s, setup, R.Zero);
    SetupOutBits(setup, BufferFor(setup), s.ep0.cycle);
    assert s'.ep0.trbs[n..s'.ep0.enqueue] == ControlOutAs(setup, BufferFor(setup), s.ep0.cycle);
  }

  /** From `s` to `s'` a control request is offered at `at` if it is the new doorbell,
      and an address command comes with an empty ring. */
  ghost predicate OffersNext(s: State, s': State, at: R.Consumer) {
    && (s'.pending == AddressDevice || s'.pending == AddressDeviceBsr ==> s'.ep0 == R.ZeroedRing())
    && (s'.issued != s.issued && s'.issued != [] && s'.issued[|s'.issued| - 1].Control? ==> Offered(s', at))
  }

  /** What a driver does next, told to the controller: after an event that leaves no
      request out, only a new doorbell can put one out. */
  lemma NextMatches(z: Option<R.Consumer>, c: Controller, s: State, c': Controller, s': State)
    requires OnRing0(z) && AtMostOne(s, s')
    requires c'.controlsAnswered == Controls(s.issued)
    requires z.Some? ==> OffersNext(s, s', z.value)
    requires z.None? ==>
             OffersNext(s, s', R.FRESH_CONSUMER) && (s'.issued == s.issued || !s'.issued[|s'.issued| - 1].Control?)
    ensures Ep0Match(z, c', s')
  {
    if s'.issued != s.issued { LogGrows(s.issued, s'.issued[|s'.issued| - 1]); }
  }

  // ----- Commands -----

  lemma AddressedOffers(s: State, slot: byte, i: Inputs)
    requires ShapeInv(s) && (s.pending == AddressDevice || s.pending == AddressDeviceBsr) && s.ep0 == R.ZeroedRing()
    ensures OffersNext(s, Handled(s, CommandCompletion(SUCCESS, slot), i), R.FRESH_CONSUMER)
  {
    if !PortIsEnabled(s, i) { RetryAsksNothing(s, slot, i); return; }
    var bsr := s.pending == AddressDeviceBsr;
    var s1 := s.(pending := NoCommand, enumState := if bsr then GetDevice8Sent else GetDeviceSent);
    ControlInOffers(s1, if bsr then GET_DEVICE_8 else GET_DEVICE, R.DeviceDescriptor);
  }

  lemma RetryAsksNothing(s: State, slot: byte, i: Inputs)
    requires ShapeInv(s) && (s.pending == AddressDevice || s.pending == AddressDeviceBsr) && !PortIsEnabled(s, i)
    ensures AsksNothing(s, Handled(s, CommandCompletion(SUCCESS, slot), i))
  {
  }

  /** Any other completion puts no control request out. */
  lemma CommandAsksNothing(s: State, code: byte, slot: byte, i: Inputs)
    requires ShapeInv(s) && (code != SUCCESS || (s.pending != AddressDevice && s.pending != AddressDeviceBsr))
    ensures AsksNothing(s, Handled(s, CommandCompletion(code, slot), i))
  {
    if code == SUCCESS { SuccessAsksNothing(s, slot, i); } else { FailureAsksNothing(s, code, slot, i); }
  }

  predicate AsksNothing(s: State, s': State) {
    && (s'.pending == AddressDevice || s'.pending == AddressDeviceBsr ==> s'.ep0 == R.ZeroedRing())
    && (s'.issued != s.issued ==> s'.issued != [] && !s'.issued[|s'.issued| - 1].Control?)
  }

  lemma SuccessAsksNothing(s: State, slot: byte, i: Inputs)
    requires ShapeInv(s) && s.pending != AddressDevice && s.pending != AddressDeviceBsr
    ensures AsksNothing(s, Handled(s, CommandCompletion(SUCCESS, slot), i))
  {
  }

  lemma FailureAsksNothing(s: State, code: byte, slot: byte, i: Inputs)
    requires ShapeInv(s) && code != SUCCESS
    ensures AsksNothing(s, Handled(s, CommandCompletion(code, slot), i))
  {
  }

  lemma CommandStep0(z: Option<R.Consumer>, c: Controller, s: State, code: byte, slot: byte, i: Inputs)
    requires Match(c, s) && Ep0Match(z, c, s) && Allowed(c, s, CommandCompletion(code, slot))
    ensures var e := CommandCompletion(code, slot);
            Ep0Match(Ep0After(z, c, s, e), After(c, s, e), Handled(s, e, i))
  {
    var e := CommandCompletion(code, slot);
    HandledKeepsShape(s, e, i);
    if code == SUCCESS && (s.pending == AddressDevice || s.pending == AddressDeviceBsr) {
      AddressedOffers(s, slot, i);
    } else {
      CommandAsksNothing(s, code, slot, i);
    }
    NextMatches(Ep0After(z, c, s, e), c, s, After(c, s, e), Handled(s, e, i));
  }

  // ----- Control transfers -----

  lemma DescriptorOffers(s: State, i: Inputs)
    requires ShapeInv(s) && RingsInv(s) && s.ep0Wait.Some?
             && s.enumState in {GetDevice8Sent, GetDeviceSent, GetConfig8Sent}
    ensures OffersNext(s, OnControlDone(s.(ep0Wait := None), i), R.Consumer(s.ep0.enqueue, s.ep0.cycle))
  {
    var s1 := s.(ep0Wait := None);
    if s.enumState == GetDeviceSent {
      ControlInOffers(s1.(transferRetries := 0, enumState := GetConfig8Sent), GET_CONFIG_8, R.ConfigDescriptor);
    } else if s.enumState == GetConfig8Sent {
      ControlInOffers(s1.(enumState := GetConfigFullSent), GetConfigFull(Desc.Total(i.configDesc)), R.ConfigDescriptor);
    }
  }

  lemma SettingOffers(s: State, i: Inputs)
    requires ShapeInv(s) && RingsInv(s) && s.ep0Wait.Some?
    requires s.enumState in {GetConfigFullSent, SetConfigSent, SetProtocolSent}
    ensures OffersNext(s, OnControlDone(s.(ep0Wait := None), i), R.Consumer(s.ep0.enqueue, s.ep0.cycle))
  {
    var s1 := s.(ep0Wait := None);
    if s.enumState == GetConfigFullSent {
      var (e, found) := Desc.Parsed(i.configDesc, s.endpoint.iface);
      if found { ControlOutOffers(s1.(endpoint := e, enumState := SetConfigSent), SetConfiguration(e.configValue)); }
    } else if s.enumState == SetConfigSent {
      ControlOutOffers(s1.(enumState := SetProtocolSent), SetBootProtocol(s.endpoint.iface));
    }
  }

  /** An event that is not the success of the awaited TRB puts no control request out. */
  lemma ErrorAsksNothing(s: State, code: byte, trb: TrbPointer, i: Inputs)
    requires ShapeInv(s) && s.ep0Wait.Some? && trb.OnEp0? && !(TransferOk(code) && trb == OnEp0(s.ep0Wait.value))
    ensures var s' := Handled(s, TransferEvent(code, trb), i);
            && s'.pending != AddressDevice && s'.pending != AddressDeviceBsr
            && (s'.issued != s.issued ==> s'.issued != [] && !s'.issued[|s'.issued| - 1].Control?)
  {
  }

  lemma TransferOffers(s: State, code: byte, slot: nat, i: Inputs)
    requires ShapeInv(s) && RingsInv(s) && s.ep0Wait.Some? && InControlTransfer(s.enumState)
    ensures OffersNext(s, Handled(s, TransferEvent(code, OnEp0(slot)), i), R.Consumer(s.ep0.enqueue, s.ep0.cycle))
  {
    if TransferOk(code) && s.ep0Wait == Some(slot) {
      if s.enumState in {GetDevice8Sent, GetDeviceSent, GetConfig8Sent} { DescriptorOffers(s, i); }
      else { SettingOffers(s, i); }
    } else {
      ErrorAsksNothing(s, code, OnEp0(slot), i);
    }
  }

  lemma TransferStep0(z: Option<R.Consumer>, c: Controller, s: State, code: byte, slot: nat, i: Inputs)
    requires Match(c, s) && Ep0Match(z, c, s) && Allowed(c, s, TransferEvent(code, OnEp0(slot)))
    ensures var e := TransferEvent(code, OnEp0(slot));
            Ep0Match(Ep0After(z, c, s, e), After(c, s, e), Handled(s, e, i))
  {
    var e := TransferEvent(code, OnEp0(slot));
    HandledKeepsShape(s, e, i);
    ReadsWhatIsOut(s, z.value);
    TransferOffers(s, code, slot, i);
    NextMatches(Ep0After(z, c, s, e), c, s, After(c, s, e), Handled(s, e, i));
  }

  // ----- Any event, any run -----

  lemma OtherStep0(z: Option<R.Consumer>, c: Controller, s: State, e: Event, i: Inputs)
    requires Match(c, s) && Ep0Match(z, c, s) && Allowed(c, s, e)
    requires e.PortStatusChange? || e.OtherEvent? || (e.TransferEvent? && e.trb.OnInterrupt?)
    ensures Ep0Match(Ep0After(z, c, s, e), After(c, s, e), Handled(s, e, i))
  {
    if e.TransferEvent? {
      ReadyKeepsEp0(s, e.code, e.trb.slot, i);
    } else {
      PortKeepsEp0(s, e, i);
    }
    StaysMatched(z, c, s, Handled(s, e, i));
  }

  /** Whatever leaves endpoint 0 alone leaves it matched. */
  lemma StaysMatched(z: Option<R.Consumer>, c: Controller, s: State, s': State)
    requires Ep0Match(z, c, s) && s'.ep0 == s.ep0 && s'.ep0Wait == s.ep0Wait
    requires s'.pending == s.pending || s'.pending == EnableSlot
    requires s'.issued == s.issued
             || (c.controlsAnswered == Controls(s.issued)
                 && (s'.issued == s.issued + [Report] || s'.issued == s.issued + [Command(ENABLE_SLOT_TYPE * 1024)]))
    ensures Ep0Match(z, c, s')
  {
    LogGrows(s.issued, Report);
    LogGrows(s.issued, Command(ENABLE_SLOT_TYPE * 1024));
  }

  /** Nothing but a report may be asked for, and endpoint 0 stays as it is. */
  lemma ReadyKeepsEp0(s: State, code: byte, slot: nat, i: Inputs)
    requires ShapeInv(s) && s.enumState == Ready
    ensures var s' := Handled(s, TransferEvent(code, OnInterrupt(slot)), i);
            && s'.ep0 == s.ep0 && s'.ep0Wait == s.ep0Wait && s'.pending == s.pending
            && (s'.issued == s.issued || s'.issued == s.issued + [Report])
  {
  }

  /** Nothing but a slot may be asked for, by a driver that waits for nothing else. */
  lemma PortKeepsEp0(s: State, e: Event, i: Inputs)
    requires ShapeInv(s) && (e.PortStatusChange? || e.OtherEvent?)
    ensures var s' := Handled(s, e, i);
            && s'.ep0 == s.ep0 && s'.ep0Wait == s.ep0Wait
            && (if s'.issued == s.issued then s'.pending == s.pending
                else s.ep0Wait.None? && s'.pending == EnableSlot
                     && s'.issued == s.issued + [Command(ENABLE_SLOT_TYPE * 1024)])
  {
  }

  lemma Ep0Step(z: Option<R.Consumer>, c: Controller, s: State, e: Event, i: Inputs)
    requires Match(c, s) && Ep0Match(z, c, s) && Allowed(c, s, e)
    ensures Ep0Match(Ep0After(z, c, s, e), After(c, s, e), Handled(s, e, i))
  {
    if e.CommandCompletion? { CommandStep0(z, c, s, e.code, e.slot, i); }
    else if e.TransferEvent? && e.trb.OnEp0? { TransferStep0(z, c, s, e.code, e.trb.slot, i); }
    else { OtherStep0(z, c, s, e, i); }
  }

  function Ep0AfterAll(z: Option<R.Consumer>, c: Controller, s: State, run: seq<Occurrence>): (z': Option<R.Consumer>)
    requires Sized(s) && OnRing(c) && OnRing0(z)
    ensures OnRing0(z')
    decreases |run|
  {
    if run == [] then z
    else
      var e := run[0].event;
      Ep0AfterAll(Ep0After(z, c, s, e), After(c, s, e), Handled(s, e, run[0].inputs), run[1..])
  }

  lemma {:induction false} Ep0Run(z: Option<R.Consumer>, c: Controller, s: State, run: seq<Occurrence>)
    requires Match(c, s) && Ep0Match(z, c, s) && WellBehaved(c, s, run)
    ensures Ep0Match(Ep0AfterAll(z, c, s, run), ControllerAfter(c, s, run), HandledAll(s, run))
    decreases |run|
  {
    if run != [] {
      var e, i := run[0].event, run[0].inputs;
      Ep0Step(z, c, s, e, i);
      MatchStep(c, s, e, i);
      Ep0Run(Ep0After(z, c, s, e), After(c, s, e), Handled(s, e, i), run[1..]);
    }
  }

  lemma StartOffersNothing(s: State)
    requires s.issued == [] || s.issued == [Command(ENABLE_SLOT_TYPE * 1024)]
    requires s.pending in {NoCommand, EnableSlot}
    ensures Ep0Match(None, IDLE_CONTROLLER, s)
  {
    LogGrows([], Command(ENABLE_SLOT_TYPE * 1024));
    assert [] + [Command(ENABLE_SLOT_TYPE * 1024)] == [Command(ENABLE_SLOT_TYPE * 1024)];
  }

  lemma OutIsRead(z: Option<R.Consumer>, c: Controller, s: State)
    requires Ep0Match(z, c, s)
    ensures c.controlsAnswered < Controls(s.issued) ==>
              && z.Some? && |s.ep0.trbs| == R.EP_RING_SIZE
              && s.issued != [] && s.issued[|s.issued| - 1].Control?
              && var (ts, end) := ReadTransfer(s.ep0.trbs, z.value, TRANSFER_TRBS);
                 AsksForLast(s.issued[|s.issued| - 1].setup, ts) && s.ep0Wait == Some(end.dequeue - 1)
  {
    if c.controlsAnswered < Controls(s.issued) { ReadsWhatIsOut(s, z.value); }
  }

  /** What the controller reads after a run, when a control transfer is out. */
  ghost predicate ReadsRequest(s0: State, run: seq<Occurrence>)
    requires Sized(s0)
  {
    var s, c := HandledAll(s0, run), ControllerAfter(IDLE_CONTROLLER, s0, run);
    var z := Ep0AfterAll(None, IDLE_CONTROLLER, s0, run);
    c.controlsAnswered < Controls(s.issued) ==>
      && z.Some? && s.issued != [] && s.issued[|s.issued| - 1].Control?
      && var (ts, end) := ReadTransfer(s.ep0.trbs, z.value, TRANSFER_TRBS);
         AsksForLast(s.issued[|s.issued| - 1].setup, ts) && s.ep0Wait == Some(end.dequeue - 1)
  }

  lemma RunReadsRequests(s0: State, run: seq<Occurrence>)
    requires Match(IDLE_CONTROLLER, s0) && Ep0Match(None, IDLE_CONTROLLER, s0) && WellBehaved(IDLE_CONTROLLER, s0, run)
    ensures ReadsRequest(s0, run)
  {
    Ep0Run(None, IDLE_CONTROLLER, s0, run);
    OutIsRead(Ep0AfterAll(None, IDLE_CONTROLLER, s0, run), ControllerAfter(IDLE_CONTROLLER, s0, run),
      HandledAll(s0, run));
  }

  /** From power-up, after any run of a controller that keeps the rules: while a control
      transfer is out, following the cycle bits of endpoint 0 from where it stands the
      controller reads the TRBs of the last request, all of them and no others, and the
      last of them is the one that the driver waits for. */
  lemma ControllerReadsRequests(hid: Hid.State, endpoint: Desc.Endpoint, connected: seq<bool>, reset: PortReset,
                                run: seq<Occurrence>)
    requires WellBehaved(IDLE_CONTROLLER, PortChosen(Started(hid, endpoint), connected, reset), run)
    ensures ReadsRequest(PortChosen(Started(hid, endpoint), connected, reset), run)
  {
    var s0 := PortChosen(Started(hid, endpoint), connected, reset);
    MatchAtStart(hid, endpoint, connected, reset);
    StartMatches(Started(hid, endpoint), connected, reset);
    StartOffersNothing(s0);
    RunReadsRequests(s0, run);
  }
}
