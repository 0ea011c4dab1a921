/** What the driver keeps against any controller: any events, in any order,
  stale or duplicated, with any register contents. */
module UsbSafety {
  import opened Common
  import opened Rings
  import opened UsbDriver
  import Desc = Descriptors
  import Hid = HidReport

  // ----- The history of doorbells -----

  function Commands(log: seq<Request>): nat {
    if log == [] then 0
    else Commands(log[..|log| - 1]) + (if log[|log| - 1].Command? then 1 else 0)
  }

  function Controls(log: seq<Request>): nat {
    if log == [] then 0
    else Controls(log[..|log| - 1]) + (if log[|log| - 1].Control? then 1 else 0)
  }

  function Reports(log: seq<Request>): nat {
    if log == [] then 0
    else Reports(log[..|log| - 1]) + (if log[|log| - 1].Report? then 1 else 0)
  }

  /** The history without report requests. */
  function Enumeration(log: seq<Request>): seq<Request> {
    if log == [] then []
    else Enumeration(log[..|log| - 1]) + (if log[|log| - 1].Report? then [] else [log[|log| - 1]])
  }

  lemma LogGrows(log: seq<Request>, r: Request)
    ensures Commands(log + [r]) == Commands(log) + (if r.Command? then 1 else 0)
    ensures Controls(log + [r]) == Controls(log) + (if r.Control? then 1 else 0)
    ensures Reports(log + [r]) == Reports(log) + (if r.Report? then 1 else 0)
    ensures Enumeration(log + [r]) == Enumeration(log) + (if r.Report? then [] else [r])
  {
  }

  // ----- The invariant, one part at a time -----

  /** How many TRBs a state leaves on the endpoint-0 ring. */
  function Ep0Length(e: EnumState): nat {
    match e
    case GetDevice8Sent => 3
    case GetDeviceSent => 3
    case GetConfig8Sent => 6
    case GetConfigFullSent => 9
    case SetConfigSent => 11
    case SetProtocolSent => 13
    case _ => 0
  }

  predicate SlotAddressed(e: EnumState) {
    e == AddressBsrSent || e == AddressSent || InControlTransfer(e) || e == ConfigureEndpointSent || e == Ready
  }

  /** Which states a pending command may belong to. */
  predicate PendingFits(s: State) {
    match s.pending
    case NoCommand => true
    case EnableSlot => s.enumState == EnableSlotSent
    case DisableSlot => s.retryAfterDisable
      && (s.enumState == AddressBsrSent || s.enumState == AddressSent || InControlTransfer(s.enumState))
    case AddressDeviceBsr => s.enumState == AddressBsrSent
    case AddressDevice => s.enumState == AddressSent
    case ConfigureEndpoint => s.enumState == ConfigureEndpointSent
  }

  /** The control state: no quantifier and no history. */
  predicate ShapeInv(s: State) {
    && Sized(s) && s.cmdEnqueue <= MAX_COMMANDS
    && PendingFits(s)
    && (s.ep0Wait.Some? ==> s.pending == NoCommand && (InControlTransfer(s.enumState) || s.enumState == Idle))
    && (s.intrWait.Some? <==> s.enumState == Ready)
    && (s.transportFailed <==> s.enumState == Idle)
    && (s.transportReady <==> !s.transportFailed)
    && (s.transportReady ==> s.port != 0)
    && (if SlotAddressed(s.enumState) then s.slot != 0 else s.slot == 0 && !s.retryAfterDisable)
    && s.addressRetries <= MAX_RETRIES && s.transferRetries <= MAX_RETRIES
    && s.ep0.enqueue <= 13
    && (s.pending == AddressDeviceBsr || s.pending == AddressDevice ==> s.ep0.enqueue == 0)
    && (s.ep0Wait.Some? && InControlTransfer(s.enumState) ==> s.ep0.enqueue == Ep0Length(s.enumState))
    && (s.enumState == ConfigureEndpointSent ==> s.intr == ZeroedRing())
    && (s.enumState in {SetConfigSent, SetProtocolSent, ConfigureEndpointSent, Ready} ==>
          s.endpoint.address >= 0x80 && 1 <= s.endpoint.dci <= 31 && 1 <= s.endpoint.maxPacket <= Desc.REPORT_SIZE)
  }

  /** The control transfers that may still follow without another command. */
  function Credit(s: State): nat {
    if s.pending == AddressDevice then 5
    else if s.pending == AddressDeviceBsr then 1
    else if s.ep0Wait.None? then 0
    else match s.enumState
      case GetDeviceSent => 4
      case GetConfig8Sent => 3
      case GetConfigFullSent => 2
      case SetConfigSent => 1
      case _ => 0
  }

  /** How far the enumeration sequence has come, when it is alive. */
  function Stage(s: State): nat {
    if s.pending == AddressDevice then 1
    else if s.pending == ConfigureEndpoint || s.enumState == Ready then 7
    else if s.pending != NoCommand || s.ep0Wait.None? then 0
    else match s.enumState
      case GetDeviceSent => 2
      case GetConfig8Sent => 3
      case GetConfigFullSent => 4
      case SetConfigSent => 5
      case SetProtocolSent => 6
      case _ => 0
  }

  /** The requests of the enumeration sequence, in the order of section 4.3 of xHCI 1.2. */
  predicate IsStep(slot: nat, e: Desc.Endpoint, k: nat, r: Request) {
    match k
    case 0 => r == Command(ADDRESS_DEVICE_TYPE * 1024 + slot * SLOT_UNIT)
    case 1 => r == Control(GET_DEVICE)
    case 2 => r == Control(GET_CONFIG_8)
    case 3 => r.Control? && r.setup.length <= Desc.CONFIG_BYTES && r.setup == GetConfigFull(r.setup.length)
    case 4 => r == Control(SetConfiguration(e.configValue))
    case 5 => r == Control(SetBootProtocol(e.iface))
    case _ => r == Command(CONFIGURE_ENDPOINT_TYPE * 1024 + slot * SLOT_UNIT)
  }

  ghost predicate AreSteps(slot: nat, e: Desc.Endpoint, steps: seq<Request>) {
    forall k :: 0 <= k < |steps| ==> IsStep(slot, e, k, steps[k])
  }

  ghost predicate EndsWithSteps(slot: nat, e: Desc.Endpoint, log: seq<Request>, n: nat) {
    n <= |log| && AreSteps(slot, e, log[|log| - n..])
  }

  /** The history: as many commands as ring slots used, every control transfer paid
      for by a command, and the enumeration sequence in order. */
  ghost predicate HistoryInv(s: State) {
    && Commands(s.issued) == s.cmdEnqueue
    && Controls(s.issued) + Credit(s) <= 5 * Commands(s.issued)
    && EndsWithSteps(s.slot, s.endpoint, Enumeration(s.issued), Stage(s))
  }

  /** The rings in memory. */
  ghost predicate RingsInv(s: State) {
    && Sized(s)
    && s.commands[MAX_COMMANDS] == ZeroedCommands()[MAX_COMMANDS]
    && ProducerInv(s.ep0) && ProducerInv(s.intr)
  }

  ghost predicate Inv(s: State) {
    ShapeInv(s) && HistoryInv(s) && RingsInv(s)
  }

  // ----- What one event may do to the history -----

  /** No doorbell: no new credit, and the enumeration sequence stands still or is abandoned. */
  predicate Quiet(s: State, s': State) {
    && s'.issued == s.issued && s'.cmdEnqueue == s.cmdEnqueue && s'.commands == s.commands
    && s'.controllerPresent == s.controllerPresent
    && (s'.pending == s.pending || s'.pending == NoCommand)
    && (s'.enumState == Ready ==> s.enumState == Ready)
    && Credit(s') <= Credit(s)
    && (Stage(s') == 0 || (Stage(s') == Stage(s) && s'.slot == s.slot && s'.endpoint == s.endpoint))
  }

  /** Address Device and Configure Endpoint point to the input context. */
  predicate NeedsContext(p: Pending) {
    p == AddressDevice || p == AddressDeviceBsr || p == ConfigureEndpoint
  }

  /** The next slot of the command ring holds a command of the kind now pending, for the slot in use. */
  predicate WroteCommand(s: State, s': State, control: nat) {
    && Sized(s) && Sized(s') && s.cmdEnqueue < MAX_COMMANDS && s'.cmdEnqueue == s.cmdEnqueue + 1
    && s'.commands == s.commands[s.cmdEnqueue := s'.commands[s.cmdEnqueue]]
    && s'.commands[s.cmdEnqueue] == Trb(if NeedsContext(s'.pending) then InputContext else Zero, 0, control, true)
    && control == WordFor(s'.pending, s'.slot) && s'.pending != NoCommand
  }

  /** One doorbell, `r`. */
  predicate Rang(s: State, s': State, r: Request) {
    && s'.issued == s.issued + [r] && s'.controllerPresent == s.controllerPresent
    && (s'.enumState == Ready ==> r.Report?)
    && (if r.Command? then WroteCommand(s, s', r.control)
        else s'.cmdEnqueue == s.cmdEnqueue && s'.commands == s.commands && s'.pending == NoCommand)
    && (r.Command? ==> Credit(s') <= 5)
    && (r.Control? ==> Credit(s') + 1 <= Credit(s) && s'.ep0Wait.Some? && InControlTransfer(s'.enumState))
    && (r.Report? ==> Credit(s') == 0 && Stage(s') == Stage(s) == 7 && s'.slot == s.slot && s'.endpoint == s.endpoint)
    && (!r.Report? ==>
          || Stage(s') == 0
          || (Stage(s') == 1 && IsStep(s'.slot, s'.endpoint, 0, r))
          || (Stage(s) > 0 && Stage(s') == Stage(s) + 1 && s'.slot == s.slot
              && (Stage(s) > 4 ==> s'.endpoint == s.endpoint) && IsStep(s'.slot, s'.endpoint, Stage(s), r)))
  }

  /** Every event rings at most one doorbell. */
  predicate AtMostOne(s: State, s': State) {
    Quiet(s, s') || (s'.issued != [] && Rang(s, s', s'.issued[|s'.issued| - 1]))
  }

  predicate Keeps(s: State, s': State) {
    ShapeInv(s') && AtMostOne(s, s')
  }

  /** Unless a command was sent, none is pending. */
  predicate Cleared(s: State, s': State) {
    s'.cmdEnqueue == s.cmdEnqueue ==> s'.pending == NoCommand
  }

  /** `s1` is `s` in a state that may retry its port: only retry bookkeeping differs. */
  predicate MayRetry(s: State, s1: State) {
    && SlotAddressed(s.enumState) && s.enumState != Ready && s.enumState != ConfigureEndpointSent
    && s1 == s.(pending := s1.pending, addressRetries := s1.addressRetries, transferRetries := s1.transferRetries,
                mpsOverride := s1.mpsOverride, ep0Wait := s1.ep0Wait, enumState := s1.enumState)
    && (s1.pending == NoCommand || s1.pending == s.pending == DisableSlot)
    && (s1.enumState == s.enumState || s1.enumState == GetDevice8Sent || s1.enumState == GetDeviceSent)
    && s1.addressRetries <= MAX_RETRIES && s1.transferRetries <= MAX_RETRIES
  }

  lemma RetryKeeps(s: State, s1: State, reset: PortReset)
    requires ShapeInv(s) && MayRetry(s, s1) && s1.ep0Wait.None?
    ensures Keeps(s, SlotDisabledForRetry(s1, reset))
    ensures s1.pending == NoCommand ==> Cleared(s, SlotDisabledForRetry(s1, reset))
  {
  }

  lemma FailureKeeps(s: State, s1: State)
    requires ShapeInv(s) && s.transportReady && s.enumState != Ready
    requires s1 == s.(pending := s1.pending, enumState := s1.enumState, ep0Wait := s1.ep0Wait, endpoint := s1.endpoint,
                      addressRetries := s1.addressRetries, transferRetries := s1.transferRetries,
                      mpsOverride := s1.mpsOverride)
    requires s1.addressRetries <= MAX_RETRIES && s1.transferRetries <= MAX_RETRIES
    requires s1.ep0Wait == s.ep0Wait || s1.ep0Wait == None
    ensures Keeps(s, TransportFailed(s1)) && Cleared(s, TransportFailed(s1))
  {
  }

  lemma PortRetriedKeeps(s: State, s1: State, reset: PortReset)
    requires ShapeInv(s) && MayRetry(s, s1) && s1.ep0Wait == s.ep0Wait
    ensures Keeps(s, PortRetried(s1, reset))
    ensures s1.pending == NoCommand ==> Cleared(s, PortRetried(s1, reset))
  {
    if s1.transferRetries < MAX_RETRIES {
      assert s.port != 0 && s1.intrWait == None;
      var s2 := RetryCounted(s1);
      assert PortRetried(s1, reset) == SlotDisabledForRetry(s2, reset);
      RetryKeeps(s, s2, reset);
    } else {
      assert PortRetried(s1, reset) == TransportFailed(s1);
      FailureKeeps(s, s1);
    }
  }

  lemma PortResetKeeps(s: State, reset: PortReset)
    requires ShapeInv(s) && s.pending == DisableSlot
    ensures var s' := PortResetStarted(s.(pending := NoCommand, slot := 0, retryAfterDisable := false), s.port, reset);
            Keeps(s, s') && Cleared(s, s')
  {
  }

  lemma AddressFailedKeeps(s: State, reset: PortReset)
    requires ShapeInv(s) && (s.pending == AddressDevice || s.pending == AddressDeviceBsr)
    ensures var s' := AddressFailed(s.(pending := NoCommand), reset);
            Keeps(s, s') && Cleared(s, s')
  {
  }

  lemma CommandFailedKeeps(s: State, i: Inputs)
    requires ShapeInv(s) && s.pending != NoCommand
    ensures var s' := CommandFailed(s.(pending := NoCommand), s.pending, i);
            Keeps(s, s') && Cleared(s, s')
  {
    if s.pending == DisableSlot {
      PortResetKeeps(s, i.reset);
    } else if s.pending == AddressDevice || s.pending == AddressDeviceBsr {
      AddressFailedKeeps(s, i.reset);
    }
  }

  /** After an address command the driver starts the first control transfer, or retries the port. */
  lemma AddressedKeeps(s: State, i: Inputs)
    requires ShapeInv(s) && (s.pending == AddressDeviceBsr || s.pending == AddressDevice)
    ensures var s' := CommandSucceeded(s.(pending := NoCommand), s.pending, s.slot, i);
            Keeps(s, s') && Cleared(s, s')
  {
    var bsr := s.pending == AddressDeviceBsr;
    var s1 := s.(pending := NoCommand, enumState := if bsr then GetDevice8Sent else GetDeviceSent);
    if PortIsEnabled(s, i) {
      FirstTransferKeeps(s, s1, if bsr then GET_DEVICE_8 else GET_DEVICE);
    } else {
      PortRetriedKeeps(s, s1, i.reset);
    }
  }

  lemma FirstTransferKeeps(s: State, s1: State, setup: Setup)
    requires ShapeInv(s)
    requires if s.pending == AddressDeviceBsr then s1.enumState == GetDevice8Sent && setup == GET_DEVICE_8
             else s.pending == AddressDevice && s1.enumState == GetDeviceSent && setup == GET_DEVICE
    requires s1 == s.(pending := NoCommand, enumState := s1.enumState)
    ensures var s' := WithControlIn(s1, setup, DeviceDescriptor);
            Keeps(s, s') && Cleared(s, s')
  {
  }

  lemma ControlInShape(s: State, setup: Setup, buffer: Parameter)
    requires Sized(s) && s.ep0.enqueue <= 10
    ensures var s' := WithControlIn(s, setup, buffer);
            && s'.ep0.enqueue == s.ep0.enqueue + 3 && s'.ep0Wait.Some?
            && s' == s.(ep0 := s'.ep0, ep0Wait := s'.ep0Wait, issued := s.issued + [Control(setup)])
  {
  }

  lemma SlotEnabledKeeps(s: State, slot: byte, i: Inputs)
    requires ShapeInv(s) && s.pending == EnableSlot
    ensures var s' := CommandSucceeded(s.(pending := NoCommand), EnableSlot, slot, i);
            Keeps(s, s') && Cleared(s, s')
  {
  }

  lemma ConfiguredKeeps(s: State, slot: byte, i: Inputs)
    requires ShapeInv(s) && s.pending == ConfigureEndpoint
    ensures var s' := CommandSucceeded(s.(pending := NoCommand), ConfigureEndpoint, slot, i);
            Keeps(s, s') && Cleared(s, s')
  {
  }

  lemma CompletionKeeps(s: State, code: byte, slot: byte, i: Inputs)
    requires ShapeInv(s)
    ensures var s' := OnCommandCompletion(s, code, slot, i);
            Keeps(s, s') && Cleared(s, s')
  {
    if s.pending == NoCommand {
      assert s.(pending := NoCommand) == s;
    } else if code != SUCCESS {
      CommandFailedKeeps(s, i);
    } else if s.pending == AddressDeviceBsr || s.pending == AddressDevice {
      AddressedKeeps(s, i);
    } else if s.pending == EnableSlot {
      SlotEnabledKeeps(s, slot, i);
    } else if s.pending == DisableSlot {
      PortResetKeeps(s, i.reset);
    } else {
      ConfiguredKeeps(s, slot, i);
    }
  }

  lemma PortStatusKeeps(s: State, i: Inputs)
    requires ShapeInv(s)
    ensures Keeps(s, OnPortStatusChange(s, i))
  {
  }

  lemma DescriptorReadKeeps(s: State, i: Inputs)
    requires ShapeInv(s) && s.ep0Wait.Some? && (s.enumState == GetDeviceSent || s.enumState == GetConfig8Sent)
    ensures Keeps(s, OnControlDone(s.(ep0Wait := None), i))
  {
    if s.enumState == GetDeviceSent { DeviceReadKeeps(s, i); } else { ConfigHeadReadKeeps(s, i); }
  }

  lemma DeviceReadKeeps(s: State, i: Inputs)
    requires ShapeInv(s) && s.ep0Wait.Some? && s.enumState == GetDeviceSent
    ensures Keeps(s, OnControlDone(s.(ep0Wait := None), i))
  {
    var s1 := s.(ep0Wait := None, transferRetries := 0, enumState := GetConfig8Sent);
    ControlInShape(s1, GET_CONFIG_8, ConfigDescriptor);
  }

  lemma ConfigHeadReadKeeps(s: State, i: Inputs)
    requires ShapeInv(s) && s.ep0Wait.Some? && s.enumState == GetConfig8Sent
    ensures Keeps(s, OnControlDone(s.(ep0Wait := None), i))
  {
    var s1 := s.(ep0Wait := None, enumState := GetConfigFullSent);
    ControlInShape(s1, GetConfigFull(Desc.Total(i.configDesc)), ConfigDescriptor);
  }

  lemma ControlOutShape(s: State, setup: Setup)
    requires Sized(s) && s.ep0.enqueue <= 11 && setup.length == 0
    ensures var s' := WithControlOut(s, setup, Zero);
            && s'.ep0.enqueue == s.ep0.enqueue + 2 && s'.ep0Wait.Some?
            && s' == s.(ep0 := s'.ep0, ep0Wait := s'.ep0Wait, issued := s.issued + [Control(setup)])
  {
  }

  lemma ConfigReadKeeps(s: State, i: Inputs)
    requires ShapeInv(s) && s.ep0Wait.Some? && s.enumState == GetConfigFullSent
    ensures Keeps(s, OnControlDone(s.(ep0Wait := None), i))
  {
    var (e, found) := Desc.Parsed(i.configDesc, s.endpoint.iface);
    if found {
      Desc.ChosenEndpointFits(i.configDesc, s.endpoint.iface, 64);
      ControlOutShape(s.(ep0Wait := None, endpoint := e, enumState := SetConfigSent), SetConfiguration(e.configValue));
    } else {
      FailureKeeps(s, s.(ep0Wait := None, endpoint := e));
    }
  }

  /** The first eight bytes lead to the final address command, the boot protocol to the endpoint command. */
  lemma OtherControlDoneKeeps(s: State, i: Inputs)
    requires ShapeInv(s) && s.ep0Wait.Some?
    requires s.enumState == GetDevice8Sent || s.enumState == SetProtocolSent || !InControlTransfer(s.enumState)
    ensures Keeps(s, OnControlDone(s.(ep0Wait := None), i))
  {
  }

  lemma ControlDoneKeeps(s: State, i: Inputs)
    requires ShapeInv(s) && s.ep0Wait.Some?
    ensures Keeps(s, OnControlDone(s.(ep0Wait := None), i))
  {
    if s.enumState == GetDeviceSent || s.enumState == GetConfig8Sent {
      DescriptorReadKeeps(s, i);
    } else if s.enumState == GetConfigFullSent {
      ConfigReadKeeps(s, i);
    } else if s.enumState == SetConfigSent {
      ControlOutShape(s.(ep0Wait := None, enumState := SetProtocolSent), SetBootProtocol(s.endpoint.iface));
    } else {
      OtherControlDoneKeeps(s, i);
    }
  }

  lemma TransferKeeps(s: State, code: byte, trb: TrbPointer, i: Inputs)
    requires ShapeInv(s)
    ensures Keeps(s, OnTransfer(s, code, trb, i))
  {
    if !TransferOk(code) {
      if code == TRANSACTION_ERROR && InControlTransfer(s.enumState) {
        PortRetriedKeeps(s, s, i.reset);
      }
    } else if s.ep0Wait.Some? && trb == OnEp0(s.ep0Wait.value) {
      ControlDoneKeeps(s, i);
    }
  }

  lemma HandledKeepsShape(s: State, e: Event, i: Inputs)
    requires ShapeInv(s)
    ensures Keeps(s, Handled(s, e, i))
    ensures e.CommandCompletion? ==> Cleared(s, Handled(s, e, i))
  {
    match e
    case CommandCompletion(code, slot) => CompletionKeeps(s, code, slot, i);
    case PortStatusChange => PortStatusKeeps(s, i);
    case TransferEvent(code, trb) => TransferKeeps(s, code, trb, i);
    case OtherEvent =>
  }

  /** A log that ends with `n` steps ends with `n + 1` after the next step. */
  lemma StepsGrow(slot: nat, e: Desc.Endpoint, e': Desc.Endpoint, log: seq<Request>, n: nat, r: Request)
    requires EndsWithSteps(slot, e, log, n) && IsStep(slot, e', n, r)
    requires n > 4 ==> e' == e
    ensures EndsWithSteps(slot, e', log + [r], n + 1)
  {
  }

  lemma FirstStep(slot: nat, e: Desc.Endpoint, log: seq<Request>, r: Request)
    requires IsStep(slot, e, 0, r)
    ensures EndsWithSteps(slot, e, log + [r], 1)
  {
  }

  /** One doorbell, told by what it does to the counts and to the sequence. */
  lemma HistoryGrows(s: State, s': State)
    requires HistoryInv(s) && AtMostOne(s, s')
    ensures HistoryInv(s')
  {
    if !Quiet(s, s') {
      var r := s'.issued[|s'.issued| - 1];
      LogGrows(s.issued, r);
      if !r.Report? && Stage(s') == 1 && IsStep(s'.slot, s'.endpoint, 0, r) {
        FirstStep(s'.slot, s'.endpoint, Enumeration(s.issued), r);
      } else if !r.Report? && Stage(s') > 0 {
        StepsGrow(s'.slot, s.endpoint, s'.endpoint, Enumeration(s.issued), Stage(s), r);
      }
    }
  }

  // ----- What one event does to the rings -----

  lemma PushKeepsProducer(r: Ring, parameter: Parameter, status: nat, control: nat)
    requires ProducerInv(r) && TypeOf(control) != TRB_LINK
    ensures ProducerInv(Pushed(r, parameter, status, control))
  {
  }

  lemma ControlInKeepsRings(s: State, setup: Setup, buffer: Parameter)
    requires RingsInv(s)
    ensures RingsInv(WithControlIn(s, setup, buffer))
  {
    PushKeepsProducer(s.ep0, Packet(setup), 8, SETUP_IN);
    var s1 := WithEp0(s, Packet(setup), 8, SETUP_IN);
    PushKeepsProducer(s1.ep0, buffer, setup.length, DATA_IN);
    var s2 := WithEp0(s1, buffer, setup.length, DATA_IN);
    PushKeepsProducer(s2.ep0, Zero, 0, STATUS_OUT);
  }

  lemma ControlOutKeepsRings(s: State, setup: Setup)
    requires RingsInv(s) && setup.length == 0
    ensures RingsInv(WithControlOut(s, setup, Zero))
  {
  }

  /** Only data slots of the command ring may differ. */
  predicate SameRings(s: State, s': State) {
    Sized(s) && Sized(s') && s'.ep0 == s.ep0 && s'.intr == s.intr
      && s'.commands[MAX_COMMANDS] == s.commands[MAX_COMMANDS]
  }

  lemma RetrySameRings(s: State, reset: PortReset)
    requires Sized(s)
    ensures SameRings(s, SlotDisabledForRetry(s, reset))
  {
  }

  lemma PortRetriedSameRings(s: State, reset: PortReset)
    requires Sized(s)
    ensures SameRings(s, PortRetried(s, reset))
  {
    RetrySameRings(RetryCounted(s), reset);
  }

  lemma FailureSameRings(s: State, completed: Pending, i: Inputs)
    requires Sized(s)
    ensures SameRings(s, CommandFailed(s, completed, i))
  {
    if completed == AddressDevice || completed == AddressDeviceBsr {
      AddressFailedSameRings(s, i.reset);
    } else if completed == DisableSlot && s.retryAfterDisable {
      PortResetSameRings(s.(slot := 0, retryAfterDisable := false), s.port, i.reset);
    }
  }

  lemma AddressFailedSameRings(s: State, reset: PortReset)
    requires Sized(s)
    ensures SameRings(s, AddressFailed(s, reset))
  {
    var mps := NextMps(s.speed, s.addressRetries + 1);
    RetrySameRings(s.(addressRetries := s.addressRetries + 1, mpsOverride := mps), reset);
  }

  lemma PortResetSameRings(s: State, port: nat, reset: PortReset)
    requires Sized(s)
    ensures SameRings(s, PortResetStarted(s, port, reset))
  {
  }

  lemma AddressedKeepsRings(s: State, bsr: bool, i: Inputs)
    requires RingsInv(s)
    ensures RingsInv(CommandSucceeded(s, if bsr then AddressDeviceBsr else AddressDevice, 0, i))
  {
    var s1 := s.(enumState := if bsr then GetDevice8Sent else GetDeviceSent);
    if PortIsEnabled(s, i) {
      ControlInKeepsRings(s1, if bsr then GET_DEVICE_8 else GET_DEVICE, DeviceDescriptor);
    } else {
      PortRetriedSameRings(s1, i.reset);
    }
  }

  lemma CompletionKeepsRings(s: State, code: byte, slot: byte, i: Inputs)
    requires RingsInv(s)
    ensures RingsInv(OnCommandCompletion(s, code, slot, i))
  {
    var s1 := s.(pending := NoCommand);
    if code != SUCCESS {
      FailureSameRings(s1, s.pending, i);
    } else if s.pending == AddressDeviceBsr || s.pending == AddressDevice {
      AddressedKeepsRings(s1, s.pending == AddressDeviceBsr, i);
    } else if s.pending != NoCommand {
      OtherSuccessKeepsRings(s1, s.pending, slot, i);
    }
  }

  lemma OtherSuccessKeepsRings(s: State, completed: Pending, slot: byte, i: Inputs)
    requires RingsInv(s) && (completed == EnableSlot || completed == DisableSlot || completed == ConfigureEndpoint)
    ensures RingsInv(CommandSucceeded(s, completed, slot, i))
  {
    PushKeepsProducer(s.intr, KeyboardReport, s.endpoint.maxPacket, NORMAL_IOC);
  }

  lemma DescriptorReadKeepsRings(s: State, i: Inputs)
    requires RingsInv(s) && (s.enumState == GetDeviceSent || s.enumState == GetConfig8Sent)
    ensures RingsInv(OnControlDone(s, i))
  {
    if s.enumState == GetDeviceSent {
      ControlInKeepsRings(s.(transferRetries := 0, enumState := GetConfig8Sent), GET_CONFIG_8, ConfigDescriptor);
    } else {
      var setup := GetConfigFull(Desc.Total(i.configDesc));
      ControlInKeepsRings(s.(enumState := GetConfigFullSent), setup, ConfigDescriptor);
    }
  }

  lemma ControlDoneKeepsRings(s: State, i: Inputs)
    requires RingsInv(s)
    ensures RingsInv(OnControlDone(s, i))
  {
    if s.enumState == GetDeviceSent || s.enumState == GetConfig8Sent {
      DescriptorReadKeepsRings(s, i);
    } else if s.enumState == GetConfigFullSent || s.enumState == SetConfigSent {
      SettingKeepsRings(s, i);
    }
  }

  lemma SettingKeepsRings(s: State, i: Inputs)
    requires RingsInv(s) && (s.enumState == GetConfigFullSent || s.enumState == SetConfigSent)
    ensures RingsInv(OnControlDone(s, i))
  {
    if s.enumState == GetConfigFullSent {
      var (e, found) := Desc.Parsed(i.configDesc, s.endpoint.iface);
      ControlOutKeepsRings(s.(endpoint := e, enumState := SetConfigSent), SetConfiguration(e.configValue));
    } else {
      ControlOutKeepsRings(s.(enumState := SetProtocolSent), SetBootProtocol(s.endpoint.iface));
    }
  }

  lemma HandledKeepsRings(s: State, e: Event, i: Inputs)
    requires RingsInv(s)
    ensures RingsInv(Handled(s, e, i))
  {
    match e
    case CommandCompletion(code, slot) => CompletionKeepsRings(s, code, slot, i);
    case PortStatusChange =>
    case TransferEvent(code, trb) => TransferKeepsRings(s, code, trb, i);
    case OtherEvent =>
  }

  lemma TransferKeepsRings(s: State, code: byte, trb: TrbPointer, i: Inputs)
    requires RingsInv(s)
    ensures RingsInv(Handled(s, TransferEvent(code, trb), i))
  {
    if !TransferOk(code) {
      PortRetriedSameRings(s, i.reset);
    } else if s.ep0Wait.Some? && trb == OnEp0(s.ep0Wait.value) {
      ControlDoneKeepsRings(s.(ep0Wait := None), i);
    } else {
      PushKeepsProducer(s.intr, KeyboardReport, s.endpoint.maxPacket, NORMAL_IOC);
    }
  }

  // ----- Every run -----

  lemma HandledKeeps(s: State, e: Event, i: Inputs)
    requires Inv(s)
    ensures Inv(Handled(s, e, i)) && AtMostOne(s, Handled(s, e, i))
  {
    HandledKeepsShape(s, e, i);
    HistoryGrows(s, Handled(s, e, i));
    HandledKeepsRings(s, e, i);
  }

  lemma FirstConnectedIsReal(connected: seq<bool>, port: nat)
    ensures var r := FirstConnected(connected, port);
            if r.None? then forall k :: port <= k < |connected| ==> !connected[k]
            else port < r.value <= |connected| && connected[r.value - 1]
                 && forall k :: port <= k < r.value - 1 ==> !connected[k]
    decreases |connected| - port
  {
  }

  lemma StartKeeps(hid: Hid.State, endpoint: Desc.Endpoint, connected: seq<bool>, reset: PortReset)
    ensures Inv(PortChosen(Started(hid, endpoint), connected, reset))
  {
    var s := Started(hid, endpoint);
    var port := FirstConnected(connected, 0);
    FirstConnectedIsReal(connected, 0);
    if port.None? { NoPortKeeps(s); } else { FirstResetKeeps(s, port.value, reset); }
  }

  /** The port that is reset at the start is the first connected one; without any the transport fails. */
  lemma StartsAtFirstPort(s: State, connected: seq<bool>, reset: PortReset)
    requires Sized(s)
    ensures var s' := PortChosen(s, connected, reset);
            if true in connected then
              && 1 <= s'.port <= |connected| && connected[s'.port - 1] && true !in connected[..s'.port - 1]
              && s'.transportFailed == s.transportFailed
              && s'.speed == (if reset.done.Some? then reset.done.value.speed else reset.before.speed)
              && s'.enumState == (if reset.done.Some? && reset.done.value.enabled then EnableSlotSent else ResetSent)
            else s' == s.(transportReady := false, transportFailed := true)
  {
    FirstConnectedIsReal(connected, 0);
  }

  /** A running driver that has asked for nothing yet. */
  ghost predicate JustStarted(s: State) {
    && RingsInv(s) && s.transportReady && !s.transportFailed && s.enumState == Idle && s.pending == NoCommand
    && s.slot == 0 && !s.retryAfterDisable && s.addressRetries == 0 && s.transferRetries == 0
    && s.cmdEnqueue == 0 && s.ep0.enqueue == 0 && s.ep0Wait.None? && s.intrWait.None? && s.issued == []
  }

  lemma NoPortKeeps(s: State)
    requires JustStarted(s)
    ensures Inv(s.(transportReady := false, transportFailed := true))
  {
  }

  lemma FirstResetKeeps(s: State, port: nat, reset: PortReset)
    requires JustStarted(s) && port != 0
    ensures Inv(PortResetStarted(s, port, reset))
  {
    FirstResetShape(s, port, reset);
    FirstResetHistory(s, port, reset);
  }

  lemma FirstResetShape(s: State, port: nat, reset: PortReset)
    requires JustStarted(s) && port != 0
    ensures ShapeInv(PortResetStarted(s, port, reset)) && RingsInv(PortResetStarted(s, port, reset))
  {
  }

  lemma FirstResetHistory(s: State, port: nat, reset: PortReset)
    requires JustStarted(s)
    ensures HistoryInv(PortResetStarted(s, port, reset))
  {
    var s', r := PortResetStarted(s, port, reset), Command(ENABLE_SLOT_TYPE * 1024);
    LogGrows(s.issued, r);
    assert s'.issued == s.issued || s'.issued == s.issued + [r];
    assert Stage(s') == 0 && Credit(s') == 0;
  }

  lemma {:induction false} RunKeeps(s: State, run: seq<Occurrence>)
    requires Inv(s)
    ensures Inv(HandledAll(s, run))
    decreases |run|
  {
    if run != [] {
      HandledKeeps(s, run[0].event, run[0].inputs);
      RunKeeps(Handled(s, run[0].event, run[0].inputs), run[1..]);
    }
  }

  // ----- The main results -----

  /** Against any controller, from power-up: at most 63 commands, the link slot of
      the command ring stays as it was, at most five control transfers a command,
      and the endpoint-0 ring stays within its first thirteen slots. */
  lemma EnumerationIsBounded(hid: Hid.State, endpoint: Desc.Endpoint, connected: seq<bool>, reset: PortReset,
                             run: seq<Occurrence>)
    ensures var s := HandledAll(PortChosen(Started(hid, endpoint), connected, reset), run);
            && Commands(s.issued) <= 63
            && s.commands[63] == Started(hid, endpoint).commands[63] && LeadsBack(s.commands[63])
            && Controls(s.issued) <= 5 * Commands(s.issued) <= 315
            && s.ep0.enqueue <= 13
            && s.addressRetries <= 3 && s.transferRetries <= 3
  {
    StartKeeps(hid, endpoint, connected, reset);
    RunKeeps(PortChosen(Started(hid, endpoint), connected, reset), run);
  }

  /** A keyboard is ready only after the whole sequence, in order and for the slot
      and endpoint in use: address, device descriptor, configuration header, whole
      configuration, set configuration, set boot protocol, configure endpoint. */
  lemma ReadyMeansEnumerated(s: State)
    requires Inv(s) && s.enumState == Ready
    ensures var log := Enumeration(s.issued);
            |log| >= 7 && AreSteps(s.slot, s.endpoint, log[|log| - 7..])
            && s.endpoint.address >= 0x80 && s.slot != 0 && s.port != 0
  {
  }

  lemma ReadyIsExact(s: State)
    requires Inv(s)
    ensures IsReady(s) <==> s.enumState == Ready
  {
  }

  /** A ready keyboard stays ready, on its slot and endpoint. */
  lemma ReadyStays(s: State, e: Event, i: Inputs)
    requires ShapeInv(s) && IsReady(s)
    ensures var s' := Handled(s, e, i);
            IsReady(s') && s'.slot == s.slot && s'.endpoint == s.endpoint
  {
  }

  /** A failed driver stays failed, and asks nothing more of the hardware. */
  lemma FailedStays(s: State, e: Event, i: Inputs)
    requires ShapeInv(s) && s.transportFailed
    ensures var s' := Handled(s, e, i);
            && s'.transportFailed && !s'.transportReady && s'.issued == s.issued && s'.hid == s.hid
            && s'.slot == 0 && s'.pending == NoCommand && !s'.retryAfterDisable
  {
  }

  /** Ready and failed are both for good. */
  lemma {:induction false} OutcomeIsFinal(s: State, run: seq<Occurrence>)
    requires Inv(s)
    ensures IsReady(s) ==> IsReady(HandledAll(s, run))
    ensures s.transportFailed ==>
              var s' := HandledAll(s, run);
              s'.transportFailed && !s'.transportReady && s'.issued == s.issued && s'.hid == s.hid
    decreases |run|
  {
    if run != [] {
      HandledKeeps(s, run[0].event, run[0].inputs);
      if IsReady(s) { ReadyStays(s, run[0].event, run[0].inputs); }
      if s.transportFailed { FailedStays(s, run[0].event, run[0].inputs); }
      OutcomeIsFinal(Handled(s, run[0].event, run[0].inputs), run[1..]);
    }
  }
}
