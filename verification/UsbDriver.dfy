/** The enumeration machine of the xHCI keyboard driver (section 4.3 of xHCI
  1.2), as functions from state to state. What the hardware answers is an input:
  register reads, descriptor bytes, reports and events are all arbitrary. */
module UsbDriver {
  import opened Common
  import opened Rings
  import Desc = Descriptors
  import Hid = HidReport

  const CMD_RING_SIZE := 64
  const MAX_COMMANDS := CMD_RING_SIZE - 1
  const MAX_RETRIES := 3
  const DEVICE_DESC_BYTES := 18

  datatype EnumState =
    | Idle | ResetSent | EnableSlotSent | AddressBsrSent | AddressSent
    | GetDevice8Sent | GetDeviceSent | GetConfig8Sent | GetConfigFullSent
    | SetConfigSent | SetProtocolSent | ConfigureEndpointSent | Ready

  datatype Pending = NoCommand | EnableSlot | DisableSlot | AddressDeviceBsr | AddressDevice | ConfigureEndpoint

  // Command TRB control words: the type in bits 10 to 15, BSR in bit 9, the slot in bits 24 to 31.
  const ENABLE_SLOT_TYPE := 9
  const DISABLE_SLOT_TYPE := 10
  const ADDRESS_DEVICE_TYPE := 11
  const CONFIGURE_ENDPOINT_TYPE := 12
  const BSR := 512
  const SLOT_UNIT := 0x100_0000

  /** The command that a control word asks the controller for (sections 6.4.3 and 6.4.6 of xHCI 1.2). */
  function CommandIn(control: nat): Pending {
    var t := control / 1024 % 64;
    if t == 9 then EnableSlot
    else if t == 10 then DisableSlot
    else if t == 11 then (if control / 512 % 2 == 1 then AddressDeviceBsr else AddressDevice)
    else if t == 12 then ConfigureEndpoint
    else NoCommand
  }

  function SlotIn(control: nat): nat {
    control / 0x100_0000
  }

  /** The control word that asks for a command. */
  function WordFor(p: Pending, slot: nat): nat {
    match p
    case EnableSlot => ENABLE_SLOT_TYPE * 1024
    case DisableSlot => DISABLE_SLOT_TYPE * 1024 + slot * SLOT_UNIT
    case AddressDeviceBsr => ADDRESS_DEVICE_TYPE * 1024 + slot * SLOT_UNIT + BSR
    case AddressDevice => ADDRESS_DEVICE_TYPE * 1024 + slot * SLOT_UNIT
    case ConfigureEndpoint => CONFIGURE_ENDPOINT_TYPE * 1024 + slot * SLOT_UNIT
    case NoCommand => 0
  }

  lemma WordRoundTrip(p: Pending, slot: nat)
    ensures CommandIn(WordFor(p, slot)) == p
    ensures p != NoCommand && p != EnableSlot ==> SlotIn(WordFor(p, slot)) == slot
  {
    match p
    case EnableSlot => WordParts(ENABLE_SLOT_TYPE, 0, 0);
    case DisableSlot => WordParts(DISABLE_SLOT_TYPE, 0, slot);
    case AddressDeviceBsr => WordParts(ADDRESS_DEVICE_TYPE, 1, slot);
    case AddressDevice => WordParts(ADDRESS_DEVICE_TYPE, 0, slot);
    case ConfigureEndpoint => WordParts(CONFIGURE_ENDPOINT_TYPE, 0, slot);
    case NoCommand =>
  }

  lemma WordParts(kind: nat, bsr: nat, slot: nat)
    requires kind < 64 && bsr < 2
    ensures var w := kind * 1024 + slot * SLOT_UNIT + bsr * BSR;
            TypeOf(w) == kind && w / BSR % 2 == bsr && SlotIn(w) == slot
  {
    var w := kind * 1024 + slot * SLOT_UNIT + bsr * BSR;
    QuotientIs(w, 1024, kind + slot * 16384, bsr * BSR);
    QuotientIs(kind + slot * 16384, 64, slot * 256, kind);
    QuotientIs(w, BSR, bsr + 2 * (kind + slot * 16384), 0);
    QuotientIs(bsr + 2 * (kind + slot * 16384), 2, kind + slot * 16384, bsr);
    QuotientIs(w, SLOT_UNIT, slot, kind * 1024 + bsr * BSR);
  }

  /** One doorbell: a command, a control transfer on endpoint 0, or a report request. */
  datatype Request = Command(control: nat) | Control(setup: Setup) | Report

  // Control words of the transfer TRBs.
  const SETUP_IN := TRB_SETUP_STAGE * 1024 + 0x40 + 0x3_0000
  const SETUP_OUT := TRB_SETUP_STAGE * 1024 + 0x40 + 0x2_0000
  const SETUP_NO_DATA := TRB_SETUP_STAGE * 1024 + 0x40
  const DATA_IN := TRB_DATA_STAGE * 1024 + 0x1_0000
  const DATA_OUT := TRB_DATA_STAGE * 1024
  const STATUS_OUT := TRB_STATUS_STAGE * 1024 + 0x20
  const STATUS_IN := TRB_STATUS_STAGE * 1024 + 0x1_0000 + 0x20
  const NORMAL_IOC := TRB_NORMAL * 1024 + 0x20

  const GET_DEVICE_8 := Setup(0x80, 0x06, 0x0100, 0, 8)
  const GET_DEVICE := Setup(0x80, 0x06, 0x0100, 0, DEVICE_DESC_BYTES)
  const GET_CONFIG_8 := Setup(0x80, 0x06, 0x0200, 0, 8)

  function GetConfigFull(total: nat): Setup {
    Setup(0x80, 0x06, 0x0200, 0, total)
  }

  function SetConfiguration(value: byte): Setup {
    Setup(0x00, 0x09, value, 0, 0)
  }

  function SetBootProtocol(iface: byte): Setup {
    Setup(0x21, 0x0B, 0, iface, 0)
  }

  /** The two fields of a port status register that the driver uses. */
  datatype Portsc = Portsc(enabled: bool, speed: Speed)

  /** The four speed bits of a port status register. */
  type Speed = n: int | 0 <= n < 16

  /** What `start_port_reset` reads: the status before the reset, and the first
      status without the reset bit, if one is seen before the wait runs out. */
  datatype PortReset = PortReset(before: Portsc, done: Option<Portsc>)

  type DeviceDesc = d: seq<byte> | |d| == DEVICE_DESC_BYTES witness seq(DEVICE_DESC_BYTES, _ => 0)

  /** Everything that the hardware may show while one event is handled. */
  datatype Inputs = Inputs(
    status: Portsc, portEnabled: bool, reset: PortReset,
    deviceDesc: DeviceDesc, configDesc: Desc.Config, report: Hid.Report)

  /** The TRB that a transfer event names. */
  datatype TrbPointer = OnEp0(slot: nat) | OnInterrupt(slot: nat) | Elsewhere

  datatype Event =
    | CommandCompletion(code: byte, slot: byte)
    | PortStatusChange
    | TransferEvent(code: byte, trb: TrbPointer)
    | OtherEvent

  const SUCCESS := 1
  const SHORT_PACKET := 13
  const TRANSACTION_ERROR := 4

  datatype State = State(
    controllerPresent: bool, transportReady: bool, transportFailed: bool,
    enumState: EnumState, pending: Pending,
    slot: byte, port: nat, speed: Speed,
    retryAfterDisable: bool, addressRetries: nat, transferRetries: nat, mpsOverride: nat,
    endpoint: Desc.Endpoint,
    commands: seq<Trb>, cmdEnqueue: nat,
    ep0: Ring, intr: Ring, ep0Wait: Option<nat>, intrWait: Option<nat>,
    hid: Hid.State,
    issued: seq<Request>)

  predicate Sized(s: State) {
    |s.commands| == CMD_RING_SIZE && |s.ep0.trbs| == EP_RING_SIZE && |s.intr.trbs| == EP_RING_SIZE
  }

  function ZeroedCommands(): (r: seq<Trb>)
    ensures |r| == CMD_RING_SIZE
  {
    seq(CMD_RING_SIZE - 1, _ => EMPTY_TRB) + [Trb(RingStart, 0, LINK_CONTROL, true)]
  }

  // ----- Rings -----

  function WithCommand(s: State, parameter: Parameter, control: nat, pending: Pending): (s': State)
    requires Sized(s)
    ensures Sized(s')
  {
    if s.cmdEnqueue >= CMD_RING_SIZE - 1 then s
    else s.(commands := s.commands[s.cmdEnqueue := Trb(parameter, 0, control, true)],
            cmdEnqueue := s.cmdEnqueue + 1,
            pending := pending,
            issued := s.issued + [Command(control)])
  }

  function WithEp0(s: State, parameter: Parameter, status: nat, control: nat): (s': State)
    requires Sized(s)
    ensures Sized(s')
  {
    s.(ep0 := Pushed(s.ep0, parameter, status, control))
  }

  function WithControlIn(s: State, setup: Setup, buffer: Parameter): (s': State)
    requires Sized(s)
    ensures Sized(s')
  {
    var s1 := WithEp0(s, Packet(setup), 8, SETUP_IN);
    var s2 := WithEp0(s1, buffer, setup.length, DATA_IN);
    var s3 := WithEp0(s2, Zero, 0, STATUS_OUT);
    s3.(ep0Wait := Some(PushSlot(s2.ep0)), issued := s.issued + [Control(setup)])
  }

  function WithControlOut(s: State, setup: Setup, buffer: Parameter): (s': State)
    requires Sized(s)
    ensures Sized(s')
  {
    var s1 := WithEp0(s, Packet(setup), 8, if setup.length != 0 then SETUP_OUT else SETUP_NO_DATA);
    var s2 := if setup.length != 0 && buffer != Zero then WithEp0(s1, buffer, setup.length, DATA_OUT) else s1;
    var s3 := WithEp0(s2, Zero, 0, STATUS_IN);
    s3.(ep0Wait := Some(PushSlot(s2.ep0)), issued := s.issued + [Control(setup)])
  }

  function WithReportQueued(s: State): (s': State)
    requires Sized(s)
    ensures Sized(s')
  {
    s.(intr := Pushed(s.intr, KeyboardReport, s.endpoint.maxPacket, NORMAL_IOC),
       intrWait := Some(PushSlot(s.intr)),
       issued := s.issued + [Report])
  }

  // ----- Ports, retries and failure -----

  function PortResetStarted(s: State, port: nat, reset: PortReset): (s': State)
    requires Sized(s)
    ensures Sized(s')
  {
    var s1 := s.(port := port, speed := reset.before.speed, enumState := ResetSent);
    match reset.done
    case None => s1
    case Some(p) =>
      if p.enabled then
        WithCommand(s1.(speed := p.speed, enumState := EnableSlotSent), Zero, ENABLE_SLOT_TYPE * 1024, EnableSlot)
      else
        s1.(speed := p.speed)
  }

  function TransportFailed(s: State): State {
    s.(transportReady := false, transportFailed := true, pending := NoCommand, enumState := Idle,
       slot := 0, retryAfterDisable := false)
  }

  function SlotDisabledForRetry(s: State, reset: PortReset): (s': State)
    requires Sized(s)
    ensures Sized(s')
  {
    var s1 := s.(retryAfterDisable := true);
    if s.slot != 0 then
      WithCommand(s1, Zero, DISABLE_SLOT_TYPE * 1024 + s.slot * SLOT_UNIT, DisableSlot)
    else
      PortResetStarted(s1, s.port, reset)
  }

  function RetryCounted(s: State): State {
    s.(transferRetries := s.transferRetries + 1, ep0Wait := None, intrWait := None)
  }

  function PortRetried(s: State, reset: PortReset): (s': State)
    requires Sized(s)
    ensures Sized(s')
  {
    if s.port == 0 || s.transferRetries >= MAX_RETRIES then TransportFailed(s)
    else SlotDisabledForRetry(RetryCounted(s), reset)
  }

  function NextMps(speed: Speed, retry: nat): nat {
    if speed == 2 then 0
    else if retry == 1 then 64
    else if retry == 2 then 32
    else if retry == 3 then 16
    else 0
  }

  // ----- Address and configure -----

  /** The packet size of endpoint 0: the last one learned, or the usual one for the speed. */
  function Ep0Packet(override: nat, speed: Speed): nat {
    if override != 0 then override
    else if speed == 2 then 8
    else if speed == 3 then 64
    else if speed >= 4 then 512
    else 8
  }

  function AddressPrepared(s: State, slot: nat, bsr: bool): (s': State)
    requires Sized(s)
    ensures Sized(s')
  {
    WithCommand(
      s.(ep0 := ZeroedRing(), ep0Wait := None, enumState := if bsr then AddressBsrSent else AddressSent),
      InputContext,
      ADDRESS_DEVICE_TYPE * 1024 + slot * SLOT_UNIT + (if bsr then BSR else 0),
      if bsr then AddressDeviceBsr else AddressDevice)
  }

  function ConfigurePrepared(s: State): (s': State)
    requires Sized(s)
    ensures Sized(s')
  {
    WithCommand(
      s.(intr := ZeroedRing(), enumState := ConfigureEndpointSent),
      InputContext, CONFIGURE_ENDPOINT_TYPE * 1024 + s.slot * SLOT_UNIT, ConfigureEndpoint)
  }

  // ----- Events -----

  function AddressFailed(s: State, reset: PortReset): (s': State)
    requires Sized(s)
    ensures Sized(s')
  {
    if s.addressRetries < MAX_RETRIES && s.port != 0 then
      var mps := NextMps(s.speed, s.addressRetries + 1);
      if mps == 0 && s.speed != 2 then TransportFailed(s)
      else SlotDisabledForRetry(s.(addressRetries := s.addressRetries + 1, mpsOverride := mps), reset)
    else TransportFailed(s)
  }

  function CommandFailed(s: State, completed: Pending, i: Inputs): (s': State)
    requires Sized(s)
    ensures Sized(s')
  {
    if completed == AddressDevice || completed == AddressDeviceBsr then AddressFailed(s, i.reset)
    else if completed == DisableSlot && s.retryAfterDisable then
      PortResetStarted(s.(slot := 0, retryAfterDisable := false), s.port, i.reset)
    else s
  }

  function PortIsEnabled(s: State, i: Inputs): bool {
    s.port != 0 && i.portEnabled
  }

  function CommandSucceeded(s: State, completed: Pending, slot: byte, i: Inputs): (s': State)
    requires Sized(s)
    ensures Sized(s')
  {
    match completed
    case EnableSlot =>
      if slot != 0 then AddressPrepared(s.(slot := slot), slot, s.speed >= 4) else s
    case AddressDeviceBsr =>
      var s1 := s.(enumState := GetDevice8Sent);
      if !PortIsEnabled(s, i) then PortRetried(s1, i.reset) else WithControlIn(s1, GET_DEVICE_8, DeviceDescriptor)
    case AddressDevice =>
      var s1 := s.(enumState := GetDeviceSent);
      if !PortIsEnabled(s, i) then PortRetried(s1, i.reset) else WithControlIn(s1, GET_DEVICE, DeviceDescriptor)
    case DisableSlot =>
      var s1 := s.(slot := 0);
      if s.retryAfterDisable then PortResetStarted(s1.(retryAfterDisable := false), s.port, i.reset) else s1
    case ConfigureEndpoint => WithReportQueued(s.(enumState := Ready))
    case NoCommand => s
  }

  function OnCommandCompletion(s: State, code: byte, slot: byte, i: Inputs): (s': State)
    requires Sized(s)
    ensures Sized(s')
  {
    var s1 := s.(pending := NoCommand);
    if s.pending == NoCommand then s1
    else if code != SUCCESS then CommandFailed(s1, s.pending, i)
    else CommandSucceeded(s1, s.pending, slot, i)
  }

  function OnPortStatusChange(s: State, i: Inputs): (s': State)
    requires Sized(s)
    ensures Sized(s')
  {
    if s.port == 0 then s
    else
      var s1 := s.(speed := i.status.speed);
      if s.enumState == ResetSent && i.status.enabled then
        WithCommand(s1.(enumState := EnableSlotSent), Zero, ENABLE_SLOT_TYPE * 1024, EnableSlot)
      else s1
  }

  predicate TransferOk(code: byte) {
    code == SUCCESS || code == SHORT_PACKET
  }

  /** The states in which a control transfer is under way. */
  predicate InControlTransfer(e: EnumState) {
    e == GetDevice8Sent || e == GetDeviceSent || e == GetConfig8Sent || e == GetConfigFullSent
    || e == SetConfigSent || e == SetProtocolSent
  }

  /** The awaited control transfer is done: the next request of the sequence. */
  function OnControlDone(s: State, i: Inputs): (s': State)
    requires Sized(s)
    ensures Sized(s')
  {
    match s.enumState
    case GetDevice8Sent =>
      var mps := i.deviceDesc[7];
      var s1 := s.(transferRetries := 0,
                   mpsOverride := if mps == 8 || mps == 16 || mps == 32 || mps == 64 then mps else s.mpsOverride);
      AddressPrepared(s1, s.slot, false)
    case GetDeviceSent =>
      WithControlIn(s.(transferRetries := 0, enumState := GetConfig8Sent), GET_CONFIG_8, ConfigDescriptor)
    case GetConfig8Sent =>
      WithControlIn(s.(enumState := GetConfigFullSent), GetConfigFull(Desc.Total(i.configDesc)), ConfigDescriptor)
    case GetConfigFullSent =>
      var (e, found) := Desc.Parsed(i.configDesc, s.endpoint.iface);
      var s1 := s.(endpoint := e);
      if !found then TransportFailed(s1)
      else WithControlOut(s1.(enumState := SetConfigSent), SetConfiguration(e.configValue), Zero)
    case SetConfigSent =>
      WithControlOut(s.(enumState := SetProtocolSent), SetBootProtocol(s.endpoint.iface), Zero)
    case SetProtocolSent => ConfigurePrepared(s)
    case _ => s
  }

  function OnTransfer(s: State, code: byte, trb: TrbPointer, i: Inputs): (s': State)
    requires Sized(s)
    ensures Sized(s')
  {
    if !TransferOk(code) then
      if code == TRANSACTION_ERROR && InControlTransfer(s.enumState) then PortRetried(s, i.reset) else s
    else if s.ep0Wait.Some? && trb == OnEp0(s.ep0Wait.value) then
      OnControlDone(s.(ep0Wait := None), i)
    else if s.intrWait.Some? && trb == OnInterrupt(s.intrWait.value) then
      WithReportQueued(s.(intrWait := None, hid := Hid.Fed(s.hid, i.report)))
    else s
  }

  function Handled(s: State, e: Event, i: Inputs): (s': State)
    requires Sized(s)
    ensures Sized(s')
  {
    match e
    case CommandCompletion(code, slot) => OnCommandCompletion(s, code, slot, i)
    case PortStatusChange => OnPortStatusChange(s, i)
    case TransferEvent(code, trb) => OnTransfer(s, code, trb, i)
    case OtherEvent => s
  }

  /** One event with what the hardware shows meanwhile. */
  datatype Occurrence = Occurrence(event: Event, inputs: Inputs)

  function HandledAll(s: State, occurrences: seq<Occurrence>): (s': State)
    requires Sized(s)
    ensures Sized(s')
    decreases |occurrences|
  {
    if occurrences == [] then s
    else HandledAll(Handled(s, occurrences[0].event, occurrences[0].inputs), occurrences[1..])
  }

  // ----- Start -----

  /** How far the start of the controller gets: not found, mapped or reset; reset but
      not running; or running. The rings are set up in between. */
  datatype Startup = NotFound | NotRunning | Running

  /** What every start forgets: all but the chosen endpoint, the rings and the bytes sent. */
  function Forgotten(s: State): State {
    State(false, false, false, Idle, NoCommand, 0, 0, 0, false, 0, 0, 0, s.endpoint,
          s.commands, s.cmdEnqueue, s.ep0, s.intr, s.ep0Wait, s.intrWait,
          s.hid.(last := Hid.EMPTY_REPORT, mods := 0), [])
  }

  function RingsZeroed(s: State): (s': State)
    ensures Sized(s')
  {
    s.(commands := ZeroedCommands(), cmdEnqueue := 0, ep0 := ZeroedRing(), intr := ZeroedRing(),
       ep0Wait := None, intrWait := None)
  }

  /** The state after `init_rings` with a running controller, before any port is reset. */
  function Started(hid: Hid.State, endpoint: Desc.Endpoint): (s: State)
    ensures Sized(s)
  {
    State(true, true, false, Idle, NoCommand, 0, 0, 0, false, 0, 0, 0, endpoint,
          ZeroedCommands(), 0, ZeroedRing(), ZeroedRing(), None, None,
          hid.(last := Hid.EMPTY_REPORT, mods := 0), [])
  }

  /** The number of the first connected port, counting from 1. */
  function FirstConnected(connected: seq<bool>, port: nat): Option<nat>
    decreases |connected| - port
  {
    if port >= |connected| then None
    else if connected[port] then Some(port + 1)
    else FirstConnected(connected, port + 1)
  }

  function PortChosen(s: State, connected: seq<bool>, reset: PortReset): (s': State)
    requires Sized(s)
    ensures Sized(s')
  {
    match FirstConnected(connected, 0)
    case None => s.(transportReady := false, transportFailed := true)
    case Some(port) => PortResetStarted(s, port, reset)
  }

  predicate IsReady(s: State) {
    s.transportReady && s.enumState == Ready && s.endpoint.address != 0 && s.intrWait.Some?
  }
}
