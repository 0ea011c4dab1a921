/** The driver itself: its static variables, rings and buffers, changed in place.
  Every method is tied to the state function that describes it. */
module UsbKeyboard {
  import opened Common
  import opened Rings
  import opened UsbDriver
  import Desc = Descriptors
  import Hid = HidReport
  import Ev = EventRing
  import Ctx = UsbContexts

  class Driver {
    var controllerPresent: bool
    var transportReady: bool
    var transportFailed: bool
    var enumState: EnumState
    var pending: Pending
    var slot: byte
    var port: nat
    var speed: Speed
    var retryAfterDisable: bool
    var addressRetries: nat
    var transferRetries: nat
    var mpsOverride: nat
    var endpoint: Desc.Endpoint
    var cmdEnqueue: nat
    var ep0Wait: Option<nat>
    var intrWait: Option<nat>
    var issued: seq<Request>

    const commandRing: array<Trb>
    const ep0: TransferRing
    const intr: TransferRing
    const events: Ev.Reader<Event>
    const configDesc: array<byte>
    const hid: Hid.Differ
    const contexts: Ctx.Contexts

    ghost predicate Valid()
      reads this, ep0, intr, events, hid
    {
      && commandRing.Length == CMD_RING_SIZE && ep0.Valid() && intr.Valid() && events.Valid() && hid.Valid()
      && ep0 != intr && commandRing != ep0.trbs && commandRing != intr.trbs && ep0.trbs != intr.trbs
      && configDesc.Length == Desc.CONFIG_BYTES && configDesc != hid.lastReport && contexts.Valid()
    }

    ghost function Abs(): State
      requires Valid()
      reads this, commandRing, ep0, ep0.trbs, intr, intr.trbs, events, hid, hid.lastReport
    {
      State(controllerPresent, transportReady, transportFailed, enumState, pending, slot, port, speed,
            retryAfterDisable, addressRetries, transferRetries, mpsOverride, endpoint,
            commandRing[..], cmdEnqueue, ep0.Abs(), intr.Abs(),
            ep0Wait, intrWait, hid.Abs(), issued)
    }

    constructor (contexts: Ctx.Contexts)
      requires contexts.Valid()
      ensures Valid() && this.contexts == contexts && fresh(hid) && fresh(hid.lastReport)
      ensures fresh(commandRing) && fresh(ep0) && fresh(ep0.trbs) && fresh(intr) && fresh(intr.trbs)
      ensures fresh(configDesc) && fresh(events) && fresh(events.slots)
      ensures !controllerPresent && !transportReady && !transportFailed && hid.Abs() == Hid.INITIAL
    {
      controllerPresent, transportReady, transportFailed := false, false, false;
      enumState, pending := Idle, NoCommand;
      slot, port, speed := 0, 0, 0;
      retryAfterDisable, addressRetries, transferRetries, mpsOverride := false, 0, 0, 0;
      endpoint := Desc.Endpoint(0, 0, 0, 0, 8, 10);
      cmdEnqueue, ep0Wait, intrWait, issued := 0, None, None, [];
      commandRing := new Trb[CMD_RING_SIZE](_ => EMPTY_TRB);
      ep0 := new TransferRing();
      intr := new TransferRing();
      configDesc := new byte[Desc.CONFIG_BYTES](_ => 0);
      events := new Ev.Reader<Event>(OtherEvent);
      hid := new Hid.Differ();
      this.contexts := contexts;
    }

    /** `init_rings`: rings and buffers are emptied, and nothing is awaited. */
    method InitRings()
      requires Valid()
      modifies this`cmdEnqueue, this`ep0Wait, this`intrWait, commandRing, ep0, ep0.trbs, intr, intr.trbs,
               events, events.slots, contexts.input, contexts.output, contexts.slots
      ensures Valid() && Abs() == RingsZeroed(old(Abs()))
      ensures Ev.Unconsumed(events.slots[..], Ev.START, events.At(), [])
      ensures contexts.Zeroed()
    {
      ZeroCommandRing();
      ZeroTransferRings();
      ClearWaits();
      events.Zero(OtherEvent);
      contexts.Zero();
    }

    method ZeroCommandRing()
      requires Valid()
      modifies this`cmdEnqueue, commandRing
      ensures Valid() && Abs() == old(Abs()).(commands := ZeroedCommands(), cmdEnqueue := 0)
    {
      ZeroRing(commandRing);
      cmdEnqueue := 0;
    }

    method ZeroTransferRings()
      requires Valid()
      modifies ep0, ep0.trbs, intr, intr.trbs
      ensures Valid() && Abs() == old(Abs()).(ep0 := ZeroedRing(), intr := ZeroedRing())
    {
      ep0.Zero();
      intr.Zero();
    }

    method ClearWaits()
      requires Valid()
      modifies this`ep0Wait, this`intrWait
      ensures Valid() && Abs() == old(Abs()).(ep0Wait := None, intrWait := None)
    {
      ep0Wait, intrWait := None, None;
    }

    method ResetFirstConnectedPort(connected: seq<bool>, reset: PortReset)
      requires Valid()
      modifies this, commandRing
      ensures Valid() && Abs() == PortChosen(old(Abs()), connected, reset)
    {
      for k := 0 to |connected|
        invariant Valid() && Abs() == old(Abs())
        invariant FirstConnected(connected, k) == FirstConnected(connected, 0)
      {
        if connected[k] {
          StartPortReset(k + 1, reset);
          return;
        }
      }
      StopTransport();
    }

    method SetTransport(present: bool, ready: bool)
      requires Valid()
      modifies this`controllerPresent, this`transportReady
      ensures Valid() && Abs() == old(Abs()).(controllerPresent := present, transportReady := ready)
    {
      controllerPresent, transportReady := present, ready;
    }

    method ResetHistory()
      requires Valid()
      modifies this`transportFailed, this`issued
      ensures Valid() && Abs() == old(Abs()).(transportFailed := false, issued := [])
    {
      transportFailed := false;
      issued := [];
    }

    method ResetPort()
      requires Valid()
      modifies this`port, this`speed
      ensures Valid() && Abs() == old(Abs()).(port := 0, speed := 0)
    {
      port, speed := 0, 0;
    }

    method ResetStates()
      requires Valid()
      modifies this`enumState, this`pending
      ensures Valid() && Abs() == old(Abs()).(enumState := Idle, pending := NoCommand)
    {
      enumState, pending := Idle, NoCommand;
    }

    method ResetSlot()
      requires Valid()
      modifies this`slot, this`retryAfterDisable
      ensures Valid() && Abs() == old(Abs()).(slot := 0, retryAfterDisable := false)
    {
      slot := 0;
      retryAfterDisable := false;
    }

    method ResetRetries()
      requires Valid()
      modifies this`addressRetries, this`transferRetries, this`mpsOverride
      ensures Valid() && Abs() == old(Abs()).(addressRetries := 0, transferRetries := 0, mpsOverride := 0)
    {
      addressRetries, transferRetries, mpsOverride := 0, 0, 0;
    }

    method Forget()
      requires Valid()
      modifies this, hid, hid.lastReport
      ensures Valid() && Abs() == Forgotten(old(Abs()))
    {
      SetTransport(false, false);
      ResetHistory();
      ResetPort();
      ResetStates();
      ResetSlot();
      ResetRetries();
      hid.Reset();
    }

    /** `usb_kbd_init`. */
    method Init(startup: Startup, connected: seq<bool>, reset: PortReset)
      requires Valid()
      modifies this, commandRing, ep0, ep0.trbs, intr, intr.trbs, events, events.slots, hid, hid.lastReport,
               contexts.input, contexts.output, contexts.slots
      ensures Valid()
      ensures Abs() == (match startup
                        case NotFound => Forgotten(old(Abs()))
                        case NotRunning => RingsZeroed(Forgotten(old(Abs())))
                        case Running => PortChosen(Started(old(Abs()).hid, old(Abs()).endpoint), connected, reset))
      ensures startup != NotFound ==> Ev.Unconsumed(events.slots[..], Ev.START, events.At(), []) && contexts.Zeroed()
    {
      Forget();
      if startup == NotFound { return; }
      InitRings();
      if startup == NotRunning { return; }
      ghost var zeroed := Abs();
      assert zeroed.(controllerPresent := true, transportReady := true)
             == Started(old(Abs()).hid, old(Abs()).endpoint);
      StartPorts(connected, reset);
    }

    method StartPorts(connected: seq<bool>, reset: PortReset)
      requires Valid()
      modifies this, commandRing
      ensures Valid()
      ensures Abs() == PortChosen(old(Abs()).(controllerPresent := true, transportReady := true), connected, reset)
    {
      SetTransport(true, true);
      ResetFirstConnectedPort(connected, reset);
    }

    method PushCommand(parameter: Parameter, control: nat, kind: Pending)
      requires Valid()
      modifies this, commandRing
      ensures Valid() && Abs() == WithCommand(old(Abs()), parameter, control, kind)
    {
      if cmdEnqueue >= CMD_RING_SIZE - 1 { return; }
      commandRing[cmdEnqueue] := Trb(parameter, 0, control, true);
      cmdEnqueue := cmdEnqueue + 1;
      RingCommand(control, kind);
    }

    method RingCommand(control: nat, kind: Pending)
      requires Valid()
      modifies this`pending, this`issued
      ensures Valid() && Abs() == old(Abs()).(pending := kind, issued := old(issued) + [Command(control)])
    {
      pending := kind;
      issued := issued + [Command(control)];
    }

    /** A control transfer has been put on the ring; its last TRB is awaited. */
    method AwaitControl(setup: Setup, at: nat)
      requires Valid()
      modifies this`ep0Wait, this`issued
      ensures Valid() && Abs() == old(Abs()).(ep0Wait := Some(at), issued := old(Abs()).issued + [Control(setup)])
    {
      ep0Wait := Some(at);
      issued := issued + [Control(setup)];
    }

    method ControlIn(setup: Setup, buffer: Parameter)
      requires Valid()
      modifies this`ep0Wait, this`issued, ep0, ep0.trbs
      ensures Valid() && Abs() == WithControlIn(old(Abs()), setup, buffer)
    {
      var at := ep0.Push(Packet(setup), 8, SETUP_IN);
      at := ep0.Push(buffer, setup.length, DATA_IN);
      at := ep0.Push(Zero, 0, STATUS_OUT);
      AwaitControl(setup, at);
    }

    method ControlOut(setup: Setup, buffer: Parameter)
      requires Valid()
      modifies this`ep0Wait, this`issued, ep0, ep0.trbs
      ensures Valid() && Abs() == WithControlOut(old(Abs()), setup, buffer)
    {
      var at := ep0.Push(Packet(setup), 8, if setup.length != 0 then SETUP_OUT else SETUP_NO_DATA);
      if setup.length != 0 && buffer != Zero {
        at := ep0.Push(buffer, setup.length, DATA_OUT);
      }
      at := ep0.Push(Zero, 0, STATUS_IN);
      AwaitControl(setup, at);
    }

    /** The next state of the sequence, with its request. */
    method AskIn(next: EnumState, setup: Setup, buffer: Parameter)
      requires Valid()
      modifies this`enumState, this`ep0Wait, this`issued, ep0, ep0.trbs
      ensures Valid() && Abs() == WithControlIn(old(Abs()).(enumState := next), setup, buffer)
    {
      enumState := next;
      ControlIn(setup, buffer);
    }

    method AskOut(next: EnumState, setup: Setup)
      requires Valid()
      modifies this`enumState, this`ep0Wait, this`issued, ep0, ep0.trbs
      ensures Valid() && Abs() == WithControlOut(old(Abs()).(enumState := next), setup, Zero)
    {
      enumState := next;
      ControlOut(setup, Zero);
    }

    method QueueKeyboardReport()
      requires Valid()
      modifies this`intrWait, this`issued, intr, intr.trbs
      ensures Valid() && Abs() == WithReportQueued(old(Abs()))
    {
      var at := intr.Push(KeyboardReport, endpoint.maxPacket, NORMAL_IOC);
      intrWait := Some(at);
      issued := issued + [Report];
    }

    method StartPortReset(number: nat, reset: PortReset)
      requires Valid()
      modifies this, commandRing
      ensures Valid() && Abs() == PortResetStarted(old(Abs()), number, reset)
    {
      port := number;
      speed := reset.before.speed;
      enumState := ResetSent;
      if reset.done.Some? {
        speed := reset.done.value.speed;
        if reset.done.value.enabled {
          enumState := EnableSlotSent;
          PushCommand(Zero, ENABLE_SLOT_TYPE * 1024, EnableSlot);
        }
      }
    }

    method FailTransport()
      requires Valid()
      modifies this
      ensures Valid() && Abs() == TransportFailed(old(Abs()))
    {
      StopTransport();
      pending := NoCommand;
      enumState := Idle;
      slot := 0;
      retryAfterDisable := false;
    }

    method StopTransport()
      requires Valid()
      modifies this`transportReady, this`transportFailed
      ensures Valid() && Abs() == old(Abs()).(transportReady := false, transportFailed := true)
    {
      transportReady := false;
      transportFailed := true;
    }

    method DisableSlotForRetry(reset: PortReset)
      requires Valid()
      modifies this, commandRing
      ensures Valid() && Abs() == SlotDisabledForRetry(old(Abs()), reset)
    {
      retryAfterDisable := true;
      if slot != 0 {
        PushCommand(Zero, DISABLE_SLOT_TYPE * 1024 + slot * SLOT_UNIT, DisableSlot);
      } else {
        StartPortReset(port, reset);
      }
    }

    method RetrySelectedPort(reset: PortReset)
      requires Valid()
      modifies this, commandRing
      ensures Valid() && Abs() == PortRetried(old(Abs()), reset)
    {
      if port == 0 || transferRetries >= MAX_RETRIES {
        FailTransport();
        return;
      }
      CountTransferRetry();
      DisableSlotForRetry(reset);
    }

    method CountTransferRetry()
      requires Valid()
      modifies this`transferRetries, this`ep0Wait, this`intrWait
      ensures Valid() && Abs() == RetryCounted(old(Abs()))
    {
      transferRetries := transferRetries + 1;
      ClearWaits();
    }

    /** The input context is the one for an Address Device command: for the device at its port
        and with its speed, with the packet size now known. */
    ghost predicate HasAddressContext()
      reads this, contexts.input
    {
      contexts.input[..] == Ctx.AddressWords(contexts.words, speed, port, Ep0Packet(mpsOverride, speed), contexts.ep0At)
    }

    /** The input context is the one for the keyboard's endpoint. */
    ghost predicate HasKeyboardContext()
      reads this, contexts.input
    {
      contexts.input[..] == Ctx.KeyboardWords(contexts.words, speed, port, endpoint, contexts.intrAt)
    }

    method PrepareAddressDevice(number: byte, bsr: bool, clear: bool)
      requires Valid()
      modifies this, commandRing, ep0, ep0.trbs, contexts.input, contexts.output, contexts.slots
      ensures Valid() && Abs() == AddressPrepared(old(Abs()), number, bsr)
      ensures HasAddressContext()
      ensures contexts.slots[..] == old(contexts.slots[..])[number := contexts.outputAt]
      ensures forall k :: 0 <= k < Ctx.OUTPUT_WORDS ==>
                contexts.output[k] == if clear then 0 else old(contexts.output[k])
    {
      contexts.ForAddress(number, speed, port, Ep0Packet(mpsOverride, speed), clear);
      EmptyEp0(bsr);
      PushCommand(InputContext, ADDRESS_DEVICE_TYPE * 1024 + number * SLOT_UNIT + (if bsr then BSR else 0),
                  if bsr then AddressDeviceBsr else AddressDevice);
    }

    method EmptyEp0(bsr: bool)
      requires Valid()
      modifies this`ep0Wait, this`enumState, ep0, ep0.trbs
      ensures Valid()
      ensures Abs() == old(Abs()).(ep0 := ZeroedRing(), ep0Wait := None,
                                   enumState := if bsr then AddressBsrSent else AddressSent)
    {
      ep0.Zero();
      ep0Wait := None;
      enumState := if bsr then AddressBsrSent else AddressSent;
    }

    method PrepareConfigureKeyboardEndpoint()
      requires Valid()
      modifies this, commandRing, intr, intr.trbs, contexts.input, contexts.output, contexts.slots
      ensures Valid() && Abs() == ConfigurePrepared(old(Abs()))
      ensures 1 <= endpoint.dci ==> HasKeyboardContext()
    {
      contexts.ForKeyboard(speed, port, endpoint);
      intr.Zero();
      enumState := ConfigureEndpointSent;
      PushCommand(InputContext, CONFIGURE_ENDPOINT_TYPE * 1024 + slot * SLOT_UNIT, ConfigureEndpoint);
    }

    method AddressCommandFailed(reset: PortReset)
      requires Valid()
      modifies this, commandRing
      ensures Valid() && Abs() == AddressFailed(old(Abs()), reset)
    {
      if addressRetries < MAX_RETRIES && port != 0 {
        var mps := NextMps(speed, addressRetries + 1);
        if mps == 0 && speed != 2 {
          // The code gives up here, but retries 1 to 3 always have a packet size.
          assert false;
        } else {
          RetryAddress(mps, reset);
        }
      } else {
        FailTransport();
      }
    }

    method RetryAddress(mps: nat, reset: PortReset)
      requires Valid()
      modifies this, commandRing
      ensures Valid()
      ensures var s1 := old(Abs()).(addressRetries := old(addressRetries) + 1, mpsOverride := mps);
              Abs() == SlotDisabledForRetry(s1, reset)
    {
      CountAddressRetry(mps);
      DisableSlotForRetry(reset);
    }

    method CountAddressRetry(mps: nat)
      requires Valid()
      modifies this`addressRetries, this`mpsOverride
      ensures Valid() && Abs() == old(Abs()).(addressRetries := old(addressRetries) + 1, mpsOverride := mps)
    {
      addressRetries := addressRetries + 1;
      mpsOverride := mps;
    }

    method HandleFailedCommand(completed: Pending, i: Inputs)
      requires Valid()
      modifies this, commandRing
      ensures Valid() && Abs() == CommandFailed(old(Abs()), completed, i)
    {
      if completed == AddressDevice || completed == AddressDeviceBsr {
        AddressCommandFailed(i.reset);
      } else if completed == DisableSlot && retryAfterDisable {
        slot := 0;
        retryAfterDisable := false;
        StartPortReset(port, i.reset);
      }
    }

    method SlotEnabled(number: byte)
      requires Valid()
      modifies this, commandRing, ep0, ep0.trbs, contexts.input, contexts.output, contexts.slots
      ensures Valid()
      ensures Abs() == if number != 0 then AddressPrepared(old(Abs()).(slot := number), number, old(speed) >= 4)
                       else old(Abs())
      ensures number != 0 ==> HasAddressContext()
    {
      if number != 0 {
        slot := number;
        PrepareAddressDevice(slot, speed >= 4, true);
      }
    }

    method SlotDisabled(reset: PortReset)
      requires Valid()
      modifies this, commandRing
      ensures Valid()
      ensures var s1 := old(Abs()).(slot := 0);
              Abs() == if s1.retryAfterDisable then PortResetStarted(s1.(retryAfterDisable := false), s1.port, reset)
                       else s1
    {
      slot := 0;
      if retryAfterDisable {
        retryAfterDisable := false;
        StartPortReset(port, reset);
      }
    }

    /** The device descriptor is asked for, unless the port has been disabled meanwhile. */
    method ReadDeviceOrRetry(next: EnumState, setup: Setup, i: Inputs)
      requires Valid()
      modifies this, commandRing, ep0, ep0.trbs
      ensures Valid()
      ensures var s1 := old(Abs()).(enumState := next);
              Abs() == if PortIsEnabled(old(Abs()), i) then WithControlIn(s1, setup, DeviceDescriptor)
                       else PortRetried(s1, i.reset)
    {
      enumState := next;
      if port == 0 || !i.portEnabled { RetrySelectedPort(i.reset); }
      else { ControlIn(setup, DeviceDescriptor); }
    }

    method KeyboardConfigured()
      requires Valid()
      modifies this`enumState, this`intrWait, this`issued, intr, intr.trbs
      ensures Valid() && Abs() == WithReportQueued(old(Abs()).(enumState := Ready))
    {
      enumState := Ready;
      QueueKeyboardReport();
    }

    method HandleSuccessfulCommand(completed: Pending, number: byte, i: Inputs)
      requires Valid()
      modifies this, commandRing, ep0, ep0.trbs, intr, intr.trbs, contexts.input, contexts.output, contexts.slots
      ensures Valid() && Abs() == CommandSucceeded(old(Abs()), completed, number, i)
      ensures completed == EnableSlot && number != 0 ==> HasAddressContext()
    {
      match completed {
        case EnableSlot =>
          SlotEnabled(number);
        case AddressDeviceBsr =>
          ReadDeviceOrRetry(GetDevice8Sent, GET_DEVICE_8, i);
        case AddressDevice =>
          ReadDeviceOrRetry(GetDeviceSent, GET_DEVICE, i);
        case DisableSlot =>
          SlotDisabled(i.reset);
        case ConfigureEndpoint =>
          KeyboardConfigured();
        case NoCommand =>
      }
    }

    method HandleCommandCompletion(code: byte, number: byte, i: Inputs)
      requires Valid()
      modifies this, commandRing, ep0, ep0.trbs, intr, intr.trbs, contexts.input, contexts.output, contexts.slots
      ensures Valid() && Abs() == OnCommandCompletion(old(Abs()), code, number, i)
      ensures old(pending) == EnableSlot && code == SUCCESS && number != 0 ==> HasAddressContext()
    {
      var completed := pending;
      pending := NoCommand;
      if completed == NoCommand {
      } else if code != SUCCESS {
        HandleFailedCommand(completed, i);
      } else {
        HandleSuccessfulCommand(completed, number, i);
      }
    }

    method HandlePortStatusChange(i: Inputs)
      requires Valid()
      modifies this, commandRing
      ensures Valid() && Abs() == OnPortStatusChange(old(Abs()), i)
    {
      if port != 0 {
        speed := i.status.speed;
        if enumState == ResetSent && i.status.enabled {
          enumState := EnableSlotSent;
          PushCommand(Zero, ENABLE_SLOT_TYPE * 1024, EnableSlot);
        }
      }
    }

    /** The controller has written the descriptor buffer. */
    method ReceiveConfig(config: Desc.Config)
      requires Valid()
      modifies configDesc
      ensures configDesc[..] == config
    {
      for k := 0 to Desc.CONFIG_BYTES
        invariant configDesc[..k] == config[..k]
      {
        configDesc[k] := config[k];
      }
      assert configDesc[..] == configDesc[..Desc.CONFIG_BYTES] == config;
    }

    method ReadEndpoint(config: Desc.Config) returns (found: bool)
      requires Valid()
      modifies this`endpoint, configDesc
      ensures Valid() && Abs() == old(Abs()).(endpoint := Desc.Parsed(config, old(endpoint.iface)).0)
      ensures found == Desc.Parsed(config, old(endpoint.iface)).1
    {
      ReceiveConfig(config);
      endpoint, found := Desc.ParseKeyboardEndpoint(configDesc, endpoint);
    }

    method ConfigurationRead(i: Inputs)
      requires Valid() && enumState == GetConfigFullSent
      modifies this, ep0, ep0.trbs, configDesc
      ensures Valid() && Abs() == OnControlDone(old(Abs()), i)
    {
      var found := ReadEndpoint(i.configDesc);
      if !found {
        FailTransport();
      } else {
        AskOut(SetConfigSent, SetConfiguration(endpoint.configValue));
      }
    }

    method FirstBytesRead(mps: byte)
      requires Valid()
      modifies this`transferRetries, this`mpsOverride
      ensures Valid()
      ensures Abs() == old(Abs()).(transferRetries := 0,
                mpsOverride := if mps == 8 || mps == 16 || mps == 32 || mps == 64 then mps else old(mpsOverride))
    {
      transferRetries := 0;
      if mps == 8 || mps == 16 || mps == 32 || mps == 64 { mpsOverride := mps; }
    }

    method DeviceHeadRead(i: Inputs)
      requires Valid() && enumState == GetDevice8Sent
      modifies this, commandRing, ep0, ep0.trbs, contexts.input, contexts.output, contexts.slots
      ensures Valid() && Abs() == OnControlDone(old(Abs()), i) && HasAddressContext()
    {
      FirstBytesRead(i.deviceDesc[7]);
      PrepareAddressDevice(slot, false, false);
    }

    method DeviceRead(i: Inputs)
      requires Valid() && enumState == GetDeviceSent
      modifies this, ep0, ep0.trbs
      ensures Valid() && Abs() == OnControlDone(old(Abs()), i)
    {
      transferRetries := 0;
      AskIn(GetConfig8Sent, GET_CONFIG_8, ConfigDescriptor);
    }

    method ConfigHeadRead(i: Inputs)
      requires Valid() && enumState == GetConfig8Sent
      modifies this, ep0, ep0.trbs
      ensures Valid() && Abs() == OnControlDone(old(Abs()), i)
    {
      var total := Desc.Word(i.configDesc[2], i.configDesc[3]);
      if total > Desc.CONFIG_BYTES { total := Desc.CONFIG_BYTES; }
      AskIn(GetConfigFullSent, GetConfigFull(total), ConfigDescriptor);
    }

    method ControlTransferDone(i: Inputs)
      requires Valid()
      modifies this, commandRing, ep0, ep0.trbs, intr, intr.trbs, configDesc, contexts.input, contexts.output,
               contexts.slots
      ensures Valid() && Abs() == OnControlDone(old(Abs()), i)
      ensures old(enumState) == GetDevice8Sent ==> HasAddressContext()
      ensures old(enumState) == SetProtocolSent && 1 <= endpoint.dci ==> HasKeyboardContext()
    {
      if enumState == GetDevice8Sent {
        DeviceHeadRead(i);
      } else if enumState == GetDeviceSent {
        DeviceRead(i);
      } else if enumState == GetConfig8Sent {
        ConfigHeadRead(i);
      } else if enumState == GetConfigFullSent {
        ConfigurationRead(i);
      } else if enumState == SetConfigSent {
        ConfigurationIsSet(i);
      } else if enumState == SetProtocolSent {
        ProtocolIsSet(i);
      }
    }

    method ConfigurationIsSet(i: Inputs)
      requires Valid() && enumState == SetConfigSent
      modifies this, ep0, ep0.trbs
      ensures Valid() && Abs() == OnControlDone(old(Abs()), i)
    {
      AskOut(SetProtocolSent, SetBootProtocol(endpoint.iface));
    }

    method ProtocolIsSet(i: Inputs)
      requires Valid() && enumState == SetProtocolSent
      modifies this, commandRing, intr, intr.trbs, contexts.input, contexts.output, contexts.slots
      ensures Valid() && Abs() == OnControlDone(old(Abs()), i)
      ensures 1 <= endpoint.dci ==> HasKeyboardContext()
    {
      PrepareConfigureKeyboardEndpoint();
    }

    method HandleTransferEvent(code: byte, trb: TrbPointer, i: Inputs)
      requires Valid()
      modifies this, commandRing, ep0, ep0.trbs, intr, intr.trbs, configDesc, hid, hid.lastReport, contexts.input,
               contexts.output, contexts.slots
      ensures Valid() && Abs() == OnTransfer(old(Abs()), code, trb, i)
      ensures TransferOk(code) && old(ep0Wait).Some? && trb == OnEp0(old(ep0Wait).value) ==>
                && (old(enumState) == GetDevice8Sent ==> HasAddressContext())
                && (old(enumState) == SetProtocolSent && 1 <= endpoint.dci ==> HasKeyboardContext())
    {
      if !TransferOk(code) {
        if code == TRANSACTION_ERROR && InControlTransfer(enumState) {
          RetrySelectedPort(i.reset);
        }
      } else if ep0Wait.Some? && trb == OnEp0(ep0Wait.value) {
        ep0Wait := None;
        ControlTransferDone(i);
      } else if intrWait.Some? && trb == OnInterrupt(intrWait.value) {
        ReportArrived(i.report);
      }
    }

    method ReportArrived(report: Hid.Report)
      requires Valid()
      modifies this`intrWait, this`issued, intr, intr.trbs, hid, hid.lastReport
      ensures Valid()
      ensures Abs() == WithReportQueued(old(Abs()).(intrWait := None, hid := Hid.Fed(old(Abs()).hid, report)))
    {
      intrWait := None;
      hid.FeedBootReport(report);
      QueueKeyboardReport();
    }

    method HandleEvent(e: Event, i: Inputs)
      requires Valid()
      modifies this, commandRing, ep0, ep0.trbs, intr, intr.trbs, configDesc, hid, hid.lastReport, contexts.input,
               contexts.output, contexts.slots
      ensures Valid() && Abs() == Handled(old(Abs()), e, i)
      ensures NeedsAddressContext(old(Abs()), e) ==> HasAddressContext()
      ensures NeedsKeyboardContext(old(Abs()), e) && 1 <= endpoint.dci ==> HasKeyboardContext()
    {
      match e {
        case CommandCompletion(code, number) => HandleCommandCompletion(code, number, i);
        case PortStatusChange => HandlePortStatusChange(i);
        case TransferEvent(code, trb) => HandleTransferEvent(code, trb, i);
        case OtherEvent =>
      }
    }

    /** One turn of the event loop: the oldest event is handled and taken off the ring. */
    method HandleNext(i: Inputs, ghost producer: Ev.Cursor, ghost queue: seq<Event>,
                      ghost run: seq<Occurrence>, ghost states: seq<State>, ghost n: nat)
      requires Valid() && queue != [] && Ev.Unconsumed(events.slots[..], producer, events.At(), queue)
      requires n < |run| && run[n] == Occurrence(queue[0], i) && IsTrace(states, run) && Abs() == states[n]
      modifies this, commandRing, ep0, ep0.trbs, intr, intr.trbs, events, configDesc, hid, hid.lastReport,
               contexts.input, contexts.output, contexts.slots
      ensures Valid() && Abs() == states[n + 1] && events.published == events.dequeue
      ensures Ev.Unconsumed(events.slots[..], producer, events.At(), queue[1..])
    {
      Ev.ConsumerSeesOldest(events.slots[..], producer, events.At(), queue);
      assert StepsAt(states, run, n);
      HandleEvent(events.slots[events.dequeue].event, i);
      events.Advance();
    }

    /** The event loop. A quiet controller lets it end: the events not yet consumed are the measure. */
    method EventLoop(ghost producer: Ev.Cursor, ghost queue: seq<Event>, inputs: seq<Inputs>,
                     ghost run: seq<Occurrence>, ghost states: seq<State>)
      requires Valid() && |inputs| >= |queue| == |run|
      requires forall k :: 0 <= k < |run| ==> run[k] == Occurrence(queue[k], inputs[k])
      requires IsTrace(states, run) && Abs() == states[0]
      requires Ev.Unconsumed(events.slots[..], producer, events.At(), queue)
      modifies this, commandRing, ep0, ep0.trbs, intr, intr.trbs, events, configDesc, hid, hid.lastReport,
               contexts.input, contexts.output, contexts.slots
      ensures Valid() && Abs() == states[|run|]
      ensures Ev.Unconsumed(events.slots[..], producer, events.At(), [])
      ensures queue != [] ==> events.published == events.dequeue
    {
      var n := 0;
      while events.slots[events.dequeue].cycle == events.cycle
        invariant Valid() && n <= |queue|
        invariant Ev.Unconsumed(events.slots[..], producer, events.At(), queue[n..])
        invariant Abs() == states[n]
        invariant n > 0 ==> events.published == events.dequeue
        decreases |queue| - n
      {
        Ev.ConsumerSeesOldest(events.slots[..], producer, events.At(), queue[n..]);
        HandleNext(inputs[n], producer, queue[n..], run, states, n);
        assert queue[n..][1..] == queue[n + 1..];
        n := n + 1;
      }
      Ev.ConsumerSeesOldest(events.slots[..], producer, events.At(), queue[n..]);
    }

    /** Handles everything the controller has written. The inputs are what the
        hardware shows while each event is handled. */
    method Poll(ghost producer: Ev.Cursor, ghost queue: seq<Event>, inputs: seq<Inputs>)
      requires Valid() && |inputs| >= |queue|
      requires Ev.Unconsumed(events.slots[..], producer, events.At(), queue)
      modifies this, commandRing, ep0, ep0.trbs, intr, intr.trbs, events, configDesc, hid, hid.lastReport,
               contexts.input, contexts.output, contexts.slots
      ensures Valid()
      ensures if old(transportReady) then
                && Abs() == HandledAll(old(Abs()), Occurrences(queue, inputs))
                && Ev.Unconsumed(events.slots[..], producer, events.At(), [])
                && (queue != [] ==> events.published == events.dequeue)
              else
                Abs() == old(Abs()) && events.At() == old(events.At())
    {
      if !transportReady { return; }
      ghost var run := Occurrences(queue, inputs);
      EventLoop(producer, queue, inputs, run, Trace(Abs(), run));
    }

    method UsbReady() returns (ready: bool)
      requires Valid()
      ensures ready == IsReady(Abs())
    {
      ready := transportReady && enumState == Ready && endpoint.address != 0 && intrWait != None;
    }
  }

  /** The events that lead to an Address Device command, and the one that leads to Configure Endpoint. */
  predicate NeedsAddressContext(s: State, e: Event) {
    match e
    case CommandCompletion(code, slot) => s.pending == EnableSlot && code == 1 && slot != 0
    case TransferEvent(code, trb) => s.enumState == GetDevice8Sent && IsAwaited(s, code, trb)
    case _ => false
  }

  predicate NeedsKeyboardContext(s: State, e: Event) {
    e.TransferEvent? && s.enumState == SetProtocolSent && IsAwaited(s, e.code, e.trb)
  }

  predicate IsAwaited(s: State, code: byte, trb: TrbPointer) {
    (code == 1 || code == 13) && s.ep0Wait.Some? && trb == OnEp0(s.ep0Wait.value)
  }

  ghost predicate StepsAt(states: seq<State>, run: seq<Occurrence>, n: nat)
    requires |states| == |run| + 1 && n < |run|
  {
    Sized(states[n]) && states[n + 1] == Handled(states[n], run[n].event, run[n].inputs)
  }

  /** The states that a run goes through. */
  ghost predicate IsTrace(states: seq<State>, run: seq<Occurrence>) {
    |states| == |run| + 1 && forall n :: 0 <= n < |run| ==> StepsAt(states, run, n)
  }

  ghost function Trace(s: State, run: seq<Occurrence>): (states: seq<State>)
    requires Sized(s)
    ensures IsTrace(states, run) && states[0] == s && states[|run|] == HandledAll(s, run)
    decreases |run|
  {
    if run == [] then [s]
    else
      var rest := Trace(Handled(s, run[0].event, run[0].inputs), run[1..]);
      TraceCons(s, run, rest);
      [s] + rest
  }

  lemma TraceCons(s: State, run: seq<Occurrence>, rest: seq<State>)
    requires Sized(s) && run != [] && IsTrace(rest, run[1..])
    requires rest[0] == Handled(s, run[0].event, run[0].inputs)
    ensures IsTrace([s] + rest, run)
  {
    forall n | 0 <= n < |run| ensures StepsAt([s] + rest, run, n) {
      if n > 0 { assert StepsAt(rest, run[1..], n - 1); }
    }
  }

  ghost function Occurrences(queue: seq<Event>, inputs: seq<Inputs>): (r: seq<Occurrence>)
    requires |inputs| >= |queue|
    ensures |r| == |queue|
    ensures forall k :: 0 <= k < |r| ==> r[k] == Occurrence(queue[k], inputs[k])
  {
    seq(|queue|, k requires 0 <= k < |queue| => Occurrence(queue[k], inputs[k]))
  }
}
