/** The device at the other end of endpoint 0: what the control requests of the
  driver do to it, read from the fields of their setup packets alone (sections 9.3
  and 9.4 of USB 2.0, section 7.2 of HID 1.11). */
module UsbDevice {
  import opened Common
  import R = Rings
  import opened UsbDriver
  import opened UsbSafety
  import Desc = Descriptors
  import Hid = HidReport
  import Ctx = UsbContexts

  /** The configuration that is set, and the protocol of each interface. */
  datatype Device = Device(configuration: nat, protocols: map<nat, nat>)

  /** Neither request has data, and SET_CONFIGURATION no index: otherwise what it does is not specified. */
  function Obeyed(d: Device, s: R.Setup): Device {
    if s.requestType == 0x00 && s.request == 0x09 && s.index == 0 && s.length == 0 then d.(configuration := s.value)
    else if s.requestType == 0x21 && s.request == 0x0B && s.length == 0 then
      d.(protocols := d.protocols[s.index := s.value])
    else d
  }

  /** The device after all requests of a history. Only control requests reach it. */
  function ObeyedAll(d: Device, log: seq<Request>): Device {
    if log == [] then d
    else
      var before, r := ObeyedAll(d, log[..|log| - 1]), log[|log| - 1];
      if r.Control? then Obeyed(before, r.setup) else before
  }

  lemma ObeyedLast(d: Device, log: seq<Request>, r: Request)
    ensures ObeyedAll(d, log + [r]) == if r.Control? then Obeyed(ObeyedAll(d, log), r.setup) else ObeyedAll(d, log)
  {
    assert (log + [r])[..|log|] == log;
  }

  /** Report requests do nothing to it. */
  lemma {:induction false} ReportsChangeNothing(d: Device, log: seq<Request>)
    ensures ObeyedAll(d, log) == ObeyedAll(d, Enumeration(log))
  {
    if log != [] {
      var n := |log| - 1;
      ReportsChangeNothing(d, log[..n]);
      if log[n].Report? {
        assert Enumeration(log) == Enumeration(log[..n]);
      } else {
        ObeyedLast(d, Enumeration(log[..n]), log[n]);
      }
    }
  }

  /** The device was given this configuration, and that interface the boot protocol. */
  predicate IsConfigured(d: Device, configuration: nat, iface: nat) {
    d.configuration == configuration && iface in d.protocols && d.protocols[iface] == 0
  }

  lemma {:induction false} StepsConfigure(d: Device, slot: nat, e: Desc.Endpoint, log: seq<Request>)
    requires |log| >= 7 && AreSteps(slot, e, log[|log| - 7..])
    ensures IsConfigured(ObeyedAll(d, log), e.configValue, e.iface)
  {
    var n := |log| - 7;
    var last := log[n..];
    assert IsStep(slot, e, 4, last[4]) && IsStep(slot, e, 5, last[5]) && IsStep(slot, e, 6, last[6]);
    assert log == log[..n + 4] + [last[4]] + [last[5]] + [last[6]];
    ObeyedLast(d, log[..n + 4], last[4]);
    ObeyedLast(d, log[..n + 4] + [last[4]], last[5]);
    ObeyedLast(d, log[..n + 4] + [last[4]] + [last[5]], last[6]);
  }

  /** Whatever the device was before: when the keyboard is ready, its configuration is
      the one that its descriptor names, and its interface speaks the boot protocol. */
  lemma ReadyMeansConfigured(d: Device, s: State)
    requires Inv(s) && s.enumState == Ready
    ensures IsConfigured(ObeyedAll(d, s.issued), s.endpoint.configValue, s.endpoint.iface)
  {
    ReadyMeansEnumerated(s);
    StepsConfigure(d, s.slot, s.endpoint, Enumeration(s.issued));
    ReportsChangeNothing(d, s.issued);
  }

  /** From power-up, against any controller. */
  lemma ConfiguredFromStart(d: Device, hid: Hid.State, endpoint: Desc.Endpoint, connected: seq<bool>, reset: PortReset,
                            run: seq<Occurrence>)
    ensures var s := HandledAll(PortChosen(Started(hid, endpoint), connected, reset), run);
            IsReady(s) ==> IsConfigured(ObeyedAll(d, s.issued), s.endpoint.configValue, s.endpoint.iface)
  {
    var s0 := PortChosen(Started(hid, endpoint), connected, reset);
    StartKeeps(hid, endpoint, connected, reset);
    RunKeeps(s0, run);
    ReadyIsExact(HandledAll(s0, run));
    if IsReady(HandledAll(s0, run)) { ReadyMeansConfigured(d, HandledAll(s0, run)); }
  }

  // ----- The packet size of endpoint 0 -----

  /** The packet size that the controller reads from the input context of an Address
      Device command prepared in this state, for contexts of `n` words. */
  function PacketRead(n: nat, s: State, ring: nat): nat
    requires Ctx.ContextSize(n)
  {
    var w := Ctx.AddressWords(n, s.speed, s.port, Ep0Packet(s.mpsOverride, s.speed), ring);
    PacketIsWritten(n, s.speed, s.port, Ep0Packet(s.mpsOverride, s.speed), ring);
    Ctx.EndpointAt(w, 2 * n).packet
  }

  lemma PacketIsWritten(n: nat, speed: nat, port: nat, packet: nat, ring: nat)
    requires Ctx.ContextSize(n)
    ensures var w := Ctx.AddressWords(n, speed, port, packet, ring);
            2 * n + 5 <= |w| && Ctx.EndpointAt(w, 2 * n).packet == packet
  {
    QuotientIs(6 + 4 * 8 + packet * 0x1_0000, 0x1_0000, packet, 38);
  }

  /** While nothing is known of the device: 8 for low and full speed, 64 for high speed, 512 above. */
  lemma FirstPacket(n: nat, s: State, ring: nat)
    requires Ctx.ContextSize(n) && s.mpsOverride == 0
    ensures PacketRead(n, s, ring) == if s.speed == 3 then 64 else if s.speed >= 4 then 512 else 8
  {
    PacketIsWritten(n, s.speed, s.port, Ep0Packet(s.mpsOverride, s.speed), ring);
  }

  /** That is how every start begins. */
  lemma StartPacket(n: nat, hid: Hid.State, endpoint: Desc.Endpoint, connected: seq<bool>, reset: PortReset, ring: nat)
    requires Ctx.ContextSize(n)
    ensures var s := PortChosen(Started(hid, endpoint), connected, reset);
            PacketRead(n, s, ring) == if s.speed == 3 then 64 else if s.speed >= 4 then 512 else 8
  {
    var s := PortChosen(Started(hid, endpoint), connected, reset);
    ResetStartsFresh(Started(hid, endpoint), connected, reset);
    FirstPacket(n, s, ring);
  }

  lemma ResetStartsFresh(s: State, connected: seq<bool>, reset: PortReset)
    requires Sized(s)
    ensures PortChosen(s, connected, reset).mpsOverride == s.mpsOverride
  {
  }

  /** The slot that an Enable Slot completion names is the one that is addressed: at
      once, or for a fast device with its default address first. */
  lemma SlotTaken(s: State, slot: byte, i: Inputs)
    requires Inv(s) && s.pending == EnableSlot && slot != 0
    ensures var s' := Handled(s, CommandCompletion(1, slot), i);
            && s'.slot == slot
            && (s.cmdEnqueue < 63 ==>
                  && s'.pending == (if s.speed >= 4 then AddressDeviceBsr else AddressDevice)
                  && Last(s') == Some(Command(WordFor(s'.pending, slot))))
  {
    AddressSends(s.(pending := NoCommand, slot := slot), slot, s.speed >= 4);
  }

  lemma AddressSends(s: State, slot: nat, bsr: bool)
    requires Sized(s)
    ensures var s' := AddressPrepared(s, slot, bsr);
            && s'.slot == s.slot
            && (s.cmdEnqueue < 63 ==>
                  && s'.pending == (if bsr then AddressDeviceBsr else AddressDevice)
                  && Last(s') == Some(Command(WordFor(s'.pending, slot))))
  {
  }

  /** A refused address command: 64, 32 and 16 are tried one after the other for whatever
      speed the port then has, but for a low-speed device; the fourth refusal is final. */
  lemma PacketRetries(n: nat, s: State, code: byte, slot: byte, i: Inputs, ring: nat)
    requires Ctx.ContextSize(n) && Inv(s) && s.transportReady && code != 1
    requires s.pending == AddressDevice || s.pending == AddressDeviceBsr
    ensures var s' := Handled(s, CommandCompletion(code, slot), i);
            if s.addressRetries == 3 then s'.transportFailed
            else
              && s'.transportReady && s'.addressRetries == s.addressRetries + 1
              && s'.mpsOverride == (if s.speed == 2 then 0 else [64, 32, 16][s.addressRetries])
              && (s.speed != 2 ==> PacketRead(n, s', ring) == [64, 32, 16][s.addressRetries])
  {
    AddressRefused(s, code, slot, i);
    var s' := Handled(s, CommandCompletion(code, slot), i);
    PacketIsWritten(n, s'.speed, s'.port, Ep0Packet(s'.mpsOverride, s'.speed), ring);
  }

  lemma AddressRefused(s: State, code: byte, slot: byte, i: Inputs)
    requires ShapeInv(s) && s.transportReady && code != 1
    requires s.pending == AddressDevice || s.pending == AddressDeviceBsr
    ensures var s' := Handled(s, CommandCompletion(code, slot), i);
            if s.addressRetries == 3 then s'.transportFailed
            else
              && s'.transportReady && s'.addressRetries == s.addressRetries + 1
              && s'.mpsOverride == (if s.speed == 2 then 0 else [64, 32, 16][s.addressRetries])
  {
    assert s.slot != 0 && s.port != 0;
  }

  /** The first eight bytes of the device descriptor have come: if byte 7 is a packet size
      of USB 2.0, the second address command carries it; if not, the same size as before. */
  lemma PacketLearned(n: nat, s: State, code: byte, i: Inputs, ring: nat)
    requires Ctx.ContextSize(n) && Inv(s) && s.enumState == GetDevice8Sent && s.ep0Wait.Some?
    requires code == 1 || code == 13
    ensures var s' := Handled(s, TransferEvent(code, OnEp0(s.ep0Wait.value)), i);
            && s'.enumState == AddressSent
            && PacketRead(n, s', ring)
               == if i.deviceDesc[7] in {8, 16, 32, 64} then i.deviceDesc[7] else PacketRead(n, s, ring)
  {
    HeadRead(s, code, i);
    var s' := Handled(s, TransferEvent(code, OnEp0(s.ep0Wait.value)), i);
    PacketIsWritten(n, s.speed, s.port, Ep0Packet(s.mpsOverride, s.speed), ring);
    PacketIsWritten(n, s'.speed, s'.port, Ep0Packet(s'.mpsOverride, s'.speed), ring);
  }

  lemma HeadRead(s: State, code: byte, i: Inputs)
    requires ShapeInv(s) && s.enumState == GetDevice8Sent && s.ep0Wait.Some? && (code == 1 || code == 13)
    ensures var s' := Handled(s, TransferEvent(code, OnEp0(s.ep0Wait.value)), i);
            && s'.enumState == AddressSent && s'.speed == s.speed && s'.transferRetries == 0
            && s'.mpsOverride == if i.deviceDesc[7] in {8, 16, 32, 64} then i.deviceDesc[7] else s.mpsOverride
  {
  }

  predicate SamePacket(s: State, s': State) {
    s'.mpsOverride == s.mpsOverride && s'.addressRetries == s.addressRetries
  }

  /** Nothing else changes what is known of the packet size. */
  lemma PacketStays(s: State, e: Event, i: Inputs)
    requires ShapeInv(s)
    requires e.CommandCompletion? ==> e.code == 1 || (s.pending != AddressDevice && s.pending != AddressDeviceBsr)
    requires e.TransferEvent? ==> s.enumState != GetDevice8Sent
    ensures SamePacket(s, Handled(s, e, i))
  {
    match e
    case CommandCompletion(code, slot) => CommandKeepsPacket(s, code, slot, i);
    case TransferEvent(code, trb) => TransferKeepsPacket(s, code, trb, i);
    case _ =>
  }

  lemma ResetKeepsPacket(s: State, reset: PortReset)
    requires Sized(s)
    ensures SamePacket(s, PortResetStarted(s, s.port, reset)) && SamePacket(s, SlotDisabledForRetry(s, reset))
  {
  }

  lemma RetryKeepsPacket(s: State, reset: PortReset)
    requires Sized(s)
    ensures SamePacket(s, PortRetried(s, reset))
  {
    ResetKeepsPacket(RetryCounted(s), reset);
  }

  lemma CommandKeepsPacket(s: State, code: byte, slot: byte, i: Inputs)
    requires ShapeInv(s) && (code == 1 || (s.pending != AddressDevice && s.pending != AddressDeviceBsr))
    ensures SamePacket(s, OnCommandCompletion(s, code, slot, i))
  {
    var s1 := s.(pending := NoCommand);
    if s.pending == AddressDevice || s.pending == AddressDeviceBsr {
      RetryKeepsPacket(s1.(enumState := if s.pending == AddressDevice then GetDeviceSent else GetDevice8Sent), i.reset);
    } else if s.pending == DisableSlot {
      ResetKeepsPacket(s1.(slot := 0, retryAfterDisable := false), i.reset);
    }
  }

  lemma TransferKeepsPacket(s: State, code: byte, trb: TrbPointer, i: Inputs)
    requires ShapeInv(s) && s.enumState != GetDevice8Sent
    ensures SamePacket(s, OnTransfer(s, code, trb, i))
  {
    if !TransferOk(code) { RetryKeepsPacket(s, i.reset); }
    else if s.ep0Wait.Some? && trb == OnEp0(s.ep0Wait.value) { DoneKeepsPacket(s.(ep0Wait := None), i); }
  }

  lemma DoneKeepsPacket(s: State, i: Inputs)
    requires Sized(s) && s.enumState != GetDevice8Sent
    ensures SamePacket(s, OnControlDone(s, i))
  {
  }

  /** A transaction error during a control transfer: the slot is given up and the port
      tried again, three times in all; the fourth time is final. */
  lemma TransferRetries(s: State, trb: TrbPointer, i: Inputs)
    requires Inv(s) && s.transportReady && InControlTransfer(s.enumState)
    ensures var s' := Handled(s, TransferEvent(4, trb), i);
            if s.transferRetries == 3 then s'.transportFailed
            else
              && s'.transportReady && s'.transferRetries == s.transferRetries + 1 && s'.ep0Wait.None?
              && (if s.cmdEnqueue < 63 then s'.pending == DisableSlot && |s'.issued| == |s.issued| + 1
                  else s'.issued == s.issued)
  {
    assert s.slot != 0 && s.port != 0;
  }

  /** Both reads of the device descriptor forgive the transaction errors so far, and nothing else does. */
  lemma RetriesForgiven(s: State, code: byte, i: Inputs)
    requires Inv(s) && s.ep0Wait.Some? && (code == 1 || code == 13)
    ensures var s' := Handled(s, TransferEvent(code, OnEp0(s.ep0Wait.value)), i);
            s'.transferRetries
            == if s.enumState == GetDevice8Sent || s.enumState == GetDeviceSent then 0 else s.transferRetries
  {
    if s.enumState == GetDevice8Sent { HeadRead(s, code, i); } else { DoneForgives(s.(ep0Wait := None), i); }
  }

  lemma DoneForgives(s: State, i: Inputs)
    requires Sized(s) && s.enumState != GetDevice8Sent
    ensures OnControlDone(s, i).transferRetries == if s.enumState == GetDeviceSent then 0 else s.transferRetries
  {
  }

  // ----- What the device is asked for -----

  /** A GET_DESCRIPTOR request to the device: a kind of descriptor, number 0, and a length. */
  predicate GetsDescriptor(r: Request, kind: nat, length: nat) {
    && r.Control?
    && r.setup.requestType == 0x80 && r.setup.request == 0x06
    && r.setup.value == 256 * kind && r.setup.index == 0 && r.setup.length == length
  }

  /** The enumeration history of a ready keyboard: after the address command come the whole
      device descriptor, eight bytes of the configuration and the whole configuration,
      at most 256 bytes of it. */
  lemma ReadyMeansDescribed(s: State)
    requires Inv(s) && s.enumState == Ready
    ensures var log := Enumeration(s.issued);
            var n := |log| - 7;
            && n >= 0
            && GetsDescriptor(log[n + 1], 1, 18) && GetsDescriptor(log[n + 2], 2, 8)
            && log[n + 3].Control? && GetsDescriptor(log[n + 3], 2, log[n + 3].setup.length)
            && log[n + 3].setup.length <= 256
  {
    ReadyMeansEnumerated(s);
    var log := Enumeration(s.issued);
    var last := log[|log| - 7..];
    assert IsStep(s.slot, s.endpoint, 1, last[1]) && IsStep(s.slot, s.endpoint, 2, last[2]);
    assert IsStep(s.slot, s.endpoint, 3, last[3]);
  }

  /** The last doorbell. */
  function Last(s: State): Option<Request> {
    if s.issued == [] then None else Some(s.issued[|s.issued| - 1])
  }

  /** An accepted address command: the first eight bytes of the device descriptor while
      the device still has its default address, all eighteen once it has its own. */
  lemma AddressedAsks(s: State, slot: byte, i: Inputs)
    requires Inv(s) && (s.pending == AddressDeviceBsr || s.pending == AddressDevice) && PortIsEnabled(s, i)
    ensures var s' := Handled(s, CommandCompletion(1, slot), i);
            && |s'.issued| == |s.issued| + 1 && s'.port == s.port != 0
            && GetsDescriptor(Last(s').value, 1, if s.pending == AddressDevice then 18 else 8)
  {
  }

  /** The head of the configuration has been read: all of it is asked for, with the total
      length that its bytes 2 and 3 tell, cut to the 256 bytes of the buffer. */
  lemma ConfigurationAsked(s: State, code: byte, i: Inputs)
    requires Inv(s) && s.enumState == GetConfig8Sent && s.ep0Wait.Some? && (code == 1 || code == 13)
    ensures var s' := Handled(s, TransferEvent(code, OnEp0(s.ep0Wait.value)), i);
            var low: nat, high: nat := i.configDesc[2], i.configDesc[3];
            && |s'.issued| == |s.issued| + 1 && s'.enumState == GetConfigFullSent
            && GetsDescriptor(Last(s').value, 2, if low + 256 * high > 256 then 256 else low + 256 * high)
  {
  }

  /** The whole configuration has been read: either it has a boot keyboard, and then the
      device is told the configuration value in its byte 5; or the transport fails. */
  lemma ConfigurationSet(d: Device, s: State, code: byte, i: Inputs)
    requires Inv(s) && s.enumState == GetConfigFullSent && s.ep0Wait.Some? && (code == 1 || code == 13)
    ensures var s' := Handled(s, TransferEvent(code, OnEp0(s.ep0Wait.value)), i);
            var ds := Desc.DescriptorsFrom(i.configDesc, 0);
            if exists j, k :: Desc.IsKeyboardEndpoint(ds, j, k) then
              && s'.enumState == SetConfigSent
              && ObeyedAll(d, s'.issued) == ObeyedAll(d, s.issued).(configuration := i.configDesc[5])
              && exists j, k ::
                   Desc.FirstKeyboardEndpoint(ds, j, k) && s'.endpoint == Desc.Chosen(i.configDesc, ds, j, k)
            else
              s'.transportFailed && s'.issued == s.issued
  {
    Desc.ParseFindsFirst(i.configDesc, s.endpoint.iface);
    var (e, found) := Desc.Parsed(i.configDesc, s.endpoint.iface);
    if found { ConfigurationSetting(d, s, e, code, i); } else { ConfigurationLacking(s, code, i); }
  }

  lemma ConfigurationLacking(s: State, code: byte, i: Inputs)
    requires Inv(s) && s.enumState == GetConfigFullSent && s.ep0Wait.Some? && (code == 1 || code == 13)
    requires !Desc.Parsed(i.configDesc, s.endpoint.iface).1
    ensures var s' := Handled(s, TransferEvent(code, OnEp0(s.ep0Wait.value)), i);
            s'.transportFailed && s'.issued == s.issued
  {
  }

  lemma ConfigurationSetting(d: Device, s: State, e: Desc.Endpoint, code: byte, i: Inputs)
    requires Inv(s) && s.enumState == GetConfigFullSent && s.ep0Wait.Some? && (code == 1 || code == 13)
    requires Desc.Parsed(i.configDesc, s.endpoint.iface) == (e, true) && e.configValue == i.configDesc[5]
    ensures var s' := Handled(s, TransferEvent(code, OnEp0(s.ep0Wait.value)), i);
            && s'.enumState == SetConfigSent && s'.endpoint == e
            && ObeyedAll(d, s'.issued) == ObeyedAll(d, s.issued).(configuration := i.configDesc[5])
  {
    ObeyedLast(d, s.issued, Control(SetConfiguration(e.configValue)));
  }
}
