/** Whether the enumeration gets on: exactly when it comes to a standstill, and that
  from everywhere else a helpful device makes the keyboard ready. */
module UsbProgress {
  import opened Common
  import opened UsbDriver
  import opened UsbSafety
  import opened UsbController
  import Desc = Descriptors
  import Hid = HidReport

  // ----- Standstill -----

  /** A request is out that a controller keeping the rules has still to answer. */
  predicate Awaited(c: Controller, s: State) {
    s.pending != NoCommand || c.controlsAnswered < Controls(s.issued)
  }

  /** Neither failed nor ready nor waiting for its port, and nothing is out. */
  predicate Stalled(c: Controller, s: State) {
    s.transportReady && s.enumState != Ready && s.enumState != ResetSent && !Awaited(c, s)
  }

  /** Nothing is left to answer, so only ports may change, and the driver only notes the speed. */
  lemma StalledStays(c: Controller, s: State, e: Event, i: Inputs)
    requires Match(c, s) && Stalled(c, s) && Allowed(c, s, e)
    ensures var s' := Handled(s, e, i);
            After(c, s, e) == c && s' == s.(speed := s'.speed) && Stalled(c, s')
  {
  }

  /** A standstill is for good: no request, no scancode, neither ready nor failed ever again. */
  lemma {:induction false} StalledForever(c: Controller, s: State, run: seq<Occurrence>)
    requires Match(c, s) && Stalled(c, s) && WellBehaved(c, s, run)
    ensures var s' := HandledAll(s, run);
            && ControllerAfter(c, s, run) == c && Stalled(c, s')
            && s' == s.(speed := s'.speed) && !IsReady(s') && !s'.transportFailed
    decreases |run|
  {
    if run != [] {
      StalledStays(c, s, run[0].event, run[0].inputs);
      MatchStep(c, s, run[0].event, run[0].inputs);
      StalledForever(c, Handled(s, run[0].event, run[0].inputs), run[1..]);
    }
  }

  // ----- Which events bring it about -----

  /** Answers that the driver drops without a further request: a failed or slotless
      Enable Slot, a failed Configure Endpoint, a transfer that ends with an error
      other than a transaction error, and a good transfer event for another TRB. */
  predicate Dropped(s: State, e: Event) {
    match e
    case CommandCompletion(code, slot) =>
      if s.pending == EnableSlot then code != 1 || slot == 0
      else s.pending == ConfigureEndpoint && code != 1
    case TransferEvent(code, trb) =>
      if code == 1 || code == 13 then s.ep0Wait.Some? && trb != OnEp0(s.ep0Wait.value) else code != 4
    case _ => false
  }

  /** Answers that call for another command. */
  predicate WantsCommand(s: State, e: Event, i: Inputs) {
    match e
    case CommandCompletion(code, slot) =>
      (match s.pending
       case EnableSlot => code == 1 && slot != 0
       case DisableSlot => i.reset.done.Some? && i.reset.done.value.enabled
       case AddressDeviceBsr => RetriesAddress(s, code, i)
       case AddressDevice => RetriesAddress(s, code, i)
       case _ => false)
    case PortStatusChange => s.enumState == ResetSent && i.status.enabled
    case TransferEvent(code, trb) =>
      if code == 1 || code == 13 then
        s.ep0Wait.Some? && trb == OnEp0(s.ep0Wait.value)
          && (s.enumState == GetDevice8Sent || s.enumState == SetProtocolSent)
      else
        code == 4 && s.transferRetries < 3
    case OtherEvent => false
  }

  predicate RetriesAddress(s: State, code: byte, i: Inputs) {
    if code == 1 then !(s.port != 0 && i.portEnabled) && s.transferRetries < 3 else s.addressRetries < 3
  }

  /** The driver goes on without a doorbell. */
  predicate Silent(s: State, s': State) {
    s'.issued == s.issued && s'.transportReady && s'.enumState != Ready && s'.enumState != ResetSent
  }

  predicate SilentExactly(s: State, e: Event, i: Inputs)
    requires Sized(s)
  {
    Silent(s, Handled(s, e, i)) <==> Dropped(s, e) || (s.cmdEnqueue == 63 && WantsCommand(s, e, i))
  }

  lemma FailedAddressIsSilent(s: State, code: byte, slot: byte, i: Inputs)
    requires ShapeInv(s) && s.transportReady && (s.pending == AddressDevice || s.pending == AddressDeviceBsr)
             && code != SUCCESS
    ensures SilentExactly(s, CommandCompletion(code, slot), i)
  {
    assert s.slot != 0 && s.port != 0;
  }

  lemma AddressIsSilent(s: State, slot: byte, i: Inputs)
    requires ShapeInv(s) && s.transportReady && (s.pending == AddressDevice || s.pending == AddressDeviceBsr)
    ensures SilentExactly(s, CommandCompletion(SUCCESS, slot), i)
  {
    assert s.slot != 0 && s.port != 0;
  }

  lemma CommandIsSilent(s: State, code: byte, slot: byte, i: Inputs)
    requires ShapeInv(s) && s.transportReady && s.enumState != Ready && s.pending != NoCommand
    ensures SilentExactly(s, CommandCompletion(code, slot), i)
  {
    if s.pending == AddressDevice || s.pending == AddressDeviceBsr {
      if code == SUCCESS { AddressIsSilent(s, slot, i); } else { FailedAddressIsSilent(s, code, slot, i); }
    }
  }

  lemma ErrorIsSilent(s: State, code: byte, trb: TrbPointer, i: Inputs)
    requires ShapeInv(s) && s.transportReady && s.ep0Wait.Some? && !TransferOk(code)
    ensures SilentExactly(s, TransferEvent(code, trb), i)
  {
    assert s.slot != 0 && s.port != 0 && InControlTransfer(s.enumState);
  }

  lemma TransferIsSilent(s: State, code: byte, trb: TrbPointer, i: Inputs)
    requires ShapeInv(s) && s.transportReady && s.ep0Wait.Some?
    ensures SilentExactly(s, TransferEvent(code, trb), i)
  {
    if TransferOk(code) {
      assert s.intrWait.None? && InControlTransfer(s.enumState);
    } else {
      ErrorIsSilent(s, code, trb, i);
    }
  }

  /** After an answer, something is out again exactly when a doorbell rang. */
  lemma RangIsAwaited(c: Controller, s: State, e: Event, i: Inputs)
    requires Match(c, s) && Allowed(c, s, e) && s.transportReady && s.enumState != Ready
    requires e.CommandCompletion? || e.TransferEvent?
    ensures Stalled(After(c, s, e), Handled(s, e, i)) <==> Silent(s, Handled(s, e, i))
  {
    var s' := Handled(s, e, i);
    MatchStep(c, s, e, i);
    HandledKeepsShape(s, e, i);
    if s'.issued != s.issued {
      LogGrows(s.issued, s'.issued[|s'.issued| - 1]);
    }
  }

  /** An enabled port after a reset asks for a slot, if the command ring has room. */
  lemma PortOutcome(s: State, i: Inputs)
    requires ShapeInv(s) && s.transportReady
    ensures var s' := Handled(s, PortStatusChange, i);
            if !WantsCommand(s, PortStatusChange, i) then s' == s.(speed := i.status.speed)
            else if s.cmdEnqueue == 63 then s' == s.(speed := i.status.speed, enumState := EnableSlotSent)
            else s'.pending == EnableSlot
  {
  }

  lemma PortIsSilent(c: Controller, s: State, i: Inputs)
    requires ShapeInv(s) && s.transportReady && s.enumState != Ready && !Stalled(c, s)
    requires c.controlsAnswered < Controls(s.issued) ==> s.enumState != ResetSent
    ensures Stalled(c, Handled(s, PortStatusChange, i))
            <==> s.cmdEnqueue == 63 && WantsCommand(s, PortStatusChange, i)
  {
    PortOutcome(s, i);
  }

  /** From a driver that is getting on, the events that a controller may send bring
      about a standstill exactly when the driver drops them, or when they call for a
      command and the command ring, which never wraps, is used up. */
  lemma StallsExactly(c: Controller, s: State, e: Event, i: Inputs)
    requires Match(c, s) && Allowed(c, s, e)
    requires s.transportReady && s.enumState != Ready && !Stalled(c, s)
    ensures Stalled(After(c, s, e), Handled(s, e, i))
            <==> Dropped(s, e) || (s.cmdEnqueue == 63 && WantsCommand(s, e, i))
  {
    match e
    case CommandCompletion(code, slot) =>
      RangIsAwaited(c, s, e, i);
      CommandIsSilent(s, code, slot, i);
    case TransferEvent(code, trb) =>
      RangIsAwaited(c, s, e, i);
      TransferIsSilent(s, code, trb, i);
    case PortStatusChange => PortIsSilent(c, s, i);
    case OtherEvent =>
  }

  // ----- A helpful device -----

  /** A port that is enabled whenever it is looked at, and a configuration with a boot keyboard. */
  predicate Helpful(i: Inputs) {
    && i.portEnabled && i.status.enabled && i.reset.done.Some? && i.reset.done.value.enabled
    && Desc.Parsed(i.configDesc, 0).1
  }

  /** The good answer to what is out: success for the command or the awaited transfer, or news of the port. */
  function Answer(s: State): Event {
    if s.pending != NoCommand then CommandCompletion(1, 1)
    else if s.ep0Wait.Some? then TransferEvent(1, OnEp0(s.ep0Wait.value))
    else PortStatusChange
  }

  /** The commands for a device of some speed: the fast ones are addressed twice. */
  function Addressing(speed: Speed): nat {
    if speed >= 4 then 3 else 2
  }

  /** The commands still to be sent. */
  function ToGo(s: State, i: Inputs): nat
    requires i.reset.done.Some?
  {
    match s.pending
    case EnableSlot => Addressing(s.speed)
    case DisableSlot => 1 + Addressing(i.reset.done.value.speed)
    case AddressDeviceBsr => 2
    case AddressDevice => 1
    case ConfigureEndpoint => 0
    case NoCommand =>
      if s.enumState == Ready then 0
      else if s.enumState == ResetSent then 1 + Addressing(i.status.speed)
      else if s.enumState == GetDevice8Sent then 2
      else 1
  }

  /** The command ring, which never wraps, has room for them. */
  predicate HasRoom(s: State, i: Inputs)
    requires i.reset.done.Some?
  {
    s.cmdEnqueue + ToGo(s, i) <= 63
  }

  /** The answers still needed, at most. */
  function Rank(s: State): (n: nat)
    ensures n <= 11
  {
    match s.pending
    case EnableSlot => 10
    case DisableSlot => 11
    case AddressDeviceBsr => 9
    case AddressDevice => 7
    case ConfigureEndpoint => 1
    case NoCommand =>
      match s.enumState
      case ResetSent => 11
      case GetDevice8Sent => 8
      case GetDeviceSent => 6
      case GetConfig8Sent => 5
      case GetConfigFullSent => 4
      case SetConfigSent => 3
      case SetProtocolSent => 2
      case _ => 0
  }

  /** What one good answer does: a step nearer, with as many commands in all, or a full ring. */
  predicate Nearer(s: State, s': State, i: Inputs)
    requires i.reset.done.Some?
  {
    && s'.transportReady
    && (if s.cmdEnqueue < MAX_COMMANDS || !WantsCommand(s, Answer(s), i) then
          Rank(s') < Rank(s) && s'.cmdEnqueue + ToGo(s', i) == s.cmdEnqueue + ToGo(s, i)
        else
          s'.enumState != Ready)
  }

  /** Whether a keyboard is found does not depend on what was remembered. */
  lemma FoundAnyway(c: Desc.Config, iface: byte)
    ensures Desc.Parsed(c, iface).1 == Desc.Parsed(c, 0).1
  {
    Desc.ParseFindsFirst(c, iface);
    Desc.ParseFindsFirst(c, 0);
  }

  lemma GoodCommand(s: State, i: Inputs)
    requires ShapeInv(s) && s.transportReady && s.enumState != Ready && s.pending != NoCommand && Helpful(i)
    ensures Nearer(s, Handled(s, Answer(s), i), i)
  {
  }

  lemma GoodTransfer(s: State, i: Inputs)
    requires ShapeInv(s) && s.transportReady && s.ep0Wait.Some? && Helpful(i)
    ensures Nearer(s, Handled(s, Answer(s), i), i)
  {
    if s.enumState == GetConfigFullSent { GoodConfiguration(s, i); }
    else if s.enumState == GetDevice8Sent || s.enumState == SetProtocolSent { GoodCommandNext(s, i); }
    else { GoodTransferNext(s, i); }
  }

  /** Two of the transfers lead to a command. */
  lemma GoodCommandNext(s: State, i: Inputs)
    requires ShapeInv(s) && s.transportReady && s.ep0Wait.Some? && Helpful(i)
    requires s.enumState == GetDevice8Sent || s.enumState == SetProtocolSent
    ensures Nearer(s, Handled(s, Answer(s), i), i)
  {
  }

  lemma GoodTransferNext(s: State, i: Inputs)
    requires ShapeInv(s) && s.transportReady && s.ep0Wait.Some? && Helpful(i)
    requires s.enumState in {GetDeviceSent, GetConfig8Sent, SetConfigSent}
    ensures Nearer(s, Handled(s, Answer(s), i), i)
  {
  }

  lemma GoodConfiguration(s: State, i: Inputs)
    requires ShapeInv(s) && s.transportReady && s.ep0Wait.Some? && s.enumState == GetConfigFullSent && Helpful(i)
    ensures Nearer(s, Handled(s, Answer(s), i), i)
  {
    FoundAnyway(i.configDesc, s.endpoint.iface);
  }

  lemma GoodPort(s: State, i: Inputs)
    requires ShapeInv(s) && s.transportReady && s.enumState == ResetSent && Helpful(i)
    ensures Nearer(s, Handled(s, Answer(s), i), i)
  {
  }

  lemma GoodAnswer(c: Controller, s: State, i: Inputs)
    requires Match(c, s) && s.transportReady && s.enumState != Ready && !Stalled(c, s) && Helpful(i)
    ensures Allowed(c, s, Answer(s)) && !Dropped(s, Answer(s)) && Nearer(s, Handled(s, Answer(s), i), i)
  {
    if s.pending != NoCommand { GoodCommand(s, i); }
    else if s.ep0Wait.Some? { GoodTransfer(s, i); }
    else { GoodPort(s, i); }
  }

  /** `run` consists of the good answers of a helpful device and leads to `c'` and `s'`. */
  ghost predicate Helped(c: Controller, s: State, i: Inputs, run: seq<Occurrence>, c': Controller, s': State) {
    && Sized(s) && OnRing(c)
    && WellBehaved(c, s, run) && GoodAnswers(s, i, run)
    && HandledAll(s, run) == s' && ControllerAfter(c, s, run) == c'
  }

  predicate GoodAnswers(s: State, i: Inputs, run: seq<Occurrence>)
    requires Sized(s)
    decreases |run|
  {
    run == [] ||
    (run[0] == Occurrence(Answer(s), i) && GoodAnswers(Handled(s, run[0].event, run[0].inputs), i, run[1..]))
  }

  lemma HelpedCons(c: Controller, s: State, i: Inputs, rest: seq<Occurrence>, c': Controller, s': State)
    returns (run: seq<Occurrence>)
    requires Sized(s) && OnRing(c) && Allowed(c, s, Answer(s))
    requires Helped(After(c, s, Answer(s)), Handled(s, Answer(s), i), i, rest, c', s')
    ensures Helped(c, s, i, run, c', s') && |run| == |rest| + 1
  {
    run := [Occurrence(Answer(s), i)] + rest;
    assert run[1..] == rest;
  }

  lemma HelpedNone(c: Controller, s: State, i: Inputs)
    requires Match(c, s)
    ensures Helped(c, s, i, [], c, s)
  {
  }

  /** Ready and listening if there was room on the command ring for what was still to be sent, else at a standstill. */
  ghost predicate EndsAsRoomAllows(s: State, i: Inputs, c': Controller, s': State)
    requires i.reset.done.Some?
  {
    if HasRoom(s, i) then Listens(c', s') else Stalled(c', s')
  }

  lemma EndsLater(s: State, s1: State, i: Inputs, c': Controller, s': State)
    requires i.reset.done.Some? && (HasRoom(s1, i) <==> HasRoom(s, i)) && EndsAsRoomAllows(s1, i, c', s')
    ensures EndsAsRoomAllows(s, i, c', s')
  {
  }

  lemma EndsAtOnce(s: State, i: Inputs, c1: Controller, s1: State)
    requires i.reset.done.Some? && (Stalled(c1, s1) || s1.enumState == Ready)
    requires if Stalled(c1, s1) then !HasRoom(s, i)
             else Listens(c1, s1) && HasRoom(s1, i) && (HasRoom(s1, i) <==> HasRoom(s, i))
    ensures EndsAsRoomAllows(s, i, c1, s1)
  {
  }

  /** With room on the command ring for what is still to be sent, good answers make
      the keyboard ready and listening, within `Rank(s)` of them; without it they end in
      a standstill. */
  lemma {:induction false} HelpedToTheEnd(c: Controller, s: State, i: Inputs, n: nat)
    returns (run: seq<Occurrence>, c': Controller, s': State)
    requires Match(c, s) && s.transportReady && s.enumState != Ready && !Stalled(c, s) && Helpful(i) && Rank(s) <= n
    ensures Helped(c, s, i, run, c', s') && |run| <= n
    ensures EndsAsRoomAllows(s, i, c', s')
    decreases n
  {
    var c1, s1 := HelpedStep(c, s, i);
    if Stalled(c1, s1) || s1.enumState == Ready {
      c', s' := c1, s1;
      run := HelpedLast(c, s, i);
    } else {
      run, c', s' := HelpedToTheEnd(c1, s1, i, n - 1);
      run := HelpedCons(c, s, i, run, c', s');
      EndsLater(s, s1, i, c', s');
    }
  }

  /** The last answer of a helpful device. */
  lemma HelpedLast(c: Controller, s: State, i: Inputs) returns (run: seq<Occurrence>)
    requires Match(c, s) && s.transportReady && s.enumState != Ready && !Stalled(c, s) && Helpful(i)
    requires var c1, s1 := After(c, s, Answer(s)), Handled(s, Answer(s), i); Stalled(c1, s1) || s1.enumState == Ready
    ensures var c1, s1 := After(c, s, Answer(s)), Handled(s, Answer(s), i);
            Helped(c, s, i, run, c1, s1) && |run| == 1 && EndsAsRoomAllows(s, i, c1, s1)
  {
    var c1, s1 := HelpedStep(c, s, i);
    HelpedNone(c1, s1, i);
    EndsAtOnce(s, i, c1, s1);
    run := HelpedCons(c, s, i, [], c1, s1);
  }

  /** A ready keyboard with a report TRB for the controller to fill. */
  ghost predicate Listens(c: Controller, s: State) {
    IsReady(s) && c.endpoint.Some? && Listening(s, c.endpoint.value)
  }

  /** One good answer: a standstill only when there was no room for what is still to be sent. */
  lemma HelpedStep(c: Controller, s: State, i: Inputs) returns (c1: Controller, s1: State)
    requires Match(c, s) && s.transportReady && s.enumState != Ready && !Stalled(c, s) && Helpful(i)
    ensures Allowed(c, s, Answer(s)) && c1 == After(c, s, Answer(s)) && s1 == Handled(s, Answer(s), i)
    ensures s1.enumState == Ready ==> Listens(c1, s1) && HasRoom(s1, i)
    ensures && Match(c1, s1) && s1.transportReady
            && (if Stalled(c1, s1) then !HasRoom(s, i)
                else Rank(s1) < Rank(s) && (HasRoom(s1, i) <==> HasRoom(s, i)))
  {
    c1, s1 := After(c, s, Answer(s)), Handled(s, Answer(s), i);
    GoodAnswer(c, s, i);
    StallsExactly(c, s, Answer(s), i);
    MatchStep(c, s, Answer(s), i);
    WantedIsToGo(s, i);
    if s1.enumState == Ready {
      BecomesListening(c, s, Answer(s), i);
      ReadyIsExact(s1);
    }
  }

  /** What calls for a command has been counted. */
  lemma WantedIsToGo(s: State, i: Inputs)
    requires Helpful(i) && s.enumState != Ready
    ensures WantsCommand(s, Answer(s), i) ==> ToGo(s, i) > 0
  {
  }

  lemma StartHasRoom(s: State, connected: seq<bool>, reset: PortReset, i: Inputs)
    requires Sized(s) && s.cmdEnqueue == 0 && s.pending == NoCommand && s.transportReady
    requires FirstConnected(connected, 0).Some? && Helpful(i)
    ensures var s' := PortChosen(s, connected, reset);
            s'.transportReady && s'.enumState != Ready && !Stalled(IDLE_CONTROLLER, s') && HasRoom(s', i)
  {
  }

  /** From power-up with something in a port, a helpful device becomes a ready
      keyboard within eleven events of a controller that keeps the rules, and the
      controller has a report TRB to fill. */
  lemma KeyboardComesUp(hid: Hid.State, endpoint: Desc.Endpoint, connected: seq<bool>, reset: PortReset, i: Inputs)
    returns (run: seq<Occurrence>, c': Controller, s': State)
    requires FirstConnected(connected, 0).Some? && Helpful(i)
    ensures Helped(IDLE_CONTROLLER, PortChosen(Started(hid, endpoint), connected, reset), i, run, c', s')
    ensures |run| <= 11 && Listens(c', s') && Match(c', s')
  {
    var s0 := PortChosen(Started(hid, endpoint), connected, reset);
    MatchAtStart(hid, endpoint, connected, reset);
    StartHasRoom(Started(hid, endpoint), connected, reset, i);
    run, c', s' := HelpedToTheEnd(IDLE_CONTROLLER, s0, i, 11);
    MatchRun(IDLE_CONTROLLER, s0, run);
  }

  /** One refused Enable Slot right after power-up is enough for a standstill. */
  lemma RefusedSlotStalls(hid: Hid.State, endpoint: Desc.Endpoint, connected: seq<bool>, reset: PortReset,
                          code: byte, slot: byte, i: Inputs)
    requires FirstConnected(connected, 0).Some? && reset.done.Some? && reset.done.value.enabled && code != 1
    ensures var s, e := PortChosen(Started(hid, endpoint), connected, reset), CommandCompletion(code, slot);
            Allowed(IDLE_CONTROLLER, s, e) && Stalled(After(IDLE_CONTROLLER, s, e), Handled(s, e, i))
  {
    var s := PortChosen(Started(hid, endpoint), connected, reset);
    MatchAtStart(hid, endpoint, connected, reset);
    StallsExactly(IDLE_CONTROLLER, s, CommandCompletion(code, slot), i);
  }
}
