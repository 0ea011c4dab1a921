/** The kernel's main loop: it polls the USB driver and decides whether the PS/2
  keyboard is listened to. */
module InputLoop {
  import opened Common
  import opened UsbDriver
  import opened UsbSafety
  import opened UsbController
  import opened UsbProgress
  import Desc = Descriptors
  import Hid = HidReport
  import Ev = EventRing
  import UsbKeyboard
  import Ctx = UsbContexts
  import ScancodeQueue
  import LineEditor

  /** `input=usb-native`, `input=legacy` or safe mode, and neither. */
  datatype Mode = Native | Legacy | Auto

  datatype Loop = Loop(usb: State, mode: Mode, ps2: bool, fallbackDone: bool, autoSelected: bool)

  // ----- What one iteration does -----

  function Polled(s: State, events: seq<Occurrence>): State
    requires Sized(s)
  {
    if s.transportReady then HandledAll(s, events) else s
  }

  function FellBack(l: Loop): Loop {
    if !l.fallbackDone && l.usb.transportFailed then l.(ps2 := true, fallbackDone := true) else l
  }

  function Selected(l: Loop): Loop {
    if l.mode == Auto && !l.autoSelected && IsReady(l.usb) then l.(ps2 := false, autoSelected := true) else l
  }

  function Iterated(l: Loop, events: seq<Occurrence>): (l': Loop)
    requires Sized(l.usb)
    ensures Sized(l'.usb)
  {
    Selected(FellBack(l.(usb := Polled(l.usb, events))))
  }

  /** The switch as the boot code leaves it: off only for a native keyboard whose controller was found. */
  function Booted(usb: State, mode: Mode): Loop {
    Loop(usb, mode, !(mode == Native && usb.controllerPresent), false, false)
  }

  // ----- What every iteration keeps -----

  /** The driver was started and keeps its invariant, or was never started. */
  ghost predicate UsbFits(s: State) {
    Sized(s) && (if s.controllerPresent then Inv(s) else !s.transportReady && !s.transportFailed)
  }

  /** True from boot on. */
  ghost predicate BootInv(l: Loop) {
    && UsbFits(l.usb)
    && (l.mode == Legacy ==> !l.usb.controllerPresent)
    && (l.fallbackDone ==> l.ps2 && l.usb.transportFailed)
    && (l.autoSelected ==> l.mode == Auto && IsReady(l.usb) && !l.ps2)
    && (!l.autoSelected && l.mode != Native ==> l.ps2)
    && (l.mode == Native && !l.usb.controllerPresent ==> l.ps2)
    && (l.mode == Native && l.usb.controllerPresent ==> (l.ps2 <==> l.fallbackDone))
  }

  /** True at the end of every iteration: exactly one keyboard is in charge. */
  ghost predicate LoopInv(l: Loop) {
    && BootInv(l)
    && (l.usb.transportFailed ==> l.ps2)
    && (l.mode == Auto ==> (l.ps2 <==> !IsReady(l.usb)))
    && (l.mode == Native ==> (l.ps2 <==> !l.usb.controllerPresent || l.usb.transportFailed))
    && (l.mode == Legacy ==> l.ps2)
  }

  lemma ReadyIsAReadyTransport(s: State)
    requires UsbFits(s) && IsReady(s)
    ensures s.controllerPresent && !s.transportFailed && s.enumState == Ready
  {
  }

  lemma {:induction false} RunKeepsPresence(s: State, run: seq<Occurrence>)
    requires Inv(s)
    ensures HandledAll(s, run).controllerPresent == s.controllerPresent
    decreases |run|
  {
    if run != [] {
      HandledKeeps(s, run[0].event, run[0].inputs);
      RunKeepsPresence(Handled(s, run[0].event, run[0].inputs), run[1..]);
    }
  }

  lemma PollKeeps(s: State, events: seq<Occurrence>)
    requires UsbFits(s)
    ensures var s' := Polled(s, events);
            && UsbFits(s') && s'.controllerPresent == s.controllerPresent
            && (IsReady(s) ==> IsReady(s')) && (s.transportFailed ==> s'.transportFailed)
  {
    if s.transportReady {
      RunKeeps(s, events);
      RunKeepsPresence(s, events);
      OutcomeIsFinal(s, events);
    }
  }

  /** Whatever happened before, after one more iteration exactly one keyboard is in charge. */
  lemma IterationKeeps(l: Loop, events: seq<Occurrence>)
    requires BootInv(l)
    ensures var l' := Iterated(l, events);
            && LoopInv(l')
            && (IsReady(l.usb) ==> IsReady(l'.usb))
            && (l.usb.transportFailed ==> l'.usb.transportFailed)
  {
    PollKeeps(l.usb, events);
    var s' := Polled(l.usb, events);
    if IsReady(s') { ReadyIsAReadyTransport(s'); }
  }

  function IteratedAll(l: Loop, polls: seq<seq<Occurrence>>): Loop
    requires Sized(l.usb)
    decreases |polls|
  {
    if polls == [] then l else IteratedAll(Iterated(l, polls[0]), polls[1..])
  }

  lemma {:induction false} LoopKeeps(l: Loop, polls: seq<seq<Occurrence>>)
    requires BootInv(l) && (polls == [] ==> LoopInv(l))
    ensures LoopInv(IteratedAll(l, polls))
    ensures IsReady(l.usb) ==> IsReady(IteratedAll(l, polls).usb)
    ensures l.usb.transportFailed ==> IteratedAll(l, polls).usb.transportFailed
    decreases |polls|
  {
    if polls != [] {
      IterationKeeps(l, polls[0]);
      LoopKeeps(Iterated(l, polls[0]), polls[1..]);
    }
  }

  lemma BootKeeps(usb: State, mode: Mode)
    requires UsbFits(usb) && (mode == Legacy ==> !usb.controllerPresent)
    ensures BootInv(Booted(usb, mode))
  {
  }

  /** A start that finds no controller, or none that runs, leaves a driver that asks for
      nothing; booting with it leaves PS/2 on in every mode. */
  lemma AbsentBoots(s: State, mode: Mode, found: bool)
    requires Sized(s)
    ensures var usb := if found then RingsZeroed(Forgotten(s)) else Forgotten(s);
            && UsbFits(usb) && !usb.controllerPresent && !IsReady(usb) && usb.issued == []
            && BootInv(Booted(usb, mode)) && Booted(usb, mode).ps2
  {
  }

  /** No lock-out by a failure: from boot, in every mode, against any controller and
      any events, after every iteration a failed transport leaves PS/2 on; in
      automatic mode PS/2 is on exactly while the USB keyboard is not ready, and in
      native mode exactly when there is no controller or it failed. */
  lemma NoLockOut(hid: Hid.State, endpoint: Desc.Endpoint, connected: seq<bool>, reset: PortReset,
                  usb: State, mode: Mode, polls: seq<seq<Occurrence>>)
    requires Sized(usb) && polls != []
    requires if usb.controllerPresent then usb == PortChosen(Started(hid, endpoint), connected, reset) && mode != Legacy
             else !usb.transportReady && !usb.transportFailed
    ensures var l := IteratedAll(Booted(usb, mode), polls);
            && (l.usb.transportFailed ==> l.ps2)
            && (mode == Auto ==> (l.ps2 <==> !IsReady(l.usb)))
            && (mode == Native ==> (l.ps2 <==> !usb.controllerPresent || l.usb.transportFailed))
            && (mode == Legacy ==> l.ps2)
  {
    if usb.controllerPresent { StartKeeps(hid, endpoint, connected, reset); }
    BootKeeps(usb, mode);
    LoopKeeps(Booted(usb, mode), polls);
    IteratedKeepsMode(Booted(usb, mode), polls);
  }

  lemma {:induction false} IteratedKeepsMode(l: Loop, polls: seq<seq<Occurrence>>)
    requires UsbFits(l.usb)
    ensures var l' := IteratedAll(l, polls);
            l'.mode == l.mode && l'.usb.controllerPresent == l.usb.controllerPresent
    decreases |polls|
  {
    if polls != [] {
      PollKeeps(l.usb, polls[0]);
      IteratedKeepsMode(Iterated(l, polls[0]), polls[1..]);
    }
  }

  // ----- Lock-outs that remain -----

  /** All events of the turns of the loop, one after the other. */
  function Flat(polls: seq<seq<Occurrence>>): seq<Occurrence> {
    if polls == [] then [] else polls[0] + Flat(polls[1..])
  }

  /** The controller keeps the rules in every turn. */
  ghost predicate WellBehavedTurns(c: Controller, s: State, polls: seq<seq<Occurrence>>)
    requires Sized(s) && OnRing(c)
    decreases |polls|
  {
    polls == [] ||
    (WellBehaved(c, s, polls[0]) && WellBehavedTurns(ControllerAfter(c, s, polls[0]), Polled(s, polls[0]), polls[1..]))
  }

  function ControllerAfterTurns(c: Controller, s: State, polls: seq<seq<Occurrence>>): (c': Controller)
    requires Sized(s) && OnRing(c)
    ensures OnRing(c')
    decreases |polls|
  {
    if polls == [] then c
    else ControllerAfterTurns(ControllerAfter(c, s, polls[0]), Polled(s, polls[0]), polls[1..])
  }

  lemma {:induction false} ReportsOkConcat(a: seq<Occurrence>, b: seq<Occurrence>)
    ensures ReportsOk(a + b) <==> ReportsOk(a) && ReportsOk(b)
    decreases |a|
  {
    if a == [] {
      assert a + b == b;
    } else {
      assert (a + b)[1..] == a[1..] + b;
      if ReportOk(a[0]) { ReportsOkConcat(a[1..], b); }
    }
  }

  lemma {:induction false} DeliveredConcat(a: seq<Occurrence>, b: seq<Occurrence>)
    ensures Delivered(a + b) == Delivered(a) + (if ReportsOk(a) then Delivered(b) else [])
    decreases |a|
  {
    if a == [] {
      assert a + b == b;
    } else {
      var later := if ReportsOk(a[1..]) then Delivered(b) else [];
      assert (a + b)[0] == a[0] && (a + b)[1..] == a[1..] + b;
      if ReportOk(a[0]) {
        DeliveredConcat(a[1..], b);
        assert DeliveredNow(a[0]) + (Delivered(a[1..]) + later) == DeliveredNow(a[0]) + Delivered(a[1..]) + later;
      }
    }
  }

  /** The keyboard in charge is the USB one. */
  ghost predicate UsbInCharge(c: Controller, l: Loop) {
    LoopInv(l) && Match(c, l.usb) && IsReady(l.usb) && c.endpoint.Some?
  }

  lemma TurnInCharge(c: Controller, l: Loop, events: seq<Occurrence>)
    requires UsbInCharge(c, l) && WellBehaved(c, l.usb, events)
    ensures var l', c' := Iterated(l, events), ControllerAfter(c, l.usb, events);
            && UsbInCharge(c', l') && !l'.ps2
            && l'.usb == HandledAll(l.usb, events) == Polled(l.usb, events)
  {
    ReadyIsAReadyTransport(l.usb);
    IterationKeeps(l, events);
    MatchRun(c, l.usb, events);
  }

  lemma {:induction false} TurnsInCharge(c: Controller, l: Loop, polls: seq<seq<Occurrence>>)
    requires UsbInCharge(c, l) && WellBehavedTurns(c, l.usb, polls)
    ensures UsbInCharge(ControllerAfterTurns(c, l.usb, polls), IteratedAll(l, polls))
    decreases |polls|
  {
    if polls != [] {
      TurnInCharge(c, l, polls[0]);
      TurnsInCharge(ControllerAfter(c, l.usb, polls[0]), Iterated(l, polls[0]), polls[1..]);
    }
  }

  /** A deaf keyboard in charge: no report arrives in any later turn. */
  lemma {:induction false} DeafTurns(c: Controller, l: Loop, polls: seq<seq<Occurrence>>)
    requires UsbInCharge(c, l) && Deaf(l.usb, c.endpoint.value) && WellBehavedTurns(c, l.usb, polls)
    ensures var l', c' := IteratedAll(l, polls), ControllerAfterTurns(c, l.usb, polls);
            l'.usb.hid == l.usb.hid && c'.endpoint.Some? && !Listening(l'.usb, c'.endpoint.value)
    decreases |polls|
  {
    ReadyIsAReadyTransport(l.usb);
    if polls == [] {
      DeafLoop(c, l.usb, []);
    } else {
      DeafLoop(c, l.usb, polls[0]);
      TurnInCharge(c, l, polls[0]);
      DeafTurns(ControllerAfter(c, l.usb, polls[0]), Iterated(l, polls[0]), polls[1..]);
    }
  }

  /** One turn of a listening keyboard in charge. */
  lemma ListeningTurn(c: Controller, l: Loop, events: seq<Occurrence>)
    requires UsbInCharge(c, l) && Listening(l.usb, c.endpoint.value) && WellBehaved(c, l.usb, events)
    ensures var l', c' := Iterated(l, events), ControllerAfter(c, l.usb, events);
            && UsbInCharge(c', l') && !l'.ps2 && l'.usb == Polled(l.usb, events)
            && l'.usb.hid == Hid.FedAll(l.usb.hid, Delivered(events))
            && (if ReportsOk(events) then Listening(l'.usb, c'.endpoint.value)
                else Deaf(l'.usb, c'.endpoint.value) && !Listening(l'.usb, c'.endpoint.value))
  {
    ReadyIsAReadyTransport(l.usb);
    TurnInCharge(c, l, events);
    ReportLoop(c, l.usb, events);
  }

  /** What the first turn delivers and what the others deliver is what all of them deliver. */
  lemma FlatDelivers(h: Hid.State, polls: seq<seq<Occurrence>>)
    requires polls != []
    ensures var first, rest := polls[0], Flat(polls[1..]);
            if ReportsOk(first) then
              && (ReportsOk(Flat(polls)) <==> ReportsOk(rest))
              && Hid.FedAll(h, Delivered(Flat(polls))) == Hid.FedAll(Hid.FedAll(h, Delivered(first)), Delivered(rest))
            else
              !ReportsOk(Flat(polls)) && Delivered(Flat(polls)) == Delivered(first)
  {
    ReportsOkConcat(polls[0], Flat(polls[1..]));
    DeliveredConcat(polls[0], Flat(polls[1..]));
    Hid.FedAllConcat(h, Delivered(polls[0]), Delivered(Flat(polls[1..])));
    assert Delivered(polls[0]) + [] == Delivered(polls[0]);
  }

  lemma {:induction false} TurnsDeliver(c: Controller, l: Loop, polls: seq<seq<Occurrence>>)
    requires UsbInCharge(c, l) && Listening(l.usb, c.endpoint.value) && WellBehavedTurns(c, l.usb, polls)
    ensures var l', c' := IteratedAll(l, polls), ControllerAfterTurns(c, l.usb, polls);
            && l'.usb.hid == Hid.FedAll(l.usb.hid, Delivered(Flat(polls)))
            && c'.endpoint.Some? && (Listening(l'.usb, c'.endpoint.value) <==> ReportsOk(Flat(polls)))
    decreases |polls|
  {
    if polls != [] {
      var l1, c1 := Iterated(l, polls[0]), ControllerAfter(c, l.usb, polls[0]);
      ListeningTurn(c, l, polls[0]);
      FlatDelivers(l.usb.hid, polls);
      if ReportsOk(polls[0]) {
        TurnsDeliver(c1, l1, polls[1..]);
      } else {
        DeafTurns(c1, l1, polls[1..]);
      }
    }
  }

  /** A lock-out without a failure, in automatic and in native mode. Over any turns of
      the loop the USB keyboard in charge delivers every report up to the first report
      transfer that goes wrong, and none after it; it goes on calling itself ready,
      and PS/2 stays off either way. */
  lemma LockedOutAfterReportError(c: Controller, l: Loop, polls: seq<seq<Occurrence>>)
    requires UsbInCharge(c, l) && Listening(l.usb, c.endpoint.value) && WellBehavedTurns(c, l.usb, polls)
    ensures var l', c' := IteratedAll(l, polls), ControllerAfterTurns(c, l.usb, polls);
            && UsbInCharge(c', l') && !l'.ps2
            && l'.usb.hid == Hid.FedAll(l.usb.hid, Delivered(Flat(polls)))
            && (Listening(l'.usb, c'.endpoint.value) <==> ReportsOk(Flat(polls)))
  {
    TurnsInCharge(c, l, polls);
    TurnsDeliver(c, l, polls);
    ReadyIsAReadyTransport(IteratedAll(l, polls).usb);
  }

  /** The first turn after boot, when it makes the keyboard ready. */
  lemma FirstTurn(s0: State, mode: Mode, run: seq<Occurrence>)
    requires mode != Legacy && Match(IDLE_CONTROLLER, s0) && s0.controllerPresent && s0.transportReady
    requires WellBehaved(IDLE_CONTROLLER, s0, run) && IsReady(HandledAll(s0, run))
    ensures var l := Iterated(Booted(s0, mode), run);
            UsbInCharge(ControllerAfter(IDLE_CONTROLLER, s0, run), l) && l.usb == HandledAll(s0, run)
  {
    MatchRun(IDLE_CONTROLLER, s0, run);
    BootKeeps(s0, mode);
    IterationKeeps(Booted(s0, mode), run);
  }

  /** Once a bad event is allowed, whatever turns follow it deliver nothing. */
  lemma NothingAfter(c: Controller, l: Loop, bad: Occurrence, more: seq<seq<Occurrence>>)
    requires UsbInCharge(c, l) && Listening(l.usb, c.endpoint.value) && !ReportOk(bad)
    ensures WellBehavedTurns(c, l.usb, [[bad]] + more) ==>
              var l' := IteratedAll(l, [[bad]] + more);
              !l'.ps2 && IsReady(l'.usb) && l'.usb.hid == l.usb.hid
  {
    var polls := [[bad]] + more;
    if WellBehavedTurns(c, l.usb, polls) {
      LockedOutAfterReportError(c, l, polls);
      FlatDelivers(l.usb.hid, polls);
    }
  }

  /** A report event that a controller may send, with a code that is not good. */
  lemma BadEvent(c: Controller, s: State, code: byte, i: Inputs) returns (bad: Occurrence)
    requires Match(c, s) && Listens(c, s) && code != 1 && code != 13
    ensures bad.event.TransferEvent? && bad.event.code == code && !ReportOk(bad) && WellBehaved(c, s, [bad])
  {
    bad := Occurrence(TransferEvent(code, OnInterrupt(s.intrWait.value)), i);
    ListeningIsAllowed(c, s, code);
    assert [bad][1..] == [];
  }

  /** A first turn brings the keyboard up, a bad report event may follow, and whatever
      comes after it, no report arrives and PS/2 stays off. */
  ghost predicate LocksOut(s0: State, i: Inputs, mode: Mode, code: byte, more: seq<seq<Occurrence>>,
                           run: seq<Occurrence>, bad: Occurrence, c: Controller, s: State) {
    && Helped(IDLE_CONTROLLER, s0, i, run, c, s) && IsReady(s)
    && bad.event.TransferEvent? && bad.event.code == code
    && WellBehaved(c, s, [bad])
    && (WellBehavedTurns(c, s, [[bad]] + more) ==>
          var l' := IteratedAll(Booted(s0, mode), [run] + ([[bad]] + more));
          !l'.ps2 && IsReady(l'.usb) && l'.usb.hid == s.hid)
  }

  lemma LockedOutFrom(s0: State, i: Inputs, mode: Mode, code: byte, more: seq<seq<Occurrence>>,
                      run: seq<Occurrence>, c: Controller, s: State)
    returns (bad: Occurrence)
    requires mode != Legacy && Match(IDLE_CONTROLLER, s0) && s0.controllerPresent && s0.transportReady
    requires Helped(IDLE_CONTROLLER, s0, i, run, c, s) && Listens(c, s) && code != 1 && code != 13
    ensures LocksOut(s0, i, mode, code, more, run, bad, c, s)
  {
    MatchRun(IDLE_CONTROLLER, s0, run);
    FirstTurn(s0, mode, run);
    bad := BadEvent(c, s, code, i);
    IteratedCons(Booted(s0, mode), run, [[bad]] + more);
    NothingAfter(c, Iterated(Booted(s0, mode), run), bad, more);
  }

  lemma StartedState(hid: Hid.State, endpoint: Desc.Endpoint, connected: seq<bool>, reset: PortReset)
    returns (s0: State)
    requires FirstConnected(connected, 0).Some?
    ensures s0 == PortChosen(Started(hid, endpoint), connected, reset)
    ensures Match(IDLE_CONTROLLER, s0) && s0.controllerPresent && s0.transportReady
  {
    s0 := PortChosen(Started(hid, endpoint), connected, reset);
    MatchAtStart(hid, endpoint, connected, reset);
  }

  /** It happens from boot on, in both modes: a helpful device becomes a ready keyboard
      in the first turn, its first report transfer goes wrong in the second, and
      whatever follows, no report ever arrives and PS/2 stays off. */
  lemma LockedOutFromBoot(hid: Hid.State, endpoint: Desc.Endpoint, connected: seq<bool>, reset: PortReset,
                          i: Inputs, mode: Mode, code: byte, more: seq<seq<Occurrence>>)
    returns (s0: State, run: seq<Occurrence>, bad: Occurrence, c: Controller, s: State)
    requires FirstConnected(connected, 0).Some? && Helpful(i) && mode != Legacy && code != 1 && code != 13
    ensures s0 == PortChosen(Started(hid, endpoint), connected, reset)
    ensures LocksOut(s0, i, mode, code, more, run, bad, c, s)
  {
    s0 := StartedState(hid, endpoint, connected, reset);
    run, c, s := ComesUp(s0, i, hid, endpoint, connected, reset);
    bad := LockedOutFrom(s0, i, mode, code, more, run, c, s);
  }

  lemma ComesUp(s0: State, i: Inputs, hid: Hid.State, endpoint: Desc.Endpoint, connected: seq<bool>, reset: PortReset)
    returns (run: seq<Occurrence>, c: Controller, s: State)
    requires FirstConnected(connected, 0).Some? && Helpful(i)
    requires s0 == PortChosen(Started(hid, endpoint), connected, reset)
    ensures Helped(IDLE_CONTROLLER, s0, i, run, c, s) && Listens(c, s)
  {
    run, c, s := KeyboardComesUp(hid, endpoint, connected, reset, i);
  }

  lemma IteratedCons(l: Loop, events: seq<Occurrence>, polls: seq<seq<Occurrence>>)
    requires Sized(l.usb)
    ensures IteratedAll(l, [events] + polls) == IteratedAll(Iterated(l, events), polls)
  {
    assert ([events] + polls)[1..] == polls;
  }

  /** Native mode with the enumeration at a standstill, before PS/2 was given another chance. */
  ghost predicate AtStandstill(c: Controller, l: Loop) {
    && BootInv(l) && l.mode == Native && !l.fallbackDone && l.usb.controllerPresent
    && Match(c, l.usb) && Stalled(c, l.usb)
  }

  lemma StandstillTurn(c: Controller, l: Loop, events: seq<Occurrence>)
    requires AtStandstill(c, l) && WellBehaved(c, l.usb, events)
    ensures var l' := Iterated(l, events);
            && AtStandstill(c, l') && ControllerAfter(c, l.usb, events) == c && l'.usb == Polled(l.usb, events)
            && !l'.ps2 && !IsReady(l'.usb) && !l'.usb.transportFailed
  {
    StalledForever(c, l.usb, events);
    MatchRun(c, l.usb, events);
    IterationKeeps(l, events);
  }

  /** Another lock-out without a failure, in native mode: over any turns of the loop an
      enumeration at a standstill leaves PS/2 off, and never fails nor gets ready. */
  lemma {:induction false} LockedOutByStandstill(c: Controller, l: Loop, polls: seq<seq<Occurrence>>)
    requires AtStandstill(c, l) && WellBehavedTurns(c, l.usb, polls) && (polls == [] ==> !l.ps2)
    ensures var l' := IteratedAll(l, polls);
            !l'.ps2 && !IsReady(l'.usb) && !l'.usb.transportFailed
    decreases |polls|
  {
    if polls == [] {
      StalledForever(c, l.usb, []);
    } else {
      StandstillTurn(c, l, polls[0]);
      LockedOutByStandstill(c, Iterated(l, polls[0]), polls[1..]);
    }
  }

  /** It can happen from boot on: the controller refuses the first slot. */
  lemma LockedOutByRefusedSlot(hid: Hid.State, endpoint: Desc.Endpoint, connected: seq<bool>, reset: PortReset,
                               code: byte, slot: byte, i: Inputs, more: seq<seq<Occurrence>>)
    requires FirstConnected(connected, 0).Some? && reset.done.Some? && reset.done.value.enabled && code != 1
    requires var s, e := PortChosen(Started(hid, endpoint), connected, reset), CommandCompletion(code, slot);
             WellBehavedTurns(After(IDLE_CONTROLLER, s, e), Handled(s, e, i), more)
    ensures var s, e := PortChosen(Started(hid, endpoint), connected, reset), CommandCompletion(code, slot);
            var l' := IteratedAll(Booted(s, Native), [[Occurrence(e, i)]] + more);
            !l'.ps2 && !IsReady(l'.usb) && !l'.usb.transportFailed
  {
    var s, e := PortChosen(Started(hid, endpoint), connected, reset), CommandCompletion(code, slot);
    var s1, c1 := Handled(s, e, i), After(IDLE_CONTROLLER, s, e);
    RefusedSlotStalls(hid, endpoint, connected, reset, code, slot, i);
    MatchAtStart(hid, endpoint, connected, reset);
    MatchStep(IDLE_CONTROLLER, s, e, i);
    BootKeeps(s, Native);
    IterationKeeps(Booted(s, Native), [Occurrence(e, i)]);
    assert HandledAll(s, [Occurrence(e, i)]) == s1;
    assert ([[Occurrence(e, i)]] + more)[1..] == more;
    LockedOutByStandstill(c1, Iterated(Booted(s, Native), [Occurrence(e, i)]), more);
  }

  // ----- The loop itself -----

  class Kernel {
    const driver: UsbKeyboard.Driver
    const queue: ScancodeQueue.Queue
    const editor: LineEditor.Editor
    const mode: Mode
    var ps2Enabled: bool
    var usbFallbackDone: bool
    var autoUsbSelected: bool

    ghost predicate Valid()
      reads this, driver, driver.ep0, driver.intr, driver.events, driver.hid, queue, queue.slots
    {
      driver.Valid() && queue.Valid() && driver.configDesc != queue.slots && driver.hid.lastReport != queue.slots
    }

    ghost function Abs(): Loop
      requires Valid()
      reads this, driver, driver.commandRing, driver.ep0, driver.ep0.trbs, driver.intr, driver.intr.trbs, driver.events,
            driver.hid, driver.hid.lastReport, queue, queue.slots
    {
      Loop(driver.Abs(), mode, ps2Enabled, usbFallbackDone, autoUsbSelected)
    }

    constructor (mode: Mode, contexts: Ctx.Contexts)
      requires contexts.Valid()
      ensures Valid() && this.mode == mode && !usbFallbackDone && !autoUsbSelected
      ensures UsbFits(driver.Abs()) && !driver.controllerPresent
    {
      this.mode := mode;
      ps2Enabled, usbFallbackDone, autoUsbSelected := true, false, false;
      driver := new UsbKeyboard.Driver(contexts);
      queue := new ScancodeQueue.Queue();
      editor := new LineEditor.Editor();
    }

    /** `teclado_init_legacy`: PS/2 on, the modifier flags and the queue forgotten. An
        interrupt may store `between` the two stores that empty the queue. */
    method InitLegacy(between: seq<byte>)
      requires Valid()
      modifies this`ps2Enabled, editor`ctrlOn, editor`shiftOn, editor`altOn, queue, queue.slots
      ensures Valid() && Abs() == old(Abs()).(ps2 := true) && queue.Contents() == []
      ensures editor.Keys() == Hid.Flags(false, false, false, old(editor.Keys()).e0)
    {
      ps2Enabled := true;
      editor.ClearFlags();
      queue.Clear(between);
    }

    /** `teclado_set_ps2_enabled`. While PS/2 is off an interrupt stores nothing. */
    method SetPs2Enabled(enabled: bool)
      requires Valid()
      modifies this`ps2Enabled, queue, queue.slots
      ensures Valid() && Abs() == old(Abs()).(ps2 := enabled)
      ensures queue.Contents() == if enabled then old(queue.Contents()) else []
    {
      ps2Enabled := enabled;
      if !ps2Enabled { queue.Clear([]); }
    }

    /** The boot code, from an initialised driver on. */
    method ChooseKeyboard(between: seq<byte>)
      requires Valid() && !usbFallbackDone && !autoUsbSelected
      modifies this`ps2Enabled, editor`ctrlOn, editor`shiftOn, editor`altOn, queue, queue.slots
      ensures Valid() && Abs() == Booted(old(Abs()).usb, mode)
    {
      if mode == Native {
        SetPs2Enabled(false);
        if !driver.controllerPresent { InitLegacy(between); }
      } else {
        InitLegacy(between);
      }
    }

    method FallBack(between: seq<byte>)
      requires Valid()
      modifies this`ps2Enabled, this`usbFallbackDone, editor`ctrlOn, editor`shiftOn, editor`altOn, queue, queue.slots
      ensures Valid() && Abs() == FellBack(old(Abs()))
    {
      if !usbFallbackDone && driver.transportFailed {
        InitLegacy(between);
        usbFallbackDone := true;
      }
    }

    method SelectUsb()
      requires Valid()
      modifies this`ps2Enabled, this`autoUsbSelected, queue, queue.slots
      ensures Valid() && Abs() == Selected(old(Abs()))
    {
      var ready := driver.UsbReady();
      if mode == Auto && !autoUsbSelected && ready {
        SetPs2Enabled(false);
        autoUsbSelected := true;
      }
    }

    /** The rest of a turn, after the poll. */
    method Arbitrate(between: seq<byte>)
      requires Valid()
      modifies this`ps2Enabled, this`usbFallbackDone, this`autoUsbSelected,
               editor`ctrlOn, editor`shiftOn, editor`altOn, queue, queue.slots
      ensures Valid() && Abs() == Selected(FellBack(old(Abs())))
    {
      FallBack(between);
      SelectUsb();
    }

    method PollUsb(ghost producer: Ev.Cursor, ghost events: seq<Event>, inputs: seq<Inputs>)
      requires Valid() && |inputs| >= |events|
      requires Ev.Unconsumed(driver.events.slots[..], producer, driver.events.At(), events)
      modifies driver, driver.commandRing, driver.ep0, driver.ep0.trbs, driver.intr, driver.intr.trbs, driver.events,
               driver.contexts.input, driver.contexts.output, driver.contexts.slots,
               driver.configDesc, driver.hid, driver.hid.lastReport
      ensures Valid()
      ensures Abs() == old(Abs()).(usb := Polled(old(Abs()).usb, UsbKeyboard.Occurrences(events, inputs)))
      ensures if old(driver.transportReady)
              then Ev.Unconsumed(driver.events.slots[..], producer, driver.events.At(), [])
              else driver.events.At() == old(driver.events.At())
    {
      driver.Poll(producer, events, inputs);
    }

    /** One turn of the main loop. */
    method Iterate(ghost producer: Ev.Cursor, ghost events: seq<Event>, inputs: seq<Inputs>, between: seq<byte>)
      requires Valid() && |inputs| >= |events|
      requires Ev.Unconsumed(driver.events.slots[..], producer, driver.events.At(), events)
      modifies this, driver, driver.commandRing, driver.ep0, driver.ep0.trbs, driver.intr, driver.intr.trbs,
               driver.events,
               driver.contexts.input, driver.contexts.output, driver.contexts.slots,
               driver.configDesc, driver.hid, driver.hid.lastReport,
               editor`ctrlOn, editor`shiftOn, editor`altOn, queue, queue.slots
      ensures Valid() && Abs() == Iterated(old(Abs()), UsbKeyboard.Occurrences(events, inputs))
      ensures if old(driver.transportReady)
              then Ev.Unconsumed(driver.events.slots[..], producer, driver.events.At(), [])
              else driver.events.At() == old(driver.events.At())
    {
      PollUsb(producer, events, inputs);
      Arbitrate(between);
    }

    /** A turn with the controller: what it writes before the poll fits its ring. A
        driver that polls no more is not written to. */
    method Turn(p: Ev.Cursor, turn: seq<Occurrence>, between: seq<byte>) returns (p': Ev.Cursor)
      requires Valid() && |turn| <= Ev.EVENT_RING_SIZE
      requires driver.transportReady ==> Ev.Unconsumed(driver.events.slots[..], p, driver.events.At(), [])
      modifies this, driver, driver.commandRing, driver.ep0, driver.ep0.trbs, driver.intr, driver.intr.trbs,
               driver.events,
               driver.events.slots, driver.contexts.input, driver.contexts.output, driver.contexts.slots,
               driver.configDesc, driver.hid, driver.hid.lastReport,
               editor`ctrlOn, editor`shiftOn, editor`altOn, queue, queue.slots
      ensures Valid() && Abs() == Iterated(old(Abs()), turn)
      ensures old(driver.transportReady) ==> Ev.Unconsumed(driver.events.slots[..], p', driver.events.At(), [])
    {
      p' := p;
      if driver.transportReady {
        var events := seq(|turn|, k requires 0 <= k < |turn| => turn[k].event);
        var inputs := seq(|turn|, k requires 0 <= k < |turn| => turn[k].inputs);
        p' := driver.events.Deliver(p, [], events);
        assert [] + events == events;
        assert UsbKeyboard.Occurrences(events, inputs) == turn;
        Iterate(p', events, inputs, between);
      } else {
        Arbitrate(between);
      }
    }

    /** Any turns of the main loop: exactly one keyboard is in charge after the last one. */
    method Run(p: Ev.Cursor, turns: seq<seq<Occurrence>>, between: seq<byte>)
      requires Valid() && BootInv(Abs()) && (turns == [] ==> LoopInv(Abs()))
      requires forall k :: 0 <= k < |turns| ==> |turns[k]| <= Ev.EVENT_RING_SIZE
      requires driver.transportReady ==> Ev.Unconsumed(driver.events.slots[..], p, driver.events.At(), [])
      modifies this, driver, driver.commandRing, driver.ep0, driver.ep0.trbs, driver.intr, driver.intr.trbs,
               driver.events,
               driver.events.slots, driver.contexts.input, driver.contexts.output, driver.contexts.slots,
               driver.configDesc, driver.hid, driver.hid.lastReport,
               editor`ctrlOn, editor`shiftOn, editor`altOn, queue, queue.slots
      ensures Valid() && Abs() == IteratedAll(old(Abs()), turns) && LoopInv(Abs())
    {
      ghost var goal := IteratedAll(Abs(), turns);
      LoopKeeps(Abs(), turns);
      var q := p;
      for k := 0 to |turns|
        invariant Valid() && IteratedAll(Abs(), turns[k..]) == goal
        invariant driver.transportReady ==> Ev.Unconsumed(driver.events.slots[..], q, driver.events.At(), [])
      {
        assert turns[k..][0] == turns[k] && turns[k..][1..] == turns[k + 1..];
        q := Turn(q, turns[k], between);
      }
    }
  }
}
