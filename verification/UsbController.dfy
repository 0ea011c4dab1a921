/** The driver with a controller that keeps the rules: every command is answered
  once and in order, every control transfer at most once, and report transfers
  are answered for the TRBs that the controller finds by following the cycle
  bits of the ring. */
module UsbController {
  import opened Common
  import opened Rings
  import opened UsbDriver
  import opened UsbSafety
  import Desc = Descriptors
  import Hid = HidReport

  /** The controller's side: answered commands and control transfers, and its
      position on the interrupt ring while that endpoint is configured. */
  datatype Controller = Controller(commandsAnswered: nat, controlsAnswered: nat, endpoint: Option<Consumer>)

  const IDLE_CONTROLLER := Controller(0, 0, None)

  /** The oldest command without an answer. */
  function NextCommand(c: Controller, s: State): Pending {
    if c.commandsAnswered < s.cmdEnqueue <= |s.commands| then CommandIn(s.commands[c.commandsAnswered].control)
      else NoCommand
  }

  predicate OnRing(c: Controller) {
    c.endpoint.Some? ==> c.endpoint.value.dequeue < EP_RING_SIZE
  }

  /** The slot of the report TRB that the controller works on, if the ring gives it one. */
  function ReportSlot(c: Controller, s: State): Option<nat>
    requires Sized(s) && OnRing(c)
  {
    if c.endpoint.None? || Fetch(s.intr.trbs, c.endpoint.value).0.None? then None
    else Some(FollowLink(s.intr.trbs, c.endpoint.value).dequeue)
  }

  predicate Allowed(c: Controller, s: State, e: Event)
    requires Sized(s) && OnRing(c)
  {
    match e
    case CommandCompletion(_, _) => c.commandsAnswered < s.cmdEnqueue
    case PortStatusChange => true
    case TransferEvent(_, trb) =>
      (match trb
       case OnEp0(_) => c.controlsAnswered < Controls(s.issued)
       case OnInterrupt(slot) => ReportSlot(c, s) == Some(slot)
       case Elsewhere => false)
    case OtherEvent => true
  }

  function After(c: Controller, s: State, e: Event): (c': Controller)
    requires Sized(s) && OnRing(c)
    ensures OnRing(c')
  {
    match e
    case CommandCompletion(code, _) =>
      var next := NextCommand(c, s);
      c.(commandsAnswered := c.commandsAnswered + 1,
         endpoint := if code == 1 && next == ConfigureEndpoint then Some(FRESH_CONSUMER)
                     else if code == 1 && next == DisableSlot then None
                     else c.endpoint)
    case TransferEvent(_, trb) =>
      (match trb
       case OnEp0(_) => c.(controlsAnswered := c.controlsAnswered + 1)
       case OnInterrupt(_) =>
         if c.endpoint.Some? then c.(endpoint := Some(Fetch(s.intr.trbs, c.endpoint.value).1)) else c
       case Elsewhere => c)
    case _ => c
  }

  // ----- At most one request is outstanding, and its kind is known -----

  ghost predicate CommandsMatch(c: Controller, s: State) {
    && c.commandsAnswered <= s.cmdEnqueue <= MAX_COMMANDS < |s.commands|
    && s.cmdEnqueue - c.commandsAnswered == (if s.pending == NoCommand then 0 else 1)
    && NextCommand(c, s) == s.pending
  }

  ghost predicate ControlsMatch(c: Controller, s: State) {
    && c.controlsAnswered <= Controls(s.issued) <= c.controlsAnswered + 1
    && (c.controlsAnswered < Controls(s.issued) ==> s.ep0Wait.Some? && InControlTransfer(s.enumState))
  }

  /** The keyboard is being listened to: the controller will find exactly the TRB that the driver waits for. */
  ghost predicate Listening(s: State, at: Consumer) {
    && s.intrWait.Some? && at.dequeue <= LINK_SLOT
    && s.intrWait.value <= LINK_SLOT && |s.intr.trbs| == EP_RING_SIZE
    && Between(s.intr, at, [s.intr.trbs[s.intrWait.value]])
    && s.intrWait.value == FollowLink(s.intr.trbs, at).dequeue
    && AsksForReport(s.intr.trbs[s.intrWait.value], s.endpoint.maxPacket)
  }

  /** A Normal TRB that has a report of at most `length` bytes written to the report
      buffer, and an event sent for it (section 6.4.1.1 of xHCI 1.2). */
  predicate AsksForReport(t: Trb, length: nat) {
    t.parameter == KeyboardReport && t.status == length && t.control == 1 * 0x400 + 0x20
  }

  /** The controller finds nothing on the ring, and nothing will be put there. */
  ghost predicate Deaf(s: State, at: Consumer) {
    Between(s.intr, at, [])
  }

  ghost predicate ReportsMatch(c: Controller, s: State) {
    && OnRing(c)
    && (c.endpoint.Some? <==> s.enumState == Ready)
    && (s.pending == ConfigureEndpoint ==> Between(s.intr, FRESH_CONSUMER, []))
    && (s.enumState == Ready ==> Listening(s, c.endpoint.value) || Deaf(s, c.endpoint.value))
  }

  ghost predicate Match(c: Controller, s: State) {
    Inv(s) && CommandsMatch(c, s) && ControlsMatch(c, s) && ReportsMatch(c, s)
  }

  lemma AtMostOneOutstanding(c: Controller, s: State)
    requires Match(c, s)
    ensures (s.cmdEnqueue - c.commandsAnswered) + (Controls(s.issued) - c.controlsAnswered) <= 1
  {
  }

  /** When a completion arrives, `pending` is the kind of the command that it
      answers, so nothing is lost by not looking at the TRB it names. */
  lemma CompletionIsAttributed(c: Controller, s: State, e: Event)
    requires Match(c, s) && e.CommandCompletion? && Allowed(c, s, e)
    ensures s.pending != NoCommand && s.pending == CommandIn(s.commands[c.commandsAnswered].control)
  {
  }

  // ----- Every allowed event keeps the match -----

  lemma TransferFindsNoCommand(c: Controller, s: State, e: Event)
    requires Match(c, s) && Allowed(c, s, e) && e.TransferEvent?
    ensures s.pending == NoCommand
  {
  }

  lemma OtherEventsKeepPending(s: State, e: Event, i: Inputs)
    requires ShapeInv(s) && (e.PortStatusChange? || e.OtherEvent?)
    ensures var s' := Handled(s, e, i);
            && (if s'.cmdEnqueue == s.cmdEnqueue then s'.pending == s.pending else s.pending == NoCommand)
            && s'.ep0Wait == s.ep0Wait && (InControlTransfer(s.enumState) ==> s'.enumState == s.enumState)
            && s'.intr == s.intr && s'.intrWait == s.intrWait && s'.hid == s.hid && s'.endpoint == s.endpoint
            && (s'.enumState == Ready <==> s.enumState == Ready)
            && (s'.issued != s.issued ==> s'.issued != [] && s'.issued[|s'.issued| - 1].Command?)
  {
  }

  lemma CommandsStep(c: Controller, s: State, e: Event, i: Inputs)
    requires Match(c, s) && Allowed(c, s, e)
    ensures CommandsMatch(After(c, s, e), Handled(s, e, i))
  {
    var s' := Handled(s, e, i);
    HandledKeepsShape(s, e, i);
    if e.TransferEvent? { TransferFindsNoCommand(c, s, e); }
    if e.PortStatusChange? || e.OtherEvent? { OtherEventsKeepPending(s, e, i); }
    WordRoundTrip(s'.pending, s'.slot);
  }

  lemma ControlsStep(c: Controller, s: State, e: Event, i: Inputs)
    requires Match(c, s) && Allowed(c, s, e)
    ensures ControlsMatch(After(c, s, e), Handled(s, e, i))
  {
    var s' := Handled(s, e, i);
    HandledKeepsShape(s, e, i);
    if !Quiet(s, s') {
      LogGrows(s.issued, s'.issued[|s'.issued| - 1]);
    }
    if e.PortStatusChange? || e.OtherEvent? {
      OtherEventsKeepPending(s, e, i);
    } else if e.TransferEvent? && e.trb.OnInterrupt? {
      ReadyStays(s, e, i);
    }
  }

  /** Only the completion of Configure Endpoint makes the keyboard ready. */
  lemma NotReadyStays(s: State, e: Event, i: Inputs)
    requires ShapeInv(s) && s.enumState != Ready
    requires !(e.CommandCompletion? && e.code == SUCCESS && s.pending == ConfigureEndpoint)
    ensures Handled(s, e, i).enumState != Ready
  {
    HandledKeepsShape(s, e, i);
    if s.pending == ConfigureEndpoint {
      assert s.enumState == ConfigureEndpointSent;
    }
  }

  lemma QueueingListens(s: State, at: Consumer)
    requires Sized(s) && Between(s.intr, at, [])
    ensures Listening(WithReportQueued(s), at)
  {
  }

  /** The ready keyboard and one report event of the controller: a good code hands
      over the report and listens again; any other leaves the keyboard deaf. */
  lemma ReportEvent(c: Controller, s: State, code: byte, slot: nat, i: Inputs)
    requires Match(c, s) && Allowed(c, s, TransferEvent(code, OnInterrupt(slot)))
    ensures var e := TransferEvent(code, OnInterrupt(slot));
            var s', c' := Handled(s, e, i), After(c, s, e);
            && Listening(s, c.endpoint.value)
            && s.intrWait == Some(slot)
            && c'.endpoint.Some? && OnRing(c')
            && (if code == 1 || code == 13 then
                  Listening(s', c'.endpoint.value) && s'.hid == Hid.Fed(s.hid, i.report)
                else Deaf(s', c'.endpoint.value) && s' == s)
  {
    ReportIsAwaited(c, s, code, slot);
    var at := After(c, s, TransferEvent(code, OnInterrupt(slot))).endpoint.value;
    if TransferOk(code) { GoodReport(s, code, at, i); } else { BadReport(s, code, i); }
  }

  /** A report event is for the TRB that the driver waits for, and the controller has taken it. */
  lemma ReportIsAwaited(c: Controller, s: State, code: byte, slot: nat)
    requires Match(c, s) && Allowed(c, s, TransferEvent(code, OnInterrupt(slot)))
    ensures c.endpoint.Some? && Listening(s, c.endpoint.value) && s.intrWait == Some(slot)
    ensures s.ep0Wait.None? && !InControlTransfer(s.enumState)
    ensures var c' := After(c, s, TransferEvent(code, OnInterrupt(slot)));
            c'.endpoint.Some? && OnRing(c') && Deaf(s, c'.endpoint.value)
  {
    DeafFindsNothing(s, c.endpoint.value);
    ReportTaken(s, c.endpoint.value);
  }

  lemma BadReport(s: State, code: byte, i: Inputs)
    requires Sized(s) && s.intrWait.Some? && !InControlTransfer(s.enumState) && !TransferOk(code)
    ensures Handled(s, TransferEvent(code, OnInterrupt(s.intrWait.value)), i) == s
  {
  }

  lemma GoodReport(s: State, code: byte, at: Consumer, i: Inputs)
    requires Sized(s) && s.ep0Wait.None? && s.intrWait.Some? && TransferOk(code) && Deaf(s, at)
    ensures var s' := Handled(s, TransferEvent(code, OnInterrupt(s.intrWait.value)), i);
            Listening(s', at) && s'.hid == Hid.Fed(s.hid, i.report)
  {
    QueueingListens(s.(intrWait := None, hid := Hid.Fed(s.hid, i.report)), at);
  }

  lemma DeafFindsNothing(s: State, at: Consumer)
    requires Sized(s)
    ensures Deaf(s, at) ==> Fetch(s.intr.trbs, at).0.None?
  {
  }

  /** The controller takes the awaited TRB and leaves the ring empty. */
  lemma ReportTaken(s: State, at: Consumer)
    requires Listening(s, at)
    ensures var (got, at') := Fetch(s.intr.trbs, at);
            got.Some? && Deaf(s, at')
  {
  }

  lemma ReportEventStep(c: Controller, s: State, e: Event, i: Inputs)
    requires Match(c, s) && Allowed(c, s, e) && e.TransferEvent? && e.trb.OnInterrupt?
    ensures ReportsMatch(After(c, s, e), Handled(s, e, i))
  {
    HandledKeepsShape(s, e, i);
    ReportEvent(c, s, e.code, e.trb.slot, i);
    ReadyStays(s, e, i);
  }

  lemma ReportsStep(c: Controller, s: State, e: Event, i: Inputs)
    requires Match(c, s) && Allowed(c, s, e)
    ensures ReportsMatch(After(c, s, e), Handled(s, e, i))
  {
    if e.TransferEvent? && e.trb.OnInterrupt? {
      ReportEventStep(c, s, e, i);
    } else if e.CommandCompletion? && e.code == SUCCESS && s.pending == ConfigureEndpoint {
      BecomesListening(c, s, e, i);
    } else if s.enumState == Ready {
      ReadyElsewhere(c, s, e, i);
    } else {
      NotReadyStep(c, s, e, i);
    }
  }

  /** A ready keyboard and an event that is no report. */
  lemma ReadyElsewhere(c: Controller, s: State, e: Event, i: Inputs)
    requires Match(c, s) && Allowed(c, s, e) && s.enumState == Ready && !(e.TransferEvent? && e.trb.OnInterrupt?)
    ensures var s', c' := Handled(s, e, i), After(c, s, e);
            && c' == c && s'.intr == s.intr && s'.intrWait == s.intrWait && s'.hid == s.hid
            && s'.enumState == Ready && s'.pending == NoCommand
  {
    ReadyIsOwedNothing(c, s, e);
    OtherEventsKeepPending(s, e, i);
  }

  lemma ReadyIsOwedNothing(c: Controller, s: State, e: Event)
    requires Match(c, s) && Allowed(c, s, e) && s.enumState == Ready && !(e.TransferEvent? && e.trb.OnInterrupt?)
    ensures (e.PortStatusChange? || e.OtherEvent?) && s.pending == NoCommand
  {
  }

  lemma NotReadyStep(c: Controller, s: State, e: Event, i: Inputs)
    requires Match(c, s) && Allowed(c, s, e) && s.enumState != Ready
    requires !(e.CommandCompletion? && e.code == SUCCESS && s.pending == ConfigureEndpoint)
    ensures ReportsMatch(After(c, s, e), Handled(s, e, i))
  {
    NotReadyStays(s, e, i);
    HandledKeepsShape(s, e, i);
    FreshRingIsEmpty();
  }

  /** An event that makes the keyboard ready leaves it listening. */
  lemma BecomesListening(c: Controller, s: State, e: Event, i: Inputs)
    requires Match(c, s) && Allowed(c, s, e) && s.enumState != Ready && Handled(s, e, i).enumState == Ready
    ensures var c', s' := After(c, s, e), Handled(s, e, i);
            c'.endpoint.Some? && Listening(s', c'.endpoint.value)
  {
    if !(e.CommandCompletion? && e.code == SUCCESS && s.pending == ConfigureEndpoint) {
      NotReadyStays(s, e, i);
    }
    QueueingListens(s.(pending := NoCommand, enumState := Ready), FRESH_CONSUMER);
  }

  /** The TRB that a listening driver waits for is one that the controller may answer. */
  lemma ListeningIsAllowed(c: Controller, s: State, code: byte)
    requires Match(c, s) && c.endpoint.Some? && Listening(s, c.endpoint.value)
    ensures Allowed(c, s, TransferEvent(code, OnInterrupt(s.intrWait.value)))
  {
    ReportTaken(s, c.endpoint.value);
  }

  lemma MatchStep(c: Controller, s: State, e: Event, i: Inputs)
    requires Match(c, s) && Allowed(c, s, e)
    ensures Match(After(c, s, e), Handled(s, e, i))
  {
    HandledKeeps(s, e, i);
    CommandsStep(c, s, e, i);
    ControlsStep(c, s, e, i);
    ReportsStep(c, s, e, i);
  }

  // ----- Whole runs -----

  ghost predicate WellBehaved(c: Controller, s: State, run: seq<Occurrence>)
    requires Sized(s) && OnRing(c)
    decreases |run|
  {
    run == [] ||
    (Allowed(c, s, run[0].event)
     && WellBehaved(After(c, s, run[0].event), Handled(s, run[0].event, run[0].inputs), run[1..]))
  }

  function ControllerAfter(c: Controller, s: State, run: seq<Occurrence>): (c': Controller)
    requires Sized(s) && OnRing(c)
    ensures OnRing(c')
    decreases |run|
  {
    if run == [] then c
    else ControllerAfter(After(c, s, run[0].event), Handled(s, run[0].event, run[0].inputs), run[1..])
  }

  lemma {:induction false} MatchRun(c: Controller, s: State, run: seq<Occurrence>)
    requires Match(c, s) && WellBehaved(c, s, run)
    ensures Match(ControllerAfter(c, s, run), HandledAll(s, run))
    decreases |run|
  {
    if run != [] {
      MatchStep(c, s, run[0].event, run[0].inputs);
      MatchRun(After(c, s, run[0].event), Handled(s, run[0].event, run[0].inputs), run[1..]);
    }
  }

  lemma MatchAtStart(hid: Hid.State, endpoint: Desc.Endpoint, connected: seq<bool>, reset: PortReset)
    ensures Match(IDLE_CONTROLLER, PortChosen(Started(hid, endpoint), connected, reset))
  {
    StartKeeps(hid, endpoint, connected, reset);
    StartMatches(Started(hid, endpoint), connected, reset);
    LogGrows([], Command(ENABLE_SLOT_TYPE * 1024));
    assert [] + [Command(ENABLE_SLOT_TYPE * 1024)] == [Command(ENABLE_SLOT_TYPE * 1024)];
  }

  lemma StartMatches(s: State, connected: seq<bool>, reset: PortReset)
    requires Sized(s) && s.cmdEnqueue == 0 && s.pending == NoCommand && s.enumState == Idle && s.issued == []
    ensures var s' := PortChosen(s, connected, reset);
            && CommandsMatch(IDLE_CONTROLLER, s') && s'.enumState != Ready && s'.pending in {NoCommand, EnableSlot}
            && (s'.issued == [] || s'.issued == [Command(ENABLE_SLOT_TYPE * 1024)])
  {
    WordRoundTrip(EnableSlot, 0);
  }

  /** Command attribution: after any well-behaved run from power-up at most one
      request is outstanding, a command or a control transfer; and if the next event
      is a completion, `pending` is the kind of the oldest unanswered command. */
  lemma Attribution(hid: Hid.State, endpoint: Desc.Endpoint, connected: seq<bool>, reset: PortReset,
                    run: seq<Occurrence>, e: Event)
    requires WellBehaved(IDLE_CONTROLLER, PortChosen(Started(hid, endpoint), connected, reset), run)
    ensures var s0 := PortChosen(Started(hid, endpoint), connected, reset);
            var s, c := HandledAll(s0, run), ControllerAfter(IDLE_CONTROLLER, s0, run);
            && c.commandsAnswered <= s.cmdEnqueue && c.controlsAnswered <= Controls(s.issued)
            && (s.cmdEnqueue - c.commandsAnswered) + (Controls(s.issued) - c.controlsAnswered) <= 1
            && (e.CommandCompletion? && Allowed(c, s, e) ==>
                  NextCommand(c, s) == s.pending != NoCommand)
  {
    var s0 := PortChosen(Started(hid, endpoint), connected, reset);
    MatchAtStart(hid, endpoint, connected, reset);
    MatchRun(IDLE_CONTROLLER, s0, run);
    AtMostOneOutstanding(ControllerAfter(IDLE_CONTROLLER, s0, run), HandledAll(s0, run));
  }

  // ----- The report loop of a ready keyboard -----

  predicate ReportOk(o: Occurrence) {
    o.event.TransferEvent? && o.event.trb.OnInterrupt? ==> o.event.code == 1 || o.event.code == 13
  }

  predicate ReportsOk(run: seq<Occurrence>)
    decreases |run|
  {
    run == [] || (ReportOk(run[0]) && ReportsOk(run[1..]))
  }

  /** The reports delivered before the first report transfer that went wrong. */
  function Delivered(run: seq<Occurrence>): seq<Hid.Report>
    decreases |run|
  {
    if run == [] || !ReportOk(run[0]) then []
    else
      DeliveredNow(run[0]) + Delivered(run[1..])
  }

  function DeliveredNow(o: Occurrence): seq<Hid.Report> {
    if o.event.TransferEvent? && o.event.trb.OnInterrupt? then [o.inputs.report] else []
  }

  /** A ready and listening keyboard hands over every delivered report, in order;
      it is still listening at the end exactly when no report transfer went wrong,
      although it calls itself ready either way. */
  lemma {:induction false} ReportLoop(c: Controller, s: State, run: seq<Occurrence>)
    requires Match(c, s) && s.enumState == Ready && Listening(s, c.endpoint.value)
    requires WellBehaved(c, s, run)
    ensures var s', c' := HandledAll(s, run), ControllerAfter(c, s, run);
            && IsReady(s') && c'.endpoint.Some?
            && s'.hid == Hid.FedAll(s.hid, Delivered(run))
            && (Listening(s', c'.endpoint.value) <==> ReportsOk(run))
    decreases |run|
  {
    if run != [] {
      var e, i := run[0].event, run[0].inputs;
      var s1, c1 := Handled(s, e, i), After(c, s, e);
      MatchStep(c, s, e, i);
      ReadyStep(c, s, run[0]);
      if ReportOk(run[0]) {
        ReportLoop(c1, s1, run[1..]);
        Hid.FedAllConcat(s.hid, DeliveredNow(run[0]), Delivered(run[1..]));
      } else {
        DeafLoop(c1, s1, run[1..]);
      }
    }
  }

  lemma ReadyStep(c: Controller, s: State, o: Occurrence)
    requires Match(c, s) && s.enumState == Ready && Listening(s, c.endpoint.value) && Allowed(c, s, o.event)
    ensures var s1, c1 := Handled(s, o.event, o.inputs), After(c, s, o.event);
            && s1.enumState == Ready && c1.endpoint.Some?
            && (if ReportOk(o) then Listening(s1, c1.endpoint.value) && s1.hid == Hid.FedAll(s.hid, DeliveredNow(o))
                else Deaf(s1, c1.endpoint.value) && s1.hid == s.hid)
  {
    var e, i := o.event, o.inputs;
    assert Hid.FedAll(s.hid, []) == s.hid;
    if e.TransferEvent? && e.trb.OnInterrupt? {
      ReadyStays(s, e, i);
      ReportEvent(c, s, e.code, e.trb.slot, i);
      FedOne(s.hid, i.report);
    } else {
      ReadyElsewhere(c, s, e, i);
    }
  }

  lemma FedOne(h: Hid.State, report: Hid.Report)
    ensures Hid.FedAll(h, [report]) == Hid.Fed(h, report)
  {
    assert [report][1..] == [];
  }

  lemma DeafIsNotListening(s: State, at: Consumer)
    requires Listening(s, at)
    ensures !Deaf(s, at)
  {
  }

  /** A deaf keyboard stays deaf: no report ever arrives again. */
  lemma {:induction false} DeafLoop(c: Controller, s: State, run: seq<Occurrence>)
    requires Match(c, s) && s.enumState == Ready && Deaf(s, c.endpoint.value)
    requires WellBehaved(c, s, run)
    ensures var s', c' := HandledAll(s, run), ControllerAfter(c, s, run);
            IsReady(s') && c'.endpoint.Some? && Deaf(s', c'.endpoint.value) && !Listening(s', c'.endpoint.value)
              && s'.hid == s.hid
    decreases |run|
  {
    if run == [] {
      if Listening(s, c.endpoint.value) { DeafIsNotListening(s, c.endpoint.value); }
    } else {
      var e, i := run[0].event, run[0].inputs;
      DeafStep(c, s, e, i);
      MatchStep(c, s, e, i);
      DeafLoop(After(c, s, e), Handled(s, e, i), run[1..]);
    }
  }

  /** The controller finds no TRB that it might answer. */
  lemma DeafStep(c: Controller, s: State, e: Event, i: Inputs)
    requires Match(c, s) && s.enumState == Ready && Deaf(s, c.endpoint.value) && Allowed(c, s, e)
    ensures var s', c' := Handled(s, e, i), After(c, s, e);
            c' == c && s'.enumState == Ready && Deaf(s', c'.endpoint.value) && s'.hid == s.hid
  {
    FetchTakesOldest(s.intr, c.endpoint.value, []);
    ReadyElsewhere(c, s, e, i);
  }
}
