/** The transfer rings of the xHCI driver, and the consumer that walks them.

  A ring has 64 slots; the last one holds a Link TRB with the Toggle Cycle bit.
  A TRB's control word is kept in two parts: `control` is the word with its
  lowest bit cleared, and `cycle` is that lowest bit. */
module Rings {
  import opened Common

  const EP_RING_SIZE := 64
  const LINK_SLOT := EP_RING_SIZE - 1

  const TRB_NORMAL := 1
  const TRB_SETUP_STAGE := 2
  const TRB_DATA_STAGE := 3
  const TRB_STATUS_STAGE := 4
  const TRB_LINK := 6
  const LINK_CONTROL := TRB_LINK * 1024 + 2

  /** The fields of an eight-byte USB setup packet. */
  datatype Setup = Setup(requestType: byte, request: byte, value: nat, index: nat, length: nat)

  /** What the 64-bit parameter of a TRB holds: a setup packet, or the address
      of one of the driver's static buffers. */
  datatype Parameter =
    | Zero
    | Packet(setup: Setup)
    | InputContext
    | DeviceDescriptor
    | ConfigDescriptor
    | KeyboardReport
    | RingStart

  datatype Trb = Trb(parameter: Parameter, status: nat, control: nat, cycle: bool)

  const EMPTY_TRB := Trb(Zero, 0, 0, false)

  function TypeOf(control: nat): nat {
    control / 1024 % 64
  }

  /** A Link TRB, as the controller knows it by its type; and one that sends it back
      to the first slot and toggles its cycle state. */
  predicate IsLink(t: Trb) {
    t.control / 1024 % 64 == 6
  }

  predicate LeadsBack(t: Trb) {
    IsLink(t) && t.parameter == RingStart && t.control / 2 % 2 == 1
  }

  /** A ring as its producer sees it. */
  datatype Ring = Ring(trbs: seq<Trb>, enqueue: nat, cycle: bool)

  function ZeroedRing(): (r: Ring)
    ensures ProducerInv(r)
  {
    Ring(seq(LINK_SLOT, _ => EMPTY_TRB) + [Trb(RingStart, 0, LINK_CONTROL, true)], 0, true)
  }

  /** The producer's own discipline: the slots of the current lap carry the
      current cycle bit and the others the opposite one. */
  ghost predicate ProducerInv(r: Ring) {
    && |r.trbs| == EP_RING_SIZE
    && r.enqueue <= LINK_SLOT
    && LeadsBack(r.trbs[LINK_SLOT])
    && (forall i :: 0 <= i < r.enqueue ==> r.trbs[i].cycle == r.cycle)
    && (forall i :: r.enqueue <= i < LINK_SLOT ==> r.trbs[i].cycle != r.cycle)
    && (forall i :: 0 <= i < r.enqueue ==> !IsLink(r.trbs[i]))
  }

  /** The ring after the link has been handed over, when the last data slot is used. */
  function Wrapped(r: Ring): Ring
    requires |r.trbs| == EP_RING_SIZE
  {
    if r.enqueue >= LINK_SLOT then
      Ring(r.trbs[LINK_SLOT := r.trbs[LINK_SLOT].(control := LINK_CONTROL, cycle := r.cycle)], 0, !r.cycle)
    else
      r
  }

  function Pushed(r: Ring, parameter: Parameter, status: nat, control: nat): Ring
    requires |r.trbs| == EP_RING_SIZE
  {
    var w := Wrapped(r);
    Ring(w.trbs[w.enqueue := Trb(parameter, status, control, w.cycle)], w.enqueue + 1, w.cycle)
  }

  /** The slot that the next push writes. */
  function PushSlot(r: Ring): nat {
    if r.enqueue >= LINK_SLOT then 0 else r.enqueue
  }

  /** A ring in memory with its producer's position. */
  class TransferRing {
    const trbs: array<Trb>
    var enqueue: nat
    var cycle: bool

    ghost predicate Valid()
      reads this
    {
      trbs.Length == EP_RING_SIZE
    }

    ghost function Abs(): Ring
      reads this, trbs
    {
      Ring(trbs[..], enqueue, cycle)
    }

    constructor ()
      ensures Valid() && fresh(trbs) && Abs() == ZeroedRing()
    {
      trbs := new Trb[EP_RING_SIZE](_ => EMPTY_TRB);
      enqueue, cycle := 0, true;
      new;
      trbs[LINK_SLOT] := Trb(RingStart, 0, LINK_CONTROL, true);
      assert trbs[..] == ZeroedRing().trbs;
    }

    method Zero()
      requires Valid()
      modifies this, trbs
      ensures Valid() && Abs() == ZeroedRing()
    {
      ZeroRing(trbs);
      enqueue, cycle := 0, true;
    }

    method Push(parameter: Parameter, status: nat, control: nat) returns (slot: nat)
      requires Valid()
      modifies this, trbs
      ensures Valid() && Abs() == Pushed(old(Abs()), parameter, status, control)
      ensures slot == PushSlot(old(Abs()))
    {
      if enqueue >= LINK_SLOT {
        trbs[LINK_SLOT] := trbs[LINK_SLOT].(control := LINK_CONTROL, cycle := cycle);
        enqueue, cycle := 0, !cycle;
      }
      slot := enqueue;
      trbs[slot] := Trb(parameter, status, control, cycle);
      enqueue := enqueue + 1;
    }
  }

  method ZeroRing(ring: array<Trb>)
    requires ring.Length == EP_RING_SIZE
    modifies ring
    ensures ring[..] == ZeroedRing().trbs
  {
    for i := 0 to EP_RING_SIZE
      invariant forall k :: 0 <= k < i ==> ring[k] == EMPTY_TRB
    {
      ring[i] := EMPTY_TRB;
    }
    ring[LINK_SLOT] := Trb(RingStart, 0, LINK_CONTROL, true);
    assert ring[..] == ZeroedRing().trbs;
  }

  // ----- The consumer (sections 4.9.2 and 4.11.5.1 of xHCI 1.2) -----

  /** The controller's dequeue position and its Consumer Cycle State. */
  datatype Consumer = Consumer(dequeue: nat, ccs: bool)

  const FRESH_CONSUMER := Consumer(0, true)

  /** A Link TRB that belongs to the consumer sends it to the start of the ring, and
      toggles its cycle state if its toggle bit is set. A link to anywhere else is none
      that it can follow. */
  function FollowLink(trbs: seq<Trb>, c: Consumer): Consumer
    requires c.dequeue < |trbs|
  {
    var t := trbs[c.dequeue];
    if t.cycle == c.ccs && IsLink(t) && t.parameter == RingStart then
      Consumer(0, if t.control / 2 % 2 == 1 then !c.ccs else c.ccs)
    else c
  }

  /** One attempt to take a TRB. */
  function Fetch(trbs: seq<Trb>, c: Consumer): (Option<Trb>, Consumer)
    requires c.dequeue < |trbs| == EP_RING_SIZE
  {
    var c1 := FollowLink(trbs, c);
    var t := trbs[c1.dequeue];
    if t.cycle == c1.ccs && !IsLink(t) && c1.dequeue < LINK_SLOT then
      (Some(t), Consumer(c1.dequeue + 1, c1.ccs))
    else
      (None, c1)
  }

  /** `queue` is exactly what lies between the consumer and the producer: on one
      lap, or with the producer one lap ahead, or with the consumer already past
      the link of a lap that the producer has not left yet. */
  ghost predicate Between(r: Ring, c: Consumer, queue: seq<Trb>) {
    && ProducerInv(r)
    && c.dequeue <= LINK_SLOT
    && (|| (c.ccs == r.cycle && c.dequeue <= r.enqueue && queue == r.trbs[c.dequeue..r.enqueue])
        || (c.ccs != r.cycle && r.trbs[LINK_SLOT].cycle == c.ccs && r.enqueue <= c.dequeue
            && (forall i :: c.dequeue <= i < LINK_SLOT ==> !IsLink(r.trbs[i]))
            && queue == r.trbs[c.dequeue..LINK_SLOT] + r.trbs[..r.enqueue])
        || (c.ccs != r.cycle && c.dequeue == 0 && r.enqueue == LINK_SLOT && queue == []))
  }

  /** The two sides determine what lies between them. */
  lemma BetweenIsExact(r: Ring, c: Consumer, q: seq<Trb>, q': seq<Trb>)
    requires Between(r, c, q) && Between(r, c, q')
    ensures q == q'
  {
  }

  lemma FreshRingIsEmpty()
    ensures Between(ZeroedRing(), FRESH_CONSUMER, [])
  {
  }

  /** A push appends to what the consumer will read exactly when fewer than 63
      TRBs were outstanding. */
  lemma PushAppends(r: Ring, c: Consumer, queue: seq<Trb>, parameter: Parameter, status: nat, control: nat)
    requires Between(r, c, queue)
    requires TypeOf(control) != 6
    ensures ProducerInv(Pushed(r, parameter, status, control))
    ensures var r' := Pushed(r, parameter, status, control);
            Between(r', c, queue + [Trb(parameter, status, control, r'.cycle)]) <==> |queue| < 63
  {
  }

  /** The consumer takes the oldest outstanding TRB, or nothing when there is none. */
  lemma FetchTakesOldest(r: Ring, c: Consumer, queue: seq<Trb>)
    requires Between(r, c, queue)
    ensures var (got, c') := Fetch(r.trbs, c);
            if queue == [] then got == None && Between(r, c', [])
            else got == Some(queue[0]) && Between(r, c', queue[1..])
  {
  }

  // ----- Whole runs -----

  /** One action on a shared ring: the driver pushes, or the controller tries to fetch. */
  datatype Action = Push(parameter: Parameter, status: nat, control: nat) | Take

  /** A ring with its consumer and the history of both sides. */
  datatype Shared = Shared(ring: Ring, consumer: Consumer, pushed: seq<Trb>, taken: seq<Trb>)

  const FRESH_SHARED := Shared(ZeroedRing(), FRESH_CONSUMER, [], [])

  predicate Usable(s: Shared) {
    |s.ring.trbs| == EP_RING_SIZE && s.consumer.dequeue < EP_RING_SIZE && s.ring.enqueue <= LINK_SLOT
  }

  /** The action respects the bound: no push with 63 TRBs outstanding, and no Link TRB pushed. */
  predicate Allowed(s: Shared, a: Action) {
    a.Push? ==> |s.pushed| - |s.taken| < 63 && TypeOf(a.control) != 6
  }

  function Act(s: Shared, a: Action): (s': Shared)
    requires Usable(s)
    ensures Usable(s')
  {
    match a
    case Push(parameter, status, control) =>
      var r' := Pushed(s.ring, parameter, status, control);
      s.(ring := r', pushed := s.pushed + [Trb(parameter, status, control, r'.cycle)])
    case Take =>
      var (got, c') := Fetch(s.ring.trbs, s.consumer);
      s.(consumer := c', taken := if got.Some? then s.taken + [got.value] else s.taken)
  }

  function Run(s: Shared, actions: seq<Action>): (s': Shared)
    requires Usable(s)
    ensures Usable(s')
    decreases |actions|
  {
    if actions == [] then s else Run(Act(s, actions[0]), actions[1..])
  }

  ghost predicate RunAllowed(s: Shared, actions: seq<Action>)
    requires Usable(s)
    decreases |actions|
  {
    actions == [] || (Allowed(s, actions[0]) && RunAllowed(Act(s, actions[0]), actions[1..]))
  }

  ghost predicate Fifo(s: Shared) {
    && |s.taken| <= |s.pushed|
    && s.taken == s.pushed[..|s.taken|]
    && Between(s.ring, s.consumer, s.pushed[|s.taken|..])
  }

  lemma PushKeepsFifo(s: Shared, a: Action)
    requires Usable(s) && Fifo(s) && Allowed(s, a) && a.Push?
    ensures Fifo(Act(s, a))
  {
    var queue, s', t := s.pushed[|s.taken|..], Act(s, a), Trb(a.parameter, a.status, a.control, Act(s, a).ring.cycle);
    PushAppends(s.ring, s.consumer, queue, a.parameter, a.status, a.control);
    assert s'.pushed[|s.taken|..] == queue + [t];
  }

  lemma TakeKeepsFifo(s: Shared)
    requires Usable(s) && Fifo(s)
    ensures Fifo(Act(s, Take))
  {
    var queue := s.pushed[|s.taken|..];
    FetchTakesOldest(s.ring, s.consumer, queue);
    if queue != [] {
      assert s.pushed[..|s.taken| + 1] == s.taken + [queue[0]];
      assert s.pushed[|s.taken| + 1..] == queue[1..];
    }
  }

  lemma ActKeepsFifo(s: Shared, a: Action)
    requires Usable(s) && Fifo(s) && Allowed(s, a)
    ensures Fifo(Act(s, a))
  {
    match a
    case Push(_, _, _) => PushKeepsFifo(s, a);
    case Take => TakeKeepsFifo(s);
  }

  /** Over any number of laps the consumer reads exactly the pushed TRBs, in
      order and once each. */
  lemma {:induction false} RingIsFifo(s: Shared, actions: seq<Action>)
    requires Usable(s) && Fifo(s) && RunAllowed(s, actions)
    ensures Fifo(Run(s, actions))
    decreases |actions|
  {
    if actions != [] {
      ActKeepsFifo(s, actions[0]);
      RingIsFifo(Act(s, actions[0]), actions[1..]);
    }
  }

  lemma RunFromFresh(actions: seq<Action>)
    requires RunAllowed(FRESH_SHARED, actions)
    ensures var s := Run(FRESH_SHARED, actions);
            s.taken <= s.pushed && Between(s.ring, s.consumer, s.pushed[|s.taken|..])
  {
    FreshRingIsEmpty();
    RingIsFifo(FRESH_SHARED, actions);
  }
}
