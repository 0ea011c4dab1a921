/** The event ring (section 4.9.4 of xHCI 1.2): the controller produces, the
  driver consumes. There is no link; both sides wrap after 256 slots and toggle
  their own cycle state. */
module EventRing {
  import opened Common

  const EVENT_RING_SIZE := 256

  datatype Slot<+E> = Slot(event: E, cycle: bool)

  /** A position on the ring with the cycle state of the side that owns it. */
  datatype Cursor = Cursor(index: nat, cycle: bool)

  const START := Cursor(0, true)

  predicate InRange(c: Cursor) {
    c.index < EVENT_RING_SIZE
  }

  function Next(c: Cursor): Cursor {
    if c.index + 1 >= EVENT_RING_SIZE then Cursor(0, !c.cycle) else Cursor(c.index + 1, c.cycle)
  }

  function Events<E>(slots: seq<Slot<E>>): (r: seq<E>)
    ensures |r| == |slots|
    ensures forall i :: 0 <= i < |slots| ==> r[i] == slots[i].event
  {
    seq(|slots|, i requires 0 <= i < |slots| => slots[i].event)
  }

  /** The controller writes one event with its own cycle state. */
  function Written<E>(slots: seq<Slot<E>>, p: Cursor, e: E): seq<Slot<E>>
    requires |slots| == EVENT_RING_SIZE && InRange(p)
  {
    slots[p.index := Slot(e, p.cycle)]
  }

  /** `queue` is what the controller has written and the driver has not taken. */
  ghost predicate Unconsumed<E>(slots: seq<Slot<E>>, p: Cursor, c: Cursor, queue: seq<E>) {
    && |slots| == EVENT_RING_SIZE && InRange(p) && InRange(c)
    && (forall i :: 0 <= i < p.index ==> slots[i].cycle == p.cycle)
    && (forall i :: p.index <= i < EVENT_RING_SIZE ==> slots[i].cycle != p.cycle)
    && if c.cycle == p.cycle
       then c.index <= p.index && queue == Events(slots[c.index..p.index])
       else p.index <= c.index && queue == Events(slots[c.index..] + slots[..p.index])
  }

  lemma FreshRingIsEmpty<E>(slots: seq<Slot<E>>)
    requires |slots| == EVENT_RING_SIZE
    requires forall i :: 0 <= i < EVENT_RING_SIZE ==> !slots[i].cycle
    ensures Unconsumed(slots, START, START, [])
  {
  }

  /** A write is delivered exactly when the ring was not full. */
  lemma WriteAppends<E>(slots: seq<Slot<E>>, p: Cursor, c: Cursor, queue: seq<E>, e: E)
    requires Unconsumed(slots, p, c, queue)
    ensures Unconsumed(Written(slots, p, e), Next(p), c, queue + [e]) <==> |queue| < 256
  {
  }

  /** The driver sees its own cycle bit exactly when something is waiting; the
      oldest event is then under its index, and stepping past it removes it. */
  lemma ConsumerSeesOldest<E>(slots: seq<Slot<E>>, p: Cursor, c: Cursor, queue: seq<E>)
    requires Unconsumed(slots, p, c, queue)
    ensures slots[c.index].cycle == c.cycle <==> queue != []
    ensures queue != [] ==> slots[c.index].event == queue[0] && Unconsumed(slots, p, Next(c), queue[1..])
  {
  }

  // ----- Whole runs -----

  /** The controller writes an event, or the driver polls one step. */
  datatype Action<+E> = Write(event: E) | Consume

  datatype Shared<+E> = Shared(slots: seq<Slot<E>>, producer: Cursor, consumer: Cursor, written: seq<E>,
                               consumed: seq<E>)

  predicate Usable<E>(s: Shared<E>) {
    |s.slots| == EVENT_RING_SIZE && InRange(s.producer) && InRange(s.consumer)
  }

  function Act<E>(s: Shared<E>, a: Action<E>): (s': Shared<E>)
    requires Usable(s)
    ensures Usable(s')
  {
    match a
    case Write(e) =>
      s.(slots := Written(s.slots, s.producer, e), producer := Next(s.producer), written := s.written + [e])
    case Consume =>
      var slot := s.slots[s.consumer.index];
      if slot.cycle == s.consumer.cycle then
        s.(consumer := Next(s.consumer), consumed := s.consumed + [slot.event])
      else
        s
  }

  function Run<E>(s: Shared<E>, actions: seq<Action<E>>): (s': Shared<E>)
    requires Usable(s)
    ensures Usable(s')
    decreases |actions|
  {
    if actions == [] then s else Run(Act(s, actions[0]), actions[1..])
  }

  ghost predicate NeverOverruns<E>(s: Shared<E>, actions: seq<Action<E>>)
    requires Usable(s)
    decreases |actions|
  {
    actions == [] ||
    ((actions[0].Write? ==> |s.written| - |s.consumed| < EVENT_RING_SIZE) &&
     NeverOverruns(Act(s, actions[0]), actions[1..]))
  }

  ghost predicate ExactlyOnce<E>(s: Shared<E>) {
    && s.consumed <= s.written
    && s.consumer == Cursor(|s.consumed| % EVENT_RING_SIZE, |s.consumed| / EVENT_RING_SIZE % 2 == 0)
    && Unconsumed(s.slots, s.producer, s.consumer, s.written[|s.consumed|..])
  }

  lemma WriteKeeps<E>(s: Shared<E>, e: E)
    requires Usable(s) && ExactlyOnce(s) && |s.written| - |s.consumed| < EVENT_RING_SIZE
    ensures ExactlyOnce(Act(s, Write(e)))
  {
  }

  lemma ConsumeKeeps<E>(s: Shared<E>)
    requires Usable(s) && ExactlyOnce(s)
    ensures ExactlyOnce(Act(s, Consume))
  {
    var queue := s.written[|s.consumed|..];
    ConsumerSeesOldest(s.slots, s.producer, s.consumer, queue);
    if queue != [] {
      assert s.written[|s.consumed| + 1..] == queue[1..];
    }
  }

  lemma ActKeeps<E>(s: Shared<E>, a: Action<E>)
    requires Usable(s) && ExactlyOnce(s)
    requires a.Write? ==> |s.written| - |s.consumed| < EVENT_RING_SIZE
    ensures ExactlyOnce(Act(s, a))
  {
    match a
    case Write(e) => WriteKeeps(s, e);
    case Consume => ConsumeKeeps(s);
  }

  /** Whatever the interleaving and however many laps, the events handled are
      the events written, in order and once each; the driver's cycle bit flips
      after every 256 events and at no other time. */
  lemma {:induction false} RunIsExactlyOnce<E>(s: Shared<E>, actions: seq<Action<E>>)
    requires Usable(s) && ExactlyOnce(s) && NeverOverruns(s, actions)
    ensures ExactlyOnce(Run(s, actions))
    decreases |actions|
  {
    if actions != [] {
      ActKeeps(s, actions[0]);
      RunIsExactlyOnce(Act(s, actions[0]), actions[1..]);
    }
  }

  /** The driver's side of the ring: its index, its cycle bit and the index it last told the controller. */
  class Reader<E> {
    const slots: array<Slot<E>>
    var dequeue: nat
    var cycle: bool
    var published: nat

    ghost predicate Valid()
      reads this
    {
      slots.Length == EVENT_RING_SIZE && dequeue < EVENT_RING_SIZE
    }

    ghost function At(): Cursor
      reads this
    {
      Cursor(dequeue, cycle)
    }

    constructor (nothing: E)
      ensures Valid() && fresh(slots) && At() == START && Unconsumed(slots[..], START, START, [])
    {
      slots := new Slot<E>[EVENT_RING_SIZE](_ => Slot(nothing, false));
      dequeue, cycle, published := 0, true, 0;
      new;
      FreshRingIsEmpty(slots[..]);
    }

    method Zero(nothing: E)
      requires Valid()
      modifies this, slots
      ensures Valid() && At() == START && Unconsumed(slots[..], START, START, [])
    {
      for k := 0 to EVENT_RING_SIZE
        invariant forall j :: 0 <= j < k ==> !slots[j].cycle
      {
        slots[k] := Slot(nothing, false);
      }
      dequeue, cycle := 0, true;
      FreshRingIsEmpty(slots[..]);
    }

    /** The controller's side: events go behind those not yet consumed, while there is room. */
    method Deliver(p: Cursor, ghost queue: seq<E>, events: seq<E>) returns (p': Cursor)
      requires Valid() && Unconsumed(slots[..], p, At(), queue) && |queue| + |events| <= EVENT_RING_SIZE
      modifies slots
      ensures Unconsumed(slots[..], p', At(), queue + events)
    {
      p' := p;
      for k := 0 to |events|
        invariant Unconsumed(slots[..], p', At(), queue + events[..k])
      {
        WriteAppends(slots[..], p', At(), queue + events[..k], events[k]);
        slots[p'.index] := Slot(events[k], p'.cycle);
        p' := Next(p');
        assert queue + events[..k] + [events[k]] == queue + events[..k + 1];
      }
      assert events[..|events|] == events;
    }

    method Advance()
      requires Valid()
      modifies this
      ensures Valid() && At() == Next(old(At())) && published == dequeue
    {
      dequeue := dequeue + 1;
      if dequeue >= EVENT_RING_SIZE {
        dequeue := 0;
        cycle := !cycle;
      }
      published := dequeue;
    }
  }
}
