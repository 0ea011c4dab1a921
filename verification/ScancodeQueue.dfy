/** The scancode queue of the PS/2 path: filled by the keyboard interrupt, emptied
  by the main loop, with interrupts allowed between any two steps of a dequeue. */
module ScancodeQueue {
  import opened Common

  const SLOTS := 64
  const CAPACITY := SLOTS - 1

  /** What of `bytes` a queue holding `stored` bytes takes before it is full. */
  function Fit(stored: nat, bytes: seq<byte>): seq<byte>
    requires stored <= CAPACITY
  {
    if stored + |bytes| <= 63 then bytes else bytes[..63 - stored]
  }

  /** The contents after `bytes` arrive. */
  function Stored(base: seq<byte>, bytes: seq<byte>): (r: seq<byte>)
    requires |base| <= CAPACITY
    ensures |r| <= CAPACITY && base <= r
  {
    base + Fit(|base|, bytes)
  }

  /** Everything that arrives in the first `n` gaps. */
  function Arrived(irqs: seq<seq<byte>>, n: nat): seq<byte>
    requires n <= |irqs|
  {
    if n == 0 then [] else Arrived(irqs, n - 1) + irqs[n - 1]
  }

  lemma StoredConcat(base: seq<byte>, a: seq<byte>, b: seq<byte>)
    requires |base| <= CAPACITY
    ensures Stored(base, a + b) == Stored(Stored(base, a), b)
  {
  }

  /** The bytes between head and tail of a ring in memory. */
  function View(slots: seq<byte>, head: nat, tail: nat): (r: seq<byte>)
    requires |slots| == SLOTS && head < SLOTS && tail < SLOTS
    ensures |r| <= CAPACITY && (r != [] ==> r[0] == slots[head]) && (r == [] <==> head == tail)
  {
    if head <= tail then slots[head..tail] else slots[head..] + slots[..tail]
  }

  /** Writing behind the tail and moving it appends one byte, unless the queue was full. */
  lemma ViewAppends(slots: seq<byte>, head: nat, tail: nat, sc: byte)
    requires |slots| == SLOTS && head < SLOTS && tail < SLOTS
    ensures (tail + 1) % SLOTS == head <==> |View(slots, head, tail)| == CAPACITY
    ensures (tail + 1) % SLOTS != head ==>
              View(slots[tail := sc], head, (tail + 1) % SLOTS) == View(slots, head, tail) + [sc]
  {
    if (tail + 1) % SLOTS != head {
      var slots', next := slots[tail := sc], (tail + 1) % SLOTS;
      if head <= tail && next != 0 {
        assert slots'[head..next] == slots[head..tail] + [sc];
      } else if head <= tail {
        assert slots'[head..] + slots'[..0] == slots[head..tail] + [sc];
      } else {
        assert slots'[..next] == slots[..tail] + [sc];
        assert slots'[head..] == slots[head..];
      }
    }
  }

  class Queue {
    const slots: array<byte>
    var head: nat
    var tail: nat

    /** Every byte that was stored, and every byte that was taken, since the queue was made. */
    ghost var accepted: seq<byte>
    ghost var delivered: seq<byte>

    ghost predicate Valid()
      reads this, slots
    {
      && slots.Length == SLOTS && head < SLOTS && tail < SLOTS
      && accepted == delivered + Contents()
    }

    ghost function Contents(): (r: seq<byte>)
      requires slots.Length == SLOTS && head < SLOTS && tail < SLOTS
      reads this, slots
      ensures |r| <= CAPACITY && (r != [] ==> r[0] == slots[head]) && (r == [] <==> head == tail)
    {
      View(slots[..], head, tail)
    }

    constructor ()
      ensures Valid() && fresh(slots) && Contents() == [] && accepted == []
    {
      slots := new byte[SLOTS](_ => 0);
      head, tail, accepted, delivered := 0, 0, [], [];
    }

    /** The PS/2 switch forgets what is stored: the head goes back, then the tail. What
        an interrupt stores between the two is forgotten as well. */
    method Clear(between: seq<byte>)
      requires Valid()
      modifies this, slots
      ensures Valid() && Contents() == [] && delivered == old(delivered)
    {
      head := 0;
      accepted := delivered + Contents();
      Interrupt(between);
      tail := 0;
      accepted := delivered;
    }

    method Count() returns (n: nat)
      requires Valid()
      ensures n == |Contents()|
    {
      if tail >= head { n := tail - head; } else { n := SLOTS - head + tail; }
    }

    method Enqueue(sc: byte)
      requires Valid()
      modifies this`tail, this`accepted, slots
      ensures Valid() && Contents() == Stored(old(Contents()), [sc])
      ensures old(accepted) <= accepted
    {
      var next := (tail + 1) % SLOTS;
      ghost var before := Contents();
      ViewAppends(slots[..], head, tail, sc);
      if next == head { return; }
      slots[tail] := sc;
      tail := next;
      accepted := accepted + [sc];
      assert Contents() == before + [sc];
    }

    /** One keyboard interrupt, or several in a row: the bytes the controller holds are stored in order. */
    method Interrupt(bytes: seq<byte>)
      requires Valid()
      modifies this`tail, this`accepted, slots
      ensures Valid() && Contents() == Stored(old(Contents()), bytes)
      ensures old(accepted) <= accepted
    {
      ghost var base := Contents();
      for k := 0 to |bytes|
        invariant Valid() && Contents() == Stored(base, bytes[..k])
        invariant old(accepted) <= accepted
      {
        StoredConcat(base, bytes[..k], [bytes[k]]);
        assert bytes[..k + 1] == bytes[..k] + [bytes[k]];
        Enqueue(bytes[k]);
      }
      assert bytes[..|bytes|] == bytes;
    }

    /** Interrupts between two steps of a dequeue: the queue grows, its oldest byte stays where it is. */
    method Between(ghost base: seq<byte>, irqs: seq<seq<byte>>, gap: nat)
      requires Valid() && |base| <= CAPACITY && gap < |irqs| && Contents() == Stored(base, Arrived(irqs, gap))
      modifies this`tail, this`accepted, slots
      ensures Valid() && Contents() == Stored(base, Arrived(irqs, gap + 1))
      ensures old(Contents()) != [] ==> Contents() != [] && Contents()[0] == old(Contents())[0]
    {
      StoredConcat(base, Arrived(irqs, gap), irqs[gap]);
      Interrupt(irqs[gap]);
    }

    /** A dequeue with interrupts before each of its memory accesses: `irqs[k]` are
        the bytes that arrive before access `k`. Both indices are read again wherever
        the code reads them again. It finds nothing exactly when nothing was stored
        when it read the tail; otherwise it takes the oldest byte, and what arrived
        meanwhile was stored or dropped as if the byte had still been there. */
    method Dequeue(irqs: seq<seq<byte>>) returns (ok: bool, sc: byte)
      requires Valid() && |irqs| == 6
      modifies this, slots
      ensures Valid()
      ensures ok <==> old(Contents()) != [] || Arrived(irqs, 2) != []
      ensures ok ==> var all := Stored(old(Contents()), Arrived(irqs, 6));
                     all != [] && sc == all[0] && Contents() == all[1..] && delivered == old(delivered) + [sc]
      ensures !ok ==> Contents() == [] && delivered == old(delivered)
    {
      ghost var base := Contents();
      Between(base, irqs, 0);
      var first := head;
      Between(base, irqs, 1);
      if first == tail { return false, 0; }
      sc := TakeOldest(base, irqs);
      ok := true;
    }

    /** The rest of a dequeue that has found something. */
    method TakeOldest(ghost base: seq<byte>, irqs: seq<seq<byte>>) returns (sc: byte)
      requires Valid() && |irqs| == 6 && |base| <= CAPACITY && Contents() == Stored(base, Arrived(irqs, 2))
               && Contents() != []
      modifies this, slots
      ensures Valid() && delivered == old(delivered) + [sc]
      ensures Stored(base, Arrived(irqs, 6)) == [sc] + Contents()
    {
      Between(base, irqs, 2);
      var at := head;
      Between(base, irqs, 3);
      sc := slots[at];
      Between(base, irqs, 4);
      var next := (head + 1) % SLOTS;
      Between(base, irqs, 5);
      StepHead(next, sc);
    }

    /** The last step: the head moves past the byte that was read. */
    method StepHead(next: nat, ghost sc: byte)
      requires Valid() && Contents() != [] && sc == slots[head] && next == (head + 1) % SLOTS
      modifies this`head, this`delivered
      ensures Valid() && delivered == old(delivered) + [sc] && old(Contents()) == [sc] + Contents()
    {
      ghost var before := Contents();
      delivered := delivered + [sc];
      head := next;
      assert Contents() == before[1..];
      assert before == [sc] + before[1..];
      assert accepted == delivered + Contents();
    }
  }

  /** What happens to the queue from outside. */
  datatype Step = Interrupts(bytes: seq<byte>) | Take(irqs: seq<seq<byte>>)

  /** For every script of interrupts and dequeues: the bytes taken are the oldest of the bytes stored, in order. */
  method Session(q: Queue, script: seq<Step>) returns (taken: seq<byte>)
    requires q.Valid() && forall k :: 0 <= k < |script| ==> script[k].Take? ==> |script[k].irqs| == 6
    modifies q, q.slots
    ensures q.Valid() && q.delivered == old(q.delivered) + taken
    ensures q.delivered <= q.accepted && q.accepted[|q.delivered|..] == q.Contents()
  {
    taken := [];
    for k := 0 to |script|
      invariant q.Valid() && q.delivered == old(q.delivered) + taken
    {
      match script[k] {
        case Interrupts(bytes) => q.Interrupt(bytes);
        case Take(irqs) =>
          var ok, sc := q.Dequeue(irqs);
          if ok { taken := taken + [sc]; }
      }
    }
  }
}
