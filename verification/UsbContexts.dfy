/** The contexts that the driver fills in for the controller (sections 6.2.2, 6.2.3
  and 6.2.5 of xHCI 1.2), as arrays of 32-bit words. */
module UsbContexts {
  import opened Common
  import Desc = Descriptors

  const INPUT_WORDS := 34 * 16
  const OUTPUT_WORDS := 33 * 16
  const SLOTS := 256
  const CONTROL_ENDPOINT := 4
  const INTERRUPT_IN_ENDPOINT := 7

  // Field units: bits 16, 20 and 27 of a word.
  const BIT_16 := 0x1_0000
  const BIT_20 := 0x10_0000
  const BIT_27 := 0x800_0000

  /** Contexts are 32 or 64 bytes long. */
  predicate ContextSize(n: nat) {
    n == 8 || n == 16
  }

  function Pow2(n: nat): nat {
    if n == 0 then 1 else 2 * Pow2(n - 1)
  }

  // ----- The polling interval -----

  /** The least exponent from `n` on whose power of two reaches the target. */
  function Exponent(target: nat, n: nat): (r: nat)
    requires n <= 15
    ensures n <= r <= 15
    decreases 15 - n
  {
    if Pow2(n) < target && n < 15 then Exponent(target, n + 1) else n
  }

  function AtLeastOne(interval: byte): nat {
    if interval == 0 then 1 else interval
  }

  /** The exponent that the controller wants: powers of two of 125 microseconds. */
  function IntervalOf(speed: nat, interval: byte): (r: int)
    ensures 0 <= r <= 15
  {
    var i := AtLeastOne(interval);
    if speed <= 3 then (if Exponent(8 * i, 0) < 3 then 3 else Exponent(8 * i, 0))
    else if i > 16 then 15
    else i - 1
  }

  /** `xhci_interrupt_interval`. */
  method InterruptInterval(speed: nat, interval: byte) returns (r: int)
    ensures r == IntervalOf(speed, interval)
  {
    var i := if interval == 0 then 1 else interval;
    if speed <= 3 {
      var microframes := i * 8;
      var value := 1;
      r := 0;
      while value < microframes && r < 15
        invariant 0 <= r <= 15 && value == Pow2(r)
        invariant Exponent(microframes, r) == Exponent(microframes, 0)
        decreases 15 - r
      {
        value := value * 2;
        r := r + 1;
      }
      if r < 3 { r := 3; }
    } else {
      if i > 16 { i := 16; }
      r := i - 1;
    }
  }

  lemma {:induction false} ExponentIsLeast(target: nat, n: nat)
    requires n <= 15 && target <= Pow2(15) && (n > 0 ==> Pow2(n - 1) < target)
    ensures var r := Exponent(target, n);
            Pow2(r) >= target && (r > 0 ==> Pow2(r - 1) < target)
    decreases 15 - n
  {
    if Pow2(n) < target && n < 15 { ExponentIsLeast(target, n + 1); }
  }

  /** For slow devices the polling period is the least power of two of microframes
      that is at least the wanted number of milliseconds; so the clamps of the code
      at 3 and at 15 never change it. Fast devices give the exponent themselves, plus
      one, from 1 to 16. */
  lemma IntervalMeaning(speed: nat, interval: byte)
    ensures var r, wanted := IntervalOf(speed, interval), if interval == 0 then 1 else interval;
            if speed <= 3 then 3 <= r <= 11 && Pow2(r - 1) < 8 * wanted <= Pow2(r)
            else r + 1 == if wanted <= 16 then wanted else 16
  {
    if speed <= 3 { SlowInterval(speed, interval); }
  }

  lemma SlowInterval(speed: nat, interval: byte)
    requires speed <= 3
    ensures var r := IntervalOf(speed, interval);
            && 3 <= r <= 11
            && Pow2(r - 1) < 8 * AtLeastOne(interval) <= Pow2(r)
  {
    var target := 8 * AtLeastOne(interval);
    PowersUpTo15();
    ExponentIsLeast(target, 0);
    var r := Exponent(target, 0);
    if r < 3 { PowGrows(r, 2); }
    if r > 11 { PowGrows(11, r - 1); }
  }

  lemma PowersUpTo15()
    ensures Pow2(2) == 4 && Pow2(11) == 2048 && Pow2(15) == 32768
  {
    assert Pow2(5) == 32;
    assert Pow2(10) == 1024;
  }

  lemma {:induction false} PowGrows(a: nat, b: nat)
    requires a <= b
    ensures Pow2(a) <= Pow2(b)
    decreases b
  {
    if a < b { PowGrows(a, b - 1); }
  }

  // ----- The words -----

  /** The word of an endpoint context at offset `k`. */
  function EndpointWord(interval: nat, kind: nat, packet: nat, ring: nat, average: nat, k: int): nat {
    if k == 0 then interval * BIT_16
    else if k == 1 then 6 + kind * 8 + packet * BIT_16
    else if k == 2 then ring + 1
    else if k == 4 then average
    else 0
  }

  /** The word of an input context at `k`: contexts of `n` words, one behind the other;
      the add flags, the slot context and one endpoint context at index `dci`. */
  function InputWord(n: nat, flags: nat, speed: nat, port: nat, dci: nat, endpoint: int -> nat, k: int): nat {
    if k == 1 then flags
    else if k == n then speed * BIT_20 + dci * BIT_27
    else if k == n + 1 then port * BIT_16
    else if (dci + 1) * n <= k < (dci + 1) * n + 5 then endpoint(k - (dci + 1) * n)
    else 0
  }

  function InputWords(n: nat, flags: nat, speed: nat, port: nat, dci: nat, endpoint: int -> nat): (w: seq<nat>)
    ensures |w| == 544
    ensures forall k :: 0 <= k < INPUT_WORDS ==> w[k] == InputWord(n, flags, speed, port, dci, endpoint, k)
  {
    seq(INPUT_WORDS, k requires 0 <= k < INPUT_WORDS => InputWord(n, flags, speed, port, dci, endpoint, k))
  }

  /** The input context of Address Device: endpoint 0 has index 1. */
  function AddressWords(n: nat, speed: nat, port: nat, packet: nat, ring: nat): seq<nat> {
    InputWords(n, 3, speed, port, 1, k => EndpointWord(0, CONTROL_ENDPOINT, packet, ring, 8, k))
  }

  /** The input context of Configure Endpoint: the endpoint's own context stands at its index. */
  function KeyboardWords(n: nat, speed: nat, port: nat, e: Desc.Endpoint, ring: nat): seq<nat> {
    InputWords(n, 1 + Pow2(e.dci), speed, port, e.dci,
               k => EndpointWord(IntervalOf(speed, e.interval), INTERRUPT_IN_ENDPOINT, e.maxPacket, ring,
                                 e.maxPacket, k))
  }

  // ----- What the controller reads from them -----

  datatype SlotContext = SlotContext(speed: nat, entries: nat, port: nat)

  datatype EndpointContext =
    EndpointContext(interval: nat, errors: nat, kind: nat, packet: nat, ring: nat, cycle: bool, average: nat)

  function SlotAt(w: seq<nat>, at: nat): SlotContext
    requires at + 2 <= |w|
  {
    SlotContext(w[at] / 0x10_0000 % 16, w[at] / 0x800_0000 % 32, w[at + 1] / 0x1_0000 % 256)
  }

  function EndpointAt(w: seq<nat>, at: nat): EndpointContext
    requires at + 5 <= |w|
  {
    EndpointContext(w[at] / 0x1_0000 % 256, w[at + 1] / 2 % 4, w[at + 1] / 8 % 8, w[at + 1] / 0x1_0000,
                    w[at + 2] / 16 * 16 + w[at + 3] * 0x1_0000_0000, w[at + 2] % 2 == 1, w[at + 4] % 0x1_0000)
  }

  /** All words but the add flags, two of the slot context and five of the endpoint context are zero. */
  ghost predicate RestIsZero(w: seq<nat>, slotAt: nat, endpointAt: nat) {
    forall k :: 0 <= k < |w| && k != 1 && k != slotAt && k != slotAt + 1 && !(endpointAt <= k < endpointAt + 5) ==>
      w[k] == 0
  }

  lemma SlotFields(speed: nat, entries: nat, port: nat)
    requires speed < 16 && entries < 32 && port < 256
    ensures var w := speed * BIT_20 + entries * BIT_27;
            w / BIT_20 % 16 == speed && w / BIT_27 % 32 == entries && port * BIT_16 / BIT_16 % 256 == port
  {
    QuotientIs(speed * BIT_20 + entries * BIT_27, BIT_20, speed + entries * 128, 0);
    QuotientIs(speed + entries * 128, 16, entries * 8, speed);
    QuotientIs(speed * BIT_20 + entries * BIT_27, BIT_27, entries, speed * BIT_20);
    QuotientIs(port * BIT_16, BIT_16, port, 0);
  }

  lemma EndpointFields(interval: nat, kind: nat, packet: nat, ring: nat)
    requires interval < 256 && kind < 8 && packet < BIT_16 && ring % 16 == 0
    ensures var w := 6 + kind * 8 + packet * BIT_16;
            w % 2 == 0 && w / 2 % 4 == 3 && w / 8 % 8 == kind && w / BIT_16 == packet
    ensures (ring + 1) / 16 * 16 == ring && (ring + 1) % 2 == 1
    ensures interval * BIT_16 / BIT_16 % 256 == interval && packet % BIT_16 == packet
  {
    var w := 6 + kind * 8 + packet * BIT_16;
    QuotientIs(w, 2, 3 + kind * 4 + packet * 0x8000, 0);
    QuotientIs(3 + kind * 4 + packet * 0x8000, 4, kind + packet * 0x2000, 3);
    QuotientIs(w, 8, kind + packet * 0x2000, 6);
    QuotientIs(kind + packet * 0x2000, 8, packet * 0x400, kind);
    QuotientIs(w, BIT_16, packet, 6 + kind * 8);
    QuotientIs(ring + 1, 16, ring / 16, 1);
    QuotientIs(ring + 1, 2, ring / 2, 1);
    QuotientIs(interval * BIT_16, BIT_16, interval, 0);
  }

  /** The words of an input context, read back. */
  lemma InputMeaning(n: nat, flags: nat, speed: nat, port: nat, dci: nat,
                     interval: nat, kind: nat, packet: nat, ring: nat, average: nat)
    requires ContextSize(n) && speed < 16 && port < 256 && 1 <= dci < 32
    requires interval < 256 && kind < 8 && packet < BIT_16 && ring % 16 == 0 && average < BIT_16
    ensures var w := InputWords(n, flags, speed, port, dci,
                                k => EndpointWord(interval, kind, packet, ring, average, k));
            && (dci + 1) * n + 5 <= |w|
            && RestIsZero(w, n, (dci + 1) * n) && w[1] == flags && w[(dci + 1) * n + 1] % 2 == 0
            && SlotAt(w, n) == SlotContext(speed, dci, port)
            && EndpointAt(w, (dci + 1) * n) == EndpointContext(interval, 3, kind, packet, ring, true, average)
  {
    SlotFields(speed, dci, port);
    EndpointFields(interval, kind, packet, ring);
  }

  /** The controller reads from the words what the driver means: slot and endpoint 0
      are to be evaluated, the device is at its port with its speed, and endpoint 0
      is a control endpoint whose ring starts at its first slot with cycle 1. */
  lemma AddressMeaning(n: nat, speed: nat, port: nat, packet: nat, ring: nat)
    requires ContextSize(n) && speed < 16 && port < 256 && packet < BIT_16 && ring % 16 == 0
    ensures var w := AddressWords(n, speed, port, packet, ring);
            && RestIsZero(w, n, 2 * n) && w[1] == 3 && w[2 * n + 1] % 2 == 0
            && SlotAt(w, n) == SlotContext(speed, 1, port)
            && EndpointAt(w, 2 * n) == EndpointContext(0, 3, 4, packet, ring, true, 8)
  {
    InputMeaning(n, 3, speed, port, 1, 0, CONTROL_ENDPOINT, packet, ring, 8);
  }

  /** The same for the keyboard's endpoint: it is added, the slot now reaches up to
      it, and its context stands where the controller looks for it. */
  lemma KeyboardMeaning(n: nat, speed: nat, port: nat, e: Desc.Endpoint, ring: nat)
    requires ContextSize(n) && speed < 16 && port < 256 && 1 <= e.dci && ring % 16 == 0
    ensures var w := KeyboardWords(n, speed, port, e, ring);
            && (e.dci + 1) * n + 5 <= |w|
            && RestIsZero(w, n, (e.dci + 1) * n) && w[1] == 1 + Pow2(e.dci) && w[(e.dci + 1) * n + 1] % 2 == 0
            && SlotAt(w, n) == SlotContext(speed, e.dci, port)
            && EndpointAt(w, (e.dci + 1) * n)
               == EndpointContext(IntervalOf(speed, e.interval), 3, 7, e.maxPacket, ring, true, e.maxPacket)
  {
    InputMeaning(n, 1 + Pow2(e.dci), speed, port, e.dci, IntervalOf(speed, e.interval),
                 INTERRUPT_IN_ENDPOINT, e.maxPacket, ring, e.maxPacket);
  }

  // ----- The arrays -----

  class Contexts {
    const words: nat
    const input: array<nat>
    const output: array<nat>
    const slots: array<nat>
    const ep0At: nat
    const intrAt: nat
    const outputAt: nat

    ghost predicate Valid() {
      && ContextSize(words)
      && input.Length == 544 && output.Length == 528 && slots.Length == 256
      && input != output && input != slots && output != slots
    }

    constructor (words: nat, ep0At: nat, intrAt: nat, outputAt: nat)
      requires ContextSize(words)
      ensures Valid() && fresh(input) && fresh(output) && fresh(slots)
      ensures this.words == words && this.ep0At == ep0At && this.intrAt == intrAt && this.outputAt == outputAt
    {
      this.words, this.ep0At, this.intrAt, this.outputAt := words, ep0At, intrAt, outputAt;
      input := new nat[INPUT_WORDS](_ => 0);
      output := new nat[OUTPUT_WORDS](_ => 0);
      slots := new nat[SLOTS](_ => 0);
    }

    static method ZeroWords(a: array<nat>)
      modifies a
      ensures forall k :: 0 <= k < a.Length ==> a[k] == 0
    {
      for k := 0 to a.Length
        invariant forall j :: 0 <= j < k ==> a[j] == 0
      {
        a[k] := 0;
      }
    }

    ghost predicate Zeroed()
      requires Valid()
      reads input, output, slots
    {
      && (forall k :: 0 <= k < INPUT_WORDS ==> input[k] == 0)
      && (forall k :: 0 <= k < OUTPUT_WORDS ==> output[k] == 0)
      && (forall k :: 0 <= k < SLOTS ==> slots[k] == 0)
    }

    method Zero()
      requires Valid()
      modifies input, output, slots
      ensures Zeroed()
    {
      ZeroWords(slots);
      ZeroWords(input);
      ZeroWords(output);
    }

    /** The control, slot and endpoint words of an input context that was zero. */
    method Fill(flags: nat, speed: nat, port: nat, dci: nat, e0: nat, e1: nat, e2: nat, e4: nat)
      requires Valid() && dci < 32 && forall k :: 0 <= k < INPUT_WORDS ==> input[k] == 0
      modifies input
      ensures 1 <= dci ==> forall k :: 0 <= k < INPUT_WORDS ==>
                input[k] == if k == 1 then flags
                            else if k == words then speed * BIT_20 + dci * BIT_27
                            else if k == words + 1 then port * BIT_16
                            else if k == (dci + 1) * words then e0
                            else if k == (dci + 1) * words + 1 then e1
                            else if k == (dci + 1) * words + 2 then e2
                            else if k == (dci + 1) * words + 4 then e4
                            else 0
    {
      var at := (dci + 1) * words;
      input[1] := flags;
      input[words], input[words + 1] := speed * BIT_20 + dci * BIT_27, port * BIT_16;
      input[at], input[at + 1], input[at + 2], input[at + 4] := e0, e1, e2, e4;
    }

    /** The output context is what the controller will write; it is cleared for a new slot only. */
    method ForAddress(slot: byte, speed: nat, port: nat, packet: nat, clear: bool)
      requires Valid()
      modifies input, output, slots
      ensures input[..] == AddressWords(words, speed, port, packet, ep0At)
      ensures slots[..] == old(slots[..])[slot := outputAt]
      ensures forall k :: 0 <= k < OUTPUT_WORDS ==> output[k] == if clear then 0 else old(output[k])
    {
      ZeroWords(input);
      if clear { ZeroWords(output); }
      slots[slot] := outputAt;
      Fill(3, speed, port, 1, 0, 6 + CONTROL_ENDPOINT * 8 + packet * BIT_16, ep0At + 1, 8);
    }

    method ForKeyboard(speed: nat, port: nat, e: Desc.Endpoint)
      requires Valid()
      modifies input
      ensures 1 <= e.dci ==> input[..] == KeyboardWords(words, speed, port, e, intrAt)
    {
      ZeroWords(input);
      var interval := InterruptInterval(speed, e.interval);
      Fill(1 + Pow2(e.dci), speed, port, e.dci, interval * BIT_16,
           6 + INTERRUPT_IN_ENDPOINT * 8 + e.maxPacket * BIT_16, intrAt + 1, e.maxPacket);
    }
  }
}
