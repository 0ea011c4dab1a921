/** The configuration-descriptor walk (section 9.6 of USB 2.0): find the
  interrupt-IN endpoint of a boot keyboard. */
module Descriptors {
  import opened Common

  const CONFIG_BYTES := 256
  const REPORT_SIZE := 8
  const CONTEXT_BYTES := 64
  const INPUT_CONTEXT_BYTES := 34 * CONTEXT_BYTES

  type Config = c: seq<byte> | |c| == CONFIG_BYTES witness seq(CONFIG_BYTES, _ => 0)

  /** What the driver remembers of the chosen endpoint. */
  datatype Endpoint =
    Endpoint(configValue: byte, iface: byte, address: byte, dci: Dci, maxPacket: Packet, interval: byte)

  /** A device context index, and a packet size of 16 bits. */
  type Dci = n: int | 0 <= n < 32
  type Packet = n: int | 0 <= n < 0x1_0000

  function Word(low: byte, high: byte): nat {
    low + 256 * high
  }

  /** wTotalLength, cut to the size of the buffer. */
  function Total(c: Config): nat {
    var total := Word(c[2], c[3]);
    if total > CONFIG_BYTES then CONFIG_BYTES else total
  }

  // ----- The list of descriptors, without reference to the walk's flags -----

  predicate WellFormedAt(c: Config, offset: nat) {
    offset + 2 <= Total(c) && c[offset] != 0 && offset + c[offset] <= Total(c)
  }

  /** The descriptors from `offset` on, cut at the first malformed length. */
  function DescriptorsFrom(c: Config, offset: nat): (ds: seq<seq<byte>>)
    ensures forall k :: 0 <= k < |ds| ==> 1 <= |ds[k]|
    decreases CONFIG_BYTES - offset
  {
    if !WellFormedAt(c, offset) then []
    else [c[offset..offset + c[offset]]] + DescriptorsFrom(c, offset + c[offset])
  }

  predicate IsInterface(d: seq<byte>) {
    |d| >= 9 && d[1] == 4
  }

  predicate IsBootKeyboard(d: seq<byte>) {
    IsInterface(d) && d[5] == 0x03 && d[6] == 0x01 && d[7] == 0x01
  }

  predicate IsInterruptIn(d: seq<byte>) {
    |d| >= 7 && d[1] == 5 && d[2] >= 0x80 && d[3] % 4 == 3
  }

  /** `i` is the last interface descriptor before position `k`. */
  predicate Owns(ds: seq<seq<byte>>, i: int, k: int) {
    0 <= i < k <= |ds| && IsInterface(ds[i]) && forall j :: i < j < k ==> !IsInterface(ds[j])
  }

  /** Position `k` is an interrupt-IN endpoint of the boot-keyboard interface `i`. */
  predicate IsKeyboardEndpoint(ds: seq<seq<byte>>, i: int, k: int) {
    0 <= k < |ds| && IsInterruptIn(ds[k]) && Owns(ds, i, k) && IsBootKeyboard(ds[i])
  }

  /** The walk's answer when interface `i` and endpoint `k` are chosen. */
  function Chosen(c: Config, ds: seq<seq<byte>>, i: int, k: int): Endpoint
    requires IsKeyboardEndpoint(ds, i, k)
  {
    Picked(Endpoint(c[5], ds[i][2], 0, 0, 0, 0), ds[k])
  }

  /** The record with the fields of the endpoint descriptor `d` filled in. */
  function Picked(e: Endpoint, d: seq<byte>): Endpoint
    requires IsInterruptIn(d)
  {
    var mps := Word(d[4], d[5]);
    e.(address := d[2], dci := d[2] % 16 * 2 + 1,
       maxPacket := if mps == 0 || mps > 8 then 8 else mps, interval := d[6])
  }

  // ----- The walk as the code makes it -----

  /** The walk from `offset`, with the flags it carries. A one-byte descriptor has
      its type byte read from the byte that follows it. */
  function Walk(c: Config, offset: nat, boot: bool, e: Endpoint): (Endpoint, bool)
    decreases CONFIG_BYTES - offset
  {
    if !WellFormedAt(c, offset) then (e, false)
    else
      var len, kind := c[offset], c[offset + 1];
      if kind == 4 && len >= 9 then
        var boot' := c[offset + 5] == 0x03 && c[offset + 6] == 0x01 && c[offset + 7] == 0x01;
        Walk(c, offset + len, boot', if boot' then e.(iface := c[offset + 2]) else e)
      else if kind == 5 && len >= 7 && boot && c[offset + 2] >= 0x80 && c[offset + 3] % 4 == 3 then
        var mps := Word(c[offset + 4], c[offset + 5]);
        (e.(address := c[offset + 2], dci := c[offset + 2] % 16 * 2 + 1,
            maxPacket := if mps == 0 || mps > REPORT_SIZE then REPORT_SIZE else mps,
            interval := c[offset + 6]), true)
      else Walk(c, offset + len, boot, e)
  }

  function ParseStart(c: Config, iface: byte): Endpoint {
    Endpoint(c[5], iface, 0, 0, 8, 10)
  }

  /** The endpoint record after the walk, given the interface number remembered before it. */
  function Parsed(c: Config, iface: byte): (Endpoint, bool) {
    Walk(c, 0, false, ParseStart(c, iface))
  }

  method ParseKeyboardEndpoint(config: array<byte>, previous: Endpoint) returns (e: Endpoint, found: bool)
    requires config.Length == CONFIG_BYTES
    ensures (e, found) == Parsed(config[..], previous.iface)
  {
    var total := Word(config[2], config[3]);
    var boot := false;
    if total > CONFIG_BYTES { total := CONFIG_BYTES; }
    e := Endpoint(config[5], previous.iface, 0, 0, 8, 10);
    ghost var c: Config := config[..];
    var offset := 0;
    while offset + 2 <= total
      invariant total == Total(c)
      invariant Walk(c, offset, boot, e) == Parsed(c, previous.iface)
      decreases CONFIG_BYTES - offset
    {
      var len, kind := config[offset], config[offset + 1];
      if len == 0 || offset + len > total { break; }
      if kind == 4 && len >= 9 {
        boot := config[offset + 5] == 0x03 && config[offset + 6] == 0x01 && config[offset + 7] == 0x01;
        if boot { e := e.(iface := config[offset + 2]); }
      } else if kind == 5 && len >= 7 && boot {
        var address, attr := config[offset + 2], config[offset + 3] % 4;
        var mps := Word(config[offset + 4], config[offset + 5]);
        if address >= 0x80 && attr == 0x03 {
          e := e.(address := address, dci := address % 16 * 2 + 1, maxPacket := mps, interval := config[offset + 6]);
          if e.maxPacket == 0 || e.maxPacket > REPORT_SIZE { e := e.(maxPacket := REPORT_SIZE); }
          return e, true;
        }
      }
      offset := offset + len;
    }
    found := false;
  }

  // ----- The walk finds the first keyboard endpoint -----

  /** The flags summarise the descriptors already passed. */
  ghost predicate Summary(before: seq<seq<byte>>, boot: bool, iface: byte) {
    if boot then exists i :: Owns(before, i, |before|) && IsBootKeyboard(before[i]) && before[i][2] == iface
    else forall i :: Owns(before, i, |before|) ==> !IsBootKeyboard(before[i])
  }

  ghost predicate NoneIn(ds: seq<seq<byte>>, n: int) {
    forall i, k :: k < n ==> !IsKeyboardEndpoint(ds, i, k)
  }

  ghost predicate FirstKeyboardEndpoint(ds: seq<seq<byte>>, i: int, k: int) {
    IsKeyboardEndpoint(ds, i, k) && NoneIn(ds, k)
  }

  lemma OwnerIsUnique(ds: seq<seq<byte>>, i: int, j: int, k: int)
    requires Owns(ds, i, k) && Owns(ds, j, k)
    ensures i == j
  {
  }

  /** The owner of the position after `before` depends on `before` alone. */
  lemma OwnerStays(before: seq<seq<byte>>, after: seq<seq<byte>>, i: int)
    requires after == [] || !IsInterface(after[0]) || i < |before|
    ensures Owns(before + after, i, |before|) <==> Owns(before, i, |before|)
    ensures |after| == 1 && i < |before| && !IsInterface(after[0]) ==>
              (Owns(before + after, i, |before| + 1) <==> Owns(before, i, |before|))
    ensures |after| == 1 && !IsInterface(after[0]) ==> !Owns(before + after, |before|, |before| + 1)
  {
    var ds := before + after;
    assert forall j :: 0 <= j < |before| ==> ds[j] == before[j];
    if Owns(ds, i, |before|) {
      assert forall j :: i < j < |before| ==> !IsInterface(ds[j]);
    }
    if |after| == 1 && i < |before| && !IsInterface(after[0]) && Owns(ds, i, |before| + 1) {
      assert forall j :: i < j < |before| ==> !IsInterface(ds[j]);
    }
  }

  /** A descriptor that is no interrupt-IN endpoint, or that no boot keyboard owns, is no keyboard endpoint. */
  lemma NoEndpointHere(before: seq<seq<byte>>, d: seq<byte>, rest: seq<seq<byte>>, boot: bool, iface: byte)
    requires Summary(before, boot, iface) && !(IsInterruptIn(d) && boot)
    requires NoneIn(before + [d] + rest, |before|)
    ensures NoneIn(before + [d] + rest, |before| + 1)
  {
    var ds := before + [d] + rest;
    assert ds == before + ([d] + rest) && ds[|before|] == d;
    forall i, k | k < |before| + 1 ensures !IsKeyboardEndpoint(ds, i, k) {
      if k == |before| && IsKeyboardEndpoint(ds, i, k) {
        OwnerStays(before, [d] + rest, i);
        assert false;
      }
    }
  }

  /** Passing one descriptor keeps the summary. */
  lemma SummaryStep(before: seq<seq<byte>>, d: seq<byte>, boot: bool, iface: byte)
    requires Summary(before, boot, iface)
    ensures IsInterface(d) ==> Summary(before + [d], IsBootKeyboard(d), if IsBootKeyboard(d) then d[2] else iface)
    ensures !IsInterface(d) ==> Summary(before + [d], boot, iface)
  {
    var after := before + [d];
    var n := |before|;
    if IsInterface(d) {
      assert Owns(after, n, n + 1);
      forall i | Owns(after, i, n + 1) ensures IsBootKeyboard(after[i]) == IsBootKeyboard(d) {
        OwnerIsUnique(after, i, n, n + 1);
      }
    } else if boot {
      var i :| Owns(before, i, n) && IsBootKeyboard(before[i]) && before[i][2] == iface;
      assert Owns(after, i, n + 1) by {
        forall j | i < j < n + 1 ensures !IsInterface(after[j]) {}
      }
    } else {
      forall i | Owns(after, i, n + 1) ensures !IsBootKeyboard(after[i]) {
        OwnerStays(before, [d], i);
      }
    }
  }

  /** One step of the walk, told by the descriptor it stands on. */
  lemma WalkStep(c: Config, offset: nat, boot: bool, e: Endpoint)
    requires WellFormedAt(c, offset)
    ensures var d := c[offset..offset + c[offset]];
            Walk(c, offset, boot, e)
            == if IsInterface(d) then
                 Walk(c, offset + c[offset], IsBootKeyboard(d), if IsBootKeyboard(d) then e.(iface := d[2]) else e)
               else if IsInterruptIn(d) && boot then
                 (Picked(e, d), true)
               else Walk(c, offset + c[offset], boot, e)
  {
  }

  lemma {:induction false} WalkMeaning(c: Config, offset: nat, boot: bool, e: Endpoint, before: seq<seq<byte>>,
                                       ds: seq<seq<byte>>)
    requires ds == before + DescriptorsFrom(c, offset)
    requires Summary(before, boot, e.iface) && NoneIn(ds, |before|) && e.configValue == c[5]
    ensures var (r, found) := Walk(c, offset, boot, e);
            if found then exists i, k :: FirstKeyboardEndpoint(ds, i, k) && r == Chosen(c, ds, i, k)
            else NoneIn(ds, |ds|)
    decreases CONFIG_BYTES - offset
  {
    if WellFormedAt(c, offset) {
      var len := c[offset];
      var d := c[offset..offset + len];
      var rest := DescriptorsFrom(c, offset + len);
      assert ds == before + [d] + rest;
      SummaryStep(before, d, boot, e.iface);
      WalkStep(c, offset, boot, e);
      if IsInterruptIn(d) && boot {
        var i :| Owns(before, i, |before|) && IsBootKeyboard(before[i]) && before[i][2] == e.iface;
        OwnerStays(before, [d] + rest, i);
        assert ds == before + ([d] + rest);
        assert FirstKeyboardEndpoint(ds, i, |before|);
      } else {
        NoEndpointHere(before, d, rest, boot, e.iface);
        assert |before + [d]| == |before| + 1;
        if IsInterface(d) {
          var e' := if IsBootKeyboard(d) then e.(iface := d[2]) else e;
          WalkMeaning(c, offset + len, IsBootKeyboard(d), e', before + [d], ds);
        } else {
          WalkMeaning(c, offset + len, boot, e, before + [d], ds);
        }
      }
    } else {
      assert ds == before;
    }
  }

  /** On any 256 bytes: the walk succeeds exactly when the descriptor list holds
      a keyboard endpoint, and then it picks the first one with the number of its
      own interface. */
  lemma ParseFindsFirst(c: Config, iface: byte)
    ensures var ds := DescriptorsFrom(c, 0);
            var (e, found) := Parsed(c, iface);
            && (found <==> exists i, k :: IsKeyboardEndpoint(ds, i, k))
            && (found ==> exists i, k :: FirstKeyboardEndpoint(ds, i, k) && e == Chosen(c, ds, i, k))
  {
    var ds := DescriptorsFrom(c, 0);
    assert [] + ds == ds;
    WalkMeaning(c, 0, false, ParseStart(c, iface), [], ds);
  }

  /** The first endpoint is unique, so the answer is determined by the list. */
  lemma FirstIsUnique(ds: seq<seq<byte>>, i: int, k: int, i': int, k': int)
    requires FirstKeyboardEndpoint(ds, i, k) && FirstKeyboardEndpoint(ds, i', k')
    ensures i == i' && k == k'
  {
  }

  /** After a successful walk the endpoint is an IN endpoint, and every later
      write to the control, slot and endpoint contexts (five words of the endpoint's
      own context) stays inside the input context, for both context sizes. */
  lemma ChosenEndpointFits(c: Config, iface: byte, contextSize: nat)
    requires Parsed(c, iface).1 && (contextSize == 32 || contextSize == 64)
    ensures var e := Parsed(c, iface).0;
            && e.address >= 0x80 && 1 <= e.dci <= 31 && e.dci % 2 == 1
            && 1 <= e.maxPacket <= 8
            && (e.dci + 1) * contextSize + 5 * 4 <= INPUT_CONTEXT_BYTES
  {
    ParseFindsFirst(c, iface);
  }
}
