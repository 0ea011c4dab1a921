/** The HID boot-report differ (Appendix B.1 of HID 1.11): it turns the
  difference between two reports into set-1 scancodes, and a decoder turns them
  back. */
module HidReport {
  import opened Common

  const REPORT_BYTES := 8

  type Report = r: seq<byte> | |r| == REPORT_BYTES witness [0, 0, 0, 0, 0, 0, 0, 0]

  const EMPTY_REPORT: Report := [0, 0, 0, 0, 0, 0, 0, 0]

  /** A set-1 key: its make code, and whether it carries the E0 prefix. A make code of 0 is no key. */
  datatype Key = Key(code: byte, extended: bool)

  const NO_KEY := Key(0, false)

  function PlainCode(usage: byte): byte {
    match usage
    case 0x04 => 0x1E case 0x05 => 0x30 case 0x06 => 0x2E case 0x07 => 0x20
    case 0x08 => 0x12 case 0x09 => 0x21 case 0x0A => 0x22 case 0x0B => 0x23
    case 0x0C => 0x17 case 0x0D => 0x24 case 0x0E => 0x25 case 0x0F => 0x26
    case 0x10 => 0x32 case 0x11 => 0x31 case 0x12 => 0x18 case 0x13 => 0x19
    case 0x14 => 0x10 case 0x15 => 0x13 case 0x16 => 0x1F case 0x17 => 0x14
    case 0x18 => 0x16 case 0x19 => 0x2F case 0x1A => 0x11 case 0x1B => 0x2D
    case 0x1C => 0x15 case 0x1D => 0x2C case 0x1E => 0x02 case 0x1F => 0x03
    case 0x20 => 0x04 case 0x21 => 0x05 case 0x22 => 0x06 case 0x23 => 0x07
    case 0x24 => 0x08 case 0x25 => 0x09 case 0x26 => 0x0A case 0x27 => 0x0B
    case 0x28 => 0x1C case 0x29 => 0x01 case 0x2A => 0x0E case 0x2B => 0x0F
    case 0x2C => 0x39 case 0x2D => 0x0C case 0x2E => 0x0D case 0x2F => 0x1A
    case 0x30 => 0x1B case 0x31 => 0x2B case 0x33 => 0x27 case 0x34 => 0x28
    case 0x35 => 0x29 case 0x36 => 0x33 case 0x37 => 0x34 case 0x38 => 0x35
    case _ => 0
  }

  function ExtendedCode(usage: byte): byte {
    match usage
    case 0x4F => 0x4D case 0x50 => 0x4B case 0x51 => 0x50 case 0x52 => 0x48
    case _ => 0
  }

  function KeyOf(usage: byte): Key {
    if ExtendedCode(usage) != 0 then Key(ExtendedCode(usage), true) else Key(PlainCode(usage), false)
  }

  predicate Mapped(usage: byte) {
    KeyOf(usage) != NO_KEY
  }

  /** The make codes that the decoder treats as Ctrl, Shift and Alt. */
  predicate ModifierCode(code: int) {
    code == 0x1D || code == 0x2A || code == 0x36 || code == 0x38
  }

  /** The usage behind a key, by a table of its own. */
  function UsageOf(k: Key): byte {
    if k.extended then
      match k.code
      case 0x4D => 0x4F case 0x4B => 0x50 case 0x50 => 0x51 case 0x48 => 0x52
      case _ => 0
    else
      match k.code
      case 0x1E => 0x04 case 0x30 => 0x05 case 0x2E => 0x06 case 0x20 => 0x07
      case 0x12 => 0x08 case 0x21 => 0x09 case 0x22 => 0x0A case 0x23 => 0x0B
      case 0x17 => 0x0C case 0x24 => 0x0D case 0x25 => 0x0E case 0x26 => 0x0F
      case 0x32 => 0x10 case 0x31 => 0x11 case 0x18 => 0x12 case 0x19 => 0x13
      case 0x10 => 0x14 case 0x13 => 0x15 case 0x1F => 0x16 case 0x14 => 0x17
      case 0x16 => 0x18 case 0x2F => 0x19 case 0x11 => 0x1A case 0x2D => 0x1B
      case 0x15 => 0x1C case 0x2C => 0x1D case 0x02 => 0x1E case 0x03 => 0x1F
      case 0x04 => 0x20 case 0x05 => 0x21 case 0x06 => 0x22 case 0x07 => 0x23
      case 0x08 => 0x24 case 0x09 => 0x25 case 0x0A => 0x26 case 0x0B => 0x27
      case 0x1C => 0x28 case 0x01 => 0x29 case 0x0E => 0x2A case 0x0F => 0x2B
      case 0x39 => 0x2C case 0x0C => 0x2D case 0x0D => 0x2E case 0x1A => 0x2F
      case 0x1B => 0x30 case 0x2B => 0x31 case 0x27 => 0x33 case 0x28 => 0x34
      case 0x29 => 0x35 case 0x33 => 0x36 case 0x34 => 0x37 case 0x35 => 0x38
      case _ => 0
  }

  lemma KeyRoundTrip(u: byte)
    requires Mapped(u)
    ensures UsageOf(KeyOf(u)) == u
  {
  }

  /** The other way round: every key that stands for a usage is the key of that usage. */
  lemma UsageRoundTrip(k: Key)
    requires UsageOf(k) != 0
    ensures KeyOf(UsageOf(k)) == k
  {
  }

  /** Which usages have a key: letters, digits, the keys in between up to the slash
      (all but the second backslash), and the four arrows. */
  lemma MappedExactly(u: byte)
    ensures Mapped(u) <==> 0x04 <= u <= 0x31 || 0x33 <= u <= 0x38 || 0x4F <= u <= 0x52
    ensures KeyOf(u).extended <==> 0x4F <= u <= 0x52
  {
  }

  lemma KeysAreOrdinary(u: byte)
    requires Mapped(u)
    ensures 0 < KeyOf(u).code < 0x60 && !ModifierCode(KeyOf(u).code)
  {
  }

  // ----- What the driver sends for one report -----

  predicate Bit(mods: byte, mask: nat)
    requires mask > 0
  {
    mods / mask % 2 == 1
  }

  predicate HasUsage(r: Report, usage: byte) {
    exists i :: 2 <= i < REPORT_BYTES && r[i] == usage
  }

  function Emit(code: byte, extended: bool, release: bool): seq<byte>
    requires code < 0x80
  {
    if code == 0 then []
    else (if extended then [0xE0] else []) + [if release then code + 0x80 else code]
  }

  function ModifierChange(before: byte, now: byte, mask: nat, code: byte): seq<byte>
    requires mask > 0 && code < 0x80
  {
    if Bit(before, mask) == Bit(now, mask) then [] else Emit(code, false, !Bit(now, mask))
  }

  /** Left Ctrl, left Shift, left Alt, right Ctrl, right Shift, right Alt. The two GUI bits send nothing. */
  function ModifierBytes(before: byte, now: byte): seq<byte> {
    ModifierChange(before, now, 0x01, 0x1D) + ModifierChange(before, now, 0x02, 0x2A)
    + ModifierChange(before, now, 0x04, 0x38) + ModifierChange(before, now, 0x10, 0x1D)
    + ModifierChange(before, now, 0x20, 0x36) + ModifierChange(before, now, 0x40, 0x38)
  }

  /** The bytes for the usages of `these[2..n]` that `others` lacks. */
  function KeyBytes(these: Report, others: Report, n: nat, release: bool): seq<byte>
    requires 2 <= n <= REPORT_BYTES
  {
    if n == 2 then []
    else
      KeyBytes(these, others, n - 1, release)
      + (if these[n - 1] == 0 || HasUsage(others, these[n - 1]) then []
         else (KeysAreSmall(these[n - 1]);
               Emit(KeyOf(these[n - 1]).code, KeyOf(these[n - 1]).extended, release)))
  }

  lemma KeysAreSmall(u: byte)
    ensures KeyOf(u).code < 0x60
    ensures KeyOf(u).code == 0 <==> !Mapped(u)
    ensures Mapped(u) ==> u != 0
  {
  }

  function ReportBytes(last: Report, mods: byte, report: Report): seq<byte> {
    ModifierBytes(mods, report[0])
    + KeyBytes(last, report, REPORT_BYTES, true) + KeyBytes(report, last, REPORT_BYTES, false)
  }

  /** The differ's memory, with every byte it has sent so far. */
  datatype State = State(last: Report, mods: byte, sent: seq<byte>)

  const INITIAL := State(EMPTY_REPORT, 0, [])

  function Fed(s: State, report: Report): State {
    State(report, report[0], s.sent + ReportBytes(s.last, s.mods, report))
  }

  lemma ConcatAssociates(a: seq<byte>, b: seq<byte>, c: seq<byte>)
    ensures a + b + c == a + (b + c)
  {
  }

  class Differ {
    const lastReport: array<byte>
    var lastModifiers: byte
    var sent: seq<byte>

    ghost predicate Valid()
      reads this
    {
      lastReport.Length == REPORT_BYTES
    }

    ghost function Abs(): State
      requires Valid()
      reads this, lastReport
    {
      State(lastReport[..], lastModifiers, sent)
    }

    constructor ()
      ensures Valid() && fresh(this) && fresh(lastReport) && Abs() == INITIAL
    {
      lastReport := new byte[REPORT_BYTES](_ => 0);
      lastModifiers := 0;
      sent := [];
    }

    /** Forgets the last report, as the driver does when it is initialised. */
    method Reset()
      requires Valid()
      modifies this, lastReport
      ensures Valid() && Abs() == old(Abs()).(last := EMPTY_REPORT, mods := 0)
    {
      lastModifiers := 0;
      SaveReport(EMPTY_REPORT);
    }

    method EmitSet1(code: byte, extended: bool, release: bool)
      requires code < 0x80
      modifies this`sent
      ensures sent == old(sent) + Emit(code, extended, release)
    {
      if code == 0 { return; }
      if extended { sent := sent + [0xE0]; }
      sent := sent + [if release then code + 0x80 else code];
    }

    method UpdateModifier(now: byte, mask: nat, code: byte)
      requires mask > 0 && code < 0x80
      modifies this`sent
      ensures sent == old(sent) + ModifierChange(lastModifiers, now, mask, code)
    {
      var wasDown := Bit(lastModifiers, mask);
      var isDown := Bit(now, mask);
      if wasDown == isDown { return; }
      EmitSet1(code, false, !isDown);
    }

    method UpdateModifiers(now: byte)
      modifies this`sent
      ensures sent == old(sent) + ModifierBytes(lastModifiers, now)
    {
      ghost var m1 := ModifierChange(lastModifiers, now, 0x01, 0x1D);
      ghost var m2 := ModifierChange(lastModifiers, now, 0x02, 0x2A);
      ghost var m3 := ModifierChange(lastModifiers, now, 0x04, 0x38);
      ghost var m4 := ModifierChange(lastModifiers, now, 0x10, 0x1D);
      ghost var m5 := ModifierChange(lastModifiers, now, 0x20, 0x36);
      ghost var m6 := ModifierChange(lastModifiers, now, 0x40, 0x38);
      UpdateModifier(now, 0x01, 0x1D);
      UpdateModifier(now, 0x02, 0x2A);
      ConcatAssociates(old(sent), m1, m2);
      UpdateModifier(now, 0x04, 0x38);
      ConcatAssociates(old(sent), m1 + m2, m3);
      UpdateModifier(now, 0x10, 0x1D);
      ConcatAssociates(old(sent), m1 + m2 + m3, m4);
      UpdateModifier(now, 0x20, 0x36);
      ConcatAssociates(old(sent), m1 + m2 + m3 + m4, m5);
      UpdateModifier(now, 0x40, 0x38);
      ConcatAssociates(old(sent), m1 + m2 + m3 + m4 + m5, m6);
    }

    static method ReportHasUsage(r: Report, usage: byte) returns (has: bool)
      ensures has == HasUsage(r, usage)
    {
      for i := 2 to REPORT_BYTES
        invariant forall j :: 2 <= j < i ==> r[j] != usage
      {
        if r[i] == usage { return true; }
      }
      has := false;
    }

    method FeedKeys(these: Report, others: Report, release: bool)
      modifies this`sent
      ensures sent == old(sent) + KeyBytes(these, others, REPORT_BYTES, release)
    {
      for i := 2 to REPORT_BYTES
        invariant sent == old(sent) + KeyBytes(these, others, i, release)
      {
        var usage := these[i];
        if usage != 0 {
          var has := ReportHasUsage(others, usage);
          if !has {
            KeysAreSmall(usage);
            EmitSet1(KeyOf(usage).code, KeyOf(usage).extended, release);
          }
        }
      }
    }

    method FeedBootReport(report: Report)
      requires Valid()
      modifies this, lastReport
      ensures Valid() && Abs() == Fed(old(Abs()), report)
    {
      UpdateModifiers(report[0]);
      FeedKeys(lastReport[..], report, true);
      FeedKeys(report, lastReport[..], false);
      SentTogether(old(sent), lastReport[..], lastModifiers, report);
      lastModifiers := report[0];
      SaveReport(report);
    }

    method SaveReport(report: Report)
      requires Valid()
      modifies lastReport
      ensures lastReport[..] == report
    {
      for i := 0 to REPORT_BYTES
        invariant lastReport[..i] == report[..i]
      {
        lastReport[i] := report[i];
      }
      assert lastReport[..] == lastReport[..REPORT_BYTES] == report;
    }
  }

  lemma SentTogether(sent: seq<byte>, last: Report, mods: byte, report: Report)
    ensures sent + ModifierBytes(mods, report[0]) + KeyBytes(last, report, REPORT_BYTES, true)
                 + KeyBytes(report, last, REPORT_BYTES, false)
            == sent + ReportBytes(last, mods, report)
  {
    var m, b := ModifierBytes(mods, report[0]), KeyBytes(last, report, REPORT_BYTES, true);
    ConcatAssociates(sent, m, b);
    ConcatAssociates(sent, m + b, KeyBytes(report, last, REPORT_BYTES, false));
  }

  // ----- Replaying the bytes -----

  /** The set-1 decoder of the PS/2 side: its prefix flag, the three modifier
      flags, the ordinary keys that are down, and whether every make so far came
      from a key that was up and every break from a key that was down. */
  datatype Decoder = Decoder(e0: bool, ctrl: bool, shift: bool, alt: bool, down: set<Key>, alternates: bool)

  const FRESH_DECODER := Decoder(false, false, false, false, {}, true)

  /** The four flags of a set-1 decoder. */
  datatype Flags = Flags(ctrl: bool, shift: bool, alt: bool, e0: bool)

  /** The acknowledgements, the prefix, and the makes and breaks of the modifiers. */
  predicate IsFlagByte(b: byte) {
    b in {0xFA, 0xFE, 0x38, 0xB8, 0xE0, 0x1D, 0x9D, 0x2A, 0x36, 0xAA, 0xB6}
  }

  function FlagsAfter(f: Flags, b: byte): Flags {
    if b == 0xFA || b == 0xFE then f
    else if b == 0x38 then f.(alt := true)
    else if b == 0xB8 then f.(alt := false)
    else if b == 0xE0 then f.(e0 := true)
    else if b == 0x1D then f.(ctrl := true)
    else if b == 0x9D then f.(ctrl := false)
    else if b == 0x2A || b == 0x36 then f.(shift := true)
    else if b == 0xAA || b == 0xB6 then f.(shift := false)
    else f.(e0 := false)
  }

  function FlagsOf(d: Decoder): Flags {
    Flags(d.ctrl, d.shift, d.alt, d.e0)
  }

  function Decoded(d: Decoder, b: byte): Decoder {
    var f := FlagsAfter(FlagsOf(d), b);
    var d1 := d.(ctrl := f.ctrl, shift := f.shift, alt := f.alt, e0 := f.e0);
    if IsFlagByte(b) then d1
    else if b < 0x80 then
      var k := Key(b, d.e0);
      d1.(down := d.down + {k}, alternates := d.alternates && k !in d.down)
    else
      var k := Key(b - 0x80, d.e0);
      d1.(down := d.down - {k}, alternates := d.alternates && k in d.down)
  }

  function Replay(d: Decoder, bytes: seq<byte>): Decoder
    decreases |bytes|
  {
    if bytes == [] then d else Replay(Decoded(d, bytes[0]), bytes[1..])
  }

  lemma {:induction false} ReplayConcat(d: Decoder, a: seq<byte>, b: seq<byte>)
    ensures Replay(d, a + b) == Replay(Replay(d, a), b)
    decreases |a|
  {
    if a == [] {
      assert a + b == b;
    } else {
      assert (a + b)[1..] == a[1..] + b;
      ReplayConcat(Decoded(d, a[0]), a[1..], b);
    }
  }

  /** The ordinary keys among `these[2..n]` that `others` lacks. */
  function Difference(these: Report, others: Report, n: nat): set<Key>
    requires 2 <= n <= REPORT_BYTES
  {
    set i | 2 <= i < n && Mapped(these[i]) && !HasUsage(others, these[i]) :: KeyOf(these[i])
  }

  /** All ordinary keys of a report. */
  function Keys(r: Report): set<Key> {
    set i | 2 <= i < REPORT_BYTES && Mapped(r[i]) :: KeyOf(r[i])
  }

  /** Some mapped usage that `others` lacks stands twice among `these[2..n]`. */
  predicate Repeats(these: Report, others: Report, n: nat)
    requires 2 <= n <= REPORT_BYTES
  {
    exists i, j :: 2 <= i < j < n && these[i] == these[j] && Mapped(these[i]) && !HasUsage(others, these[i])
  }

  lemma ReplayKey(d: Decoder, u: byte, release: bool)
    requires !d.e0 && Mapped(u)
    ensures KeyOf(u).code < 0x80
    ensures var k := KeyOf(u);
            Replay(d, Emit(k.code, k.extended, release))
            == d.(down := if release then d.down - {k} else d.down + {k},
                  alternates := d.alternates && (k in d.down <==> release))
  {
    KeysAreOrdinary(u);
    var k := KeyOf(u);
    var b: byte := if release then k.code + 0x80 else k.code;
    if k.extended {
      assert Emit(k.code, true, release) == [0xE0] + [b];
      ReplayConcat(d, [0xE0], [b]);
      assert Replay(d, [0xE0]) == d.(e0 := true);
    }
  }

  lemma RepeatedKey(these: Report, others: Report, n: nat)
    requires 2 < n <= REPORT_BYTES && Mapped(these[n - 1]) && !HasUsage(others, these[n - 1])
    requires KeyOf(these[n - 1]) in Difference(these, others, n - 1)
    ensures Repeats(these, others, n)
  {
  }

  predicate IsNew(these: Report, others: Report, n: nat)
    requires 2 < n <= REPORT_BYTES
  {
    Mapped(these[n - 1]) && !HasUsage(others, these[n - 1])
  }

  /** The bytes of one more usage. */
  lemma KeyBytesStep(these: Report, others: Report, n: nat, release: bool)
    requires 2 < n <= REPORT_BYTES
    ensures var k := KeyOf(these[n - 1]);
            && k.code < 0x80
            && KeyBytes(these, others, n, release)
               == KeyBytes(these, others, n - 1, release)
                  + (if IsNew(these, others, n) then Emit(k.code, k.extended, release) else [])
  {
    KeysAreSmall(these[n - 1]);
  }

  /** The decoder after the usages of `these[2..n]` that `others` lacks. */
  ghost predicate Replayed(d: Decoder, d': Decoder, these: Report, others: Report, n: nat, release: bool)
    requires 2 <= n <= REPORT_BYTES
  {
    var ks := Difference(these, others, n);
    d' == d.(down := if release then d.down - ks else d.down + ks,
             alternates := d.alternates && !Repeats(these, others, n))
  }

  ghost predicate CanReplay(d: Decoder, these: Report, others: Report, release: bool) {
    && !d.e0
    && (if release then Difference(these, others, REPORT_BYTES) <= d.down
        else Difference(these, others, REPORT_BYTES) !! d.down)
  }

  /** One more usage of the pass, after a decoder has replayed the others. */
  lemma ReplayUsage(d: Decoder, d1: Decoder, these: Report, others: Report, n: nat, release: bool)
    requires 2 < n <= REPORT_BYTES && CanReplay(d, these, others, release) && IsNew(these, others, n)
    requires Replayed(d, d1, these, others, n - 1, release)
    ensures KeyOf(these[n - 1]).code < 0x80
    ensures var k := KeyOf(these[n - 1]);
            Replayed(d, Replay(d1, Emit(k.code, k.extended, release)), these, others, n, release)
  {
    var u := these[n - 1];
    var k, before := KeyOf(u), Difference(these, others, n - 1);
    ReplayKey(d1, u, release);
    assert Difference(these, others, n) == before + {k};
    assert k in Difference(these, others, REPORT_BYTES);
    KeyRoundTrip(u);
    if k in before { RepeatedKey(these, others, n); }
  }

  lemma SkipUsage(d: Decoder, d1: Decoder, these: Report, others: Report, n: nat, release: bool)
    requires 2 < n <= REPORT_BYTES && !IsNew(these, others, n) && Replayed(d, d1, these, others, n - 1, release)
    ensures Replayed(d, d1, these, others, n, release)
  {
    assert Difference(these, others, n) == Difference(these, others, n - 1);
  }

  lemma {:induction false} ReplayKeys(d: Decoder, these: Report, others: Report, n: nat, release: bool)
    requires 2 <= n <= REPORT_BYTES && CanReplay(d, these, others, release)
    ensures Replayed(d, Replay(d, KeyBytes(these, others, n, release)), these, others, n, release)
  {
    if n > 2 {
      var sofar, k := KeyBytes(these, others, n - 1, release), KeyOf(these[n - 1]);
      ReplayKeys(d, these, others, n - 1, release);
      KeyBytesStep(these, others, n, release);
      if IsNew(these, others, n) {
        ReplayConcat(d, sofar, Emit(k.code, k.extended, release));
        ReplayUsage(d, Replay(d, sofar), these, others, n, release);
      } else {
        assert sofar + [] == sofar;
        SkipUsage(d, Replay(d, sofar), these, others, n, release);
      }
    }
  }

  /** What one modifier bit does to the decoder: its flag follows a change, the rest stays. */
  function WithModifier(d: Decoder, before: byte, now: byte, mask: nat, code: byte): Decoder
    requires mask > 0
  {
    var flag := Bit(now, mask);
    if Bit(before, mask) == flag then d
    else if code == 0x1D then d.(ctrl := flag)
    else if code == 0x38 then d.(alt := flag)
    else d.(shift := flag)
  }

  lemma ReplayModifierChange(d: Decoder, sofar: seq<byte>, before: byte, now: byte, mask: nat, code: byte)
    requires mask > 0 && ModifierCode(code)
    ensures Replay(d, sofar + ModifierChange(before, now, mask, code))
            == WithModifier(Replay(d, sofar), before, now, mask, code)
  {
    ReplayConcat(d, sofar, ModifierChange(before, now, mask, code));
  }

  /** The flag a decoder keeps for a left and a right key that share it, after one report. */
  function SharedFlag(flag: bool, before: byte, now: byte, left: nat, right: nat): bool
    requires left > 0 && right > 0
  {
    if Bit(before, right) != Bit(now, right) then Bit(now, right)
    else if Bit(before, left) != Bit(now, left) then Bit(now, left)
    else flag
  }

  lemma ReplayModifiers(d: Decoder, before: byte, now: byte)
    ensures Replay(d, ModifierBytes(before, now))
            == d.(ctrl := SharedFlag(d.ctrl, before, now, 0x01, 0x10),
                  shift := SharedFlag(d.shift, before, now, 0x02, 0x20),
                  alt := SharedFlag(d.alt, before, now, 0x04, 0x40))
  {
    var m1 := ModifierChange(before, now, 0x01, 0x1D);
    var m2 := ModifierChange(before, now, 0x02, 0x2A);
    var m3 := ModifierChange(before, now, 0x04, 0x38);
    ReplayLeft(d, before, now);
    ReplayRight(d, m1 + m2 + m3, before, now);
    FlagsCombine(d, before, now);
  }

  lemma FlagsCombine(d: Decoder, before: byte, now: byte)
    ensures var left := WithModifier(WithModifier(WithModifier(d, before, now, 0x01, 0x1D),
                                                  before, now, 0x02, 0x2A), before, now, 0x04, 0x38);
            WithModifier(WithModifier(WithModifier(left, before, now, 0x10, 0x1D),
                                      before, now, 0x20, 0x36), before, now, 0x40, 0x38)
            == d.(ctrl := SharedFlag(d.ctrl, before, now, 0x01, 0x10),
                  shift := SharedFlag(d.shift, before, now, 0x02, 0x20),
                  alt := SharedFlag(d.alt, before, now, 0x04, 0x40))
  {
    FlagsOfSide(d, before, now, 0x01, 0x02, 0x04, 0x2A);
    var left := WithModifier(WithModifier(WithModifier(d, before, now, 0x01, 0x1D), before, now, 0x02, 0x2A),
                             before, now, 0x04, 0x38);
    FlagsOfSide(left, before, now, 0x10, 0x20, 0x40, 0x36);
  }

  function Moved(flag: bool, before: byte, now: byte, mask: nat): bool
    requires mask > 0
  {
    if Bit(before, mask) == Bit(now, mask) then flag else Bit(now, mask)
  }

  /** The three modifiers of one side of the keyboard act on one flag each. */
  lemma FlagsOfSide(d: Decoder, before: byte, now: byte, ctrl: nat, shift: nat, alt: nat, shiftCode: byte)
    requires ctrl > 0 && shift > 0 && alt > 0 && (shiftCode == 0x2A || shiftCode == 0x36)
    ensures WithModifier(WithModifier(WithModifier(d, before, now, ctrl, 0x1D), before, now, shift, shiftCode),
                         before, now, alt, 0x38)
            == d.(ctrl := Moved(d.ctrl, before, now, ctrl), shift := Moved(d.shift, before, now, shift),
                  alt := Moved(d.alt, before, now, alt))
  {
  }

  lemma ReplayLeft(d: Decoder, before: byte, now: byte)
    ensures var left := ModifierChange(before, now, 0x01, 0x1D) + ModifierChange(before, now, 0x02, 0x2A)
                        + ModifierChange(before, now, 0x04, 0x38);
            Replay(d, left)
            == WithModifier(WithModifier(WithModifier(d, before, now, 0x01, 0x1D),
                                         before, now, 0x02, 0x2A), before, now, 0x04, 0x38)
  {
    var m1 := ModifierChange(before, now, 0x01, 0x1D);
    assert [] + m1 == m1;
    ReplayModifierChange(d, [], before, now, 0x01, 0x1D);
    ReplayModifierChange(d, m1, before, now, 0x02, 0x2A);
    ReplayModifierChange(d, m1 + ModifierChange(before, now, 0x02, 0x2A), before, now, 0x04, 0x38);
  }

  lemma ReplayRight(d: Decoder, left: seq<byte>, before: byte, now: byte)
    ensures var all := left + ModifierChange(before, now, 0x10, 0x1D) + ModifierChange(before, now, 0x20, 0x36)
                       + ModifierChange(before, now, 0x40, 0x38);
            Replay(d, all)
            == WithModifier(WithModifier(WithModifier(Replay(d, left), before, now, 0x10, 0x1D),
                                         before, now, 0x20, 0x36), before, now, 0x40, 0x38)
  {
    var m4 := left + ModifierChange(before, now, 0x10, 0x1D);
    ReplayModifierChange(d, left, before, now, 0x10, 0x1D);
    ReplayModifierChange(d, m4, before, now, 0x20, 0x36);
    ReplayModifierChange(d, m4 + ModifierChange(before, now, 0x20, 0x36), before, now, 0x40, 0x38);
  }

  /** What a report does to a pair of keys that share a flag; the right one is looked at last. */
  datatype Move = NoMove | Press | Release

  function MoveOf(before: byte, now: byte, left: nat, right: nat): Move
    requires left > 0 && right > 0
  {
    if Bit(before, right) != Bit(now, right) then (if Bit(now, right) then Press else Release)
    else if Bit(before, left) != Bit(now, left) then (if Bit(now, left) then Press else Release)
    else NoMove
  }

  /** The last move of the pair over a sequence of reports. */
  function LastMove(last: Move, before: byte, reports: seq<Report>, left: nat, right: nat): Move
    requires left > 0 && right > 0
    decreases |reports|
  {
    if reports == [] then last
    else
      var move := MoveOf(before, reports[0][0], left, right);
      LastMove(if move == NoMove then last else move, reports[0][0], reports[1..], left, right)
  }

  /** The modifier byte of the last report. */
  function LastMods(before: byte, reports: seq<Report>): byte {
    if reports == [] then before else reports[|reports| - 1][0]
  }

  /** The shared flag after a sequence of reports. */
  function FlagAfter(flag: bool, before: byte, reports: seq<Report>, left: nat, right: nat): bool
    requires left > 0 && right > 0
    decreases |reports|
  {
    if reports == [] then flag
    else FlagAfter(SharedFlag(flag, before, reports[0][0], left, right), reports[0][0], reports[1..], left, right)
  }

  predicate Held(mods: byte, left: nat, right: nat)
    requires left > 0 && right > 0
  {
    Bit(mods, left) || Bit(mods, right)
  }

  lemma {:induction false} FlagIsLastMove(last: Move, before: byte, reports: seq<Report>, left: nat, right: nat)
    requires left > 0 && right > 0
    requires (last == Press ==> Held(before, left, right)) && (last == NoMove ==> !Held(before, left, right))
    ensures var move, now := LastMove(last, before, reports, left, right), LastMods(before, reports);
            && (FlagAfter(last == Press, before, reports, left, right) <==> move == Press)
            && (move == Press ==> Held(now, left, right)) && (move == NoMove ==> !Held(now, left, right))
    decreases |reports|
  {
    if reports != [] {
      var move := MoveOf(before, reports[0][0], left, right);
      FlagIsLastMove(if move == NoMove then last else move, reports[0][0], reports[1..], left, right);
    }
  }

  /** The flag of a pair tells whether one of the two is held. */
  predicate FlagRight(flag: bool, mods: byte, left: nat, right: nat)
    requires left > 0 && right > 0
  {
    flag <==> Held(mods, left, right)
  }

  /** The last move of the pair released one of the two while the other one is still held. */
  predicate ReleaseHides(reports: seq<Report>, left: nat, right: nat)
    requires left > 0 && right > 0
  {
    LastMove(NoMove, 0, reports, left, right) == Release && Held(LastMods(0, reports), left, right)
  }

  /** After any sequence of reports from the beginning the flag is right, except
      exactly when the last move of the pair is a release that hides a held key. */
  lemma SharedFlagIsExact(reports: seq<Report>, left: nat, right: nat)
    requires left > 0 && right > 0
    ensures var flag := FlagAfter(false, 0, reports, left, right);
            FlagRight(flag, LastMods(0, reports), left, right) <==> !ReleaseHides(reports, left, right)
  {
    FlagIsLastMove(NoMove, 0, reports, left, right);
  }

  /** Both Ctrl keys go down, then the right one comes up: the flag is off although left Ctrl is held. */
  lemma SharedFlagCanBeWrong()
    ensures var d := Replay(FRESH_DECODER, ModifierBytes(0x00, 0x11) + ModifierBytes(0x11, 0x01));
            Bit(0x01, 0x01) && !d.ctrl
  {
    ReplayConcat(FRESH_DECODER, ModifierBytes(0x00, 0x11), ModifierBytes(0x11, 0x01));
    ReplayModifiers(FRESH_DECODER, 0x00, 0x11);
    ReplayModifiers(Replay(FRESH_DECODER, ModifierBytes(0x00, 0x11)), 0x11, 0x01);
  }

  /** Decoder and differ agree on which ordinary keys are down, and no prefix is pending. */
  predicate InStep(d: Decoder, s: State) {
    !d.e0 && d.down == Keys(s.last)
  }

  /** One report: the replayed keys are the mapped keys of the report, the prefix
      flag is clear again, and makes and breaks alternate exactly when no mapped
      usage that was pressed or released stood twice. */
  lemma ReplayReport(d: Decoder, s: State, report: Report)
    requires InStep(d, s)
    ensures var d' := Replay(d, ReportBytes(s.last, s.mods, report));
            && InStep(d', Fed(s, report))
            && (d'.alternates
                <==> d.alternates && !Repeats(s.last, report, REPORT_BYTES) && !Repeats(report, s.last, REPORT_BYTES))
            && d'.ctrl == SharedFlag(d.ctrl, s.mods, report[0], 0x01, 0x10)
            && d'.shift == SharedFlag(d.shift, s.mods, report[0], 0x02, 0x20)
            && d'.alt == SharedFlag(d.alt, s.mods, report[0], 0x04, 0x40)
  {
    var mods := ModifierBytes(s.mods, report[0]);
    var breaks := KeyBytes(s.last, report, REPORT_BYTES, true);
    var makes := KeyBytes(report, s.last, REPORT_BYTES, false);
    ReplayConcat(d, mods + breaks, makes);
    ReplayConcat(d, mods, breaks);
    ReplayModifiers(d, s.mods, report[0]);
    var d1 := Replay(d, mods);
    ReplayKeys(d1, s.last, report, REPORT_BYTES, true);
    var d2 := Replay(d1, breaks);
    DifferenceIsDisjoint(s.last, report);
    ReplayKeys(d2, report, s.last, REPORT_BYTES, false);
  }

  lemma DifferenceIsDisjoint(last: Report, report: Report)
    ensures var gone, pressed := Difference(last, report, REPORT_BYTES), Difference(report, last, REPORT_BYTES);
            gone <= Keys(last) && pressed !! Keys(last) && Keys(last) - gone + pressed == Keys(report)
  {
    var gone, pressed := Difference(last, report, REPORT_BYTES), Difference(report, last, REPORT_BYTES);
    forall k | k in pressed ensures k !in Keys(last) {
      var i :| 2 <= i < REPORT_BYTES && Mapped(report[i]) && !HasUsage(last, report[i]) && KeyOf(report[i]) == k;
      KeyRoundTrip(report[i]);
      if k in Keys(last) {
        var j :| 2 <= j < REPORT_BYTES && Mapped(last[j]) && KeyOf(last[j]) == k;
        KeyRoundTrip(last[j]);
        assert false;
      }
    }
    forall k ensures k in Keys(last) && k !in gone ==> k in Keys(report) {
      if k in Keys(last) && k !in gone {
        var j :| 2 <= j < REPORT_BYTES && Mapped(last[j]) && KeyOf(last[j]) == k;
        var i :| 2 <= i < REPORT_BYTES && report[i] == last[j];
      }
    }
    forall k ensures k in Keys(report) && k !in pressed ==> k in Keys(last) && k !in gone {
      if k in Keys(report) && k !in pressed {
        var j :| 2 <= j < REPORT_BYTES && Mapped(report[j]) && KeyOf(report[j]) == k;
        var i :| 2 <= i < REPORT_BYTES && last[i] == report[j];
        KeyRoundTrip(report[j]);
        if k in gone {
          var m :| 2 <= m < REPORT_BYTES && Mapped(last[m]) && !HasUsage(report, last[m]) && KeyOf(last[m]) == k;
          KeyRoundTrip(last[m]);
          assert false;
        }
      }
    }
  }

  // ----- Any sequence of reports -----

  function FedAll(s: State, reports: seq<Report>): State
    decreases |reports|
  {
    if reports == [] then s else FedAll(Fed(s, reports[0]), reports[1..])
  }

  lemma {:induction false} FedAllConcat(s: State, a: seq<Report>, b: seq<Report>)
    ensures FedAll(s, a + b) == FedAll(FedAll(s, a), b)
    decreases |a|
  {
    if a == [] {
      assert a + b == b;
    } else {
      assert (a + b)[1..] == a[1..] + b;
      FedAllConcat(Fed(s, a[0]), a[1..], b);
    }
  }

  /** No report repeats a mapped usage that it newly presses, and none that it releases stood twice. */
  predicate NeverRepeats(last: Report, reports: seq<Report>)
    decreases |reports|
  {
    reports == [] ||
    (!Repeats(last, reports[0], REPORT_BYTES) && !Repeats(reports[0], last, REPORT_BYTES)
     && NeverRepeats(reports[0], reports[1..]))
  }

  lemma {:induction false} ReplayAll(d: Decoder, s: State, reports: seq<Report>)
    requires d == Replay(FRESH_DECODER, s.sent) && InStep(d, s)
    ensures var s' := FedAll(s, reports);
            var d' := Replay(FRESH_DECODER, s'.sent);
            && InStep(d', s') && s'.mods == LastMods(s.mods, reports)
            && (d'.alternates <==> d.alternates && NeverRepeats(s.last, reports))
            && d'.ctrl == FlagAfter(d.ctrl, s.mods, reports, 0x01, 0x10)
            && d'.shift == FlagAfter(d.shift, s.mods, reports, 0x02, 0x20)
            && d'.alt == FlagAfter(d.alt, s.mods, reports, 0x04, 0x40)
    decreases |reports|
  {
    if reports != [] {
      ReplayReport(d, s, reports[0]);
      ReplayConcat(FRESH_DECODER, s.sent, ReportBytes(s.last, s.mods, reports[0]));
      ReplayAll(Replay(FRESH_DECODER, Fed(s, reports[0]).sent), Fed(s, reports[0]), reports[1..]);
    }
  }

  function LastReport(reports: seq<Report>): Report {
    if reports == [] then EMPTY_REPORT else reports[|reports| - 1]
  }

  lemma {:induction false} FedAllRemembersLast(s: State, reports: seq<Report>)
    ensures FedAll(s, reports).last == if reports == [] then s.last else LastReport(reports)
    decreases |reports|
  {
    if reports != [] { FedAllRemembersLast(Fed(s, reports[0]), reports[1..]); }
  }

  /** The key bytes of a report whose usages have a key. */
  function UsagesDown(r: Report): set<byte> {
    set u | u in r[2..] && (0x04 <= u <= 0x31 || 0x33 <= u <= 0x38 || 0x4F <= u <= 0x52)
  }

  lemma KeysAreUsages(r: Report, k: Key)
    ensures k in Keys(r) <==> UsageOf(k) in UsagesDown(r)
  {
    if k in Keys(r) {
      var i :| 2 <= i < REPORT_BYTES && Mapped(r[i]) && KeyOf(r[i]) == k;
      KeyRoundTrip(r[i]);
      MappedExactly(r[i]);
      assert r[i] == r[2..][i - 2];
    }
    if UsageOf(k) in UsagesDown(r) {
      var j :| 0 <= j < |r[2..]| && r[2..][j] == UsageOf(k);
      UsageRoundTrip(k);
      MappedExactly(r[j + 2]);
    }
  }

  /** From power-up, for every sequence of reports: a key is down exactly when its
      usage is among the key bytes of the last report (letters, digits, the keys up to
      the slash, arrows), and each modifier flag is right unless a release hides a held key. */
  lemma ReplayFromStart(reports: seq<Report>)
    ensures var d := Replay(FRESH_DECODER, FedAll(INITIAL, reports).sent);
            var mods := LastReport(reports)[0];
            && !d.e0 && (forall k :: k in d.down <==> UsageOf(k) in UsagesDown(LastReport(reports)))
            && (d.alternates <==> NeverRepeats(EMPTY_REPORT, reports))
            && (FlagRight(d.ctrl, mods, 0x01, 0x10) <==> !ReleaseHides(reports, 0x01, 0x10))
            && (FlagRight(d.shift, mods, 0x02, 0x20) <==> !ReleaseHides(reports, 0x02, 0x20))
            && (FlagRight(d.alt, mods, 0x04, 0x40) <==> !ReleaseHides(reports, 0x04, 0x40))
  {
    ReplayAll(FRESH_DECODER, INITIAL, reports);
    FedAllRemembersLast(INITIAL, reports);
    forall k ensures k in Keys(LastReport(reports)) <==> UsageOf(k) in UsagesDown(LastReport(reports)) {
      KeysAreUsages(LastReport(reports), k);
    }
    SharedFlagIsExact(reports, 0x01, 0x10);
    SharedFlagIsExact(reports, 0x02, 0x20);
    SharedFlagIsExact(reports, 0x04, 0x40);
  }
}
