/** From reports to the line: what the editor does with the bytes that the USB
  keyboard sends. */
module Typing {
  import opened Common
  import Hid = HidReport
  import opened LineEditor

  /** The flags of the decoder and the session, as one byte after the other changes them. */
  datatype Typist = Typist(flags: Hid.Flags, session: Session)

  /** The tables that the editor works with. */
  datatype Tables = Tables(keymap: Keymap, names: seq<string>)

  predicate Good(t: Typist, tables: Tables) {
    GoodSession(t.session) && GoodKeymap(tables.keymap) && GoodNames(tables.names)
  }

  /** One byte, as `processar_set1` treats it. */
  function Typed(t: Typist, b: byte, tables: Tables): (t': Typist)
    requires Good(t, tables)
    ensures Good(t', tables)
  {
    AppliedKeeps(t.session, ActionFor(t.flags, b, tables.keymap), tables.names);
    Typist(Hid.FlagsAfter(t.flags, b), Applied(t.session, ActionFor(t.flags, b, tables.keymap), tables.names))
  }

  function TypedAll(t: Typist, bytes: seq<byte>, tables: Tables): (t': Typist)
    requires Good(t, tables)
    ensures Good(t', tables)
    decreases |bytes|
  {
    if bytes == [] then t else TypedAll(Typed(t, bytes[0], tables), bytes[1..], tables)
  }

  lemma {:induction false} TypedConcat(t: Typist, a: seq<byte>, b: seq<byte>, tables: Tables)
    requires Good(t, tables)
    ensures TypedAll(t, a + b, tables) == TypedAll(TypedAll(t, a, tables), b, tables)
    decreases |a|
  {
    if a == [] {
      assert a + b == b;
    } else {
      assert (a + b)[1..] == a[1..] + b;
      TypedConcat(Typed(t, a[0], tables), a[1..], b, tables);
    }
  }

  predicate GoodActions(actions: seq<Action>) {
    forall k :: 0 <= k < |actions| ==> GoodAction(actions[k])
  }

  function Done(t: Typist, actions: seq<Action>, tables: Tables): Session
    requires Good(t, tables) && GoodActions(actions)
  {
    AppliedAll(t.session, actions, tables.names)
  }

  lemma {:induction false} AppliedConcat(s: Session, a: seq<Action>, b: seq<Action>, names: seq<string>)
    requires GoodSession(s) && GoodNames(names) && GoodActions(a) && GoodActions(b)
    ensures GoodSession(AppliedAll(s, a, names))
    ensures AppliedAll(s, a + b, names) == AppliedAll(AppliedAll(s, a, names), b, names)
    decreases |a|
  {
    if a == [] {
      assert a + b == b;
    } else {
      assert (a + b)[1..] == a[1..] + b;
      AppliedKeeps(s, a[0], names);
      AppliedConcat(Applied(s, a[0], names), a[1..], b, names);
    }
  }

  // ----- Modifiers -----

  predicate FlagBytes(bytes: seq<byte>) {
    forall k :: 0 <= k < |bytes| ==> Hid.IsFlagByte(bytes[k])
  }

  /** Bytes that only change flags change them as the decoder's. */
  lemma {:induction false} FlagBytesType(t: Typist, d: Hid.Decoder, bytes: seq<byte>, tables: Tables)
    requires Good(t, tables) && FlagBytes(bytes) && t.flags == Hid.FlagsOf(d)
    ensures TypedAll(t, bytes, tables) == Typist(Hid.FlagsOf(Hid.Replay(d, bytes)), t.session)
    decreases |bytes|
  {
    if bytes != [] {
      FlagBytesType(Typed(t, bytes[0], tables), Hid.Decoded(d, bytes[0]), bytes[1..], tables);
    }
  }

  lemma ModifierChangeIsFlags(before: byte, now: byte, mask: nat, code: byte)
    requires mask > 0 && Hid.ModifierCode(code)
    ensures FlagBytes(Hid.ModifierChange(before, now, mask, code))
  {
  }

  lemma ModifierBytesAreFlags(before: byte, now: byte)
    ensures FlagBytes(Hid.ModifierBytes(before, now))
  {
    ModifierChangeIsFlags(before, now, 0x01, 0x1D);
    ModifierChangeIsFlags(before, now, 0x02, 0x2A);
    ModifierChangeIsFlags(before, now, 0x04, 0x38);
    ModifierChangeIsFlags(before, now, 0x10, 0x1D);
    ModifierChangeIsFlags(before, now, 0x20, 0x36);
    ModifierChangeIsFlags(before, now, 0x40, 0x38);
  }

  /** The flags after the modifier part of a report. */
  function FlagsWith(f: Hid.Flags, before: byte, now: byte): Hid.Flags {
    f.(ctrl := Hid.SharedFlag(f.ctrl, before, now, 0x01, 0x10),
       shift := Hid.SharedFlag(f.shift, before, now, 0x02, 0x20),
       alt := Hid.SharedFlag(f.alt, before, now, 0x04, 0x40))
  }

  lemma ModifiersType(t: Typist, before: byte, now: byte, tables: Tables)
    requires Good(t, tables)
    ensures TypedAll(t, Hid.ModifierBytes(before, now), tables) == Typist(FlagsWith(t.flags, before, now), t.session)
  {
    var d := Hid.Decoder(t.flags.e0, t.flags.ctrl, t.flags.shift, t.flags.alt, {}, true);
    ModifierBytesAreFlags(before, now);
    FlagBytesType(t, d, Hid.ModifierBytes(before, now), tables);
    Hid.ReplayModifiers(d, before, now);
  }

  // ----- Keys -----

  /** What pressing a mapped usage means with these modifiers. */
  function KeyAction(f: Hid.Flags, usage: byte, keymap: Keymap): Action
    requires GoodKeymap(keymap)
  {
    ActionFor(f.(e0 := Hid.KeyOf(usage).extended), Hid.KeyOf(usage).code, keymap)
  }

  /** A break does nothing; a make does what the key means. Either leaves the flags as they were. */
  lemma EmitTypes(t: Typist, usage: byte, release: bool, tables: Tables)
    requires Good(t, tables) && !t.flags.e0 && Hid.Mapped(usage)
    ensures Hid.KeyOf(usage).code < 0x80
    ensures var k := Hid.KeyOf(usage);
            TypedAll(t, Hid.Emit(k.code, k.extended, release), tables)
            == if release then t
               else Typist(t.flags, Applied(t.session, KeyAction(t.flags, usage, tables.keymap), tables.names))
  {
    Hid.KeysAreOrdinary(usage);
    var k := Hid.KeyOf(usage);
    var b: byte := if release then k.code + 0x80 else k.code;
    if k.extended {
      assert Hid.Emit(k.code, true, release) == [0xE0] + [b];
      TypedConcat(t, [0xE0], [b], tables);
      assert TypedAll(t, [0xE0], tables) == Typist(t.flags.(e0 := true), t.session);
    }
  }

  /** The actions of the mapped usages of `these[2..n]` that `others` lacks, in order. */
  function Presses(f: Hid.Flags, these: Hid.Report, others: Hid.Report, n: nat, keymap: Keymap): (r: seq<Action>)
    requires 2 <= n <= Hid.REPORT_BYTES && GoodKeymap(keymap)
    ensures GoodActions(r)
  {
    if n == 2 then []
    else
      Presses(f, these, others, n - 1, keymap)
      + (if Hid.IsNew(these, others, n) then [KeyAction(f, these[n - 1], keymap)] else [])
  }

  /** One more usage, after a typist has got through the others. */
  lemma UsageTypes(t: Typist, t1: Typist, these: Hid.Report, others: Hid.Report, n: nat, release: bool, tables: Tables)
    requires 2 < n <= Hid.REPORT_BYTES && Good(t, tables)
    requires t1 == TypedAll(t, Hid.KeyBytes(these, others, n - 1, release), tables) && !t1.flags.e0
    ensures TypedAll(t, Hid.KeyBytes(these, others, n, release), tables)
            == if release || !Hid.IsNew(these, others, n) then t1
               else Typist(t1.flags,
                           Applied(t1.session, KeyAction(t1.flags, these[n - 1], tables.keymap), tables.names))
  {
    var sofar, u := Hid.KeyBytes(these, others, n - 1, release), these[n - 1];
    Hid.KeyBytesStep(these, others, n, release);
    if Hid.IsNew(these, others, n) {
      TypedConcat(t, sofar, Hid.Emit(Hid.KeyOf(u).code, Hid.KeyOf(u).extended, release), tables);
      EmitTypes(t1, u, release, tables);
    } else {
      assert sofar + [] == sofar;
    }
  }

  lemma {:induction false} BreakTypes(t: Typist, these: Hid.Report, others: Hid.Report, n: nat, tables: Tables)
    requires 2 <= n <= Hid.REPORT_BYTES && Good(t, tables) && !t.flags.e0
    ensures TypedAll(t, Hid.KeyBytes(these, others, n, true), tables) == t
  {
    if n > 2 {
      BreakTypes(t, these, others, n - 1, tables);
      UsageTypes(t, t, these, others, n, true, tables);
    }
  }

  lemma {:induction false} MakeTypes(t: Typist, these: Hid.Report, others: Hid.Report, n: nat, tables: Tables)
    requires 2 <= n <= Hid.REPORT_BYTES && Good(t, tables) && !t.flags.e0
    ensures TypedAll(t, Hid.KeyBytes(these, others, n, false), tables)
            == Typist(t.flags, Done(t, Presses(t.flags, these, others, n, tables.keymap), tables))
  {
    if n > 2 {
      MakeTypes(t, these, others, n - 1, tables);
      PressesStep(t, these, others, n, tables);
      var t1 := Typist(t.flags, Done(t, Presses(t.flags, these, others, n - 1, tables.keymap), tables));
      UsageTypes(t, t1, these, others, n, false, tables);
    }
  }

  lemma PressesStep(t: Typist, these: Hid.Report, others: Hid.Report, n: nat, tables: Tables)
    requires 2 < n <= Hid.REPORT_BYTES && Good(t, tables)
    ensures var before := Done(t, Presses(t.flags, these, others, n - 1, tables.keymap), tables);
            && GoodSession(before)
            && Done(t, Presses(t.flags, these, others, n, tables.keymap), tables)
               == if Hid.IsNew(these, others, n)
                  then Applied(before, KeyAction(t.flags, these[n - 1], tables.keymap), tables.names) else before
  {
    var actions := Presses(t.flags, these, others, n - 1, tables.keymap);
    var a := KeyAction(t.flags, these[n - 1], tables.keymap);
    AppliedConcat(t.session, actions, [a], tables.names);
    assert [a][1..] == [] && actions + [] == actions;
  }

  // ----- Reports -----

  /** One report: the modifiers first, then the newly pressed mapped usages, in order. */
  lemma ReportTypes(t: Typist, last: Hid.Report, mods: byte, report: Hid.Report, tables: Tables)
    requires Good(t, tables) && !t.flags.e0
    ensures var f := FlagsWith(t.flags, mods, report[0]);
            TypedAll(t, Hid.ReportBytes(last, mods, report), tables)
            == Typist(f, Done(t, Presses(f, report, last, Hid.REPORT_BYTES, tables.keymap), tables))
  {
    var modifiers := Hid.ModifierBytes(mods, report[0]);
    var breaks := Hid.KeyBytes(last, report, Hid.REPORT_BYTES, true);
    var makes := Hid.KeyBytes(report, last, Hid.REPORT_BYTES, false);
    TypedConcat(t, modifiers + breaks, makes, tables);
    TypedConcat(t, modifiers, breaks, tables);
    ModifiersType(t, mods, report[0], tables);
    var t1 := Typist(FlagsWith(t.flags, mods, report[0]), t.session);
    BreakTypes(t1, last, report, Hid.REPORT_BYTES, tables);
    MakeTypes(t1, report, last, Hid.REPORT_BYTES, tables);
  }

  /** What a sequence of reports means: the presses of each, under the modifiers it leaves. */
  function Meant(f: Hid.Flags, last: Hid.Report, mods: byte, reports: seq<Hid.Report>, keymap: Keymap): (r: seq<Action>)
    requires GoodKeymap(keymap)
    ensures GoodActions(r)
    decreases |reports|
  {
    if reports == [] then []
    else
      var f' := FlagsWith(f, mods, reports[0][0]);
      Presses(f', reports[0], last, Hid.REPORT_BYTES, keymap)
      + Meant(f', reports[0], reports[0][0], reports[1..], keymap)
  }

  /** Whatever the reports, the editor does exactly what they mean, in order. */
  lemma {:induction false} ReportsType(t: Typist, t0: Typist, s: Hid.State, reports: seq<Hid.Report>, tables: Tables)
    requires Good(t0, tables) && t == TypedAll(t0, s.sent, tables) && !t.flags.e0
    ensures TypedAll(t0, Hid.FedAll(s, reports).sent, tables).session
            == Done(t, Meant(t.flags, s.last, s.mods, reports, tables.keymap), tables)
    decreases |reports|
  {
    if reports != [] {
      var s1 := Hid.Fed(s, reports[0]);
      var f := FlagsWith(t.flags, s.mods, reports[0][0]);
      var now := Presses(f, reports[0], s.last, Hid.REPORT_BYTES, tables.keymap);
      ReportTypes(t, s.last, s.mods, reports[0], tables);
      TypedConcat(t0, s.sent, Hid.ReportBytes(s.last, s.mods, reports[0]), tables);
      ReportsType(Typist(f, Done(t, now, tables)), t0, s1, reports[1..], tables);
      AppliedConcat(t.session, now, Meant(f, reports[0], reports[0][0], reports[1..], tables.keymap), tables.names);
    }
  }

  /** From power-up: the line after any reports is the line after the actions they mean. */
  lemma TypingFromStart(session: Session, reports: seq<Hid.Report>, tables: Tables)
    requires Good(Typist(Hid.FlagsOf(Hid.FRESH_DECODER), session), tables)
    ensures var t := Typist(Hid.FlagsOf(Hid.FRESH_DECODER), session);
            TypedAll(t, Hid.FedAll(Hid.INITIAL, reports).sent, tables).session
            == Done(t, Meant(t.flags, Hid.EMPTY_REPORT, 0, reports, tables.keymap), tables)
  {
    var t := Typist(Hid.FlagsOf(Hid.FRESH_DECODER), session);
    ReportsType(t, t, Hid.INITIAL, reports, tables);
  }

  /** The same with the editor itself: bytes from anywhere, one scancode after the other. */
  method TypeBytes(editor: Editor, bytes: seq<byte>, tables: Tables)
    requires editor.Valid() && Good(Typist(editor.Keys(), editor.Abs()), tables)
    modifies editor, editor.buffer, editor.history, editor.history.rows
    ensures editor.Valid()
    ensures Typist(editor.Keys(), editor.Abs()) == TypedAll(old(Typist(editor.Keys(), editor.Abs())), bytes, tables)
  {
    ghost var t0 := Typist(editor.Keys(), editor.Abs());
    for k := 0 to |bytes|
      invariant editor.Valid() && Good(Typist(editor.Keys(), editor.Abs()), tables)
      invariant TypedAll(Typist(editor.Keys(), editor.Abs()), bytes[k..], tables) == TypedAll(t0, bytes, tables)
    {
      assert bytes[k..][0] == bytes[k] && bytes[k..][1..] == bytes[k + 1..];
      editor.ProcessSet1(bytes[k], tables.keymap, tables.names);
    }
  }
}
