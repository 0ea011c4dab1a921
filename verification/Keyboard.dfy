/** The kernel's own keyboard maps, and what the keys of a USB keyboard type with them. */
module Keyboard {
  import opened Common
  import Hid = HidReport
  import H = History
  import opened LineEditor
  import opened Typing

  // ----- `keyboard_map` and `keyboard_map_shift` -----

  function Plain(code: nat): char {
    match code
    case 1 => 27 as char case 2 => '1' case 3 => '2' case 4 => '3' case 5 => '4' case 6 => '5'
    case 7 => '6' case 8 => '7' case 9 => '8' case 10 => '9' case 11 => '0' case 12 => '-'
    case 13 => '=' case 14 => 8 as char case 15 => '\t' case 16 => 'q' case 17 => 'w' case 18 => 'e'
    case 19 => 'r' case 20 => 't' case 21 => 'y' case 22 => 'u' case 23 => 'i' case 24 => 'o'
    case 25 => 'p' case 26 => '[' case 27 => ']' case 28 => '\n' case 30 => 'a' case 31 => 's'
    case 32 => 'd' case 33 => 'f' case 34 => 'g' case 35 => 'h' case 36 => 'j' case 37 => 'k'
    case 38 => 'l' case 39 => ';' case 40 => '\'' case 41 => '`' case 43 => '\\' case 44 => 'z'
    case 45 => 'x' case 46 => 'c' case 47 => 'v' case 48 => 'b' case 49 => 'n' case 50 => 'm'
    case 51 => ',' case 52 => '.' case 53 => '/' case 55 => '*' case 57 => ' ' case 74 => '-'
    case 78 => '+'
    case _ => 0 as char
  }

  function Shifted(code: nat): char {
    match code
    case 1 => 27 as char case 2 => '!' case 3 => '@' case 4 => '#' case 5 => '$' case 6 => '%'
    case 7 => '^' case 8 => '&' case 9 => '*' case 10 => '(' case 11 => ')' case 12 => '_'
    case 13 => '+' case 14 => 8 as char case 15 => '\t' case 16 => 'Q' case 17 => 'W' case 18 => 'E'
    case 19 => 'R' case 20 => 'T' case 21 => 'Y' case 22 => 'U' case 23 => 'I' case 24 => 'O'
    case 25 => 'P' case 26 => '{' case 27 => '}' case 28 => '\n' case 30 => 'A' case 31 => 'S'
    case 32 => 'D' case 33 => 'F' case 34 => 'G' case 35 => 'H' case 36 => 'J' case 37 => 'K'
    case 38 => 'L' case 39 => ':' case 40 => '\"' case 41 => '~' case 43 => '|' case 44 => 'Z'
    case 45 => 'X' case 46 => 'C' case 47 => 'V' case 48 => 'B' case 49 => 'N' case 50 => 'M'
    case 51 => '<' case 52 => '>' case 53 => '?' case 55 => '*' case 57 => ' ' case 74 => '-'
    case 78 => '+'
    case _ => 0 as char
  }

  function KernelMap(): (m: Keymap)
    ensures GoodKeymap(m)
    ensures forall i :: 0 <= i < 128 ==> m.plain[i] == Plain(i) && m.shifted[i] == Shifted(i)
  {
    Keymap(seq(128, i requires 0 <= i < 128 => Plain(i)), seq(128, i requires 0 <= i < 128 => Shifted(i)))
  }

  // ----- What a usage stands for (section 10 of the HID Usage Tables 1.12, US layout) -----

  /** The usages with a character: letters, digits, the space bar and the punctuation keys. */
  predicate HasCharacter(u: byte) {
    0x04 <= u <= 0x27 || 0x2C <= u <= 0x31 || 0x33 <= u <= 0x38
  }

  function CharacterOf(u: byte, shift: bool): char {
    if 0x04 <= u <= 0x1D then (if shift then 'A' else 'a') + (u - 0x04) as char
    else if 0x1E <= u <= 0x27 then (if shift then "!@#$%^&*()" else "1234567890")[u - 0x1E]
    else if 0x2C <= u <= 0x31 then (if shift then " _+{}|" else " -=[]\\")[u - 0x2C]
    else if 0x33 <= u <= 0x38 then (if shift then ":\"~<>?" else ";'`,./")[u - 0x33]
    else 0 as char
  }

  lemma LetterTypes(u: byte)
    requires 0x04 <= u <= 0x1D
    ensures Plain(Hid.KeyOf(u).code) == CharacterOf(u, false) && Shifted(Hid.KeyOf(u).code) == CharacterOf(u, true)
    ensures !Hid.KeyOf(u).extended && Hid.KeyOf(u).code !in {0x1C, 0x0E, 0x0F}
  {
  }

  lemma DigitTypes(u: byte)
    requires 0x1E <= u <= 0x27
    ensures Plain(Hid.KeyOf(u).code) == CharacterOf(u, false) && Shifted(Hid.KeyOf(u).code) == CharacterOf(u, true)
    ensures !Hid.KeyOf(u).extended && Hid.KeyOf(u).code !in {0x1C, 0x0E, 0x0F}
  {
  }

  lemma MarkTypes(u: byte)
    requires 0x2C <= u <= 0x31 || 0x33 <= u <= 0x38
    ensures Plain(Hid.KeyOf(u).code) == CharacterOf(u, false) && Shifted(Hid.KeyOf(u).code) == CharacterOf(u, true)
    ensures !Hid.KeyOf(u).extended && Hid.KeyOf(u).code !in {0x1C, 0x0E, 0x0F}
  {
  }

  /** Two tables of the driver and of the editor fit together: the code that the driver
      sends for a usage is the place of that usage's character in both maps. */
  lemma UsageTypes(u: byte, shift: bool)
    requires HasCharacter(u)
    ensures KeyAction(Holding(shift), u, KernelMap()) == Insert(CharacterOf(u, shift))
    ensures CharacterOf(u, shift) != NUL
  {
    Hid.MappedExactly(u);
    Hid.KeysAreOrdinary(u);
    if u <= 0x1D { LetterTypes(u); } else if u <= 0x27 { DigitTypes(u); } else { MarkTypes(u); }
  }

  /** Enter, Backspace and Tab; Ctrl+L and Ctrl+C. */
  lemma EditingUsages(f: Hid.Flags)
    ensures KeyAction(f, 0x28, KernelMap()) == Enter
    ensures KeyAction(f, 0x2A, KernelMap()) == if f.ctrl then DeleteWord else Backspace
    ensures KeyAction(f, 0x2B, KernelMap()) == Complete
    ensures f.ctrl ==> KeyAction(f, 0x0F, KernelMap()) == ClearScreen && KeyAction(f, 0x06, KernelMap()) == Nothing
  {
    assert Hid.KeyOf(0x28) == Hid.Key(28, false) && Hid.KeyOf(0x2A) == Hid.Key(14, false);
    assert Hid.KeyOf(0x2B) == Hid.Key(15, false);
    assert Hid.KeyOf(0x0F) == Hid.Key(38, false) && Hid.KeyOf(0x06) == Hid.Key(46, false);
  }

  /** Right, left, down and up. */
  lemma ArrowUsages(f: Hid.Flags)
    ensures KeyAction(f, 0x4F, KernelMap()) == if f.ctrl then WordRight else CursorRight
    ensures KeyAction(f, 0x50, KernelMap()) == if f.ctrl then WordLeft else CursorLeft
    ensures KeyAction(f, 0x51, KernelMap()) == Newer && KeyAction(f, 0x52, KernelMap()) == Older
  {
    assert Hid.KeyOf(0x4F) == Hid.Key(0x4D, true) && Hid.KeyOf(0x50) == Hid.Key(0x4B, true);
    assert Hid.KeyOf(0x51) == Hid.Key(0x50, true) && Hid.KeyOf(0x52) == Hid.Key(0x48, true);
  }

  /** Exactly Q asks for a reset while Ctrl, Shift and Alt are down. */
  lemma RebootUsage(f: Hid.Flags, b: byte)
    ensures IsReboot(f, b) <==> f.ctrl && f.shift && f.alt && Plain(b) == 'q'
    ensures Hid.KeyOf(0x14) == Hid.Key(b, false) <==> Plain(b) == 'q'
  {
  }

  // ----- Typing a line -----

  /** A key pressed, with or without the left Shift key, and released. */
  datatype Stroke = Stroke(usage: byte, shift: bool)

  function Pressing(k: Stroke): Hid.Report {
    [if k.shift then 0x02 else 0, 0, k.usage, 0, 0, 0, 0, 0]
  }

  function Reports(ks: seq<Stroke>): seq<Hid.Report> {
    if ks == [] then [] else [Pressing(ks[0]), Hid.EMPTY_REPORT] + Reports(ks[1..])
  }

  const NO_FLAGS := Hid.Flags(false, false, false, false)

  function Holding(shift: bool): Hid.Flags {
    Hid.Flags(false, shift, false, false)
  }

  function Actions(ks: seq<Stroke>): (r: seq<Action>)
    ensures GoodActions(r)
  {
    if ks == [] then []
    else [KeyAction(Holding(ks[0].shift), ks[0].usage, KernelMap())] + Actions(ks[1..])
  }

  lemma {:induction false} NoPresses(f: Hid.Flags, these: Hid.Report, others: Hid.Report, n: nat)
    requires 2 <= n <= Hid.REPORT_BYTES && forall i :: 2 <= i < n ==> these[i] == 0
    ensures Presses(f, these, others, n, KernelMap()) == []
  {
    Hid.MappedExactly(0);
    if n > 2 { NoPresses(f, these, others, n - 1); }
  }

  lemma {:induction false} OnePress(f: Hid.Flags, these: Hid.Report, others: Hid.Report, n: nat)
    requires 2 < n <= Hid.REPORT_BYTES && forall i :: 3 <= i < n ==> these[i] == 0
    requires Hid.Mapped(these[2]) && !Hid.HasUsage(others, these[2])
    ensures Presses(f, these, others, n, KernelMap()) == [KeyAction(f, these[2], KernelMap())]
  {
    Hid.MappedExactly(0);
    if n > 3 {
      OnePress(f, these, others, n - 1);
    } else {
      NoPresses(f, these, others, 2);
    }
  }

  /** The two reports of a stroke mean its action, and leave no flag set. */
  lemma StrokeMeans(k: Stroke, rest: seq<Hid.Report>)
    requires Hid.Mapped(k.usage)
    ensures Meant(NO_FLAGS, Hid.EMPTY_REPORT, 0, [Pressing(k), Hid.EMPTY_REPORT] + rest, KernelMap())
            == [KeyAction(Holding(k.shift), k.usage, KernelMap())]
               + Meant(NO_FLAGS, Hid.EMPTY_REPORT, 0, rest, KernelMap())
  {
    var f, r, none := Holding(k.shift), Pressing(k), Hid.EMPTY_REPORT;
    ShiftComesAndGoes(k);
    StrokePresses(k);
    assert [r, none] + rest == [r] + ([none] + rest);
    MeantStep(NO_FLAGS, none, 0, r, [none] + rest);
    MeantStep(f, r, r[0], none, rest);
  }

  lemma StrokePresses(k: Stroke)
    requires Hid.Mapped(k.usage)
    ensures Presses(Holding(k.shift), Pressing(k), Hid.EMPTY_REPORT, Hid.REPORT_BYTES, KernelMap())
            == [KeyAction(Holding(k.shift), k.usage, KernelMap())]
    ensures Presses(NO_FLAGS, Hid.EMPTY_REPORT, Pressing(k), Hid.REPORT_BYTES, KernelMap()) == []
  {
    Hid.MappedExactly(k.usage);
    OnePress(Holding(k.shift), Pressing(k), Hid.EMPTY_REPORT, Hid.REPORT_BYTES);
    NoPresses(NO_FLAGS, Hid.EMPTY_REPORT, Pressing(k), Hid.REPORT_BYTES);
  }

  lemma MeantStep(f: Hid.Flags, last: Hid.Report, mods: byte, report: Hid.Report, rest: seq<Hid.Report>)
    ensures var f' := FlagsWith(f, mods, report[0]);
            Meant(f, last, mods, [report] + rest, KernelMap())
            == Presses(f', report, last, Hid.REPORT_BYTES, KernelMap())
               + Meant(f', report, report[0], rest, KernelMap())
  {
    assert ([report] + rest)[0] == report && ([report] + rest)[1..] == rest;
  }

  lemma ShiftComesAndGoes(k: Stroke)
    ensures FlagsWith(NO_FLAGS, 0, Pressing(k)[0]) == Holding(k.shift)
    ensures FlagsWith(Holding(k.shift), Pressing(k)[0], 0) == NO_FLAGS
  {
  }

  lemma {:induction false} StrokesMean(ks: seq<Stroke>)
    requires forall i :: 0 <= i < |ks| ==> Hid.Mapped(ks[i].usage)
    ensures Meant(NO_FLAGS, Hid.EMPTY_REPORT, 0, Reports(ks), KernelMap()) == Actions(ks)
    decreases |ks|
  {
    if ks != [] {
      StrokeMeans(ks[0], Reports(ks[1..]));
      StrokesMean(ks[1..]);
    }
  }

  /** The characters of the strokes. */
  function Spelled(ks: seq<Stroke>): string {
    if ks == [] then "" else [CharacterOf(ks[0].usage, ks[0].shift)] + Spelled(ks[1..])
  }

  function Inserts(text: string): (r: seq<Action>)
    ensures |r| == |text| && forall i :: 0 <= i < |r| ==> r[i] == Insert(text[i])
  {
    if text == "" then [] else [Insert(text[0])] + Inserts(text[1..])
  }

  lemma {:induction false} ActionsInsert(ks: seq<Stroke>)
    requires forall i :: 0 <= i < |ks| ==> HasCharacter(ks[i].usage)
    ensures Actions(ks) == Inserts(Spelled(ks)) && NulFree(Spelled(ks)) && |Spelled(ks)| == |ks|
  {
    if ks != [] {
      UsageTypes(ks[0].usage, ks[0].shift);
      ActionsInsert(ks[1..]);
    }
  }

  lemma InsertStep(s: Session, text: string, names: seq<string>) returns (s1: Session)
    requires GoodSession(s) && GoodNames(names) && NulFree(text) && |Text(s.line)| + |text| <= 254 && text != ""
    requires GoodActions(Inserts(text))
    ensures s1 == s.(line := Line(s.line.left + [text[0]], s.line.right, ""))
    ensures GoodSession(s1) && NulFree(text[1..]) && |Text(s1.line)| + |text[1..]| <= 254
    ensures GoodActions(Inserts(text[1..]))
    ensures AppliedAll(s, Inserts(text), names) == AppliedAll(s1, Inserts(text[1..]), names)
  {
    s1 := Applied(s, Insert(text[0]), names);
    AppliedKeeps(s, Insert(text[0]), names);
    assert Inserts(text)[0] == Insert(text[0]) && Inserts(text)[1..] == Inserts(text[1..]);
  }

  /** Insertions put in their text. */
  lemma {:induction false} InsertsSpell(s: Session, text: string, names: seq<string>)
    requires GoodSession(s) && GoodNames(names) && NulFree(text) && |Text(s.line)| + |text| <= 254
    requires GoodActions(Inserts(text))
    ensures var s' := AppliedAll(s, Inserts(text), names);
            GoodSession(s') && s' == s.(line := s'.line)
            && s'.line.left == s.line.left + text && s'.line.right == s.line.right
    decreases |text|
  {
    if text != "" {
      var s1 := InsertStep(s, text, names);
      InsertsSpell(s1, text[1..], names);
      assert s.line.left + [text[0]] + text[1..] == s.line.left + text;
    }
  }

  /** From power-up, with the kernel's maps: whatever characters the keys stand for, with and
      without Shift, typing them one after the other puts exactly them in at the cursor. */
  lemma TypingSpells(s: Session, ks: seq<Stroke>, names: seq<string>)
    requires GoodSession(s) && GoodNames(names) && |Text(s.line)| + |ks| <= 254
    requires forall i :: 0 <= i < |ks| ==> HasCharacter(ks[i].usage)
    ensures var sent := Hid.FedAll(Hid.INITIAL, Reports(ks)).sent;
            var s' := TypedAll(Typist(NO_FLAGS, s), sent, Tables(KernelMap(), names)).session;
            && s'.line.left == s.line.left + Spelled(ks) && s'.line.right == s.line.right
            && s'.browser == s.browser && s'.submitted == s.submitted
  {
    forall i | 0 <= i < |ks| ensures Hid.Mapped(ks[i].usage) { Hid.MappedExactly(ks[i].usage); }
    TypingFromStart(s, Reports(ks), Tables(KernelMap(), names));
    StrokesMean(ks);
    ActionsInsert(ks);
    InsertsSpell(s, Spelled(ks), names);
  }

  /** The same with Enter behind it: the shell gets the line, and the next Up brings it back. */
  lemma TypingSubmits(s: Session, ks: seq<Stroke>, names: seq<string>)
    requires GoodSession(s) && GoodNames(names) && |Text(s.line)| + |ks| <= 254 && ks != []
    requires forall i :: 0 <= i < |ks| ==> HasCharacter(ks[i].usage)
    ensures var all := ks + [Stroke(0x28, false), Stroke(0x52, false)];
            var sent := Hid.FedAll(Hid.INITIAL, Reports(all)).sent;
            var s' := TypedAll(Typist(NO_FLAGS, s), sent, Tables(KernelMap(), names)).session;
            var text := s.line.left + Spelled(ks) + s.line.right;
            s'.submitted == s.submitted + [text] && s'.line == Line(text, "", "")
  {
    var last := [Stroke(0x28, false), Stroke(0x52, false)];
    var all := ks + last;
    forall i | 0 <= i < |all| ensures Hid.Mapped(all[i].usage) { Hid.MappedExactly(all[i].usage); }
    TypingFromStart(s, Reports(all), Tables(KernelMap(), names));
    StrokesMean(all);
    ActionsConcat(ks, last);
    AppliedConcat(s, Actions(ks), Actions(last), names);
    ActionsInsert(ks);
    InsertsSpell(s, Spelled(ks), names);
    EnterAndUp(AppliedAll(s, Actions(ks), names), names);
  }

  lemma {:induction false} ActionsConcat(a: seq<Stroke>, b: seq<Stroke>)
    ensures Actions(a + b) == Actions(a) + Actions(b)
    decreases |a|
  {
    if a == [] {
      assert a + b == b;
    } else {
      assert (a + b)[1..] == a[1..] + b;
      ActionsConcat(a[1..], b);
    }
  }

  lemma EnterAndUp(s: Session, names: seq<string>)
    requires GoodSession(s) && GoodNames(names) && Text(s.line) != ""
    ensures var s' := AppliedAll(s, Actions([Stroke(0x28, false), Stroke(0x52, false)]), names);
            s'.submitted == s.submitted + [Text(s.line)] && s'.line == Line(Text(s.line), "", "")
  {
    EditingUsages(NO_FLAGS);
    ArrowUsages(NO_FLAGS);
    var keys := Actions([Stroke(0x28, false), Stroke(0x52, false)]);
    assert [Stroke(0x28, false), Stroke(0x52, false)][1..] == [Stroke(0x52, false)];
    assert keys == [Enter, Older] && keys[1..] == [Older] && [Older][1..] == [];
    AppliedKeeps(s, Enter, names);
    H.UpAfterSubmit(s.browser, Text(s.line));
  }
}
