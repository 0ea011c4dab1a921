/** The line editor: a 256-byte buffer with a cursor, edited in place, against a
  pair of strings left and right of the cursor. */
module LineEditor {
  import opened Common
  import H = History
  import Hid = HidReport

  const BUFFER_SIZE := 256
  const MAX_LINE := 254
  const BACKSPACE: char := 8 as char

  // ----- The line as two strings -----

  /** `stale` is what stands in the buffer from the end of the line to the first
      NUL: empty, except after a screen clear, which forgets the line without ending it. */
  datatype Line = Line(left: string, right: string, stale: string)

  const EMPTY_LINE := Line("", "", "")

  function Text(l: Line): string {
    l.left + l.right
  }

  predicate Fine(l: Line) {
    && NulFree(l.left) && NulFree(l.right) && NulFree(l.stale)
    && |l.left| + |l.right| + |l.stale| <= MAX_LINE
    && (l.stale != "" ==> l.left == "" && l.right == "")
  }

  function Inserted(l: Line, c: char): Line {
    if |l.left| + |l.right| < MAX_LINE then Line(l.left + [c], l.right, "") else l
  }

  /** The line with its cursor at position `n` of the left part. */
  function MovedTo(l: Line, n: nat): Line
    requires n <= |l.left|
  {
    Line(l.left[..n], l.left[n..] + l.right, l.stale)
  }

  function MovedOn(l: Line, n: nat): Line
    requires n <= |l.right|
  {
    Line(l.left + l.right[..n], l.right[n..], l.stale)
  }

  /** The line without the last characters of the left part, from `n` on. */
  function CutTo(l: Line, n: nat): Line
    requires n <= |l.left|
  {
    Line(l.left[..n], l.right, l.stale)
  }

  /** Where a run of blanks, or of other characters, that ends at `n` begins. */
  function StopBack(s: string, n: nat, blanks: bool): (r: nat)
    requires n <= |s|
    ensures r <= n
  {
    if n > 0 && (s[n - 1] == ' ') == blanks then StopBack(s, n - 1, blanks) else n
  }

  /** Where a run that begins at `n` ends. */
  function StopOn(s: string, n: nat, blanks: bool): (r: nat)
    requires n <= |s|
    ensures n <= r <= |s|
    decreases |s| - n
  {
    if n < |s| && (s[n] == ' ') == blanks then StopOn(s, n + 1, blanks) else n
  }

  /** Where the word left of the cursor begins, and where the word right of it ends. */
  function WordStart(s: string): (r: nat)
    ensures r <= |s|
  {
    StopBack(s, StopBack(s, |s|, true), false)
  }

  function WordEnd(s: string): (r: nat)
    ensures r <= |s|
  {
    StopOn(s, StopOn(s, 0, true), false)
  }

  function Loaded(text: string): Line {
    Line(text, "", "")
  }

  function Cleared(l: Line): Line {
    Line("", "", l.left + l.right + l.stale)
  }

  /** No blank, quote or backslash. */
  predicate Plain(s: string) {
    forall k :: 0 <= k < |s| ==> s[k] != ' ' && s[k] != '\t' && s[k] != '"' && s[k] != '\\'
  }

  function Matches(names: seq<string>, prefix: string): seq<string> {
    if names == [] then []
    else Matches(names[..|names| - 1], prefix)
         + (if prefix <= names[|names| - 1] then [names[|names| - 1]] else [])
  }

  /** Completion replaces a whole-line prefix of exactly one command name; otherwise
      it only measures the buffer again, which brings a stale line back. */
  function Completed(l: Line, names: seq<string>): Line {
    if l.right == "" && l.stale == "" && Plain(l.left) && |Matches(names, l.left)| == 1 then
      Loaded(Matches(names, l.left)[0])
    else
      Line(l.left, l.right + l.stale, "")
  }

  // ----- Keys -----

  datatype Action =
    | Nothing | Insert(c: char) | Backspace | DeleteWord
    | CursorLeft | CursorRight | WordLeft | WordRight
    | Older | Newer | Enter | ClearScreen | Complete

  /** The two tables of 128 characters. */
  datatype Keymap = Keymap(plain: seq<char>, shifted: seq<char>)

  predicate GoodKeymap(m: Keymap) {
    |m.plain| == 128 && |m.shifted| == 128
  }

  function ExtendedAction(f: Hid.Flags, b: byte): Action {
    if b == 0x4B then (if f.ctrl then WordLeft else CursorLeft)
    else if b == 0x4D then (if f.ctrl then WordRight else CursorRight)
    else if b == 0x48 then Older
    else if b == 0x50 then Newer
    else Nothing
  }

  /** Ctrl, Shift, Alt and Q ask the keyboard controller for a reset. */
  predicate IsReboot(f: Hid.Flags, b: byte) {
    f.ctrl && f.shift && f.alt && b == 0x10
  }

  function ActionFor(f: Hid.Flags, b: byte, m: Keymap): Action
    requires GoodKeymap(m)
  {
    if Hid.IsFlagByte(b) then Nothing
    else if f.e0 then ExtendedAction(f, b)
    else if b >= 0x80 then Nothing
    else if b == 0x1C then Enter
    else if f.ctrl && m.plain[b] == 'l' then ClearScreen
    else if f.ctrl && m.plain[b] == 'c' then Nothing
    else if b == 0x0E then (if f.ctrl then DeleteWord else Backspace)
    else if b == 0x0F then Complete
    else
      var c := if f.shift then m.shifted[b] else m.plain[b];
      if c != NUL && c != BACKSPACE && c != '\n' then Insert(c) else Nothing
  }

  // ----- One key on the whole session -----

  /** The line, the history and the lines handed to the shell. */
  datatype Session = Session(line: Line, browser: H.Browser, submitted: seq<string>)

  function WithLoaded(s: Session, r: (H.Browser, Option<string>)): Session {
    match r.1
    case None => s.(browser := r.0)
    case Some(text) => s.(browser := r.0, line := Loaded(text))
  }

  function Submitted(s: Session): Session {
    var text := Text(s.line);
    if text == "" then s.(line := EMPTY_LINE)
    else Session(EMPTY_LINE, H.Recorded(s.browser, text), s.submitted + [text])
  }

  function Applied(s: Session, a: Action, names: seq<string>): Session
    requires H.InRange(s.browser)
  {
    var l := s.line;
    match a
    case Nothing => s
    case Insert(c) => s.(line := Inserted(l, c))
    case Backspace => if l.left == "" then s else s.(line := CutTo(l, |l.left| - 1))
    case DeleteWord => s.(line := CutTo(l, WordStart(l.left)))
    case CursorLeft => if l.left == "" then s else s.(line := MovedTo(l, |l.left| - 1))
    case CursorRight => if l.right == "" then s else s.(line := MovedOn(l, 1))
    case WordLeft => s.(line := MovedTo(l, WordStart(l.left)))
    case WordRight => s.(line := MovedOn(l, WordEnd(l.right)))
    case Older => WithLoaded(s, H.Up(s.browser))
    case Newer => WithLoaded(s, H.Down(s.browser))
    case Enter => Submitted(s)
    case ClearScreen => s.(line := Cleared(l))
    case Complete => s.(line := Completed(l, names))
  }

  /** The action of a character that comes from somewhere else than the keyboard. */
  function AsciiAction(c: char): Action {
    if c == '\n' then Enter
    else if c == BACKSPACE then Backspace
    else if c == '\t' then Complete
    else if c == NUL then Nothing
    else Insert(c)
  }

  // ----- What every key keeps -----

  predicate GoodNames(names: seq<string>) {
    forall k :: 0 <= k < |names| ==> NulFree(names[k]) && |names[k]| <= MAX_LINE
  }

  /** Every history row can be loaded. */
  predicate GoodSession(s: Session) {
    && Fine(s.line) && H.InRange(s.browser)
    && (forall k :: 0 <= k < |s.browser.rows| ==> NulFree(s.browser.rows[k]) && |s.browser.rows[k]| <= MAX_LINE)
  }

  predicate GoodAction(a: Action) {
    a.Insert? ==> a.c != NUL
  }

  lemma {:induction false} MatchesAreNames(names: seq<string>, prefix: string)
    requires GoodNames(names)
    ensures forall m :: m in Matches(names, prefix) ==> NulFree(m) && |m| <= MAX_LINE && prefix <= m
    decreases |names|
  {
    if names != [] { MatchesAreNames(names[..|names| - 1], prefix); }
  }

  lemma EditingKeepsFine(s: Session, a: Action, names: seq<string>)
    requires Fine(s.line) && H.InRange(s.browser) && GoodNames(names) && GoodAction(a)
    requires !a.Older? && !a.Newer? && !a.Enter?
    ensures Fine(Applied(s, a, names).line) && Applied(s, a, names).browser == s.browser
  {
    if a.Complete? { MatchesAreNames(names, s.line.left); }
  }

  lemma HistoryKeepsGood(s: Session)
    requires GoodSession(s)
    ensures GoodSession(WithLoaded(s, H.Up(s.browser))) && GoodSession(WithLoaded(s, H.Down(s.browser)))
  {
  }

  lemma RecordedIsGood(s: Session, text: string)
    requires GoodSession(s) && NulFree(text) && |text| <= MAX_LINE
    ensures GoodSession(s.(browser := H.Recorded(s.browser, text)))
  {
  }

  lemma SubmittedIsGood(s: Session)
    requires GoodSession(s)
    ensures GoodSession(Submitted(s))
  {
    RecordedIsGood(s, Text(s.line));
  }

  lemma AppliedKeeps(s: Session, a: Action, names: seq<string>)
    requires GoodSession(s) && GoodNames(names) && GoodAction(a)
    ensures GoodSession(Applied(s, a, names))
  {
    if a.Older? || a.Newer? { HistoryKeepsGood(s); }
    else if a.Enter? { SubmittedIsGood(s); }
    else { EditingKeepsFine(s, a, names); }
  }

  function AppliedAll(s: Session, keys: seq<Action>, names: seq<string>): Session
    requires GoodSession(s) && GoodNames(names) && forall k :: 0 <= k < |keys| ==> GoodAction(keys[k])
    decreases |keys|
  {
    if keys == [] then s
    else
      AppliedKeeps(s, keys[0], names);
      AppliedAll(Applied(s, keys[0], names), keys[1..], names)
  }

  /** From an empty line and an empty history, any keys at all. */
  lemma {:induction false} SessionStaysGood(s: Session, keys: seq<Action>, names: seq<string>)
    requires GoodSession(s) && GoodNames(names) && forall k :: 0 <= k < |keys| ==> GoodAction(keys[k])
    ensures var s' := AppliedAll(s, keys, names);
            GoodSession(s') && |Text(s'.line)| <= MAX_LINE && NulFree(Text(s'.line))
    decreases |keys|
  {
    if keys != [] {
      AppliedKeeps(s, keys[0], names);
      SessionStaysGood(Applied(s, keys[0], names), keys[1..], names);
    }
  }

  // ----- What the keys mean to each other -----

  /** Moving the cursor never changes the text. */
  lemma MovesKeepText(s: Session, a: Action, names: seq<string>)
    requires GoodSession(s) && a in {CursorLeft, CursorRight, WordLeft, WordRight}
    ensures Text(Applied(s, a, names).line) == Text(s.line)
  {
  }

  /** Deleting a word removes exactly what moving a word left crosses. */
  lemma DeleteWordIsWordLeft(s: Session, names: seq<string>)
    requires GoodSession(s)
    ensures var moved, cut := Applied(s, WordLeft, names).line, Applied(s, DeleteWord, names).line;
            && cut.left == moved.left
            && moved.right == s.line.left[|cut.left|..] + cut.right
            && Text(s.line) == cut.left + s.line.left[|cut.left|..] + cut.right
  {
  }

  /** The span between two word positions: non-blanks after the cut, then blanks. */
  lemma {:induction false} WordStartMeaning(s: string)
    ensures var w, b := WordStart(s), StopBack(s, |s|, true);
            && w <= b && (forall k :: w <= k < b ==> s[k] != ' ') && (forall k :: b <= k < |s| ==> s[k] == ' ')
            && (w > 0 ==> s[w - 1] == ' ') && (b > 0 ==> w < b)
  {
    StopBackMeaning(s, |s|, true);
    StopBackMeaning(s, StopBack(s, |s|, true), false);
  }

  lemma {:induction false} StopBackMeaning(s: string, n: nat, blanks: bool)
    requires n <= |s|
    ensures var b := StopBack(s, n, blanks);
            && (forall k :: b <= k < n ==> (s[k] == ' ') == blanks)
            && (b > 0 ==> (s[b - 1] == ' ') != blanks)
            && (n > 0 && (s[n - 1] == ' ') == blanks ==> b < n)
  {
    if n > 0 && (s[n - 1] == ' ') == blanks { StopBackMeaning(s, n - 1, blanks); }
  }

  /** The same to the right: blanks first, then non-blanks up to the next blank or the end. */
  lemma {:induction false} WordEndMeaning(s: string)
    ensures var w, b := WordEnd(s), StopOn(s, 0, true);
            && b <= w && (forall k :: 0 <= k < b ==> s[k] == ' ') && (forall k :: b <= k < w ==> s[k] != ' ')
            && (w < |s| ==> s[w] == ' ') && (b < |s| ==> b < w)
  {
    StopOnMeaning(s, 0, true);
    StopOnMeaning(s, StopOn(s, 0, true), false);
  }

  lemma {:induction false} StopOnMeaning(s: string, n: nat, blanks: bool)
    requires n <= |s|
    ensures var b := StopOn(s, n, blanks);
            && (forall k :: n <= k < b ==> (s[k] == ' ') == blanks)
            && (b < |s| ==> (s[b] == ' ') != blanks)
            && (n < |s| && (s[n] == ' ') == blanks ==> n < b)
    decreases |s| - n
  {
    if n < |s| && (s[n] == ' ') == blanks { StopOnMeaning(s, n + 1, blanks); }
  }

  /** Backspace takes back an insertion. */
  lemma BackspaceUndoesInsert(s: Session, c: char, names: seq<string>)
    requires GoodSession(s) && c != NUL && |Text(s.line)| < MAX_LINE
    ensures Applied(Applied(s, Insert(c), names), Backspace, names) == s.(line := s.line.(stale := ""))
  {
  }

  lemma {:induction false} EverythingMatchesNothing(names: seq<string>)
    ensures Matches(names, "") == names
    decreases |names|
  {
    if names != [] {
      EverythingMatchesNothing(names[..|names| - 1]);
      assert "" <= names[|names| - 1];
    }
  }

  /** A cleared screen does not clear the line for good: the completion key brings
      back whatever stood in the buffer, so the line stays empty exactly when it
      was empty (for a command table with more than one name). */
  lemma ClearThenComplete(s: Session, names: seq<string>)
    requires GoodSession(s) && |names| > 1
    ensures var l := Applied(Applied(s, ClearScreen, names), Complete, names).line;
            && Text(l) == Text(s.line) + s.line.stale && l.stale == ""
            && (Text(l) == "" <==> Text(s.line) == "" && s.line.stale == "")
  {
    EverythingMatchesNothing(names);
  }

  // ----- What each key does to the line -----

  /** The session after one scancode. */
  function Pressed(s: Session, f: Hid.Flags, b: byte, m: Keymap, names: seq<string>): Session
    requires H.InRange(s.browser) && GoodKeymap(m)
  {
    Applied(s, ActionFor(f, b, m), names)
  }

  /** A key that stands for a character puts it in at the cursor, up to 254 characters. */
  lemma CharacterKey(s: Session, f: Hid.Flags, b: byte, m: Keymap, names: seq<string>)
    requires GoodSession(s) && GoodKeymap(m) && b < 0x80 && !f.e0 && !f.ctrl
    requires b !in {0x1D, 0x2A, 0x36, 0x38, 0x1C, 0x0E, 0x0F}
    ensures var c := if f.shift then m.shifted[b] else m.plain[b];
            var l, l' := s.line, Pressed(s, f, b, m, names).line;
            if c == 0 as char || c == 8 as char || c == '\n' || |Text(l)| >= 254 then l' == l
            else l'.left == l.left + [c] && l'.right == l.right
  {
  }

  /** Enter: the text is submitted and the line is empty; an empty line is not submitted. */
  lemma EnterKey(s: Session, f: Hid.Flags, m: Keymap, names: seq<string>)
    requires GoodSession(s) && GoodKeymap(m) && !f.e0
    ensures var s' := Pressed(s, f, 0x1C, m, names);
            && s'.line == Line("", "", "")
            && s'.submitted == s.submitted + (if Text(s.line) == "" then [] else [Text(s.line)])
  {
  }

  /** Backspace takes the character left of the cursor; with Ctrl the blanks and the word there. */
  lemma BackspaceKey(s: Session, f: Hid.Flags, m: Keymap, names: seq<string>)
    requires GoodSession(s) && GoodKeymap(m) && !f.e0 && m.plain[0x0E] !in {'l', 'c'}
    ensures var l, l' := s.line, Pressed(s, f, 0x0E, m, names).line;
            && l'.right == l.right
            && (if f.ctrl then l'.left == l.left[..WordStart(l.left)]
                else l'.left == if l.left == "" then "" else l.left[..|l.left| - 1])
  {
  }

  /** Left and right arrow move the cursor over one character; with Ctrl over blanks and
      a word. The text stays. */
  lemma ArrowKey(s: Session, f: Hid.Flags, m: Keymap, names: seq<string>)
    requires GoodSession(s) && GoodKeymap(m) && f.e0
    ensures var l, l' := s.line, Pressed(s, f, 0x4B, m, names).line;
            && Text(l') == Text(l)
            && (if f.ctrl then |l'.left| == WordStart(l.left)
                else |l'.left| == if l.left == "" then 0 else |l.left| - 1)
    ensures var l, l' := s.line, Pressed(s, f, 0x4D, m, names).line;
            && Text(l') == Text(l)
            && (if f.ctrl then |l'.right| == |l.right| - WordEnd(l.right)
                else |l'.right| == if l.right == "" then 0 else |l.right| - 1)
  {
  }

  /** Up and down arrow load the older and the newer history line, with the cursor at its end. */
  lemma HistoryKey(s: Session, f: Hid.Flags, m: Keymap, names: seq<string>)
    requires GoodSession(s) && GoodKeymap(m) && f.e0
    ensures var s', up := Pressed(s, f, 0x48, m, names), H.Up(s.browser);
            s'.browser == up.0 && s'.line == if up.1.Some? then Line(up.1.value, "", "") else s.line
    ensures var s', down := Pressed(s, f, 0x50, m, names), H.Down(s.browser);
            s'.browser == down.0 && s'.line == if down.1.Some? then Line(down.1.value, "", "") else s.line
  {
  }

  /** Ctrl+L leaves an empty line and what was there as stale text; Ctrl+C and every break leave the line alone. */
  lemma ControlKey(s: Session, f: Hid.Flags, b: byte, m: Keymap, names: seq<string>)
    requires GoodSession(s) && GoodKeymap(m) && !f.e0 && b !in {0x1D, 0x2A, 0x36, 0x38, 0x1C}
    ensures b < 0x80 && f.ctrl && m.plain[b] == 'l' ==>
              Pressed(s, f, b, m, names).line == Line("", "", Text(s.line) + s.line.stale)
    ensures b >= 0x80 || (f.ctrl && m.plain[b] == 'c') ==> Pressed(s, f, b, m, names) == s
  {
  }

  /** A character that does not come from the keyboard: line feed submits, backspace takes
      a character, a tab completes, NUL does nothing, and any other is put in. */
  lemma AsciiCharacter(s: Session, c: char, names: seq<string>)
    requires GoodSession(s)
    ensures var s' := Applied(s, AsciiAction(c), names);
            if c == '\n' then s' == Applied(s, Enter, names)
            else if c == '\t' then s' == Applied(s, Complete, names)
            else if c == 8 as char then
              s'.line.left == (if s.line.left == "" then "" else s.line.left[..|s.line.left| - 1])
              && s'.line.right == s.line.right
            else if c == 0 as char || |Text(s.line)| >= 254 then s' == s
            else s'.line == Line(s.line.left + [c], s.line.right, "")
  {
  }

  /** Up after Enter brings back what was submitted. */
  lemma UpAfterEnter(s: Session, f: Hid.Flags, f': Hid.Flags, m: Keymap, names: seq<string>)
    requires GoodSession(s) && GoodKeymap(m) && !f.e0 && f'.e0 && Text(s.line) != ""
    ensures GoodSession(Pressed(s, f, 0x1C, m, names))
    ensures Pressed(Pressed(s, f, 0x1C, m, names), f', 0x48, m, names).line == Line(Text(s.line), "", "")
  {
    AppliedKeeps(s, Enter, []);
    H.UpAfterSubmit(s.browser, Text(s.line));
    HistoryKey(Pressed(s, f, 0x1C, m, names), f', m, names);
  }

  lemma {:induction false} NoMatch(names: seq<string>, prefix: string)
    requires forall j :: 0 <= j < |names| ==> !(prefix <= names[j])
    ensures Matches(names, prefix) == []
  {
    if names != [] { NoMatch(names[..|names| - 1], prefix); }
  }

  lemma {:induction false} OneMatch(names: seq<string>, prefix: string, k: nat)
    requires k < |names| && prefix <= names[k] && forall j :: 0 <= j < |names| && j != k ==> !(prefix <= names[j])
    ensures Matches(names, prefix) == [names[k]]
  {
    var n := |names| - 1;
    if k == n {
      NoMatch(names[..n], prefix);
    } else {
      OneMatch(names[..n], prefix, k);
    }
  }

  /** As many matches as there are positions given, at least. */
  lemma {:induction false} ManyMatches(names: seq<string>, prefix: string, i: nat, j: nat)
    requires i <= j < |names| && prefix <= names[i] && prefix <= names[j]
    ensures |Matches(names, prefix)| >= if i < j then 2 else 1
  {
    var n := |names| - 1;
    if j < n {
      ManyMatches(names[..n], prefix, i, j);
    } else if i < j {
      ManyMatches(names[..n], prefix, i, i);
    }
  }

  /** The completion key, on a line without blanks, quotes and backslashes whose cursor is
      at its end: the only name that begins with it takes its place. */
  lemma CompletionKey(s: Session, f: Hid.Flags, m: Keymap, names: seq<string>, k: nat)
    requires GoodSession(s) && GoodKeymap(m) && !f.e0 && m.plain[0x0F] !in {'l', 'c'}
    requires s.line.right == "" && s.line.stale == ""
    requires forall i :: 0 <= i < |s.line.left| ==> s.line.left[i] !in {' ', '\t', '"', '\\'}
    requires k < |names| && s.line.left <= names[k]
    requires forall j :: 0 <= j < |names| && j != k ==> !(s.line.left <= names[j])
    ensures Pressed(s, f, 0x0F, m, names).line == Line(names[k], "", "")
  {
    OneMatch(names, s.line.left, k);
  }

  /** With two such names, or none, or a character that is not plain, or text right of the
      cursor, the line stays as it is. */
  lemma NoCompletion(s: Session, f: Hid.Flags, m: Keymap, names: seq<string>)
    requires GoodSession(s) && GoodKeymap(m) && !f.e0 && m.plain[0x0F] !in {'l', 'c'} && s.line.stale == ""
    requires || (forall j :: 0 <= j < |names| ==> !(s.line.left <= names[j]))
             || (exists i, j :: 0 <= i < j < |names| && s.line.left <= names[i] && s.line.left <= names[j])
             || (exists i :: 0 <= i < |s.line.left| && s.line.left[i] in {' ', '\t', '"', '\\'})
             || s.line.right != ""
    ensures Pressed(s, f, 0x0F, m, names).line == s.line
  {
    if i, j :| 0 <= i < j < |names| && s.line.left <= names[i] && s.line.left <= names[j] {
      ManyMatches(names, s.line.left, i, j);
    } else if forall j :: 0 <= j < |names| ==> !(s.line.left <= names[j]) {
      NoMatch(names, s.line.left);
    }
  }

  // ----- The buffer in memory -----

  /** The buffer shows a line: both parts, what is stale, and a terminator. */
  ghost predicate Shows(buffer: seq<char>, index: nat, cursor: nat, l: Line) {
    && |buffer| == 256 && Fine(l)
    && cursor == |l.left| && index == |l.left| + |l.right|
    && buffer[..index + |l.stale|] == l.left + l.right + l.stale
    && buffer[index + |l.stale|] == NUL
  }

  /** The C string at the start of a buffer that shows a line. */
  predicate IsLength(buffer: seq<char>, n: nat) {
    n < |buffer| && buffer[n] == NUL && forall k :: 0 <= k < n ==> buffer[k] != NUL
  }

  lemma ShownLength(buffer: seq<char>, index: nat, cursor: nat, l: Line)
    requires Shows(buffer, index, cursor, l)
    ensures IsLength(buffer, |l.left| + |l.right| + |l.stale|)
    ensures forall n: nat :: IsLength(buffer, n) ==> n == |l.left| + |l.right| + |l.stale|
  {
  }

  /** A buffer that begins with a terminated text shows that text, with the cursor behind it. */
  lemma ShowsLoaded(buffer: seq<char>, text: string)
    requires |buffer| == BUFFER_SIZE && |text| <= MAX_LINE && NulFree(text)
    requires buffer[..|text|] == text && buffer[|text|] == NUL
    ensures Shows(buffer, |text|, |text|, Loaded(text))
    ensures IsLength(buffer, |text|) && forall n: nat :: IsLength(buffer, n) ==> n == |text|
  {
  }

  lemma MovedToStep(l: Line, n: nat)
    requires 0 < n <= |l.left|
    ensures MovedTo(MovedTo(l, n), n - 1) == MovedTo(l, n - 1)
  {
  }

  lemma MovedOnStep(l: Line, n: nat)
    requires n < |l.right|
    ensures MovedOn(MovedOn(l, n), 1) == MovedOn(l, n + 1)
  {
  }

  class Editor {
    const buffer: array<char>
    var bufferIndex: nat
    var cursor: nat
    const history: H.Rows
    var ctrlOn: bool
    var shiftOn: bool
    var altOn: bool
    var extended: bool
    var submitted: seq<string>
    var reboots: nat
    ghost var line: Line

    /** The buffer and its indices show the line. */
    ghost predicate LineValid()
      reads this, buffer
    {
      Shows(buffer[..], bufferIndex, cursor, line)
    }

    ghost predicate Valid()
      reads this, buffer, history, history.rows
    {
      LineValid() && history.Valid() && GoodSession(Abs())
    }

    ghost function Abs(): Session
      requires history.rows.Length == H.SIZE && history.count <= H.SIZE
      reads this, history, history.rows
    {
      Session(line, history.Abs(), submitted)
    }

    function Keys(): Hid.Flags
      reads this
    {
      Hid.Flags(ctrlOn, shiftOn, altOn, extended)
    }

    constructor ()
      ensures Valid() && fresh(buffer) && fresh(history) && fresh(history.rows)
      ensures Abs() == Session(EMPTY_LINE, H.Browser([], -1), []) && Keys() == Hid.Flags(false, false, false, false)
    {
      buffer := new char[BUFFER_SIZE](_ => NUL);
      bufferIndex, cursor, submitted, line := 0, 0, [], EMPTY_LINE;
      ctrlOn, shiftOn, altOn, extended, reboots := false, false, false, false, 0;
      history := new H.Rows();
    }

    /** The three modifier flags are forgotten; a prefix is not. */
    method ClearFlags()
      modifies this`ctrlOn, this`shiftOn, this`altOn
      ensures Keys() == Hid.Flags(false, false, false, old(Keys()).e0)
    {
      shiftOn, ctrlOn, altOn := false, false, false;
    }

    // ----- String helpers on the buffer -----

    method Strlen() returns (n: nat)
      requires exists k: nat :: IsLength(buffer[..], k)
      ensures IsLength(buffer[..], n)
    {
      ghost var end: nat :| IsLength(buffer[..], end);
      n := 0;
      while buffer[n] != NUL
        invariant n <= end && forall k :: 0 <= k < n ==> buffer[k] != NUL
        decreases end - n
      {
        n := n + 1;
      }
    }

    method Strcpy(text: string)
      requires buffer.Length == BUFFER_SIZE && |text| < BUFFER_SIZE
      modifies buffer
      ensures buffer[..|text|] == text && buffer[|text|] == NUL
    {
      for i := 0 to |text|
        invariant buffer[..i] == text[..i]
      {
        buffer[i] := text[i];
      }
      assert buffer[..|text|] == text[..|text|] == text;
      buffer[|text|] := NUL;
      assert buffer[..|text|] == text;
    }

    /** Removes one character of the text; the rest moves down. */
    method RemoveChar(pos: nat)
      requires buffer.Length == BUFFER_SIZE && pos < bufferIndex < BUFFER_SIZE
      modifies this`bufferIndex, buffer
      ensures bufferIndex == old(bufferIndex) - 1 && buffer[bufferIndex] == NUL
      ensures buffer[..bufferIndex] == old(buffer[..pos]) + old(buffer[pos + 1..bufferIndex])
    {
      ghost var was := buffer[..];
      for i := pos to bufferIndex - 1
        invariant bufferIndex == old(bufferIndex)
        invariant forall k :: 0 <= k < pos ==> buffer[k] == was[k]
        invariant forall k :: pos <= k < i ==> buffer[k] == was[k + 1]
        invariant forall k :: i <= k < BUFFER_SIZE ==> buffer[k] == was[k]
      {
        buffer[i] := buffer[i + 1];
      }
      bufferIndex := bufferIndex - 1;
      buffer[bufferIndex] := NUL;
      assert buffer[..pos] == was[..pos];
      assert buffer[pos..bufferIndex] == was[pos + 1..bufferIndex + 1];
      assert buffer[..bufferIndex] == buffer[..pos] + buffer[pos..bufferIndex];
    }

    // ----- Editing -----

    method InsertChar(c: char)
      requires Valid() && c != NUL
      modifies this`bufferIndex, this`cursor, this`line, buffer
      ensures Valid() && Abs() == old(Abs()).(line := Inserted(old(line), c))
    {
      if bufferIndex < MAX_LINE {
        assert buffer[..cursor] == line.left && buffer[cursor..bufferIndex] == line.right by {
          assert buffer[..cursor] == buffer[..bufferIndex + |line.stale|][..cursor];
          assert buffer[cursor..bufferIndex] == buffer[..bufferIndex + |line.stale|][cursor..bufferIndex];
        }
        PlaceChar(c);
        cursor := cursor + 1;
        line := Inserted(line, c);
      }
    }

    method PlaceChar(c: char)
      requires Valid() && bufferIndex < MAX_LINE
      modifies this`bufferIndex, buffer
      ensures bufferIndex == old(bufferIndex) + 1 && buffer[bufferIndex] == NUL
      ensures buffer[..bufferIndex] == old(buffer[..cursor]) + [c] + old(buffer[cursor..bufferIndex])
    {
      ghost var left, right := buffer[..cursor], buffer[cursor..bufferIndex];
      OpenGap();
      buffer[cursor] := c;
      bufferIndex := bufferIndex + 1;
      buffer[bufferIndex] := NUL;
      assert buffer[..cursor] == left && buffer[cursor + 1..bufferIndex] == right;
      assert buffer[..bufferIndex] == buffer[..cursor] + [c] + buffer[cursor + 1..bufferIndex];
    }

    /** Moves what stands right of the cursor up by one. */
    method OpenGap()
      requires Valid() && bufferIndex < MAX_LINE
      modifies buffer
      ensures buffer[..cursor] == old(buffer[..cursor])
      ensures buffer[cursor + 1..bufferIndex + 1] == old(buffer[cursor..bufferIndex])
    {
      ghost var was := buffer[..];
      for i := bufferIndex downto cursor
        invariant forall k :: 0 <= k <= i ==> buffer[k] == was[k]
        invariant forall k :: i < k <= bufferIndex ==> buffer[k] == was[k - 1]
      {
        buffer[i + 1] := buffer[i];
      }
      assert buffer[..cursor] == was[..cursor];
      assert buffer[cursor + 1..bufferIndex + 1] == was[cursor..bufferIndex];
    }

    method RemoveBeforeCursor()
      requires Valid() && cursor > 0
      modifies this`bufferIndex, this`cursor, this`line, buffer
      ensures Valid() && Abs() == old(Abs()).(line := CutTo(old(line), |old(line).left| - 1))
      ensures cursor == old(cursor) - 1
    {
      ghost var whole, cut := buffer[..bufferIndex], CutTo(line, |line.left| - 1);
      assert whole == line.left + line.right + line.stale == line.left + line.right;
      assert buffer[..cursor - 1] == whole[..cursor - 1] == cut.left;
      assert buffer[cursor..bufferIndex] == whole[cursor..] == cut.right;
      RemoveChar(cursor - 1);
      cursor := cursor - 1;
      line := cut;
      assert buffer[..bufferIndex] == cut.left + cut.right == cut.left + cut.right + cut.stale;
    }

    method DeleteWordBack()
      requires Valid()
      modifies this`bufferIndex, this`cursor, this`line, buffer
      ensures Valid() && Abs() == old(Abs()).(line := CutTo(old(line), WordStart(old(line).left)))
    {
      ghost var l := line;
      DeleteOver(l, true);
      DeleteOver(l, false);
    }

    /** One of the two loops of the word deletion: over blanks, or over a word. */
    method DeleteOver(ghost l: Line, blanks: bool)
      requires Valid() && cursor <= |l.left| && line == CutTo(l, cursor)
      modifies this`bufferIndex, this`cursor, this`line, buffer
      ensures cursor <= |l.left| && Valid() && Abs() == old(Abs()).(line := CutTo(l, cursor))
      ensures cursor == StopBack(l.left, old(cursor), blanks)
    {
      while cursor > 0 && (buffer[cursor - 1] == ' ') == blanks
        invariant Valid() && history.Abs() == old(history.Abs()) && submitted == old(submitted)
        invariant cursor <= |l.left| && line == CutTo(l, cursor)
        invariant StopBack(l.left, cursor, blanks) == StopBack(l.left, old(cursor), blanks)
        decreases cursor
      {
        CutChar(l);
        RemoveBeforeCursor();
      }
      if cursor > 0 { CutChar(l); }
    }

    lemma CutChar(l: Line)
      requires Valid() && 0 < cursor <= |l.left| && line == CutTo(l, cursor)
      ensures buffer[cursor - 1] == l.left[cursor - 1]
    {
    }

    /** The cursor steps over one character; the buffer stays. */
    method StepBack()
      requires LineValid() && cursor > 0
      modifies this`cursor, this`line
      ensures LineValid() && line == MovedTo(old(line), |old(line).left| - 1)
      ensures cursor == old(cursor) - 1
    {
      cursor := cursor - 1;
      line := MovedTo(line, |line.left| - 1);
      assert old(line).left + old(line).right + line.stale == line.left + line.right + line.stale;
    }

    method StepOn()
      requires LineValid() && cursor < bufferIndex
      modifies this`cursor, this`line
      ensures LineValid() && line == MovedOn(old(line), 1)
      ensures cursor == old(cursor) + 1
    {
      cursor := cursor + 1;
      line := MovedOn(line, 1);
      assert old(line).left + old(line).right + line.stale == line.left + line.right + line.stale;
    }

    method WordLeftMove()
      requires Valid()
      modifies this`cursor, this`line
      ensures Valid() && Abs() == old(Abs()).(line := MovedTo(old(line), WordStart(old(line).left)))
    {
      ghost var l := line;
      assert MovedTo(l, |l.left|) == l;
      BackOver(l, true);
      BackOver(l, false);
    }

    method BackOne(ghost l: Line)
      requires LineValid() && 0 < cursor <= |l.left| && line == MovedTo(l, cursor)
      modifies this`cursor, this`line
      ensures LineValid() && cursor == old(cursor) - 1 && line == MovedTo(l, cursor)
    {
      MovedToStep(l, cursor);
      StepBack();
    }

    /** One of the two loops of a word move: over blanks, or over a word. */
    method BackOver(ghost l: Line, blanks: bool)
      requires LineValid() && cursor <= |l.left| && line == MovedTo(l, cursor)
      modifies this`cursor, this`line
      ensures cursor <= |l.left| && LineValid() && line == MovedTo(l, cursor)
      ensures cursor == StopBack(l.left, old(cursor), blanks)
    {
      while cursor > 0 && (buffer[cursor - 1] == ' ') == blanks
        invariant LineValid() && cursor <= |l.left| && line == MovedTo(l, cursor)
        invariant StopBack(l.left, cursor, blanks) == StopBack(l.left, old(cursor), blanks)
        decreases cursor
      {
        LeftChar(l);
        BackOne(l);
      }
      if cursor > 0 { LeftChar(l); }
    }

    lemma LeftChar(l: Line)
      requires LineValid() && 0 < cursor <= |l.left| && line == MovedTo(l, cursor)
      ensures buffer[cursor - 1] == l.left[cursor - 1]
    {
    }

    lemma RightChar(l: Line, n: nat)
      requires LineValid() && n < |l.right| && line == MovedOn(l, n) && cursor == |l.left| + n
      ensures cursor < bufferIndex && buffer[cursor] == l.right[n]
    {
    }

    method WordRightMove()
      requires Valid()
      modifies this`cursor, this`line
      ensures Valid() && Abs() == old(Abs()).(line := MovedOn(old(line), WordEnd(old(line).right)))
    {
      ghost var l := line;
      assert MovedOn(l, 0) == l;
      ghost var n := OnOver(l, 0, true);
      n := OnOver(l, n, false);
    }

    method OnOne(ghost l: Line, ghost n: nat)
      requires LineValid() && n < |l.right| && line == MovedOn(l, n) && cursor == |l.left| + n < bufferIndex
      modifies this`cursor, this`line
      ensures LineValid() && cursor == old(cursor) + 1 && line == MovedOn(l, n + 1)
    {
      MovedOnStep(l, n);
      StepOn();
    }

    method OnOver(ghost l: Line, ghost start: nat, blanks: bool) returns (ghost n: nat)
      requires LineValid() && start <= |l.right| && line == MovedOn(l, start) && cursor == |l.left| + start
      modifies this`cursor, this`line
      ensures n == StopOn(l.right, start, blanks)
      ensures LineValid() && line == MovedOn(l, n) && cursor == |l.left| + n
    {
      n := start;
      while cursor < bufferIndex && (buffer[cursor] == ' ') == blanks
        invariant LineValid() && n <= |l.right| && line == MovedOn(l, n) && cursor == |l.left| + n
        invariant StopOn(l.right, n, blanks) == StopOn(l.right, start, blanks)
        decreases bufferIndex - cursor
      {
        RightChar(l, n);
        OnOne(l, n);
        n := n + 1;
      }
      if n < |l.right| { RightChar(l, n); }
    }

    // ----- Whole lines -----

    method LoadLine(text: string)
      requires Valid() && NulFree(text) && |text| <= MAX_LINE
      modifies this`bufferIndex, this`cursor, this`line, buffer
      ensures Valid() && Abs() == old(Abs()).(line := Loaded(text))
    {
      cursor := 0;
      Strcpy(text);
      ShowsLoaded(buffer[..], text);
      bufferIndex := Strlen();
      cursor := bufferIndex;
      line := Loaded(text);
    }

    method HistoryUp()
      requires Valid()
      modifies this`bufferIndex, this`cursor, this`line, buffer, history`pos
      ensures Valid() && Abs() == WithLoaded(old(Abs()), H.Up(old(Abs()).browser))
    {
      var text := history.Older();
      if text.Some? { LoadLine(text.value); }
    }

    method HistoryDown()
      requires Valid()
      modifies this`bufferIndex, this`cursor, this`line, buffer, history`pos
      ensures Valid() && Abs() == WithLoaded(old(Abs()), H.Down(old(Abs()).browser))
    {
      var text := history.Newer();
      if text.Some? { LoadLine(text.value); }
    }

    method RunBuffer()
      requires Valid()
      modifies this`bufferIndex, this`cursor, this`line, this`submitted, buffer, history, history.rows
      ensures Valid() && Abs() == Submitted(old(Abs()))
    {
      Terminate();
      if bufferIndex > 0 { Submit(); }
      EmptyLine();
    }

    /** A terminator after the text, which cuts off what is stale behind it. */
    method Terminate()
      requires Valid()
      modifies this`line, buffer
      ensures Valid() && Abs() == old(Abs()).(line := Line(old(line).left, old(line).right, ""))
    {
      ghost var text := buffer[..bufferIndex];
      assert text == line.left + line.right by {
        assert text == buffer[..bufferIndex + |line.stale|][..bufferIndex];
      }
      buffer[bufferIndex] := NUL;
      line := Line(line.left, line.right, "");
      assert buffer[..bufferIndex] == text;
      assert line.left + line.right + line.stale == text;
    }

    /** The text goes to the history and to the shell. */
    method Submit()
      requires Valid() && line.stale == "" && bufferIndex > 0
      modifies this`submitted, history, history.rows
      ensures Valid()
      ensures Abs() == Session(old(line), H.Recorded(old(Abs()).browser, Text(old(line))),
                               old(submitted) + [Text(old(line))])
    {
      var text := buffer[..bufferIndex];
      assert text == line.left + line.right + line.stale == Text(line);
      RecordedIsGood(Abs(), text);
      history.Add(text);
      submitted := submitted + [text];
    }

    method EmptyLine()
      requires Valid()
      modifies this`bufferIndex, this`cursor, this`line, buffer
      ensures Valid() && Abs() == old(Abs()).(line := EMPTY_LINE)
    {
      bufferIndex := 0;
      cursor := 0;
      buffer[0] := NUL;
      line := EMPTY_LINE;
    }

    method ClearLine()
      requires Valid()
      modifies this`bufferIndex, this`cursor, this`line
      ensures Valid() && Abs() == old(Abs()).(line := Cleared(old(line)))
    {
      bufferIndex := 0;
      cursor := 0;
      line := Cleared(line);
      assert line.left + line.right + line.stale == old(line).left + old(line).right + old(line).stale;
    }

    // ----- Completion -----

    /** The only name that begins with the text, if there is exactly one. */
    method UniqueMatch(names: seq<string>, len: nat) returns (found: bool, name: string)
      requires buffer.Length == BUFFER_SIZE && len < BUFFER_SIZE
      ensures found <==> |Matches(names, buffer[..len])| == 1
      ensures found ==> name == Matches(names, buffer[..len])[0]
    {
      var matches := 0;
      name := "";
      for i := 0 to |names|
        invariant matches == |Matches(names[..i], buffer[..len])|
        invariant matches > 0 ==> name == Matches(names[..i], buffer[..len])[matches - 1]
      {
        assert names[..i + 1][..i] == names[..i];
        var same := HasPrefix(names[i], len);
        if same {
          matches := matches + 1;
          name := names[i];
        }
      }
      assert names[..|names|] == names;
      found := matches == 1;
    }

    /** The bounded comparison of a name with the buffer. */
    method HasPrefix(name: string, len: nat) returns (same: bool)
      requires buffer.Length == BUFFER_SIZE && len < BUFFER_SIZE
      ensures same <==> buffer[..len] <= name
    {
      for i := 0 to len
        invariant i <= |name| && buffer[..i] == name[..i]
      {
        if i == |name| || name[i] != buffer[i] { return false; }
      }
      same := true;
    }

    /** Writes the rest of a name behind the prefix that is already there. */
    method FillIn(name: string, len: nat)
      requires buffer.Length == BUFFER_SIZE && len <= |name| <= MAX_LINE && buffer[..len] == name[..len]
      modifies buffer
      ensures buffer[..|name|] == name && buffer[|name|] == NUL
    {
      for i := len to |name|
        invariant buffer[..i] == name[..i]
      {
        buffer[i] := name[i];
      }
      assert buffer[..|name|] == name[..|name|] == name;
      buffer[|name|] := NUL;
      assert buffer[..|name|] == name;
    }

    method IsPlain(len: nat) returns (plain: bool)
      requires buffer.Length == BUFFER_SIZE && len < BUFFER_SIZE
      ensures plain <==> Plain(buffer[..len])
    {
      for i := 0 to len
        invariant Plain(buffer[..i])
      {
        if buffer[i] == ' ' || buffer[i] == '\t' || buffer[i] == '"' || buffer[i] == '\\' {
          assert !Plain(buffer[..len]) by { assert buffer[..len][i] == buffer[i]; }
          return false;
        }
      }
      plain := true;
    }

    /** The names that begin with the text, in order. */
    method ListMatches(names: seq<string>, len: nat) returns (listed: seq<string>)
      requires buffer.Length == BUFFER_SIZE && len < BUFFER_SIZE
      ensures listed == Matches(names, buffer[..len])
    {
      listed := [];
      for i := 0 to |names|
        invariant listed == Matches(names[..i], buffer[..len])
      {
        assert names[..i + 1][..i] == names[..i];
        var same := HasPrefix(names[i], len);
        if same { listed := listed + [names[i]]; }
      }
      assert names[..|names|] == names;
    }

    /** `cmd_autocomplete`: whether the buffer was completed, where its text ends then,
        and the names that are printed when there are several. */
    method Autocomplete(names: seq<string>) returns (done: bool, end: nat, listed: seq<string>)
      requires Valid() && GoodNames(names)
      modifies buffer
      ensures done <==> line.right == "" && line.stale == "" && Plain(line.left) && |Matches(names, line.left)| == 1
      ensures done ==> var m := Matches(names, line.left)[0];
                       end == |m| <= MAX_LINE && buffer[..end] == m && buffer[end] == NUL
      ensures !done ==> buffer[..] == old(buffer[..])
      ensures listed == if line.right == "" && line.stale == "" && Plain(line.left) && |Matches(names, line.left)| > 1
                        then Matches(names, line.left) else []
    {
      ShownLength(buffer[..], bufferIndex, cursor, line);
      end, listed := 0, [];
      var len := Strlen();
      if cursor != len { return false, 0, []; }
      assert line.left + line.right + line.stale == line.left;
      assert buffer[..len] == line.left;
      var plain := IsPlain(len);
      if !plain { return false, 0, []; }
      var found, m := UniqueMatch(names, len);
      if !found {
        listed := ListMatches(names, len);
        return false, 0, listed;
      }
      MatchesAreNames(names, line.left);
      assert m in Matches(names, line.left);
      FillIn(m, len);
      done, end := true, |m|;
    }

    method TryAutocomplete(names: seq<string>)
      requires Valid() && GoodNames(names)
      modifies this`bufferIndex, this`cursor, this`line, buffer
      ensures Valid() && Abs() == old(Abs()).(line := Completed(old(line), names))
    {
      var done, end, _ := Autocomplete(names);
      if done {
        MatchesAreNames(names, line.left);
        ghost var m := Matches(names, line.left)[0];
        assert m in Matches(names, line.left);
        ShowsLoaded(buffer[..], m);
        bufferIndex := Strlen();
        cursor := end;
        line := Loaded(m);
      } else {
        Remeasure();
      }
    }

    /** The length is read from the buffer again; the cursor stays. */
    method Remeasure()
      requires Valid()
      modifies this`bufferIndex, this`line
      ensures Valid() && line == Line(old(line).left, old(line).right + old(line).stale, "")
      ensures Abs() == old(Abs()).(line := line)
    {
      ShownLength(buffer[..], bufferIndex, cursor, line);
      bufferIndex := Strlen();
      line := Line(line.left, line.right + line.stale, "");
      assert line.left + line.right + line.stale == old(line).left + old(line).right + old(line).stale;
    }

    // ----- One scancode -----

    method Apply(a: Action, names: seq<string>)
      requires Valid() && GoodNames(names) && GoodAction(a)
      modifies this`bufferIndex, this`cursor, this`line, this`submitted, buffer, history, history.rows
      ensures Valid() && Abs() == Applied(old(Abs()), a, names)
    {
      match a {
        case Nothing =>
        case Insert(c) => InsertChar(c);
        case Backspace => if cursor > 0 { RemoveBeforeCursor(); }
        case DeleteWord => DeleteWordBack();
        case CursorLeft => if cursor > 0 { StepBack(); }
        case CursorRight => if cursor < bufferIndex { StepOn(); }
        case WordLeft => WordLeftMove();
        case WordRight => WordRightMove();
        case Older => HistoryUp();
        case Newer => HistoryDown();
        case Enter => RunBuffer();
        case ClearScreen => ClearLine();
        case Complete => TryAutocomplete(names);
      }
    }

    /** The bytes that only change a flag. */
    method UpdateFlags(scancode: byte) returns (done: bool)
      modifies this`ctrlOn, this`shiftOn, this`altOn, this`extended
      ensures done == Hid.IsFlagByte(scancode)
      ensures Keys() == if done then Hid.FlagsAfter(old(Keys()), scancode) else old(Keys())
    {
      done := true;
      if scancode == 0xFA || scancode == 0xFE { return; }
      if scancode == 0x38 { altOn := true; return; }
      if scancode == 0xB8 { altOn := false; return; }
      if scancode == 0xE0 { extended := true; return; }
      if scancode == 0x1D { ctrlOn := true; return; }
      if scancode == 0x9D { ctrlOn := false; return; }
      if scancode == 0x2A || scancode == 0x36 { shiftOn := true; return; }
      if scancode == 0xAA || scancode == 0xB6 { shiftOn := false; return; }
      done := false;
    }

    /** `processar_set1`: the flags, then the action of the key. If the machine goes on
        after a request for a reset, so does the code. */
    method ProcessSet1(scancode: byte, keymap: Keymap, names: seq<string>)
      requires Valid() && GoodNames(names) && GoodKeymap(keymap)
      modifies this, buffer, history, history.rows
      ensures Valid()
      ensures Keys() == Hid.FlagsAfter(old(Keys()), scancode)
      ensures reboots == old(reboots) + if IsReboot(old(Keys()), scancode) then 1 else 0
      ensures Abs() == Applied(old(Abs()), ActionFor(old(Keys()), scancode, keymap), names)
    {
      var done := UpdateFlags(scancode);
      if done { return; }
      if ctrlOn && shiftOn && altOn && scancode == 0x10 { reboots := reboots + 1; }
      var action := ActionFor(Keys(), scancode, keymap);
      extended := false;
      Apply(action, names);
    }

    /** `kbd_ascii_input`. */
    method AsciiInput(c: char, names: seq<string>)
      requires Valid() && GoodNames(names)
      modifies this`bufferIndex, this`cursor, this`line, this`submitted, buffer, history, history.rows
      ensures Valid() && Keys() == old(Keys())
      ensures Abs() == Applied(old(Abs()), AsciiAction(c), names)
    {
      Apply(AsciiAction(c), names);
    }
  }
}
