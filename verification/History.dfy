/** The line history: sixteen rows that are shifted when they are full, and a
  position that the arrow keys move. */
module History {
  import opened Common

  const SIZE := 16

  // ----- The log behind the rows -----

  /** A submitted line is logged unless it is empty or repeats the last logged one. */
  function Logged(log: seq<string>, line: string): seq<string> {
    if line == "" || (log != [] && log[|log| - 1] == line) then log else log + [line]
  }

  function LoggedAll(log: seq<string>, lines: seq<string>): seq<string>
    decreases |lines|
  {
    if lines == [] then log else LoggedAll(Logged(log, lines[0]), lines[1..])
  }

  /** The last sixteen. */
  function Shown(log: seq<string>): (r: seq<string>)
    ensures |r| <= SIZE && (r == [] <==> log == []) && (log != [] ==> r[|r| - 1] == log[|log| - 1])
  {
    if |log| <= SIZE then log else log[|log| - SIZE..]
  }

  function NonEmpty(lines: seq<string>): seq<string> {
    if lines == [] then []
    else (if lines[0] == "" then [] else [lines[0]]) + NonEmpty(lines[1..])
  }

  /** A list without adjacent repeats. */
  function Collapsed(lines: seq<string>): (r: seq<string>)
    ensures (lines == [] <==> r == []) && (lines != [] ==> r[0] == lines[0])
  {
    if |lines| <= 1 then lines
    else if lines[0] == lines[1] then Collapsed(lines[1..])
    else [lines[0]] + Collapsed(lines[1..])
  }

  /** Dropping a first element that repeats the end of what came before. */
  function Joined(log: seq<string>, rest: seq<string>): seq<string> {
    if log != [] && rest != [] && log[|log| - 1] == rest[0] then log + Collapsed(rest)[1..]
    else log + Collapsed(rest)
  }

  lemma JoinedStep(log: seq<string>, x: string, rest: seq<string>)
    requires x != ""
    ensures Joined(Logged(log, x), rest) == Joined(log, [x] + rest)
  {
    assert ([x] + rest)[0] == x;
    if Logged(log, x) == log {
      JoinedRepeat(log, x, rest);
    } else {
      JoinedFresh(log, x, rest);
    }
  }

  lemma CollapsedCons(x: string, rest: seq<string>)
    ensures Collapsed([x] + rest)
            == if rest != [] && rest[0] == x then Collapsed(rest) else [x] + Collapsed(rest)
  {
    var all := [x] + rest;
    if rest == [] {
      assert all == [x] && [x] + Collapsed(rest) == [x];
    } else {
      assert all[1..] == rest && all[1] == rest[0];
    }
  }

  lemma JoinedRepeat(log: seq<string>, x: string, rest: seq<string>)
    requires log != [] && log[|log| - 1] == x
    ensures Joined(log, rest) == log + Collapsed([x] + rest)[1..]
  {
    CollapsedCons(x, rest);
    if rest == [] { assert Collapsed([x])[1..] == []; }
  }

  lemma ConcatAssociates(a: seq<string>, b: seq<string>, c: seq<string>)
    ensures a + b + c == a + (b + c)
  {
  }

  lemma JoinedFresh(log: seq<string>, x: string, rest: seq<string>)
    ensures Joined(log + [x], rest) == log + Collapsed([x] + rest)
  {
    CollapsedCons(x, rest);
    var c := Collapsed(rest);
    assert (log + [x])[|log + [x]| - 1] == x;
    if rest != [] && rest[0] == x {
      assert c == [x] + c[1..];
      ConcatAssociates(log, [x], c[1..]);
    } else {
      ConcatAssociates(log, [x], c);
    }
  }

  lemma {:induction false} LogMeaning(log: seq<string>, lines: seq<string>)
    ensures LoggedAll(log, lines) == Joined(log, NonEmpty(lines))
    decreases |lines|
  {
    if lines == [] {
      assert log + Collapsed([]) == log;
    } else {
      LogMeaning(Logged(log, lines[0]), lines[1..]);
      if lines[0] == "" {
        assert NonEmpty(lines) == NonEmpty(lines[1..]);
      } else {
        JoinedStep(log, lines[0], NonEmpty(lines[1..]));
      }
    }
  }

  /** The log of any sequence of submitted lines is the non-empty ones with adjacent repeats collapsed. */
  lemma LogIsCollapsed(lines: seq<string>)
    ensures LoggedAll([], lines) == Collapsed(NonEmpty(lines))
  {
    LogMeaning([], lines);
    assert [] + Collapsed(NonEmpty(lines)) == Collapsed(NonEmpty(lines));
  }

  // ----- Browsing -----

  /** The rows and the position, as the arrow keys see them. */
  datatype Browser = Browser(rows: seq<string>, pos: int)

  predicate InRange(b: Browser) {
    |b.rows| <= SIZE && (if b.rows == [] then b.pos == -1 else 0 <= b.pos <= |b.rows|)
  }

  /** The rows with the empty line behind them: position `p` shows `Lines(b)[p]`. */
  function Lines(b: Browser): seq<string> {
    b.rows + [""]
  }

  function Recorded(b: Browser, line: string): Browser {
    if line == "" then b
    else
      var rows := Shown(Logged(b.rows, line));
      Browser(rows, |rows|)
  }

  /** Up: one position back, and the line to load; nothing at the oldest row. */
  function Up(b: Browser): (Browser, Option<string>)
    requires InRange(b)
  {
    if b.rows == [] || b.pos == 0 then (b, None)
    else (b.(pos := b.pos - 1), Some(Lines(b)[b.pos - 1]))
  }

  /** Down: one position forward, staying behind the newest row. */
  function Down(b: Browser): (Browser, Option<string>)
    requires InRange(b)
  {
    if b.rows == [] then (b, None)
    else
      var pos := if b.pos < |b.rows| then b.pos + 1 else b.pos;
      (b.(pos := pos), Some(Lines(b)[pos]))
  }

  /** Recording on the shown rows is recording on the whole log. */
  lemma RecordedShows(log: seq<string>, line: string)
    ensures Shown(Logged(Shown(log), line)) == Shown(Logged(log, line))
  {
    var rows := Shown(log);
    if Logged(log, line) != log {
      assert Logged(log, line) == log + [line] && Logged(rows, line) == rows + [line];
      if |log| >= SIZE { assert Shown(rows + [line]) == log[|log| - SIZE + 1..] + [line] == Shown(log + [line]); }
    }
  }

  lemma {:induction false} RowsAreLastLogged(log: seq<string>, pos: int, lines: seq<string>)
    requires InRange(Browser(Shown(log), pos))
    ensures RecordedAll(Browser(Shown(log), pos), lines).rows == Shown(LoggedAll(log, lines))
    ensures InRange(RecordedAll(Browser(Shown(log), pos), lines))
    decreases |lines|
  {
    if lines != [] {
      RecordedShows(log, lines[0]);
      var b := Recorded(Browser(Shown(log), pos), lines[0]);
      RowsAreLastLogged(Logged(log, lines[0]), b.pos, lines[1..]);
    }
  }

  function RecordedAll(b: Browser, lines: seq<string>): Browser
    decreases |lines|
  {
    if lines == [] then b else RecordedAll(Recorded(b, lines[0]), lines[1..])
  }

  /** After any submitted lines the rows are the last sixteen of the non-empty lines, adjacent repeats collapsed. */
  lemma RowsAreLastSixteen(lines: seq<string>)
    ensures var log := Collapsed(NonEmpty(lines));
            RecordedAll(Browser([], -1), lines).rows == if |log| <= 16 then log else log[|log| - 16..]
  {
    RowsAreLastLogged([], -1, lines);
    LogIsCollapsed(lines);
  }

  /** Down takes back Up, and Up takes back Down from any row. */
  lemma UpDownRoundTrip(b: Browser)
    requires InRange(b)
    ensures Up(b).1.Some? ==> Down(Up(b).0) == (b, Some(Lines(b)[b.pos]))
    ensures Down(b).1.Some? && b.pos < |b.rows| ==> Up(Down(b).0) == (b, Some(Lines(b)[b.pos]))
  {
  }

  /** A submitted line is what Up loads next. */
  lemma UpAfterSubmit(b: Browser, line: string)
    requires line != ""
    ensures InRange(Recorded(b, line))
    ensures Up(Recorded(b, line)).1 == Some(line)
  {
  }

  /** The browser after Up has been pressed `k` times. */
  function UpTimes(b: Browser, k: nat): (r: Browser)
    requires InRange(b)
    ensures InRange(r)
  {
    if k == 0 then b else Up(UpTimes(b, k - 1)).0
  }

  lemma {:induction false} UpTimesMoves(b: Browser, k: nat)
    requires InRange(b) && b.pos == |b.rows| && k <= |b.rows|
    ensures UpTimes(b, k) == if b.rows == [] then b else Browser(b.rows, |b.rows| - k)
  {
    if k > 0 { UpTimesMoves(b, k - 1); }
  }

  lemma {:induction false} RecordingEndsBehind(b: Browser, lines: seq<string>)
    requires InRange(b) && lines != [] && lines[|lines| - 1] != ""
    ensures var r := RecordedAll(b, lines); InRange(r) && r.rows != [] && r.pos == |r.rows|
    decreases |lines|
  {
    if |lines| == 1 {
      assert RecordedAll(b, lines) == Recorded(b, lines[0]) by { assert lines[1..] == []; }
    } else {
      RecordingEndsBehind(Recorded(b, lines[0]), lines[1..]);
    }
  }

  /** From behind the newest row: the rows backwards, then nothing; and Down from the newest row. */
  lemma BrowsingFrom(b: Browser, k: nat)
    requires InRange(b) && b.rows != [] && b.pos == |b.rows|
    ensures 1 <= k <= |b.rows| ==> Up(UpTimes(b, k - 1)).1 == Some(b.rows[|b.rows| - k])
    ensures Up(UpTimes(b, |b.rows|)).1 == None
    ensures Down(UpTimes(b, 1)).1 == Some("")
  {
    UpTimesMoves(b, |b.rows|);
    UpTimesMoves(b, 1);
    if 1 <= k <= |b.rows| { UpTimesMoves(b, k - 1); }
  }

  /** Browsing after any submissions whose last line is not empty: the `k`-th Up loads
      the `k`-th newest of the last sixteen lines logged, one Up more loads nothing, and
      Down from the newest row loads the empty line. */
  lemma BrowsingMeaning(lines: seq<string>, k: nat)
    requires lines != [] && lines[|lines| - 1] != ""
    ensures var log := Collapsed(NonEmpty(lines));
            var rows := if |log| <= 16 then log else log[|log| - 16..];
            var b := RecordedAll(Browser([], -1), lines);
            && InRange(b) && rows != []
            && (1 <= k <= |rows| ==> Up(UpTimes(b, k - 1)).1 == Some(rows[|rows| - k]))
            && Up(UpTimes(b, |rows|)).1 == None
            && Down(UpTimes(b, 1)).1 == Some("")
  {
    RowsAreLastSixteen(lines);
    RecordingEndsBehind(Browser([], -1), lines);
    BrowsingFrom(RecordedAll(Browser([], -1), lines), k);
  }

  // ----- The rows in memory -----

  class Rows {
    const rows: array<string>
    var count: nat
    var pos: int

    ghost predicate Valid()
      reads this, rows
    {
      rows.Length == SIZE && count <= SIZE && InRange(Abs())
    }

    ghost function Abs(): Browser
      requires rows.Length == SIZE && count <= SIZE
      reads this, rows
    {
      Browser(rows[..count], pos)
    }

    constructor ()
      ensures Valid() && fresh(rows) && Abs() == Browser([], -1)
    {
      rows := new string[SIZE](_ => "");
      count, pos := 0, -1;
    }

    method Add(text: string)
      requires Valid()
      modifies this, rows
      ensures Valid() && Abs() == Recorded(old(Abs()), text)
    {
      if text == "" { return; }
      if count > 0 && rows[count - 1] == text {
        pos := count;
        return;
      }
      ghost var before := rows[..count];
      if count < SIZE {
        rows[count] := text;
        count := count + 1;
        assert rows[..count] == before + [text];
      } else {
        Shift();
        rows[SIZE - 1] := text;
        assert rows[..count] == before[1..] + [text] == (before + [text])[1..];
      }
      pos := count;
    }

    method Shift()
      requires rows.Length == SIZE
      modifies rows
      ensures forall k :: 1 <= k < SIZE ==> rows[k - 1] == old(rows[k])
    {
      for i := 1 to SIZE
        invariant forall k :: 1 <= k < i ==> rows[k - 1] == old(rows[k])
        invariant forall k :: i - 1 <= k < SIZE ==> rows[k] == old(rows[k])
      {
        rows[i - 1] := rows[i];
      }
    }

    method Older() returns (line: Option<string>)
      requires Valid()
      modifies this`pos
      ensures Valid() && (Abs(), line) == Up(old(Abs()))
    {
      if count == 0 { return None; }
      if pos < 0 || pos > count { pos := count; }
      if pos > 0 {
        pos := pos - 1;
        return Some(rows[pos]);
      }
      line := None;
    }

    method Newer() returns (line: Option<string>)
      requires Valid()
      modifies this`pos
      ensures Valid() && (Abs(), line) == Down(old(Abs()))
    {
      if count == 0 || pos < 0 { return None; }
      if pos < count - 1 {
        pos := pos + 1;
        return Some(rows[pos]);
      }
      pos := count;
      line := Some("");
    }
  }
}
