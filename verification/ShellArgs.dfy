/** The shell's argument parser: a quote and escape automaton that packs the
  arguments of a line into one buffer, and the counting automaton that runs
  before it. */
module ShellArgs {
  import opened Common

  const MAX_ARGS := 10
  const INPUT_MAX := 256

  datatype Status = Ok | ErrUsage | ErrParse

  /** The answer of a tokenizer. */
  datatype Parsed = Args(args: seq<string>) | Rejected(status: Status)

  // ----- The tokenizer, without any buffer -----

  /** The arguments so far and the three flags; while `inArg` the last argument is still growing. */
  datatype Lexer = Lexer(args: seq<string>, quote: bool, escape: bool, inArg: bool)

  datatype Lexed = Lexing(lexer: Lexer) | Failed(status: Status)

  const START := Lexer([], false, false, false)

  predicate Sane(l: Lexer) {
    (l.inArg ==> l.args != []) && (l.quote ==> l.inArg)
  }

  /** Opens an argument if none is open. */
  function Opened(l: Lexer): Lexed {
    if l.inArg then Lexing(l)
    else if |l.args| >= MAX_ARGS then Failed(ErrUsage)
    else Lexing(l.(args := l.args + [""], inArg := true))
  }

  function Grown(l: Lexer, c: char): Lexer
    requires l.args != []
  {
    var n := |l.args| - 1;
    l.(args := l.args[n := l.args[n] + [c]])
  }

  function IsBlank(c: char): bool {
    c == ' ' || c == '\t'
  }

  function Next(l: Lexer, c: char): (r: Lexed)
    requires Sane(l)
    ensures r.Lexing? ==> Sane(r.lexer)
  {
    if l.escape then
      match Opened(l)
      case Lexing(o) => Lexing(Grown(o, c).(escape := false))
      case Failed(s) => Failed(s)
    else if c == '\\' then Lexing(l.(escape := true))
    else if c == '"' then
      match Opened(l)
      case Lexing(o) => Lexing(o.(quote := !l.quote))
      case Failed(s) => Failed(s)
    else if c == '|' && !l.quote then Failed(ErrParse)
    else if IsBlank(c) && !l.quote then Lexing(l.(inArg := false))
    else
      match Opened(l)
      case Lexing(o) => Lexing(Grown(o, c))
      case Failed(s) => Failed(s)
  }

  function Lex(l: Lexer, line: string): (r: Lexed)
    requires Sane(l)
    ensures r.Lexing? ==> Sane(r.lexer)
    decreases |line|
  {
    if line == [] then Lexing(l)
    else
      match Next(l, line[0])
      case Lexing(l') => Lex(l', line[1..])
      case Failed(s) => Failed(s)
  }

  function Finished(r: Lexed): Parsed {
    match r
    case Failed(s) => Rejected(s)
    case Lexing(l) => if l.escape || l.quote then Rejected(ErrParse) else Args(l.args)
  }

  function Tokenized(line: string): Parsed {
    Finished(Lex(START, line))
  }

  lemma {:induction false} LexConcat(l: Lexer, a: string, b: string)
    requires Sane(l)
    ensures Lex(l, a + b) == (match Lex(l, a) case Lexing(l') => Lex(l', b) case Failed(s) => Failed(s))
    decreases |a|
  {
    if a == [] {
      assert a + b == b;
    } else {
      assert (a + b)[1..] == a[1..] + b;
      var r := Next(l, a[0]);
      if r.Lexing? { LexConcat(r.lexer, a[1..], b); }
    }
  }

  // ----- The packed buffer -----

  /** Arguments one behind the other, each with its terminator. */
  function Packed(args: seq<string>): string {
    if args == [] then [] else Packed(args[..|args| - 1]) + args[|args| - 1] + [NUL]
  }

  /** What the buffer holds in a state of the tokenizer: the terminator of an open argument is still to come. */
  function Image(l: Lexer): string
    requires Sane(l)
  {
    if l.inArg then Packed(l.args[..|l.args| - 1]) + l.args[|l.args| - 1] else Packed(l.args)
  }

  /** The C string that starts at `at`. */
  function CString(mem: string, at: nat): string
    decreases |mem| - at
  {
    if at >= |mem| || mem[at] == NUL then [] else [mem[at]] + CString(mem, at + 1)
  }

  lemma ImageOfOpened(l: Lexer)
    requires Sane(l) && !l.inArg && |l.args| < MAX_ARGS
    ensures Image(Opened(l).lexer) == Image(l)
    ensures |Packed(l.args)| == |Image(l)|
  {
  }

  lemma ImageOfClosed(l: Lexer)
    requires Sane(l) && l.inArg
    ensures Packed(l.args) == Image(l) + [NUL]
  {
  }

  /** Each character of the line writes at most one character. */
  lemma {:induction false} OutputNeverOutruns(l: Lexer, line: string)
    requires Sane(l) && Lex(l, line).Lexing?
    ensures |Image(Lex(l, line).lexer)| <= |Image(l)| + |line|
    decreases |line|
  {
    if line != [] {
      var c := line[0];
      var l' := Next(l, c).lexer;
      NextImage(l, c);
      OutputNeverOutruns(l', line[1..]);
    }
  }

  /** One step of the tokenizer adds nothing, the character, or a terminator. */
  lemma NextImage(l: Lexer, c: char)
    requires Sane(l) && Next(l, c).Lexing?
    ensures var l' := Next(l, c).lexer;
            Image(l') == Image(l) + (if l.escape then [c]
                                     else if c == '\\' || c == '"' then []
                                     else if IsBlank(c) && !l.quote then (if l.inArg then [NUL] else [])
                                     else [c])
  {
  }

  /** Arguments stay where they are; a new one begins at the end of what is there. */
  lemma NextArgs(l: Lexer, c: char)
    requires Sane(l) && Next(l, c).Lexing?
    ensures var l' := Next(l, c).lexer;
            |l.args| <= |l'.args| && (forall k :: 0 <= k < |l.args| ==> Packed(l'.args[..k]) == Packed(l.args[..k]))
    ensures var l' := Next(l, c).lexer;
            |l'.args| == |l.args|
              || (|l'.args| == |l.args| + 1 && !l.inArg && |Packed(l'.args[..|l.args|])| == |Image(l)|)
  {
    var l' := Next(l, c).lexer;
    if !l.inArg && |l.args| < MAX_ARGS {
      ImageOfOpened(l);
      assert |l'.args| > |l.args| ==> l'.args[..|l.args|] == l.args;
    }
    forall k | 0 <= k < |l.args| ensures Packed(l'.args[..k]) == Packed(l.args[..k]) {
      assert l'.args[..k] == l.args[..k];
    }
  }

  // ----- The parser as written -----

  /** What `parse_args` does with a line of any length: the tokenizer, until the buffer is full. */
  function ParsedFrom(l: Lexer, line: string): Parsed
    requires Sane(l)
    decreases |line|
  {
    if line == [] then Finished(Lexing(l))
    else
      match Next(l, line[0])
      case Failed(s) => Rejected(s)
      case Lexing(l') =>
        if |Image(l')| > INPUT_MAX - 1 then Rejected(ErrParse) else ParsedFrom(l', line[1..])
  }

  method AppendChar(out: array<char>, pos: nat, c: char) returns (ok: bool, pos': nat)
    requires out.Length == INPUT_MAX && pos < INPUT_MAX
    modifies out
    ensures ok <==> pos < 255
    ensures if ok then pos' == pos + 1 && out[..pos'] == old(out[..pos]) + [c] && out[pos'] == NUL
            else pos' == pos && out[..] == old(out[..])
  {
    if pos >= INPUT_MAX - 1 { return false, pos; }
    out[pos] := c;
    pos' := pos + 1;
    out[pos'] := NUL;
    ok := true;
    assert out[..pos'] == out[..pos] + [c];
  }

  /** The buffer, the argument offsets and the counters agree with a state of the tokenizer. */
  ghost predicate Holds(l: Lexer, out: seq<char>, argv: seq<nat>, argc: nat, pos: nat) {
    && Sane(l) && |out| == INPUT_MAX && |argv| == MAX_ARGS
    && argc == |l.args| <= MAX_ARGS && pos == |Image(l)| <= INPUT_MAX - 1
    && out[..pos] == Image(l) && out[pos] == NUL
    && (forall k :: 0 <= k < argc ==> argv[k] == |Packed(l.args[..k])|)
  }

  /** The buffer after a step: what the step adds was written behind the old contents. */
  lemma HoldsNext(l: Lexer, c: char, out: seq<char>, argv: seq<nat>, argc: nat, pos: nat,
                  out': seq<char>, argv': seq<nat>, argc': nat, pos': nat)
    requires Holds(l, out, argv, argc, pos) && Next(l, c).Lexing?
    requires |out'| == INPUT_MAX && |argv'| == MAX_ARGS
    requires pos' == |Image(Next(l, c).lexer)| <= INPUT_MAX - 1 && out'[pos'] == NUL
    requires out'[..pos'] == Image(Next(l, c).lexer)
    requires argc' == |Next(l, c).lexer.args| <= MAX_ARGS
    requires argv' == if argc' == argc then argv else argv[argc := pos]
    ensures Holds(Next(l, c).lexer, out', argv', argc', pos')
  {
    NextArgs(l, c);
    var l' := Next(l, c).lexer;
    forall k | 0 <= k < argc' ensures argv'[k] == |Packed(l'.args[..k])| {
      if k < argc { assert Packed(l'.args[..k]) == Packed(l.args[..k]); }
    }
  }

  method OpenArg(argv: array<nat>, argc: nat, pos: nat, inArg: bool) returns (ok: bool, argc': nat)
    requires argv.Length == MAX_ARGS && argc <= MAX_ARGS
    modifies argv
    ensures ok <==> inArg || argc < MAX_ARGS
    ensures if !inArg && ok then argc' == argc + 1 && argv[..] == old(argv[..])[argc := pos]
            else argc' == argc && argv[..] == old(argv[..])
  {
    ok, argc' := true, argc;
    if !inArg {
      if argc >= MAX_ARGS { return false, argc; }
      argv[argc] := pos;
      argc' := argc + 1;
    }
  }

  /** What one character must do to the buffer, the positions and the flags. */
  ghost predicate Parses(l: Lexer, c: char, out: seq<char>, argv: seq<nat>, status: Status, argc: nat, pos: nat,
                         quote: bool, escape: bool, inArg: bool)
    requires Sane(l)
  {
    && status == (match Next(l, c)
                  case Failed(s) => s
                  case Lexing(l') => if |Image(l')| > INPUT_MAX - 1 then ErrParse else Ok)
    && (status == Ok ==>
          && Next(l, c).Lexing?
          && Holds(Next(l, c).lexer, out, argv, argc, pos)
          && quote == Next(l, c).lexer.quote && escape == Next(l, c).lexer.escape && inArg == Next(l, c).lexer.inArg)
  }

  /** One character of `parse_args`. */
  method ParseChar(c: char, out: array<char>, argv: array<nat>, argc: nat, pos: nat,
                   quote: bool, escape: bool, inArg: bool, ghost l: Lexer)
    returns (status: Status, argc': nat, pos': nat, quote': bool, escape': bool, inArg': bool)
    requires out.Length == INPUT_MAX && argv.Length == MAX_ARGS
    requires Holds(l, out[..], argv[..], argc, pos) && quote == l.quote && escape == l.escape && inArg == l.inArg
    modifies out, argv
    ensures Parses(l, c, out[..], argv[..], status, argc', pos', quote', escape', inArg')
  {
    status, argc', pos', quote', escape', inArg' := Ok, argc, pos, quote, escape, inArg;
    if !escape && c == '\\' {
      escape' := true;
      return;
    }
    if !escape && c == '|' && !quote {
      return ErrParse, argc, pos, quote, escape, inArg;
    }
    if !escape && IsBlank(c) && !quote {
      status, pos', inArg' := CloseArg(out, argv, argc, pos, inArg, l);
      return;
    }
    if !escape && c == '"' {
      status, argc', inArg' := QuoteArg(out, argv, argc, pos, inArg, l);
      quote' := !quote;
      return;
    }
    status, argc', pos', inArg' := GrowArg(c, out, argv, argc, pos, inArg, l);
    escape' := false;
  }

  /** A quote opens an argument if none is open. */
  method QuoteArg(out: array<char>, argv: array<nat>, argc: nat, pos: nat, inArg: bool, ghost l: Lexer)
    returns (status: Status, argc': nat, inArg': bool)
    requires out.Length == INPUT_MAX && argv.Length == MAX_ARGS && !l.escape
    requires Holds(l, out[..], argv[..], argc, pos) && inArg == l.inArg
    modifies argv
    ensures Parses(l, '"', out[..], argv[..], status, argc', pos, !l.quote, false, inArg')
  {
    ghost var out0, argv0 := out[..], argv[..];
    if Next(l, '"').Lexing? { NextImage(l, '"'); }
    var ok;
    ok, argc' := OpenArg(argv, argc, pos, inArg);
    if !ok { return ErrUsage, argc', inArg; }
    status, inArg' := Ok, true;
    HoldsNext(l, '"', out0, argv0, argc, pos, out[..], argv[..], argc', pos);
  }

  /** Any other character goes to the argument that is open, or opens one. */
  method GrowArg(c: char, out: array<char>, argv: array<nat>, argc: nat, pos: nat, inArg: bool, ghost l: Lexer)
    returns (status: Status, argc': nat, pos': nat, inArg': bool)
    requires out.Length == INPUT_MAX && argv.Length == MAX_ARGS
    requires Holds(l, out[..], argv[..], argc, pos) && inArg == l.inArg
    requires l.escape || (c != '\\' && c != '"' && ((c != '|' && !IsBlank(c)) || l.quote))
    modifies out, argv
    ensures Parses(l, c, out[..], argv[..], status, argc', pos', l.quote, false, inArg')
  {
    ghost var out0, argv0 := out[..], argv[..];
    if Next(l, c).Lexing? { NextImage(l, c); }
    status, pos', inArg' := Ok, pos, true;
    var ok;
    ok, argc' := OpenArg(argv, argc, pos, inArg);
    if !ok { status := ErrUsage; return; }
    ok, pos' := AppendChar(out, pos, c);
    if !ok { status := ErrParse; return; }
    HoldsNext(l, c, out0, argv0, argc, pos, out[..], argv[..], argc', pos');
  }

  /** A blank outside quotes ends the argument that is open. */
  method CloseArg(out: array<char>, argv: array<nat>, argc: nat, pos: nat, inArg: bool, ghost l: Lexer)
    returns (status: Status, pos': nat, inArg': bool)
    requires out.Length == INPUT_MAX && argv.Length == MAX_ARGS
    requires Holds(l, out[..], argv[..], argc, pos) && inArg == l.inArg && !l.quote
    modifies out
    ensures var l' := l.(inArg := false);
            && status == (if |Image(l')| > INPUT_MAX - 1 then ErrParse else Ok)
            && (status == Ok ==> Holds(l', out[..], argv[..], argc, pos') && !inArg')
  {
    status, pos', inArg' := Ok, pos, inArg;
    if inArg {
      ImageOfClosed(l);
      var ok;
      ok, pos' := AppendChar(out, pos, NUL);
      if !ok { return ErrParse, pos', inArg; }
      inArg' := false;
    }
  }

  method ParseArgs(line: string, out: array<char>, argv: array<nat>) returns (status: Status, argc: nat)
    requires out.Length == INPUT_MAX && argv.Length == MAX_ARGS
    modifies out, argv
    ensures status == (match ParsedFrom(START, line) case Args(_) => Ok case Rejected(s) => s)
    ensures ParsedFrom(START, line).Args? ==>
              var args := ParsedFrom(START, line).args;
              && argc == |args| <= MAX_ARGS && Packed(args) <= out[..]
              && (forall k :: 0 <= k < argc ==> argv[k] == |Packed(args[..k])|)
  {
    var pos, quote, escape, inArg := 0, false, false, false;
    ghost var l := START;
    argc := 0;
    out[0] := NUL;
    for i := 0 to |line|
      invariant Holds(l, out[..], argv[..], argc, pos) && quote == l.quote && escape == l.escape && inArg == l.inArg
      invariant ParsedFrom(l, line[i..]) == ParsedFrom(START, line)
    {
      ghost var r := Next(l, line[i]);
      assert line[i..][0] == line[i] && line[i..][1..] == line[i + 1..];
      status, argc, pos, quote, escape, inArg := ParseChar(line[i], out, argv, argc, pos, quote, escape, inArg, l);
      if status != Ok { return; }
      l := r.lexer;
    }
    if escape { return ErrParse, argc; }
    if quote { return ErrParse, argc; }
    status := Ok;
    if inArg {
      ImageOfClosed(l);
      assert out[..pos + 1] == Packed(l.args);
    }
  }

  // ----- Overflow cannot happen on a line that the editor can hold -----

  lemma {:induction false} ParsedIsTokenizedFrom(l: Lexer, line: string)
    requires Sane(l) && |Image(l)| + |line| <= INPUT_MAX - 1
    ensures ParsedFrom(l, line) == Finished(Lex(l, line))
    decreases |line|
  {
    if line != [] && Next(l, line[0]).Lexing? {
      NextImage(l, line[0]);
      ParsedIsTokenizedFrom(Next(l, line[0]).lexer, line[1..]);
    }
  }

  /** For lines up to 255 characters the parser is the tokenizer: the buffer is never full. */
  lemma ParsedIsTokenized(line: string)
    requires |line| <= 255
    ensures ParsedFrom(START, line) == Tokenized(line)
  {
    ParsedIsTokenizedFrom(START, line);
  }

  // ----- The arguments can be read back from the buffer -----

  lemma {:induction false} PackedPrefix(args: seq<string>, k: nat)
    requires k <= |args|
    ensures Packed(args[..k]) <= Packed(args)
    ensures k < |args| ==> |Packed(args[..k + 1])| == |Packed(args[..k])| + |args[k]| + 1
    ensures k < |args| ==> Packed(args[..k]) + args[k] + [NUL] <= Packed(args)
  {
    if k == |args| {
      assert args[..k] == args;
    } else {
      var n := |args| - 1;
      PackedPrefix(args[..n], k);
      assert args[..n][..k] == args[..k];
      assert args[..k + 1][..k] == args[..k];
      if k < n { assert args[..n][k] == args[k]; }
    }
  }

  lemma {:induction false} CStringIs(mem: string, at: nat, s: string)
    requires at + |s| < |mem| && NulFree(s) && mem[at..at + |s|] == s && mem[at + |s|] == NUL
    ensures CString(mem, at) == s
    decreases |s|
  {
    if s != [] {
      assert mem[at] == s[0];
      assert mem[at + 1..at + 1 + |s[1..]|] == s[1..];
      CStringIs(mem, at + 1, s[1..]);
    }
  }

  /** In a buffer that starts with the packed arguments, offset `k` reads as argument `k`. */
  lemma ArgumentReadsBack(mem: string, args: seq<string>, k: nat)
    requires Packed(args) <= mem && k < |args| && NulFree(args[k])
    ensures CString(mem, |Packed(args[..k])|) == args[k]
  {
    PackedPrefix(args, k);
    var at := |Packed(args[..k])|;
    assert Packed(args[..k]) + args[k] + [NUL] <= mem;
    assert mem[at..at + |args[k]|] == args[k];
    CStringIs(mem, at, args[k]);
  }

  // ----- Quoting round trip -----

  /** A string with a backslash before each quote and each backslash. */
  function Escaped(s: string): string {
    if s == [] then []
    else (if s[0] == '"' || s[0] == '\\' then ['\\', s[0]] else [s[0]]) + Escaped(s[1..])
  }

  function Quoted(s: string): string {
    ['"'] + Escaped(s) + ['"']
  }

  /** The quoted strings, with one space after each. */
  function QuotedLine(args: seq<string>): string {
    if args == [] then [] else QuotedLine(args[..|args| - 1]) + Quoted(args[|args| - 1]) + [' ']
  }

  /** The quoted strings with one space between any two: the line ends inside an argument. */
  function JoinedLine(args: seq<string>): string {
    if args == [] then [] else QuotedLine(args[..|args| - 1]) + Quoted(args[|args| - 1])
  }

  /** Inside quotes the escaped text is read as the text. */
  lemma {:induction false} LexEscaped(l: Lexer, s: string)
    requires Sane(l) && l.quote && !l.escape
    ensures var n := |l.args| - 1;
            Lex(l, Escaped(s)) == Lexing(l.(args := l.args[n := l.args[n] + s]))
    decreases |s|
  {
    var n := |l.args| - 1;
    if s == [] {
      assert l.args[n] + s == l.args[n];
      assert l.args[n := l.args[n]] == l.args;
    } else {
      var c := s[0];
      var rest := Escaped(s[1..]);
      var l' := Grown(l, c);
      if c == '"' || c == '\\' {
        assert Escaped(s) == ['\\'] + ([c] + rest);
        assert Escaped(s)[1..] == [c] + rest;
        assert ([c] + rest)[1..] == rest;
        assert Next(l, '\\') == Lexing(l.(escape := true));
        assert Next(l.(escape := true), c) == Lexing(l');
        assert Lex(l, Escaped(s)) == Lex(l.(escape := true), [c] + rest) == Lex(l', rest);
      } else {
        assert Escaped(s) == [c] + rest;
        assert Escaped(s)[1..] == rest;
        assert Lex(l, Escaped(s)) == Lex(l', rest);
      }
      LexEscaped(l', s[1..]);
      assert l'.args[n] + s[1..] == l.args[n] + s;
      assert l'.args[n := l'.args[n] + s[1..]] == l.args[n := l.args[n] + s];
    }
  }

  lemma LexQuoted(l: Lexer, s: string)
    requires Sane(l) && !l.inArg && !l.quote && !l.escape
    ensures Lex(l, Quoted(s))
            == if |l.args| < MAX_ARGS then Lexing(l.(args := l.args + [s], inArg := true)) else Failed(ErrUsage)
  {
    var line := Quoted(s);
    assert line[0] == '"' && line[1..] == Escaped(s) + ['"'];
    if |l.args| < MAX_ARGS {
      var o := l.(args := l.args + [""], inArg := true, quote := true);
      assert Next(l, '"') == Lexing(o);
      LexConcat(o, Escaped(s), ['"']);
      LexEscaped(o, s);
      var n := |l.args|;
      var o' := o.(args := o.args[n := o.args[n] + s]);
      assert o.args[n] + s == s;
      assert o'.args == l.args + [s];
      assert ['"'][1..] == [];
      assert Lex(o', ['"']) == Lexing(o'.(quote := false));
    }
  }

  lemma {:induction false} LexQuotedLine(args: seq<string>)
    ensures Lex(START, QuotedLine(args))
            == if |args| <= MAX_ARGS then Lexing(START.(args := args)) else Failed(ErrUsage)
    decreases |args|, 1
  {
    if args != [] {
      LexJoinedLine(args);
      LexConcat(START, JoinedLine(args), [' ']);
      assert QuotedLine(args) == JoinedLine(args) + [' '];
      assert [' '][1..] == [];
    }
  }

  lemma {:induction false} LexJoinedLine(args: seq<string>)
    ensures Lex(START, JoinedLine(args))
            == if |args| <= MAX_ARGS then Lexing(START.(args := args, inArg := args != [])) else Failed(ErrUsage)
    decreases |args|, 0
  {
    if args != [] {
      var n := |args| - 1;
      LexQuotedLine(args[..n]);
      LexConcat(START, QuotedLine(args[..n]), Quoted(args[n]));
      if n <= MAX_ARGS {
        LexQuoted(START.(args := args[..n]), args[n]);
        assert args[..n] + [args[n]] == args;
      }
    }
  }

  /** Quoting a list and parsing the line gives the list back, exactly up to the limit
      of ten, whether or not a space follows the last argument. */
  lemma QuotingRoundTrip(args: seq<string>)
    ensures Tokenized(JoinedLine(args)) == if |args| <= MAX_ARGS then Args(args) else Rejected(ErrUsage)
    ensures Tokenized(QuotedLine(args)) == Tokenized(JoinedLine(args))
  {
    LexJoinedLine(args);
    LexQuotedLine(args);
  }

  /** From the list to the buffer and back: what `parse_args` leaves for the command is the list. */
  method QuoteAndParse(args: seq<string>, line: string, out: array<char>, argv: array<nat>)
    returns (status: Status, argc: nat)
    requires out.Length == INPUT_MAX && argv.Length == MAX_ARGS
    requires |args| <= 10 && (line == JoinedLine(args) || line == QuotedLine(args)) && |line| <= 255
    requires forall k :: 0 <= k < |args| ==> NulFree(args[k])
    modifies out, argv
    ensures status == Ok && argc == |args|
    ensures forall k :: 0 <= k < argc ==> argv[k] < INPUT_MAX && CString(out[..], argv[k]) == args[k]
  {
    QuotingRoundTrip(args);
    ParsedIsTokenized(line);
    status, argc := ParseArgs(line, out, argv);
    forall k | 0 <= k < argc ensures argv[k] < INPUT_MAX && CString(out[..], argv[k]) == args[k] {
      PackedPrefix(args, k);
      ArgumentReadsBack(out[..], args, k);
    }
  }

  // ----- The counting automaton -----

  datatype Counter = Counter(argc: nat, quote: bool, escape: bool, inArg: bool)

  const COUNT_START := Counter(0, false, false, false)

  function Counted(k: Counter): Counter {
    if k.inArg then k else k.(argc := k.argc + 1, inArg := true)
  }

  function CountNext(k: Counter, c: char): Counter {
    if k.escape then Counted(k.(escape := false))
    else if c == '\\' then k.(escape := true)
    else if c == '"' then Counted(k.(quote := !k.quote))
    else if IsBlank(c) && !k.quote then k.(inArg := false)
    else Counted(k)
  }

  /** A plain character has just opened an argument beyond the limit. */
  predicate OverLimit(k: Counter, c: char) {
    !k.escape && c != '\\' && c != '"' && !(IsBlank(c) && !k.quote) && !k.inArg && k.argc + 1 > MAX_ARGS
  }

  predicate HasExtra(k: Counter, line: string)
    decreases |line|
  {
    line != [] && (OverLimit(k, line[0]) || HasExtra(CountNext(k, line[0]), line[1..]))
  }

  method HasExtraArgOverLimit(line: string) returns (extra: bool)
    ensures extra == HasExtra(COUNT_START, line)
  {
    var argc, quote, escape, inArg := 0, false, false, false;
    for i := 0 to |line|
      invariant HasExtra(Counter(argc, quote, escape, inArg), line[i..]) == HasExtra(COUNT_START, line)
    {
      var c := line[i];
      assert line[i..][0] == c && line[i..][1..] == line[i + 1..];
      if escape {
        escape := false;
        if !inArg { argc := argc + 1; inArg := true; }
      } else if c == '\\' {
        escape := true;
      } else if c == '"' {
        quote := !quote;
        if !inArg { argc := argc + 1; inArg := true; }
      } else if IsBlank(c) && !quote {
        inArg := false;
      } else if !inArg {
        argc := argc + 1;
        inArg := true;
        if argc > MAX_ARGS { return true; }
      }
    }
    extra := false;
  }

  /** While the tokenizer has not failed, the counter shows its flags and its number of arguments. */
  predicate Shadows(k: Counter, l: Lexer) {
    k == Counter(|l.args|, l.quote, l.escape, l.inArg) && |l.args| <= MAX_ARGS
  }

  lemma {:induction false} ExtraMeansRejected(k: Counter, l: Lexer, line: string)
    requires Sane(l) && Shadows(k, l) && HasExtra(k, line)
    ensures Lex(l, line).Failed?
    decreases |line|
  {
    if !OverLimit(k, line[0]) && Next(l, line[0]).Lexing? {
      ExtraMeansRejected(CountNext(k, line[0]), Next(l, line[0]).lexer, line[1..]);
    }
  }

  predicate PreCheck(line: string) {
    HasExtra(COUNT_START, line)
  }

  lemma PreCheckMeansRejected(line: string)
    requires PreCheck(line)
    ensures Tokenized(line).Rejected?
  {
    ExtraMeansRejected(COUNT_START, START, line);
  }

  /** The answer of `pcmd` before it looks for a command: the pre-check, then the parser. */
  function Verdict(line: string, parsed: Parsed): Status {
    if PreCheck(line) then ErrUsage
    else match parsed case Args(_) => Ok case Rejected(s) => s
  }

  lemma {:induction false} FailuresAreErrors(l: Lexer, line: string)
    requires Sane(l)
    ensures Lex(l, line) != Failed(Ok)
    decreases |line|
  {
    if line != [] && Next(l, line[0]).Lexing? {
      FailuresAreErrors(Next(l, line[0]).lexer, line[1..]);
    }
  }

  lemma TokenizedIsNotOk(line: string)
    ensures Tokenized(line) != Rejected(Ok)
  {
    FailuresAreErrors(START, line);
  }

  /** The pre-check never rejects a line that the parser would accept. */
  lemma PreCheckIsHarmless(line: string)
    ensures Verdict(line, Tokenized(line)) == Ok <==> Tokenized(line).Args?
  {
    TokenizedIsNotOk(line);
    if PreCheck(line) { PreCheckMeansRejected(line); }
  }

  /** The accept or reject part of `pcmd`. */
  method Judge(line: string, out: array<char>, argv: array<nat>) returns (status: Status, argc: nat)
    requires out.Length == INPUT_MAX && argv.Length == MAX_ARGS && |line| <= 255
    modifies out, argv
    ensures status == Verdict(line, Tokenized(line))
    ensures status == Ok <==> IsAcceptable(line)
    ensures status == Ok ==> argc == |Words(line, |line|)| && Packed(Words(line, |line|)) <= out[..]
  {
    AcceptedExactly(line);
    PreCheckIsHarmless(line);
    ParsedIsTokenized(line);
    argc := 0;
    var extra := HasExtraArgOverLimit(line);
    if extra { return ErrUsage, 0; }
    status, argc := ParseArgs(line, out, argv);
  }

  lemma {:induction false} CountQuotedIsQuiet(k: Counter, s: string, rest: string)
    requires k.quote && !k.escape && k.inArg
    ensures HasExtra(k, Escaped(s) + rest) == HasExtra(k, rest)
    decreases |s|
  {
    if s == [] {
      assert Escaped(s) + rest == rest;
    } else {
      var tail := Escaped(s[1..]) + rest;
      if s[0] == '"' || s[0] == '\\' {
        assert Escaped(s) + rest == ['\\'] + ([s[0]] + tail);
        assert (['\\'] + ([s[0]] + tail))[1..] == [s[0]] + tail;
        assert ([s[0]] + tail)[1..] == tail;
        assert HasExtra(k.(escape := true), [s[0]] + tail) == HasExtra(k, tail);
      } else {
        assert Escaped(s) + rest == [s[0]] + tail;
        assert ([s[0]] + tail)[1..] == tail;
      }
      CountQuotedIsQuiet(k, s[1..], rest);
    }
  }

  lemma {:induction false} QuotedLinesPassFrom(k: Counter, args: seq<string>, rest: string)
    requires !k.quote && !k.escape && !k.inArg
    ensures HasExtra(k, QuotedLine(args) + rest) == HasExtra(k.(argc := k.argc + |args|), rest)
    decreases |args|
  {
    if args == [] {
      assert QuotedLine(args) + rest == rest;
    } else {
      var n := |args| - 1;
      var s := args[n];
      var tail := ['"', ' '] + rest;
      QuotedLinesPassFrom(k, args[..n], Quoted(s) + [' '] + rest);
      assert QuotedLine(args) + rest == QuotedLine(args[..n]) + (Quoted(s) + [' '] + rest);
      var k1 := k.(argc := k.argc + n);
      assert Quoted(s) + [' '] + rest == ['"'] + (Escaped(s) + tail);
      assert (['"'] + (Escaped(s) + tail))[1..] == Escaped(s) + tail;
      var k2 := k1.(argc := k1.argc + 1, quote := true, inArg := true);
      assert CountNext(k1, '"') == k2;
      CountQuotedIsQuiet(k2, s, tail);
      assert tail[1..] == [' '] + rest && ([' '] + rest)[1..] == rest;
      assert HasExtra(k2, tail) == HasExtra(k2.(quote := false), [' '] + rest);
    }
  }

  /** The other direction fails: the pre-check never fires on quoted arguments, however many there are. */
  lemma PreCheckMissesQuoted(args: seq<string>)
    ensures !PreCheck(QuotedLine(args))
    ensures |args| > MAX_ARGS ==> Tokenized(QuotedLine(args)) == Rejected(ErrUsage)
  {
    QuotedLinesPassFrom(COUNT_START, args, []);
    assert QuotedLine(args) + [] == QuotedLine(args);
    QuotingRoundTrip(args);
  }

  // ----- What a line means, position by position -----

  /** The character at `n`, or the end of the line, follows an unescaped backslash. */
  predicate IsEscaped(line: string, n: nat)
    requires n <= |line|
  {
    n > 0 && line[n - 1] == '\\' && !IsEscaped(line, n - 1)
  }

  /** The unescaped quotes before `n`. */
  function Quotes(line: string, n: nat): nat
    requires n <= |line|
  {
    if n == 0 then 0 else Quotes(line, n - 1) + (if line[n - 1] == '"' && !IsEscaped(line, n - 1) then 1 else 0)
  }

  /** Neither escaped nor between quotes. */
  predicate IsBare(line: string, n: nat)
    requires n < |line|
  {
    !IsEscaped(line, n) && Quotes(line, n) % 2 == 0
  }

  predicate IsSeparator(line: string, n: nat)
    requires n < |line|
  {
    IsBare(line, n) && (line[n] == ' ' || line[n] == '\t')
  }

  /** Part of an argument, if only by opening it: all but separators and unescaped backslashes. */
  predicate Belongs(line: string, n: nat)
    requires n < |line|
  {
    IsEscaped(line, n) || (line[n] != '\\' && !IsSeparator(line, n))
  }

  /** What stands before `n`, without the backslash that escapes it, ends inside an argument. */
  predicate InsideAt(line: string, n: nat)
    requires n <= |line|
  {
    var p := if IsEscaped(line, n) then n - 1 else n;
    p > 0 && !IsSeparator(line, p - 1)
  }

  predicate OpensArgument(line: string, n: nat)
    requires n < |line|
  {
    Belongs(line, n) && !InsideAt(line, n)
  }

  /** What opens an argument: a character of its own, a quote, or an escaped character. */
  datatype Opening = Plain | Quote | Backslash

  function OpeningAt(line: string, n: nat): Opening
    requires n < |line|
  {
    if IsEscaped(line, n) then Backslash else if line[n] == '"' then Quote else Plain
  }

  /** For each argument that opens before `n`, in order, what opens it. */
  function Openings(line: string, n: nat): seq<Opening>
    requires n <= |line|
  {
    if n == 0 then []
    else Openings(line, n - 1) + (if OpensArgument(line, n - 1) then [OpeningAt(line, n - 1)] else [])
  }

  /** The arguments as they stand before `n`: each character that belongs to one, except
      an unescaped quote, goes to the last argument opened. */
  function Words(line: string, n: nat): (w: seq<string>)
    requires n <= |line|
    ensures |w| == |Openings(line, n)|
  {
    if n == 0 then []
    else
      var w := Words(line, n - 1) + (if OpensArgument(line, n - 1) then [""] else []);
      if w != [] && Belongs(line, n - 1) && (IsEscaped(line, n - 1) || line[n - 1] != '"') then
        w[|w| - 1 := w[|w| - 1] + [line[n - 1]]]
      else w
  }

  predicate IsBarePipe(line: string, n: nat)
    requires n < |line|
  {
    IsBare(line, n) && line[n] == '|'
  }

  /** The first bare pipe from `n` on, or the end of the line. */
  function FirstPipe(line: string, n: nat): (r: nat)
    requires n <= |line|
    ensures n <= r <= |line| && (r < |line| ==> IsBarePipe(line, r))
    ensures forall k :: n <= k < r ==> !IsBarePipe(line, k)
    decreases |line| - n
  {
    if n == |line| || IsBarePipe(line, n) then n else FirstPipe(line, n + 1)
  }

  lemma {:induction false} OpeningsGrow(line: string, n: nat, m: nat)
    requires n <= m <= |line|
    ensures Openings(line, n) <= Openings(line, m)
    decreases m - n
  {
    if n < m { OpeningsGrow(line, n, m - 1); }
  }

  /** The tokenizer before position `n`, if it has not failed. */
  function LexerAt(line: string, n: nat): Lexer
    requires n <= |line|
  {
    Lexer(Words(line, n), Quotes(line, n) % 2 == 1, IsEscaped(line, n), InsideAt(line, n))
  }

  /** One character of the tokenizer is one position of the line. */
  lemma LexerStep(line: string, n: nat)
    requires n < |line| && Sane(LexerAt(line, n)) && |Words(line, n)| <= MAX_ARGS
    ensures Next(LexerAt(line, n), line[n])
            == if IsBarePipe(line, n) then Failed(ErrParse)
               else if OpensArgument(line, n) && |Words(line, n)| == MAX_ARGS then Failed(ErrUsage)
               else Lexing(LexerAt(line, n + 1))
  {
    var l := LexerAt(line, n);
    assert OpensArgument(line, n) <==> Belongs(line, n) && !l.inArg;
    assert InsideAt(line, n + 1) == if line[n] == '\\' && !l.escape then l.inArg else !IsSeparator(line, n);
  }

  /** The tokenizer on a whole line. */
  function Outcome(line: string): Lexed {
    var end := FirstPipe(line, 0);
    if |Openings(line, end)| > MAX_ARGS then Failed(ErrUsage)
    else if end < |line| then Failed(ErrParse)
    else Lexing(LexerAt(line, |line|))
  }

  lemma {:induction false} LexFrom(line: string, n: nat)
    requires n <= FirstPipe(line, 0) && Sane(LexerAt(line, n)) && |Words(line, n)| <= MAX_ARGS
    ensures Lex(LexerAt(line, n), line[n..]) == Outcome(line)
    decreases |line| - n
  {
    var end := FirstPipe(line, 0);
    OpeningsGrow(line, n, end);
    if n < |line| {
      LexerStep(line, n);
      assert line[n..][0] == line[n] && line[n..][1..] == line[n + 1..];
      if n < end {
        OpeningsGrow(line, n + 1, end);
        if Next(LexerAt(line, n), line[n]).Lexing? { LexFrom(line, n + 1); }
      }
    }
  }

  /** For every line, what the tokenizer answers: too many arguments if more than ten open
      before the first bare pipe; a parse error if there is such a pipe, or the line ends
      in an unescaped backslash, or the number of its unescaped quotes is odd; otherwise
      the arguments that the positions give, ended by unquoted blanks and tabs. */
  lemma TokenizedExactly(line: string)
    ensures var end := FirstPipe(line, 0);
            Tokenized(line)
            == if |Openings(line, end)| > 10 then Rejected(ErrUsage)
               else if end < |line| || IsEscaped(line, |line|) || Quotes(line, |line|) % 2 == 1 then Rejected(ErrParse)
               else Args(Words(line, |line|))
  {
    assert line[0..] == line;
    LexFrom(line, 0);
  }

  /** At most ten arguments, no bare pipe, no unescaped backslash at the end, and an even
      number of unescaped quotes. */
  ghost predicate IsAcceptable(line: string) {
    && |Openings(line, |line|)| <= 10
    && (forall n :: 0 <= n < |line| && line[n] == '|' ==> !IsBare(line, n))
    && !IsEscaped(line, |line|)
    && Quotes(line, |line|) % 2 == 0
  }

  /** Exactly those lines are accepted, and their arguments are what the positions give. */
  lemma AcceptedExactly(line: string)
    ensures Tokenized(line).Args? <==> IsAcceptable(line)
    ensures IsAcceptable(line) ==> Tokenized(line).args == Words(line, |line|)
  {
    TokenizedExactly(line);
    var end := FirstPipe(line, 0);
    if end < |line| { assert IsBarePipe(line, end); }
    forall n | 0 <= n < end ensures line[n] == '|' ==> !IsBare(line, n) {
      assert !IsBarePipe(line, n);
    }
  }

  /** For every line: too many arguments for the parser means more than ten before the first bare pipe. */
  lemma TooManyExactly(line: string)
    ensures Tokenized(line) == Rejected(ErrUsage) <==> |Openings(line, FirstPipe(line, 0))| > 10
    ensures Tokenized(line).Args? ==> |Tokenized(line).args| == |Openings(line, |line|)|
  {
    TokenizedExactly(line);
  }

  // ----- For which lines the pre-check fires -----

  function CounterAt(line: string, n: nat): Counter
    requires n <= |line|
  {
    Counter(|Openings(line, n)|, Quotes(line, n) % 2 == 1, IsEscaped(line, n), InsideAt(line, n))
  }

  lemma CounterStep(line: string, n: nat)
    requires n < |line|
    ensures CountNext(CounterAt(line, n), line[n]) == CounterAt(line, n + 1)
    ensures OverLimit(CounterAt(line, n), line[n])
            <==> OpensArgument(line, n) && OpeningAt(line, n) == Plain && |Openings(line, n)| >= MAX_ARGS
  {
    var k := CounterAt(line, n);
    assert OpensArgument(line, n) <==> Belongs(line, n) && !k.inArg;
    assert InsideAt(line, n + 1) == if line[n] == '\\' && !k.escape then k.inArg else !IsSeparator(line, n);
  }

  /** One of the openings from `n` on that are beyond the tenth is by a plain character. */
  ghost predicate PlainBeyond(os: seq<Opening>, n: nat) {
    exists m :: n <= m < |os| && MAX_ARGS <= m && os[m] == Plain
  }

  lemma {:induction false} ExtraFrom(line: string, n: nat)
    requires n <= |line|
    ensures HasExtra(CounterAt(line, n), line[n..]) <==> PlainBeyond(Openings(line, |line|), |Openings(line, n)|)
    decreases |line| - n
  {
    if n < |line| {
      CounterStep(line, n);
      assert line[n..][0] == line[n] && line[n..][1..] == line[n + 1..];
      ExtraFrom(line, n + 1);
      ExtraStep(line, n);
    }
  }

  lemma ExtraStep(line: string, n: nat)
    requires n < |line|
    ensures PlainBeyond(Openings(line, |line|), |Openings(line, n)|)
            <==> (OpensArgument(line, n) && OpeningAt(line, n) == Plain && |Openings(line, n)| >= MAX_ARGS)
                 || PlainBeyond(Openings(line, |line|), |Openings(line, n + 1)|)
  {
    OpeningsGrow(line, n + 1, |line|);
    var os, at := Openings(line, |line|), |Openings(line, n)|;
    if OpensArgument(line, n) { assert os[at] == Openings(line, n + 1)[at] == OpeningAt(line, n); }
    if PlainBeyond(os, at) {
      var m :| at <= m < |os| && MAX_ARGS <= m && os[m] == Plain;
      if m > at { assert |Openings(line, n + 1)| <= m; }
    }
    if PlainBeyond(os, |Openings(line, n + 1)|) {
      var m :| |Openings(line, n + 1)| <= m < |os| && MAX_ARGS <= m && os[m] == Plain;
      assert at <= m;
    }
  }

  /** For every line: the pre-check fires exactly when one of the arguments beyond
      the tenth is opened by a plain character. */
  lemma PreCheckExactly(line: string)
    ensures var os := Openings(line, |line|);
            PreCheck(line) <==> exists n :: 10 <= n < |os| && os[n] == Plain
  {
    assert line[0..] == line;
    ExtraFrom(line, 0);
    var os := Openings(line, |line|);
    if PlainBeyond(os, 0) {
      var m :| 0 <= m < |os| && MAX_ARGS <= m && os[m] == Plain;
      assert 10 <= m < |os| && os[m] == Plain;
    }
  }

  /** For every line: it has too many arguments and gets past the pre-check all the
      same exactly when there are more than ten before its first bare pipe, and every
      one beyond the tenth, on the whole line, is opened by a quote or a backslash. */
  lemma PreCheckMissesExactly(line: string)
    ensures var os := Openings(line, |line|);
            Tokenized(line) == Rejected(ErrUsage) && !PreCheck(line)
            <==> |Openings(line, FirstPipe(line, 0))| > 10 && forall n :: 10 <= n < |os| ==> os[n] != Plain
  {
    TooManyExactly(line);
    PreCheckExactly(line);
  }
}
