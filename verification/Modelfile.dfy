/**
 The Modelfile format: how a list of commands is printed, and the machine that reads it back
 character by character.
 */
module Modelfile {
  import opened Options
  import opened Text

  datatype Command = Command(name: string, args: string)

  const NEWLINE := "\n"
  const QUOTE := "\""
  const TRIPLE := "\"\"\""

  // ----- characters -----

  predicate IsAlpha(r: char) { 'a' <= r <= 'z' || 'A' <= r <= 'Z' }

  predicate IsNumber(r: char) { '0' <= r <= '9' }

  predicate IsBlank(r: char) { r == ' ' || r == '\t' }

  predicate IsNewline(r: char) { r == '\r' || r == '\n' }

  /** `strconv.IsPrint`; which characters beyond ASCII are printed is left open. */
  predicate IsPrint(p: char -> bool, r: char) {
    if r as int < 0x80 then 0x20 <= r as int <= 0x7E else p(r)
  }

  function Lower(r: char): char { if 'A' <= r <= 'Z' then r - 'A' + 'a' else r }
  function Upper(r: char): char { if 'a' <= r <= 'z' then r - 'a' + 'A' else r }

  function ToLower(s: string): string {
    if s == [] then [] else [Lower(s[0])] + ToLower(s[1..])
  }

  function ToUpper(s: string): string {
    if s == [] then [] else [Upper(s[0])] + ToUpper(s[1..])
  }

  // ----- printing -----

  predicate NeedsQuotes(s: string) {
    Contains(s, NEWLINE) || " " <= s || EndsWith(s, " ")
  }

  function Quote(s: string): string {
    if NeedsQuotes(s) then
      if Contains(s, QUOTE) then TRIPLE + s + TRIPLE else QUOTE + s + QUOTE
    else s
  }

  /** None if the quotes are not closed. */
  function Unquote(s: string): Option<string> {
    if TRIPLE <= s then
      if |s| >= 6 && s[|s| - 3..] == TRIPLE then Some(s[3..|s| - 3]) else None
    else if QUOTE <= s then
      if |s| >= 2 && s[|s| - 1] == '"' then Some(s[1..|s| - 1]) else None
    else Some(s)
  }

  /** The words of the format, and which characters beyond ASCII are printed. All that matters of them is said by Valid. */
  datatype Format = Format(
    printable: char -> bool, model: string, from: string, parameter: string, message: string,
    single: set<string>, roles: set<string>)
  {
    predicate Valid() {
      && IsWord(from) && IsWord(parameter) && IsWord(message)
      && (forall w | w in single :: IsWord(w) && w != from && w != parameter && w != message && w != model)
      && from != parameter && from != message && parameter != message && message != model
      && forall r | r in roles :: r != "" && AllAlpha(r)
    }
  }

  /** A word of lower-case letters. */
  predicate IsWord(w: string) { w != "" && AllAlpha(w) && ToLower(w) == w }

  predicate AllAlpha(w: string) {
    w == [] || (IsAlpha(w[0]) && AllAlpha(w[1..]))
  }

  /** The words of Modelfiles. */
  function ModelfileFormat(printable: char -> bool): Format {
    Format(printable, "model", "from", "parameter", "message",
           {"license", "template", "system", "adapter", "renderer", "parser"}, {"system", "user", "assistant"})
  }

  /** `strings.Cut(s, ": ")`: without the separator, all is in front of it. */
  function Cut(s: string, sep: string): (string, string) {
    if Contains(s, sep) then SplitOnce(s, sep) else (s, "")
  }

  function CommandString(g: Format, c: Command): string {
    Written(g, c, ToUpper(Keyword(g, c)))
  }

  /** The word that a command starts with. */
  function Keyword(g: Format, c: Command): string {
    if c.name == g.model then g.from
    else if c.name in g.single then c.name
    else if c.name == g.message then g.message
    else g.parameter
  }

  /** A command that starts with w. */
  function Written(g: Format, c: Command, w: string): string {
    if c.name == g.model then w + " " + c.args
    else if c.name in g.single then w + " " + Quote(c.args)
    else if c.name == g.message then
      var (role, message) := Cut(c.args, ": ");
      w + " " + role + " " + Quote(message)
    else w + " " + c.name + " " + Quote(c.args)
  }

  /** w is the keyword of the command, in upper, lower or mixed case. */
  predicate Spells(g: Format, c: Command, w: string) {
    w != "" && AllAlpha(w) && ToLower(w) == Keyword(g, c)
  }

  function FileString(g: Format, commands: seq<Command>): string {
    if commands == [] then "" else CommandString(g, commands[0]) + NEWLINE + FileString(g, commands[1..])
  }

  // ----- reading -----

  datatype State = Nil | Name | Value | Parameter | Message | Comment

  datatype Error =
    | InvalidCommand(line: nat)
    | InvalidMessageRole(line: nat)
    | UnexpectedEof(text: Option<string>)
    | MissingFrom

  /** What the reader has in its variables. */
  datatype Machine = Machine(curr: State, b: string, role: string, name: string, commands: seq<Command>, line: nat)

  datatype Outcome<T> = Ok(value: T) | Failed(error: Error)

  predicate IsValidCommand(g: Format, cmd: string) {
    var w := ToLower(cmd);
    w in g.single || w == g.from || w == g.parameter || w == g.message
  }

  datatype Parsed = Next(state: State, r: char) | InvalidName | Unexpected

  const NUL := 0 as char

  function ParseRuneForState(r: char, cs: State): Parsed {
    match cs
    case Nil => if r == '#' then Next(Comment, NUL) else if IsBlank(r) || IsNewline(r) then Next(Nil, NUL) else Next(Name, r)
    case Name => if IsAlpha(r) then Next(Name, r) else if IsBlank(r) then Next(Value, NUL) else InvalidName
    case Value => if IsNewline(r) || IsBlank(r) then Next(Nil, r) else Next(Value, r)
    case Parameter =>
      if IsAlpha(r) || IsNumber(r) || r == '_' then Next(Parameter, r) else if IsBlank(r) then Next(Value, NUL) else Unexpected
    case Message => if IsAlpha(r) then Next(Message, r) else if IsBlank(r) then Next(Value, NUL) else Unexpected
    case Comment => if IsNewline(r) then Next(Nil, NUL) else Next(Comment, NUL)
  }

  /** The arguments of a command: those of a message start with its role. */
  function WithRole(role: string, s: string): string {
    if role != "" then role + ": " + s else s
  }

  /** A character that does not change the state, or the first one in a new state, is kept if it can be printed. */
  function Write(g: Format, m: Machine, r: char): Machine {
    if IsPrint(g.printable, r) then m.(b := m.b + [r]) else m
  }

  /** One round of the loop. */
  function Step(g: Format, m0: Machine, rune: char): Outcome<Machine> {
    var m := if IsNewline(rune) then m0.(line := m0.line + 1) else m0;
    match ParseRuneForState(rune, m.curr)
    case Unexpected => Failed(UnexpectedEof(Some(m.b)))
    case InvalidName => Failed(InvalidCommand(m.line))
    case Next(next, r) =>
      if next == m.curr then Ok(Write(g, m, r))
      else
        match m.curr
        case Name =>
          var cmd := ToLower(m.b);
          if !IsValidCommand(g, m.b) then Failed(InvalidCommand(m.line))
          else if cmd == g.from then Ok(Write(g, m.(curr := next, b := "", name := g.model), r))
          else if cmd == g.parameter then Ok(Write(g, m.(curr := Parameter, b := ""), r))
          else if cmd == g.message then Ok(Write(g, m.(curr := Message, b := "", name := cmd), r))
          else Ok(Write(g, m.(curr := next, b := "", name := cmd), r))
        case Parameter => Ok(Write(g, m.(curr := next, b := "", name := m.b), r))
        case Message =>
          if m.b !in g.roles then Failed(InvalidMessageRole(m.line))
          else Ok(Write(g, m.(curr := next, b := "", role := m.b), r))
        case Value =>
          var s := Unquote(TrimSpace(m.b));
          if s == None || IsBlank(r) then Ok(m.(b := m.b + [r]))
          else Ok(Write(g, m.(curr := next, b := "", role := "", commands := m.commands + [Command(m.name, WithRole(m.role, s.value))]), r))
        case _ => Ok(Write(g, m.(curr := next, b := ""), r))
  }

  function Run(g: Format, m: Machine, input: string): Outcome<Machine>
    decreases |input|
  {
    if input == [] then Ok(m)
    else
      match Step(g, m, input[0])
      case Failed(error) => Failed(error)
      case Ok(next) => Run(g, next, input[1..])
  }

  /** What is still to be done at the end of the input. */
  function Flush(m: Machine): Outcome<seq<Command>> {
    match m.curr
    case Comment => Ok(m.commands)
    case Nil => Ok(m.commands)
    case Value =>
      var s := Unquote(TrimSpace(m.b));
      if s == None then Failed(UnexpectedEof(None)) else Ok(m.commands + [Command(m.name, WithRole(m.role, s.value))])
    case _ => Failed(UnexpectedEof(None))
  }

  predicate HasModel(g: Format, commands: seq<Command>) {
    exists i | 0 <= i < |commands| :: commands[i].name == g.model
  }

  const START := Machine(Nil, "", "", "", [], 1)

  function Parse(g: Format, input: string): Outcome<seq<Command>> {
    match Run(g, START, input)
    case Failed(error) => Failed(error)
    case Ok(m) =>
      match Flush(m)
      case Failed(error) => Failed(error)
      case Ok(commands) => if HasModel(g, commands) then Ok(commands) else Failed(MissingFrom)
  }

  lemma {:induction false} RunAppend(g: Format, m: Machine, a: string, b: string)
    ensures Run(g, m, a + b) ==
            match Run(g, m, a)
            case Failed(error) => Failed(error)
            case Ok(next) => Run(g, next, b)
    decreases |a|
  {
    if a == [] {
      AppendNothing(b);
    } else {
      assert (a + b)[1..] == a[1..] + b;
      match Step(g, m, a[0])
      case Failed(_) =>
      case Ok(next) => RunAppend(g, next, a[1..], b);
    }
  }

  /** `ParseFile`. */
  method ParseFile(g: Format, input: string) returns (f: Outcome<seq<Command>>)
    ensures f == Parse(g, input)
  {
    var cmd := Command("", "");
    var curr := Nil;
    var currLine := 1;
    var b, role := "", "";
    var commands: seq<Command> := [];
    var i := 0;
    assert input[0..] == input;
    while i < |input|
      invariant 0 <= i <= |input|
      invariant Run(g, Machine(curr, b, role, cmd.name, commands, currLine), input[i..]) == Run(g, START, input)
    {
      var rune := input[i];
      ghost var m := Machine(curr, b, role, cmd.name, commands, currLine);
      assert input[i..][1..] == input[i + 1..];
      i := i + 1;
      if IsNewline(rune) {
        currLine := currLine + 1;
      }
      var parsed := ParseRuneForState(rune, curr);
      if parsed == Unexpected {
        return Failed(UnexpectedEof(Some(b)));
      } else if parsed == InvalidName {
        return Failed(InvalidCommand(currLine));
      }
      var next, r := parsed.state, parsed.r;
      if next != curr {
        match curr {
          case Name =>
            if !IsValidCommand(g, b) {
              return Failed(InvalidCommand(currLine));
            }
            var s := ToLower(b);
            if s == g.from {
              cmd := cmd.(name := g.model);
            } else if s == g.parameter {
              next := Parameter;
            } else {
              if s == g.message {
                next := Message;
              }
              cmd := cmd.(name := s);
            }
          case Parameter =>
            cmd := cmd.(name := b);
          case Message =>
            if b !in g.roles {
              return Failed(InvalidMessageRole(currLine));
            }
            role := b;
          case Comment =>
          case Nil =>
          case Value =>
            var s := Unquote(TrimSpace(b));
            if s == None || IsBlank(r) {
              b := b + [r];
              continue;
            }
            cmd := cmd.(args := WithRole(role, s.value));
            role := "";
            commands := commands + [cmd];
        }
        b := "";
        curr := next;
      }
      if IsPrint(g.printable, r) {
        b := b + [r];
      }
    }
    assert input[i..] == [];
    match curr {
      case Comment =>
      case Nil =>
      case Value =>
        var s := Unquote(TrimSpace(b));
        if s == None {
          return Failed(UnexpectedEof(None));
        }
        cmd := cmd.(args := WithRole(role, s.value));
        commands := commands + [cmd];
      case _ =>
        return Failed(UnexpectedEof(None));
    }
    for k := 0 to |commands|
      invariant forall j | 0 <= j < k :: commands[j].name != g.model
    {
      if commands[k].name == g.model {
        return Ok(commands);
      }
    }
    return Failed(MissingFrom);
  }

  // ----- reading a value -----

  /** A value ends with a newline outside of quotes; otherwise more of it may follow. */
  datatype Read = Ended(value: string, rest: string) | Unfinished(b: string)

  /** What the machine makes of a text while it reads a value. */
  function ReadValue(p: char -> bool, b: string, v: string): Read
    decreases |v|
  {
    if v == [] then Unfinished(b)
    else if IsBlank(v[0]) then ReadValue(p, b + [v[0]], v[1..])
    else if IsNewline(v[0]) then
      var s := Unquote(TrimSpace(b));
      if s == None then ReadValue(p, b + [v[0]], v[1..]) else Ended(s.value, v[1..])
    else ReadValue(p, if IsPrint(p, v[0]) then b + [v[0]] else b, v[1..])
  }

  lemma {:induction false} RunReadsValue(g: Format, m: Machine, v: string) returns (line: nat)
    requires m.curr == Value
    ensures Run(g, m, v) ==
            match ReadValue(g.printable, m.b, v)
            case Unfinished(b) => Ok(m.(b := b, line := line))
            case Ended(value, rest) =>
              Run(g, Machine(Nil, "", "", m.name, m.commands + [Command(m.name, WithRole(m.role, value))], line), rest)
    decreases |v|
  {
    if v == [] {
      line := m.line;
    } else {
      var next := Step(g, m, v[0]);
      assert next.Ok?;
      if next.value.curr == Value {
        line := RunReadsValue(g, next.value, v[1..]);
      } else {
        line := next.value.line;
      }
    }
  }

  /** The characters that survive in a value. */
  predicate Readable(p: char -> bool, s: string) {
    s == [] || ((s[0] == '\t' || s[0] == '\n' || IsPrint(p, s[0])) && Readable(p, s[1..]))
  }

  /** No newline in s ends a value of which b has been read. */
  predicate StaysOpen(b: string, s: string)
    decreases |s|
  {
    s == [] || ((s[0] == '\n' ==> Unquote(TrimSpace(b)) == None) && StaysOpen(b + [s[0]], s[1..]))
  }

  /** A readable text that stays open is read as it is; otherwise the value ends inside of it. */
  lemma {:induction false} OpenReads(p: char -> bool, b: string, s: string, rest: string)
    requires Readable(p, s)
    ensures StaysOpen(b, s) ==> ReadValue(p, b, s + rest) == ReadValue(p, b + s, rest)
    ensures !StaysOpen(b, s) ==> ReadValue(p, b, s + rest).Ended? && |ReadValue(p, b, s + rest).rest| >= |rest|
    decreases |s|
  {
    if s == [] {
      AppendNothing(rest);
      AppendNothing(b);
    } else {
      assert (s + rest)[1..] == s[1..] + rest;
      OpenReads(p, b + [s[0]], s[1..], rest);
      assert b + [s[0]] + s[1..] == b + s;
    }
  }

  predicate HasChar(s: string, c: char) {
    s != [] && (s[0] == c || HasChar(s[1..], c))
  }

  lemma {:induction false} ContainsChar(s: string, c: char)
    ensures Contains(s, [c]) <==> HasChar(s, c)
  {
    if s != [] {
      ContainsChar(s[1..], c);
      assert [c] <= s <==> s[0] == c;
    }
  }

  lemma {:induction false} OneLineStaysOpen(b: string, s: string)
    requires !HasChar(s, '\n')
    ensures StaysOpen(b, s)
    decreases |s|
  {
    if s != [] {
      OneLineStaysOpen(b + [s[0]], s[1..]);
    }
  }

  lemma {:induction false} StaysOpenAppend(b: string, s: string, t: string)
    ensures StaysOpen(b, s + t) <==> StaysOpen(b, s) && StaysOpen(b + s, t)
    decreases |s|
  {
    if s == [] {
      AppendNothing(t);
      AppendNothing(b);
    } else {
      assert (s + t)[1..] == s[1..] + t;
      StaysOpenAppend(b + [s[0]], s[1..], t);
      assert b + [s[0]] + s[1..] == b + s;
    }
  }

  lemma {:induction false} ReadableAppend(p: char -> bool, s: string, t: string)
    ensures Readable(p, s + t) <==> Readable(p, s) && Readable(p, t)
  {
    if s == [] {
      AppendNothing(t);
    } else {
      assert (s + t)[1..] == s[1..] + t;
      ReadableAppend(p, s[1..], t);
    }
  }

  lemma {:induction false} HasCharAppend(s: string, t: string, c: char)
    ensures HasChar(s + t, c) <==> HasChar(s, c) || HasChar(t, c)
  {
    if s == [] {
      AppendNothing(t);
    } else {
      assert (s + t)[1..] == s[1..] + t;
      HasCharAppend(s[1..], t, c);
    }
  }

  /** The newline behind a readable value of which no line ends it. */
  lemma ReadLine(p: char -> bool, v: string)
    requires Readable(p, v)
    ensures ReadValue(p, "", v + NEWLINE) ==
      (if !StaysOpen("", v) then ReadValue(p, "", v + NEWLINE)
       else if Unquote(TrimSpace(v)) == None then Unfinished(v + NEWLINE)
       else Ended(Unquote(TrimSpace(v)).value, ""))
    ensures !StaysOpen("", v) ==> ReadValue(p, "", v + NEWLINE).Ended? && ReadValue(p, "", v + NEWLINE).rest != ""
  {
    OpenReads(p, "", v, NEWLINE);
    AppendNothing(v);
    assert NEWLINE[1..] == "";
  }

  // ----- which values read back -----

  /** The value of a command is read as it was printed. */
  predicate ReadsBack(p: char -> bool, s: string) {
    ReadValue(p, "", Quote(s) + NEWLINE) == Ended(s, "")
  }

  /** No line but the last ends in three quotes; u is what precedes s. */
  predicate NoLineEndsInQuotes(u: string, s: string)
    decreases |s|
  {
    s == [] || ((s[0] == '\n' ==> !EndsWith(TrimRight(u), TRIPLE)) && NoLineEndsInQuotes(u + [s[0]], s[1..]))
  }

  /** An unquoted value is trimmed and starts with no quote; within three quotes no line ends in three quotes. */
  predicate WellQuoted(s: string) {
    if NeedsQuotes(s) then Contains(s, QUOTE) ==> NoLineEndsInQuotes("", s)
    else TrimSpace(s) == s && !(QUOTE <= s)
  }

  /** What starts with a quote is trimmed on its right only. */
  lemma TrimQuoted(q: string, u: string)
    requires q == QUOTE || q == TRIPLE
    ensures TrimSpace(q + u) == q + TrimRight(u)
  {
    assert (q + u)[0] == '"';
    assert TrimLeft(q + u) == q + u;
    TrimRightAppend(q, u);
    if TrimRight(u) == [] {
      AppendNothing(q);
    }
  }

  lemma UnquoteTriple(t: string)
    ensures Unquote(TRIPLE + t) == if EndsWith(t, TRIPLE) then Some(t[..|t| - 3]) else None
  {
    var s := TRIPLE + t;
    if |t| >= 3 {
      assert s[|s| - 3..] == t[|t| - 3..];
      assert s[3..|s| - 3] == t[..|t| - 3];
    }
  }

  lemma {:induction false} NoChar(s: string, c: char, i: nat)
    requires !HasChar(s, c) && i < |s|
    ensures s[i] != c
  {
    if i > 0 {
      NoChar(s[1..], c, i - 1);
    }
  }

  lemma UnquoteSingle(t: string, closed: bool)
    requires !HasChar(t, '"') && (closed ==> t != "")
    ensures Unquote(QUOTE + t + if closed then QUOTE else "") == if closed then Some(t) else None
  {
    if closed {
      UnquoteClosed(t, QUOTE + t + QUOTE);
    } else {
      UnquoteOpen(t, QUOTE + t + "");
    }
  }

  lemma UnquoteClosed(t: string, s: string)
    requires !HasChar(t, '"') && t != "" && s == QUOTE + t + QUOTE
    ensures Unquote(s) == Some(t)
  {
    NoChar(t, '"', 0);
    assert s[1] == t[0];
    assert s[1..|s| - 1] == t;
  }

  lemma UnquoteOpen(t: string, s: string)
    requires !HasChar(t, '"') && s == QUOTE + t + ""
    ensures Unquote(s) == None
  {
    if t != "" {
      NoChar(t, '"', 0);
      assert s[1] == t[0];
      NoChar(t, '"', |t| - 1);
      assert s[|s| - 1] == t[|t| - 1];
    }
  }

  lemma {:induction false} StaysOpenInTriple(u: string, s: string)
    ensures StaysOpen(TRIPLE + u, s) <==> NoLineEndsInQuotes(u, s)
    decreases |s|
  {
    if s != [] {
      TrimQuoted(TRIPLE, u);
      UnquoteTriple(TrimRight(u));
      AppendAssociates(TRIPLE, u, [s[0]]);
      StaysOpenInTriple(u + [s[0]], s[1..]);
    }
  }

  lemma {:induction false} StaysOpenInSingle(u: string, s: string)
    requires !HasChar(u, '"') && !HasChar(s, '"')
    ensures StaysOpen(QUOTE + u, s)
    decreases |s|
  {
    if s != [] {
      TrimQuoted(QUOTE, u);
      TrimmedHasNoMore(u, '"');
      UnquoteSingle(TrimRight(u), false);
      AppendNothing(QUOTE + TrimRight(u));
      AppendAssociates(QUOTE, u, [s[0]]);
      HasCharAppend(u, [s[0]], '"');
      assert [s[0]][1..] == "";
      StaysOpenInSingle(u + [s[0]], s[1..]);
    }
  }

  lemma TrimmedHasNoMore(u: string, c: char)
    requires !HasChar(u, c)
    ensures !HasChar(TrimRight(u), c)
  {
    TrimRightRestores(u);
    HasCharAppend(TrimRight(u), TrailingSpace(u), c);
  }

  lemma TripleReadsBack(p: char -> bool, s: string)
    requires Readable(p, s)
    ensures ReadValue(p, "", TRIPLE + s + TRIPLE + NEWLINE) == Ended(s, "") <==> NoLineEndsInQuotes("", s)
  {
    var v := TRIPLE + s + TRIPLE;
    ReadableAppend(p, TRIPLE, s);
    ReadableAppend(p, TRIPLE + s, TRIPLE);
    TripleIsPlain(p);
    ReadLine(p, v);
    StaysOpenAppend("", TRIPLE + s, TRIPLE);
    StaysOpenAppend("", TRIPLE, s);
    AppendNothing(TRIPLE);
    AppendNothing(TRIPLE + s);
    OneLineStaysOpen("", TRIPLE);
    OneLineStaysOpen(TRIPLE + s, TRIPLE);
    StaysOpenInTriple("", s);
    AppendAssociates(TRIPLE, s, TRIPLE);
    TrimQuoted(TRIPLE, s + TRIPLE);
    assert (s + TRIPLE)[|s + TRIPLE| - 1] == '"';
    UnquoteTriple(s + TRIPLE);
    assert (s + TRIPLE)[|s + TRIPLE| - 3..] == TRIPLE && (s + TRIPLE)[..|s|] == s;
  }

  lemma TripleIsPlain(p: char -> bool)
    ensures Readable(p, TRIPLE) && !HasChar(TRIPLE, '\n') && Readable(p, QUOTE) && !HasChar(QUOTE, '\n')
  {
    assert TRIPLE[1..] == "\"\"" && TRIPLE[1..][1..] == QUOTE && QUOTE[1..] == "";
  }

  lemma SingleReadsBack(p: char -> bool, s: string)
    requires Readable(p, s) && s != "" && !HasChar(s, '"')
    ensures ReadValue(p, "", QUOTE + s + QUOTE + NEWLINE) == Ended(s, "")
  {
    var v := QUOTE + s + QUOTE;
    ReadableAppend(p, QUOTE, s);
    ReadableAppend(p, QUOTE + s, QUOTE);
    TripleIsPlain(p);
    ReadLine(p, v);
    SingleStaysOpen(s);
    TrimSingle(s);
    UnquoteSingle(s, true);
  }

  lemma SingleStaysOpen(s: string)
    requires !HasChar(s, '"')
    ensures StaysOpen("", QUOTE + s + QUOTE)
  {
    StaysOpenAppend("", QUOTE + s, QUOTE);
    StaysOpenAppend("", QUOTE, s);
    AppendNothing(QUOTE);
    AppendNothing(QUOTE + s);
    assert !HasChar(QUOTE, '\n') by { assert QUOTE[1..] == ""; }
    OneLineStaysOpen("", QUOTE);
    OneLineStaysOpen(QUOTE + s, QUOTE);
    StaysOpenInSingle("", s);
  }

  lemma TrimSingle(s: string)
    ensures TrimSpace(QUOTE + s + QUOTE) == QUOTE + s + QUOTE
  {
    AppendAssociates(QUOTE, s, QUOTE);
    TrimQuoted(QUOTE, s + QUOTE);
    assert (s + QUOTE)[|s + QUOTE| - 1] == '"';
  }

  /** A text on one line reads back as it is, exactly if it is trimmed and starts with no quote. */
  lemma PlainReadsBack(p: char -> bool, s: string)
    requires Readable(p, s) && !HasChar(s, '\n')
    ensures ReadValue(p, "", s + NEWLINE) == Ended(s, "") <==> TrimSpace(s) == s && !(QUOTE <= s)
  {
    ReadLine(p, s);
    OneLineStaysOpen("", s);
    UnquotedIsShorter(TrimSpace(s));
    assert QUOTE <= TRIPLE;
    if TRIPLE <= s {
      assert s[0] == TRIPLE[0];
      assert QUOTE <= s;
    }
  }

  lemma UnquotedIsShorter(t: string)
    ensures Unquote(t) != None && QUOTE <= t ==> |Unquote(t).value| < |t|
    ensures !(QUOTE <= t) ==> Unquote(t) == Some(t)
  {
    if TRIPLE <= t {
      assert t[0] == TRIPLE[0];
      assert QUOTE <= t;
    }
  }

  /** A readable value reads back exactly if it is well quoted. */
  lemma ReadsBackIff(p: char -> bool, s: string)
    requires Readable(p, s)
    ensures ReadsBack(p, s) <==> WellQuoted(s)
  {
    ContainsChar(s, '"');
    ContainsChar(s, '\n');
    if NeedsQuotes(s) {
      if Contains(s, QUOTE) {
        TripleReadsBack(p, s);
      } else {
        assert s != "";
        SingleReadsBack(p, s);
      }
    } else {
      PlainReadsBack(p, s);
    }
  }

  // ----- reading a command -----

  /** Characters of a parameter name. */
  predicate AllWord(w: string) {
    w == [] || ((IsAlpha(w[0]) || IsNumber(w[0]) || w[0] == '_') && AllWord(w[1..]))
  }

  lemma {:induction false} RunName(g: Format, m: Machine, w: string)
    requires (m.curr == Name || m.curr == Message) && AllAlpha(w)
    ensures Run(g, m, w) == Ok(m.(b := m.b + w))
    decreases |w|
  {
    if w == [] {
      AppendNothing(m.b);
    } else {
      RunName(g, m.(b := m.b + [w[0]]), w[1..]);
      assert m.b + [w[0]] + w[1..] == m.b + w;
    }
  }

  lemma {:induction false} RunParameter(g: Format, m: Machine, w: string)
    requires m.curr == Parameter && AllWord(w)
    ensures Run(g, m, w) == Ok(m.(b := m.b + w))
    decreases |w|
  {
    if w == [] {
      AppendNothing(m.b);
    } else {
      RunParameter(g, m.(b := m.b + [w[0]]), w[1..]);
      assert m.b + [w[0]] + w[1..] == m.b + w;
    }
  }

  /** A keyword at the beginning of a line. */
  lemma RunKeyword(g: Format, m: Machine, w: string)
    requires m.curr == Nil && w != "" && AllAlpha(w)
    ensures Run(g, m, w) == Ok(m.(curr := Name, b := w))
  {
    assert "" + [w[0]] == [w[0]] && [w[0]] + w[1..] == w;
    var next := m.(curr := Name, b := [w[0]]);
    assert IsAlpha(w[0]) && Write(g, m.(curr := Name, b := ""), w[0]) == next;
    assert Step(g, m, w[0]) == Ok(next);
    RunName(g, next, w[1..]);
  }

  lemma {:induction false} UpperWord(w: string)
    requires ToLower(w) == w && AllAlpha(w)
    ensures AllAlpha(ToUpper(w)) && ToLower(ToUpper(w)) == w && |ToUpper(w)| == |w|
  {
    if w != [] {
      assert [Lower(w[0])] + ToLower(w[1..]) == w;
      assert Lower(w[0]) == w[0] && ToLower(w[1..]) == w[1..];
      UpperWord(w[1..]);
    }
  }

  /** A keyword, and the blank behind it. */
  lemma RunCommand(g: Format, m: Machine, w: string, rest: string)
    requires m.curr == Nil && w != "" && AllAlpha(w) && IsValidCommand(g, w)
    ensures var cmd := ToLower(w);
      Run(g, m, w + " " + rest) ==
        Run(g, if cmd == g.from then m.(curr := Value, b := "", name := g.model)
               else if cmd == g.parameter then m.(curr := Parameter, b := "")
               else if cmd == g.message then m.(curr := Message, b := "", name := cmd)
               else m.(curr := Value, b := "", name := cmd), rest)
  {
    RunKeyword(g, m, w);
    AppendAssociates(w, " ", rest);
    RunAppend(g, m, w, " " + rest);
    BlankFirst(rest);
  }

  lemma BlankFirst(rest: string)
    ensures (" " + rest)[0] == ' ' && (" " + rest)[1..] == rest && " " + rest != ""
  {
  }

  /** A value up to the end of its line, as the machine reads it. */
  lemma RunValue(g: Format, m: Machine, v: string, s: string, rest: string) returns (line: nat)
    requires m.curr == Value && m.b == "" && ReadValue(g.printable, "", v + NEWLINE) == Ended(s, "")
    ensures Run(g, m, v + NEWLINE + rest) ==
            Run(g, Machine(Nil, "", "", m.name, m.commands + [Command(m.name, WithRole(m.role, s))], line), rest)
  {
    line := RunReadsValue(g, m, v + NEWLINE);
    RunAppend(g, m, v + NEWLINE, rest);
  }

  // ----- files that read back -----

  /** Commands that can be printed so that they are read back. */
  predicate WellFormed(g: Format, c: Command) {
    if c.name == g.model then Readable(g.printable, c.args) && !HasChar(c.args, '\n') && TrimSpace(c.args) == c.args && !(QUOTE <= c.args)
    else if c.name in g.single then Readable(g.printable, c.args) && WellQuoted(c.args)
    else if c.name == g.message then
      var (role, message) := Cut(c.args, ": ");
      role in g.roles && c.args == role + ": " + message && Readable(g.printable, message) && WellQuoted(message)
    else AllWord(c.name) && Readable(g.printable, c.args) && WellQuoted(c.args)
  }

  predicate AllWellFormed(g: Format, commands: seq<Command>) {
    commands == [] || (WellFormed(g, commands[0]) && AllWellFormed(g, commands[1..]))
  }

  /** Where the machine stands at the beginning of a line. */
  predicate AtLine(m: Machine, commands: seq<Command>) {
    m.curr == Nil && m.b == "" && m.role == "" && m.commands == commands
  }

  /** What is left to read of a command when its value comes, and where the machine stands then. */
  function ValueOf(g: Format, c: Command): string {
    if c.name == g.model then c.args
    else if c.name == g.message then Quote(Cut(c.args, ": ").1)
    else Quote(c.args)
  }

  function BeforeValue(g: Format, m: Machine, c: Command): Machine {
    m.(curr := Value, b := "", name := c.name, role := if c.name == g.message then Cut(c.args, ": ").0 else m.role)
  }

  /** Up to its value a command is read as it was written. */
  lemma FromIsRead(g: Format, m: Machine, c: Command, w: string, rest: string)
    requires g.Valid() && AtLine(m, m.commands) && c.name == g.model && Spells(g, c, w)
    ensures Run(g, m, Written(g, c, w) + rest) == Run(g, BeforeValue(g, m, c), ValueOf(g, c) + rest)
  {
    AppendAssociates(w + " ", c.args, rest);
    RunCommand(g, m, w, c.args + rest);
  }

  lemma SingleIsRead(g: Format, m: Machine, c: Command, w: string, rest: string)
    requires g.Valid() && AtLine(m, m.commands) && c.name in g.single && Spells(g, c, w)
    ensures Run(g, m, Written(g, c, w) + rest) == Run(g, BeforeValue(g, m, c), ValueOf(g, c) + rest)
  {
    AppendAssociates(w + " ", Quote(c.args), rest);
    RunCommand(g, m, w, Quote(c.args) + rest);
  }

  lemma ParameterName(g: Format, m: Machine, name: string, tail: string)
    requires m.curr == Parameter && m.b == "" && AllWord(name)
    ensures Run(g, m, name + (" " + tail)) == Run(g, m.(curr := Value, b := "", name := name), tail)
  {
    RunParameter(g, m, name);
    AppendNothing(name);
    RunAppend(g, m, name, " " + tail);
    BlankFirst(tail);
  }

  lemma MessageRole(g: Format, m: Machine, role: string, tail: string)
    requires m.curr == Message && m.b == "" && AllAlpha(role) && role in g.roles
    ensures Run(g, m, role + (" " + tail)) == Run(g, m.(curr := Value, b := "", role := role), tail)
  {
    RunName(g, m, role);
    AppendNothing(role);
    RunAppend(g, m, role, " " + tail);
    BlankFirst(tail);
  }

  lemma ParameterIsRead(g: Format, m: Machine, c: Command, w: string, rest: string)
    requires g.Valid() && AtLine(m, m.commands) && WellFormed(g, c) && Spells(g, c, w)
    requires c.name != g.model && c.name !in g.single && c.name != g.message
    ensures Run(g, m, Written(g, c, w) + rest) == Run(g, BeforeValue(g, m, c), ValueOf(g, c) + rest)
  {
    var v := Quote(c.args);
    Associate4(w + " ", c.name, " ", v, rest);
    RunCommand(g, m, w, c.name + (" " + (v + rest)));
    ParameterName(g, m.(curr := Parameter, b := ""), c.name, v + rest);
  }

  lemma Associate4(a: string, b: string, c: string, d: string, e: string)
    ensures a + b + c + d + e == a + (b + (c + (d + e)))
  {
  }

  lemma MessageIsRead(g: Format, m: Machine, c: Command, w: string, rest: string)
    requires g.Valid() && AtLine(m, m.commands) && c.name == g.message && WellFormed(g, c) && Spells(g, c, w)
    ensures Run(g, m, Written(g, c, w) + rest) == Run(g, BeforeValue(g, m, c), ValueOf(g, c) + rest)
  {
    var (role, message) := Cut(c.args, ": ");
    var v := Quote(message);
    Associate4(w + " ", role, " ", v, rest);
    RunCommand(g, m, w, role + (" " + (v + rest)));
    MessageRole(g, m.(curr := Message, b := "", name := g.message), role, v + rest);
  }

  lemma CommandIsRead(g: Format, m: Machine, c: Command, w: string, rest: string)
    requires g.Valid() && AtLine(m, m.commands) && WellFormed(g, c) && Spells(g, c, w)
    ensures Run(g, m, Written(g, c, w) + rest) == Run(g, BeforeValue(g, m, c), ValueOf(g, c) + rest)
  {
    if c.name == g.model {
      FromIsRead(g, m, c, w, rest);
    } else if c.name in g.single {
      SingleIsRead(g, m, c, w, rest);
    } else if c.name == g.message {
      MessageIsRead(g, m, c, w, rest);
    } else {
      ParameterIsRead(g, m, c, w, rest);
    }
  }

  /** The value that is read, and the arguments that are made of it. */
  lemma ValueIsRead(g: Format, m: Machine, c: Command) returns (s: string)
    requires g.Valid() && AtLine(m, m.commands) && WellFormed(g, c)
    ensures ReadValue(g.printable, "", ValueOf(g, c) + NEWLINE) == Ended(s, "")
    ensures WithRole(BeforeValue(g, m, c).role, s) == c.args
  {
    if c.name == g.model {
      PlainReadsBack(g.printable, c.args);
      s := c.args;
    } else {
      s := if c.name in g.single || c.name != g.message then c.args else Cut(c.args, ": ").1;
      ReadsBackIff(g.printable, s);
    }
  }

  /** A well-formed command is read as it was written, whatever the case of its keyword. */
  lemma WrittenReadsBack(g: Format, m: Machine, c: Command, w: string, rest: string) returns (next: Machine)
    requires g.Valid() && AtLine(m, m.commands) && WellFormed(g, c) && Spells(g, c, w)
    ensures AtLine(next, m.commands + [c]) && Run(g, m, Written(g, c, w) + NEWLINE + rest) == Run(g, next, rest)
  {
    CommandIsRead(g, m, c, w, NEWLINE + rest);
    AppendAssociates(Written(g, c, w), NEWLINE, rest);
    AppendAssociates(ValueOf(g, c), NEWLINE, rest);
    var s := ValueIsRead(g, m, c);
    var line := RunValue(g, BeforeValue(g, m, c), ValueOf(g, c), s, rest);
    next := Machine(Nil, "", "", c.name, m.commands + [c], line);
  }

  /** A well-formed command is read as it was printed. */
  lemma CommandReadsBack(g: Format, m: Machine, c: Command, rest: string) returns (next: Machine)
    requires g.Valid() && AtLine(m, m.commands) && WellFormed(g, c)
    ensures AtLine(next, m.commands + [c]) && Run(g, m, CommandString(g, c) + NEWLINE + rest) == Run(g, next, rest)
  {
    UpperWord(Keyword(g, c));
    assert Keyword(g, c) != "" && ToUpper(Keyword(g, c)) != "";
    next := WrittenReadsBack(g, m, c, ToUpper(Keyword(g, c)), rest);
  }

  lemma {:induction false} CommandsReadBack(g: Format, m: Machine, commands: seq<Command>) returns (next: Machine)
    requires g.Valid() && AtLine(m, m.commands) && AllWellFormed(g, commands)
    ensures AtLine(next, m.commands + commands) && Run(g, m, FileString(g, commands)) == Ok(next)
    decreases |commands|
  {
    if commands == [] {
      next := m;
      AppendNothing(m.commands);
    } else {
      var after := CommandReadsBack(g, m, commands[0], FileString(g, commands[1..]));
      next := CommandsReadBack(g, after, commands[1..]);
      AppendAssociates(m.commands, [commands[0]], commands[1..]);
      assert [commands[0]] + commands[1..] == commands;
    }
  }

  /** A Modelfile with a model command, all of whose commands are well formed, is read as it was printed. */
  lemma RoundTrip(g: Format, commands: seq<Command>)
    requires g.Valid() && AllWellFormed(g, commands)
    ensures Parse(g, FileString(g, commands)) == if HasModel(g, commands) then Ok(commands) else Failed(MissingFrom)
  {
    var next := CommandsReadBack(g, START, commands);
    AppendNothing(commands);
  }

  // ----- the words of the format -----

  lemma {:induction false} LowerCaseWord(w: string)
    requires forall i | 0 <= i < |w| :: 'a' <= w[i] <= 'z'
    ensures AllAlpha(w) && ToLower(w) == w
  {
    if w != [] {
      LowerCaseWord(w[1..]);
    }
  }

  /** All words of the format. */
  lemma FormatWords(w: string)
    requires w in {"license", "template", "system", "adapter", "renderer", "parser", "from", "parameter", "message", "user", "assistant"}
    ensures IsWord(w)
  {
    LowerCaseWord(w);
  }

  lemma SingleWords(w: string)
    requires w in {"license", "template", "system", "adapter", "renderer", "parser"}
    ensures IsWord(w) && 6 <= |w| <= 8 && w[0] != 'm'
  {
    FormatWords(w);
  }

  lemma RoleWords(w: string)
    requires w in {"system", "user", "assistant"}
    ensures IsWord(w)
  {
    FormatWords(w);
  }

  lemma DistinctWords()
    ensures "from" != "parameter" && "from" != "message" && "parameter" != "message" && "message" != "model"
  {
    assert |"from"| == 4 && |"parameter"| == 9 && |"message"| == 7 && |"model"| == 5;
  }

  lemma SingleWordsDiffer(w: string)
    requires 6 <= |w| <= 8 && w[0] != 'm'
    ensures w != "from" && w != "parameter" && w != "message" && w != "model"
  {
    assert |"from"| == 4 && |"parameter"| == 9 && "message"[0] == 'm' && |"model"| == 5;
  }

  lemma ValidIf(g: Format)
    requires IsWord(g.from) && IsWord(g.parameter) && IsWord(g.message)
    requires g.from != g.parameter && g.from != g.message && g.parameter != g.message && g.message != g.model
    requires forall w | w in g.single :: IsWord(w) && w != g.from && w != g.parameter && w != g.message && w != g.model
    requires forall r | r in g.roles :: IsWord(r)
    ensures g.Valid()
  {
  }

  lemma SinglesAreFine(g: Format)
    requires g.single == {"license", "template", "system", "adapter", "renderer", "parser"}
    requires g.from == "from" && g.parameter == "parameter" && g.message == "message" && g.model == "model"
    ensures forall w | w in g.single :: IsWord(w) && w != g.from && w != g.parameter && w != g.message && w != g.model
  {
    forall w | w in g.single
      ensures IsWord(w) && w != g.from && w != g.parameter && w != g.message && w != g.model
    {
      SingleWords(w);
      SingleWordsDiffer(w);
    }
  }

  lemma RolesAreFine(g: Format)
    requires g.roles == {"system", "user", "assistant"}
    ensures forall r | r in g.roles :: IsWord(r)
  {
    forall r | r in g.roles
      ensures IsWord(r)
    {
      RoleWords(r);
    }
  }

  /** The format of Modelfiles is one for which the round trip holds. */
  lemma ModelfileFormatIsValid(printable: char -> bool)
    ensures ModelfileFormat(printable).Valid()
  {
    var g := ModelfileFormat(printable);
    FormatWords("from");
    FormatWords("parameter");
    FormatWords("message");
    DistinctWords();
    SinglesAreFine(g);
    RolesAreFine(g);
    ValidIf(g);
  }

  lemma ModelfileRoundTrip(printable: char -> bool, commands: seq<Command>)
    requires AllWellFormed(ModelfileFormat(printable), commands) && HasModel(ModelfileFormat(printable), commands)
    ensures Parse(ModelfileFormat(printable), FileString(ModelfileFormat(printable), commands)) == Ok(commands)
  {
    ModelfileFormatIsValid(printable);
    RoundTrip(ModelfileFormat(printable), commands);
  }

  // ----- a simpler condition -----

  /** Without three quotes in a row no line ends in them. */
  lemma {:induction false} NoTripleNoLineEnd(u: string, s: string)
    requires !Contains(u + s, TRIPLE)
    ensures NoLineEndsInQuotes(u, s)
    decreases |s|
  {
    if s != [] {
      var t := TrimRight(u);
      if EndsWith(t, TRIPLE) {
        TrimRightIsPrefix(u);
        var i := |t| - 3;
        assert OccursAt(u + s, TRIPLE, i) by {
          assert (u + s)[i..i + 3] == t[i..];
        }
        IndexIsFirst(u + s, TRIPLE);
      }
      assert u + [s[0]] + s[1..] == u + s;
      NoTripleNoLineEnd(u + [s[0]], s[1..]);
    }
  }

  /** In particular: every value without three quotes in a row that is trimmed and does not start with a quote, or is quoted. */
  lemma NoTripleIsWellQuoted(s: string)
    requires !Contains(s, TRIPLE) && (NeedsQuotes(s) || (TrimSpace(s) == s && !(QUOTE <= s)))
    ensures WellQuoted(s)
  {
    AppendNothing(s);
    NoTripleNoLineEnd("", s);
  }
}
