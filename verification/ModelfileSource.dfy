/**
 Modelfiles as people write them: comments and blank lines between the commands, indentation, keywords in
 any case, and a last line that may lack its newline. None of that changes what is read.
 */
module ModelfileSource {
  import opened Options
  import opened Text
  import opened Modelfile

  datatype Line = Blank(gap: string) | Remark(gap: string, text: string) | Says(gap: string, c: Command, word: string) {
    predicate Valid(g: Format) {
      && AllBlank(gap)
      && match this
         case Blank(_) => true
         case Remark(_, text) => OneLine(text)
         case Says(_, c, word) => WellFormed(g, c) && Spells(g, c, word)
    }

    function Text(g: Format): string {
      match this
      case Blank(gap) => gap
      case Remark(gap, text) => gap + ("#" + text)
      case Says(gap, c, word) => gap + Written(g, c, word)
    }

    function Commands(): seq<Command> {
      if Says? then [c] else []
    }
  }

  predicate AllBlank(s: string) {
    s == [] || (IsBlank(s[0]) && AllBlank(s[1..]))
  }

  predicate OneLine(s: string) {
    s == [] || (!IsNewline(s[0]) && OneLine(s[1..]))
  }

  function SourceOf(g: Format, lines: seq<Line>): string {
    if lines == [] then "" else lines[0].Text(g) + NEWLINE + SourceOf(g, lines[1..])
  }

  function CommandsOf(lines: seq<Line>): seq<Command> {
    if lines == [] then [] else lines[0].Commands() + CommandsOf(lines[1..])
  }

  /** Blanks in front of a line do not matter. */
  lemma {:induction false} RunGap(g: Format, m: Machine, gap: string, rest: string)
    requires AtLine(m, m.commands) && AllBlank(gap)
    ensures Run(g, m, gap + rest) == Run(g, m, rest)
    decreases |gap|
  {
    if gap == "" {
      AppendNothing(rest);
    } else {
      assert Step(g, m, gap[0]) == Ok(m);
      assert (gap + rest)[0] == gap[0] && (gap + rest)[1..] == gap[1..] + rest;
      RunGap(g, m, gap[1..], rest);
    }
  }

  lemma {:induction false} RunComment(g: Format, m: Machine, text: string, rest: string)
    requires m.curr == Comment && m.b == "" && OneLine(text)
    ensures Run(g, m, text + rest) == Run(g, m, rest)
    decreases |text|
  {
    if text == "" {
      AppendNothing(rest);
    } else {
      assert Step(g, m, text[0]) == Ok(m);
      assert (text + rest)[0] == text[0] && (text + rest)[1..] == text[1..] + rest;
      RunComment(g, m, text[1..], rest);
    }
  }

  /** A comment goes on to the end of its line. */
  lemma RunRemark(g: Format, m: Machine, text: string, rest: string)
    requires AtLine(m, m.commands) && OneLine(text)
    ensures Run(g, m, "#" + text + rest) == Run(g, m.(curr := Comment), rest)
  {
    var s := "#" + text + rest;
    assert s[0] == '#' && s[1..] == text + rest;
    assert Step(g, m, '#') == Ok(m.(curr := Comment));
    RunComment(g, m.(curr := Comment), text, rest);
  }

  lemma RunNewline(g: Format, m: Machine, rest: string) returns (next: Machine)
    requires m.curr == Nil || m.curr == Comment
    requires m.b == "" && m.role == ""
    ensures AtLine(next, m.commands) && Run(g, m, NEWLINE + rest) == Run(g, next, rest)
  {
    next := m.(curr := Nil, line := m.line + 1);
    assert (NEWLINE + rest)[0] == '\n' && (NEWLINE + rest)[1..] == rest;
    assert Step(g, m, '\n') == Ok(next);
  }

  /** A line adds its command, if it has one. */
  lemma LineIsRead(g: Format, m: Machine, line: Line, rest: string) returns (next: Machine)
    requires g.Valid() && AtLine(m, m.commands) && line.Valid(g)
    ensures AtLine(next, m.commands + line.Commands()) && Run(g, m, line.Text(g) + NEWLINE + rest) == Run(g, next, rest)
  {
    AppendAssociates(line.Text(g), NEWLINE, rest);
    AppendNothing(m.commands);
    match line
    case Blank(gap) =>
      RunGap(g, m, gap, NEWLINE + rest);
      next := RunNewline(g, m, rest);
    case Remark(gap, text) =>
      AppendAssociates(gap, "#" + text, NEWLINE + rest);
      RunGap(g, m, gap, "#" + text + (NEWLINE + rest));
      RunRemark(g, m, text, NEWLINE + rest);
      next := RunNewline(g, m.(curr := Comment), rest);
    case Says(gap, c, word) =>
      AppendAssociates(gap, Written(g, c, word), NEWLINE + rest);
      AppendAssociates(Written(g, c, word), NEWLINE, rest);
      RunGap(g, m, gap, Written(g, c, word) + NEWLINE + rest);
      next := WrittenReadsBack(g, m, c, word, rest);
  }

  lemma {:induction false} LinesAreRead(g: Format, m: Machine, lines: seq<Line>, rest: string) returns (next: Machine)
    requires g.Valid() && AtLine(m, m.commands) && forall l <- lines :: l.Valid(g)
    ensures AtLine(next, m.commands + CommandsOf(lines)) && Run(g, m, SourceOf(g, lines) + rest) == Run(g, next, rest)
    decreases |lines|
  {
    if lines == [] {
      next := m;
      AppendNothing(m.commands);
      AppendNothing(rest);
    } else {
      AppendAssociates(lines[0].Text(g) + NEWLINE, SourceOf(g, lines[1..]), rest);
      var after := LineIsRead(g, m, lines[0], SourceOf(g, lines[1..]) + rest);
      next := LinesAreRead(g, after, lines[1..], rest);
      AppendAssociates(m.commands, lines[0].Commands(), CommandsOf(lines[1..]));
    }
  }

  // ----- the last line -----

  lemma {:induction false} ReadValueAppend(p: char -> bool, b: string, v: string, t: string)
    ensures ReadValue(p, b, v + t) ==
            match ReadValue(p, b, v)
            case Unfinished(b2) => ReadValue(p, b2, t)
            case Ended(value, rest) => Ended(value, rest + t)
    decreases |v|
  {
    if v == [] {
      AppendNothing(t);
    } else {
      assert (v + t)[0] == v[0] && (v + t)[1..] == v[1..] + t;
      if IsBlank(v[0]) {
        ReadValueAppend(p, b + [v[0]], v[1..], t);
      } else if IsNewline(v[0]) {
        if Unquote(TrimSpace(b)) == None {
          ReadValueAppend(p, b + [v[0]], v[1..], t);
        }
      } else {
        ReadValueAppend(p, if IsPrint(p, v[0]) then b + [v[0]] else b, v[1..], t);
      }
    }
  }

  /** A value that a newline would end is complete without it. */
  lemma EndsWithoutNewline(g: Format, m: Machine, v: string, s: string) returns (last: Machine)
    requires m.curr == Value && m.b == "" && ReadValue(g.printable, "", v + NEWLINE) == Ended(s, "")
    ensures Run(g, m, v) == Ok(last) && Flush(last) == Ok(m.commands + [Command(m.name, WithRole(m.role, s))])
  {
    ReadValueAppend(g.printable, "", v, NEWLINE);
    var line := RunReadsValue(g, m, v);
    assert NEWLINE[1..] == "";
    match ReadValue(g.printable, "", v)
    case Unfinished(b) => last := m.(b := b, line := line);
    case Ended(_, _) => last := m;
  }

  lemma LastLineIsRead(g: Format, m: Machine, line: Line) returns (last: Machine)
    requires g.Valid() && AtLine(m, m.commands) && line.Valid(g)
    ensures Run(g, m, line.Text(g)) == Ok(last) && Flush(last) == Ok(m.commands + line.Commands())
  {
    AppendNothing(m.commands);
    match line
    case Blank(gap) =>
      AppendNothing(gap);
      RunGap(g, m, gap, "");
      last := m;
    case Remark(gap, text) =>
      RunGap(g, m, gap, "#" + text);
      AppendNothing("#" + text);
      RunRemark(g, m, text, "");
      last := m.(curr := Comment);
    case Says(gap, c, word) =>
      RunGap(g, m, gap, Written(g, c, word));
      CommandIsRead(g, m, c, word, "");
      AppendNothing(Written(g, c, word));
      AppendNothing(ValueOf(g, c));
      var s := ValueIsRead(g, m, c);
      last := EndsWithoutNewline(g, BeforeValue(g, m, c), ValueOf(g, c), s);
  }

  /** A source reads as its commands, with or without a newline at the end. */
  lemma SourceIsRead(g: Format, lines: seq<Line>, last: Option<Line>)
    requires g.Valid() && (forall l <- lines :: l.Valid(g)) && (last != None ==> last.value.Valid(g))
    ensures var commands := CommandsOf(lines) + if last == None then [] else last.value.Commands();
      Parse(g, SourceOf(g, lines) + if last == None then "" else last.value.Text(g)) ==
      if HasModel(g, commands) then Ok(commands) else Failed(MissingFrom)
  {
    var rest := if last == None then "" else last.value.Text(g);
    var next := LinesAreRead(g, START, lines, rest);
    assert [] + CommandsOf(lines) == CommandsOf(lines);
    AppendNothing(CommandsOf(lines));
    if last != None {
      var end := LastLineIsRead(g, next, last.value);
    }
  }

  /** For the words of Modelfiles. */
  lemma ModelfileSourceIsRead(printable: char -> bool, lines: seq<Line>, last: Option<Line>)
    requires var g := ModelfileFormat(printable); (forall l <- lines :: l.Valid(g)) && (last != None ==> last.value.Valid(g))
    ensures var g, commands := ModelfileFormat(printable), CommandsOf(lines) + if last == None then [] else last.value.Commands();
      Parse(g, SourceOf(g, lines) + if last == None then "" else last.value.Text(g)) ==
      if HasModel(g, commands) then Ok(commands) else Failed(MissingFrom)
  {
    ModelfileFormatIsValid(printable);
    SourceIsRead(ModelfileFormat(printable), lines, last);
  }

  /** What looks like a comment inside of a value stays in the value. */
  lemma HashStaysInValue(g: Format, x: string, y: string, w: string)
    requires g.Valid() && w != "" && AllAlpha(w) && ToLower(w) == g.from && Readable(g.printable, x + "#" + y)
    requires !HasChar(x + "#" + y, '\n') && TrimSpace(x + "#" + y) == x + "#" + y && !(QUOTE <= x + "#" + y)
    ensures Parse(g, w + " " + (x + "#" + y) + NEWLINE) == Ok([Command(g.model, x + "#" + y)])
  {
    var c := Command(g.model, x + "#" + y);
    var line := Says("", c, w);
    assert line.Text(g) == "" + Written(g, c, w) == Written(g, c, w);
    assert SourceOf(g, [line]) == Written(g, c, w) + NEWLINE + "" by {
      assert [line][1..] == [];
    }
    AppendNothing(Written(g, c, w) + NEWLINE);
    assert [line][1..] == [] && CommandsOf([line]) == [c] + [];
    SourceIsRead(g, [line], None);
    assert [c] + [] + [] == [c];
    assert HasModel(g, [c]) by {
      assert [c][0].name == g.model;
    }
  }

  // ----- what is refused -----

  function Newlines(s: string): nat {
    if s == [] then 0 else (if IsNewline(s[0]) then 1 else 0) + Newlines(s[1..])
  }

  /** The line is counted, whatever is read. */
  lemma {:induction false} LinesAreCounted(g: Format, m: Machine, s: string)
    ensures match Run(g, m, s)
            case Ok(next) => next.line == m.line + Newlines(s)
            case Failed(_) => true
    decreases |s|
  {
    if s != [] {
      match Step(g, m, s[0])
      case Failed(_) =>
      case Ok(next) => LinesAreCounted(g, next, s[1..]);
    }
  }

  /** Where the machine stands behind some lines. */
  lemma BehindLines(g: Format, lines: seq<Line>, rest: string) returns (m: Machine)
    requires g.Valid() && forall l <- lines :: l.Valid(g)
    ensures AtLine(m, CommandsOf(lines)) && m.line == 1 + Newlines(SourceOf(g, lines))
    ensures Run(g, START, SourceOf(g, lines) + rest) == Run(g, m, rest)
  {
    m := LinesAreRead(g, START, lines, "");
    AppendNothing(SourceOf(g, lines));
    LinesAreCounted(g, START, SourceOf(g, lines));
    RunAppend(g, START, SourceOf(g, lines), rest);
    assert [] + CommandsOf(lines) == CommandsOf(lines);
  }

  /** A word that is no command is refused, with the number of its line. */
  lemma UnknownWordFails(g: Format, lines: seq<Line>, gap: string, w: string, rest: string)
    requires g.Valid() && (forall l <- lines :: l.Valid(g)) && AllBlank(gap) && w != "" && AllAlpha(w)
    requires ToLower(w) !in g.single && ToLower(w) != g.from && ToLower(w) != g.parameter && ToLower(w) != g.message
    ensures Parse(g, SourceOf(g, lines) + (gap + (w + " " + rest))) == Failed(InvalidCommand(1 + Newlines(SourceOf(g, lines))))
  {
    var m := BehindLines(g, lines, gap + (w + " " + rest));
    RunGap(g, m, gap, w + " " + rest);
    RunKeyword(g, m, w);
    AppendAssociates(w, " ", rest);
    RunAppend(g, m, w, " " + rest);
    BlankFirst(rest);
  }

  /** A message needs a known role. */
  lemma UnknownRoleFails(g: Format, lines: seq<Line>, w: string, role: string, rest: string)
    requires g.Valid() && (forall l <- lines :: l.Valid(g)) && w != "" && AllAlpha(w) && ToLower(w) == g.message
    requires AllAlpha(role) && role !in g.roles
    ensures Parse(g, SourceOf(g, lines) + (w + " " + (role + (" " + rest)))) == Failed(InvalidMessageRole(1 + Newlines(SourceOf(g, lines))))
  {
    var m := BehindLines(g, lines, w + " " + (role + (" " + rest)));
    RunCommand(g, m, w, role + (" " + rest));
    var named := m.(curr := Message, b := "", name := g.message);
    RunName(g, named, role);
    AppendNothing(role);
    RunAppend(g, named, role, " " + rest);
    BlankFirst(rest);
  }

  /** A quote that is not closed swallows the rest, and is refused at the end. */
  lemma OpenQuoteFails(g: Format, lines: seq<Line>, w: string, s: string)
    requires g.Valid() && (forall l <- lines :: l.Valid(g)) && w != "" && AllAlpha(w) && ToLower(w) in g.single
    requires Readable(g.printable, s) && !HasChar(s, '"')
    ensures Parse(g, SourceOf(g, lines) + (w + " " + (QUOTE + s))) == Failed(UnexpectedEof(None))
  {
    var m := BehindLines(g, lines, w + " " + (QUOTE + s));
    RunCommand(g, m, w, QUOTE + s);
    var value := m.(curr := Value, b := "", name := ToLower(w));
    QuoteIsOpen(g.printable, s);
    var _ := RunReadsValue(g, value, QUOTE + s);
  }

  lemma QuoteIsOpen(p: char -> bool, s: string)
    requires Readable(p, s) && !HasChar(s, '"')
    ensures ReadValue(p, "", QUOTE + s) == Unfinished(QUOTE + s) && Unquote(TrimSpace(QUOTE + s)) == None
  {
    ReadableAppend(p, QUOTE, s);
    TripleIsPlain(p);
    StaysOpenAppend("", QUOTE, s);
    AppendNothing(QUOTE);
    OneLineStaysOpen("", QUOTE);
    StaysOpenInSingle("", s);
    OpenReads(p, "", QUOTE + s, "");
    AppendNothing(QUOTE + s);
    TrimQuoted(QUOTE, s);
    TrimmedHasNoMore(s, '"');
    UnquoteSingle(TrimRight(s), false);
    AppendNothing(QUOTE + TrimRight(s));
  }

  // ----- what is printed -----

  lemma NeedsQuotesIff(s: string)
    ensures NeedsQuotes(s) <==> HasChar(s, '\n') || (s != "" && (s[0] == ' ' || s[|s| - 1] == ' '))
  {
    ContainsChar(s, '\n');
    if s != "" {
      assert " " <= s <==> s[0] == ' ';
      assert s[|s| - 1..] == [s[|s| - 1]];
    }
  }

  /** Only values with newlines or with blanks around them are quoted, in three quotes if they contain one. */
  lemma QuoteIs(s: string)
    ensures Quote(s) ==
      if !HasChar(s, '\n') && (s == "" || (s[0] != ' ' && s[|s| - 1] != ' ')) then s
      else if HasChar(s, '"') then TRIPLE + s + TRIPLE else QUOTE + s + QUOTE
  {
    NeedsQuotesIff(s);
    ContainsChar(s, '"');
  }

  /** How commands are printed. */
  lemma PrintedFrom(g: Format, args: string)
    requires g.from == "from"
    ensures CommandString(g, Command(g.model, args)) == "FROM" + " " + args
  {
    UpperIs("from", "FROM");
  }

  lemma PrintedSingle(g: Format, name: string, upper: string, args: string)
    requires name in g.single && name != g.model && |name| == |upper|
    requires forall i | 0 <= i < |name| :: 'a' <= name[i] <= 'z' && upper[i] == name[i] - 'a' + 'A'
    ensures CommandString(g, Command(name, args)) == upper + " " + Quote(args)
  {
    UpperIs(name, upper);
  }

  lemma PrintedParameter(g: Format, name: string, args: string)
    requires g.parameter == "parameter" && name !in g.single && name != g.model && name != g.message
    ensures CommandString(g, Command(name, args)) == "PARAMETER" + " " + name + " " + Quote(args)
  {
    UpperIs("parameter", "PARAMETER");
  }

  lemma PrintedMessage(g: Format, role: string, text: string)
    requires g.message == "message" && g.message !in g.single && g.message != g.model && !HasChar(role, ':')
    ensures CommandString(g, Command(g.message, role + (": " + text))) == "MESSAGE" + " " + role + " " + Quote(text)
  {
    UpperIs("message", "MESSAGE");
    CutAtColon(role, text);
  }

  lemma {:induction false} CutAtColon(role: string, text: string)
    requires !HasChar(role, ':')
    ensures Cut(role + (": " + text), ": ") == (role, text)
  {
    ScanToColon(role, text);
    SearchIsScan(role + (": " + text), ": ");
  }

  lemma {:induction false} ScanToColon(role: string, text: string)
    requires !HasChar(role, ':')
    ensures Scan(role + (": " + text), ": ") == Found(role, text)
  {
    var s := role + (": " + text);
    if role == "" {
      assert s == ": " + text && s[|": "|..] == text;
    } else {
      ScanToColon(role[1..], text);
      assert s[0] == role[0] && s[1..] == role[1..] + (": " + text);
      assert [role[0]] + role[1..] == role;
      assert ": "[0] == ':';
    }
  }

  lemma {:induction false} UpperIs(s: string, t: string)
    requires |s| == |t| && forall i | 0 <= i < |s| :: 'a' <= s[i] <= 'z' && t[i] == s[i] - 'a' + 'A'
    ensures ToUpper(s) == t
  {
    if s != "" {
      UpperIs(s[1..], t[1..]);
      assert [t[0]] + t[1..] == t;
    } else {
      assert t == "";
    }
  }
}
