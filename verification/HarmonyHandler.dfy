/**
 The handler that sorts the events of the Harmony parser into answer, thinking and tool
 call. What it has sorted, and the tool call it ends with, depend on the text alone.
 */
module HarmonyHandler {
  import opened Text
  import opened FunctionNames
  import opened Options
  import Harmony

  datatype State = Normal | Thinking | ToolCalling

  /** Where the handler stands, the tool name seen last, and what it has sorted so far. */
  datatype Tally = Tally(state: State, tool: Option<string>, content: string, thinking: string, toolContent: string) {
    /** The same position, with nothing sorted yet. */
    function Fresh(): Tally {
      Tally(state, tool, [], [], [])
    }
    function Then(next: Tally): Tally {
      Tally(next.state, next.tool, content + next.content, thinking + next.thinking, toolContent + next.toolContent)
    }
  }

  /** The state and the tool name after a header. */
  function OnHeader(t: Tally, header: Harmony.Header): Tally {
    var tool := header.recipient != [];
    if header.channel == "analysis" then
      if tool then t.(state := ToolCalling, tool := Some(header.recipient)) else t.(state := Thinking)
    else if header.channel == "commentary" then
      if tool then t.(state := ToolCalling, tool := Some(header.recipient)) else t.(state := Normal)
    else if header.channel == "final" then t.(state := Normal)
    else t
  }

  function OnContent(t: Tally, s: string): Tally {
    match t.state
    case Normal => t.(content := t.content + s)
    case Thinking => t.(thinking := t.thinking + s)
    case ToolCalling => t.(toolContent := t.toolContent + s)
  }

  function OnEvent(t: Tally, e: Harmony.Event): Tally {
    match e
    case MessageStart => t
    case HeaderComplete(header) => OnHeader(t, header)
    case ContentEmitted(s) => OnContent(t, s)
    case MessageEnd => t.(state := Normal)
  }

  function OnEvents(t: Tally, events: seq<Harmony.Event>): Tally
    decreases |events|
  {
    if events == [] then t else OnEvents(OnEvent(t, events[0]), events[1..])
  }

  /** `strings.TrimPrefix`. */
  function TrimPrefix(s: string, prefix: string): string {
    if prefix <= s then s[|prefix|..] else s
  }

  /** A finished tool call: the user's name of the function, and the text of its arguments. */
  datatype ToolCall = ToolCall(name: string, arguments: string)

  datatype Added =
    | Parsed(content: string, thinking: string, calls: seq<ToolCall>)
    | BadArguments(raw: string)

  class HarmonyToolCallAccumulator {
    var acc: string
    var currentToolName: Option<string>

    constructor ()
      ensures acc == [] && currentToolName == None
    {
      acc, currentToolName := [], None;
    }

    method SetToolName(name: string)
      modifies this`currentToolName
      ensures currentToolName == Some(name)
    {
      currentToolName := Some(name);
    }

    method Add(content: string)
      modifies this`acc
      ensures acc == old(acc) + content
    {
      acc := acc + content;
    }

    method Drain() returns (name: Option<string>, raw: string)
      modifies this`acc
      ensures name == currentToolName && raw == old(acc) && acc == []
    {
      name, raw := currentToolName, acc;
      acc := [];
    }
  }

  class HarmonyMessageHandler {
    var state: State
    const parser: Harmony.HarmonyParser
    const names: FunctionNameMap
    const tools: HarmonyToolCallAccumulator
    /** Whether a text decodes as the arguments of a call. */
    const decodes: string -> bool

    constructor (parser: Harmony.HarmonyParser, names: FunctionNameMap, decodes: string -> bool)
      requires parser.state == Harmony.LookingForMessageStart
      ensures this.parser == parser && this.names == names && this.decodes == decodes
      ensures fresh(tools) && tools.acc == [] && Position() == Tally(Normal, None, [], [], [])
      ensures Consistent(state, parser.state)
    {
      this.parser := parser;
      this.names := names;
      this.decodes := decodes;
      tools := new HarmonyToolCallAccumulator();
      state := Normal;
    }

    function Position(): Tally
      reads this, tools
    {
      Tally(state, tools.currentToolName, [], [], [])
    }

    /** Sort what is certain after one more piece of text. */
    method AddContent(content: string) returns (answer: string, thinking: string, toolContent: string)
      requires parser.tags.Valid() && Consistent(state, parser.state)
      modifies this`state, parser, tools`currentToolName
      ensures
        var r := Harmony.Parse(parser.tags, old(parser.state), old(parser.acc) + content);
        && parser.state == r.state && parser.acc == r.held
        && Tally(state, tools.currentToolName, answer, thinking, toolContent) == OnEvents(old(Position()), r.events)
      ensures Consistent(state, parser.state)
    {
      StaysConsistent(parser.tags, parser.state, parser.acc + content, Position());
      answer, thinking, toolContent := [], [], [];
      var events := parser.AddContent(content);
      label Parsed:
      var i := 0;
      assert events[0..] == events;
      while i < |events|
        invariant 0 <= i <= |events|
        invariant parser.state == old@Parsed(parser.state) && parser.acc == old@Parsed(parser.acc)
        invariant OnEvents(Tally(state, tools.currentToolName, answer, thinking, toolContent), events[i..]) == OnEvents(old(Position()), events)
      {
        assert events[i..][1..] == events[i + 1..];
        match events[i] {
        case HeaderComplete(header) =>
          if header.channel == "analysis" {
            if header.recipient != [] {
              state := ToolCalling;
              tools.SetToolName(header.recipient);
            } else {
              state := Thinking;
            }
          } else if header.channel == "commentary" {
            if header.recipient != [] {
              state := ToolCalling;
              tools.SetToolName(header.recipient);
            } else {
              state := Normal;
            }
          } else if header.channel == "final" {
            state := Normal;
          }
        case ContentEmitted(s) =>
          if state == Normal {
            answer := answer + s;
          } else if state == Thinking {
            thinking := thinking + s;
          } else if state == ToolCalling {
            toolContent := toolContent + s;
          }
        case MessageEnd =>
          state := Normal;
        case MessageStart =>
        }
        i := i + 1;
      }
    }

    /** One more piece of text; the call is put together when the text is done. */
    method Add(s: string, done: bool) returns (r: Added)
      requires parser.tags.Valid() && Consistent(state, parser.state)
      modifies this`state, parser, tools
      ensures Consistent(state, parser.state)
      ensures
        var p := Harmony.Parse(parser.tags, old(parser.state), old(parser.acc) + s);
        var t := OnEvents(old(Position()), p.events);
        && parser.state == p.state && parser.acc == p.held && Position() == t.Fresh()
        && tools.acc == (if done then [] else old(tools.acc) + t.toolContent)
        && r == Finish(done, t, old(tools.acc) + t.toolContent, names.Contents(), decodes)
    {
      var content, thinking, toolContent := AddContent(s);
      if toolContent != [] {
        tools.Add(toolContent);
      } else {
        AppendNothing(tools.acc);
      }
      var calls: seq<ToolCall> := [];
      if done {
        var toolName, raw := tools.Drain();
        if toolName != None {
          var name := TrimPrefix(toolName.value, "functions.");
          name := names.OriginalFromConverted(name);
          if !decodes(raw) {
            return BadArguments(raw);
          }
          calls := calls + [ToolCall(name, raw)];
        }
      }
      return Parsed(content, thinking, calls);
    }
  }

  /** The answer to a call of Add: a tool call is reported when the text is done, and only then. */
  function Finish(done: bool, t: Tally, raw: string, names: Maps, decodes: string -> bool): Added {
    if !done || t.tool == None then Parsed(t.content, t.thinking, [])
    else if !decodes(raw) then BadArguments(raw)
    else Parsed(t.content, t.thinking, [ToolCall(names.Original(TrimPrefix(t.tool.value, "functions.")), raw)])
  }

  // ----- the handler follows the parser -----

  /** Outside the content of a message the handler is in its normal state. */
  predicate Consistent(state: State, parser: Harmony.State) {
    state != Normal ==> parser == Harmony.ParsingContent
  }

  lemma {:induction false} OnConcatenation(t: Tally, a: seq<Harmony.Event>, b: seq<Harmony.Event>)
    ensures OnEvents(t, a + b) == OnEvents(OnEvents(t, a), b)
    decreases |a|
  {
    if a == [] {
      AppendNothing(b);
    } else {
      OnConcatenation(OnEvent(t, a[0]), a[1..], b);
      assert (a + b)[1..] == a[1..] + b;
    }
  }

  /** Whatever is parsed, a handler state other than Normal means that the parser is in a content. */
  lemma {:induction false} StaysConsistent(tags: Harmony.Tags, state: Harmony.State, text: string, t: Tally)
    requires tags.Valid() && Consistent(t.state, state)
    ensures
      var r := Harmony.Parse(tags, state, text);
      Consistent(OnEvents(t, r.events).state, r.state)
    decreases |text|
  {
    ScanLengths(text, Harmony.TagOf(tags, state));
    match Scan(text, Harmony.TagOf(tags, state))
    case Found(part, rest) =>
      var head := Harmony.Complete(state, part);
      PartIsConsistent(state, part, t);
      StaysConsistent(tags, Harmony.Next(state), rest, OnEvents(t, head));
      OnConcatenation(t, head, Harmony.Parse(tags, Harmony.Next(state), rest).events);
    case Open(given, held) =>
      assert Harmony.Content(given) == [] || Harmony.Content(given)[1..] == [];
  }

  lemma PartIsConsistent(state: Harmony.State, part: string, t: Tally)
    requires Consistent(t.state, state)
    ensures Consistent(OnEvents(t, Harmony.Complete(state, part)).state, Harmony.Next(state))
  {
    match state
    case LookingForMessageStart =>
      var e := [Harmony.MessageStart];
      assert e[1..] == [] && OnEvents(t, e) == OnEvents(t, e[1..]);
    case ParsingHeader =>
    case ParsingContent =>
      OnConcatenation(t, Harmony.Content(part), [Harmony.MessageEnd]);
      assert [Harmony.MessageEnd][1..] == [];
  }

  // ----- the pieces do not matter -----

  lemma {:induction false} OnLetters(t: Tally, s: string, rest: seq<Harmony.Event>)
    ensures OnEvents(t, Harmony.Letters(s) + rest) == OnEvents(OnContent(t, s), rest)
    decreases |s|
  {
    var l := Harmony.Letters(s) + rest;
    if s == [] {
      assert l == rest;
      AppendNothing(t.content);
      AppendNothing(t.thinking);
      AppendNothing(t.toolContent);
    } else {
      assert l[1..] == Harmony.Letters(s[1..]) + rest && l[0] == Harmony.ContentEmitted(s[..1]);
      OnLetters(OnContent(t, s[..1]), s[1..], rest);
      OnContentTwice(t, s[..1], s[1..]);
      assert s[..1] + s[1..] == s;
    }
  }

  lemma OnContentTwice(t: Tally, a: string, b: string)
    ensures OnContent(OnContent(t, a), b) == OnContent(t, a + b)
  {
    AppendAssociates(t.content, a, b);
    AppendAssociates(t.thinking, a, b);
    AppendAssociates(t.toolContent, a, b);
  }

  /** How contents are cut does not matter to the handler. */
  lemma {:induction false} OnAtoms(t: Tally, events: seq<Harmony.Event>)
    ensures OnEvents(t, Harmony.Atoms(events)) == OnEvents(t, events)
    decreases |events|
  {
    if events != [] {
      var e, rest := events[0], events[1..];
      OnAtoms(OnEvent(t, e), rest);
      if e.ContentEmitted? {
        OnLetters(t, e.content, Harmony.Atoms(rest));
      } else {
        var a := [e] + Harmony.Atoms(rest);
        assert a[0] == e && a[1..] == Harmony.Atoms(rest);
      }
    }
  }

  /** What is sorted later does not depend on what was sorted before. */
  lemma {:induction false} OnEventsFresh(t: Tally, events: seq<Harmony.Event>)
    ensures OnEvents(t, events) == t.Then(OnEvents(t.Fresh(), events))
    decreases |events|
  {
    AppendNothing(t.content);
    AppendNothing(t.thinking);
    AppendNothing(t.toolContent);
    if events != [] {
      var e, rest := events[0], events[1..];
      var u, v := OnEvent(t, e), OnEvent(t.Fresh(), e);
      OnEventFresh(t, e);
      OnEventsFresh(u, rest);
      OnEventsFresh(v, rest);
      ThenAssociates(t, v, OnEvents(v.Fresh(), rest));
    }
  }

  lemma OnEventFresh(t: Tally, e: Harmony.Event)
    ensures OnEvent(t, e) == t.Then(OnEvent(t.Fresh(), e))
  {
    AppendNothing(t.content);
    AppendNothing(t.thinking);
    AppendNothing(t.toolContent);
    if e.ContentEmitted? {
      AppendNothing(e.content);
    }
  }

  lemma ThenAssociates(a: Tally, b: Tally, c: Tally)
    ensures a.Then(b).Then(c) == a.Then(b.Then(c))
  {
    AppendAssociates(a.content, b.content, c.content);
    AppendAssociates(a.thinking, b.thinking, c.thinking);
    AppendAssociates(a.toolContent, b.toolContent, c.toolContent);
  }

  /** Feeding pieces one call at a time; the outputs of the calls are put one behind the other. */
  function Feed(tags: Harmony.Tags, state: Harmony.State, held: string, t: Tally, pieces: seq<string>): Tally
    requires tags.Valid()
    decreases |pieces|
  {
    if pieces == [] then t
    else
      var p := Harmony.Parse(tags, state, held + pieces[0]);
      Feed(tags, p.state, p.held, t.Then(OnEvents(t.Fresh(), p.events)), pieces[1..])
  }

  lemma {:induction false} FeedIsOnEvents(tags: Harmony.Tags, state: Harmony.State, held: string, t: Tally, pieces: seq<string>)
    requires tags.Valid()
    ensures Feed(tags, state, held, t, pieces) == OnEvents(t, Harmony.Feed(tags, state, held, pieces).events)
    decreases |pieces|
  {
    if pieces != [] {
      var p := Harmony.Parse(tags, state, held + pieces[0]);
      OnEventsFresh(t, p.events);
      FeedIsOnEvents(tags, p.state, p.held, OnEvents(t, p.events), pieces[1..]);
      OnConcatenation(t, p.events, Harmony.Feed(tags, p.state, p.held, pieces[1..]).events);
    }
  }

  /**
   Any way of cutting a text into pieces gives the answer, the thinking, the text of the tool
   call, the tool name and the handler state that the uncut text gives.
   */
  lemma ChunkingIndependence(tags: Harmony.Tags, state: Harmony.State, held: string, t: Tally, pieces: seq<string>)
    requires tags.Valid() && pieces != []
    ensures Feed(tags, state, held, t, pieces) == Feed(tags, state, held, t, [Concat(pieces)])
  {
    var f := Harmony.Feed(tags, state, held, pieces);
    var p := Harmony.Parse(tags, state, held + Concat(pieces));
    Harmony.FeedIsSimilar(tags, state, held, pieces);
    FeedIsOnEvents(tags, state, held, t, pieces);
    OnAtoms(t, f.events);
    OnAtoms(t, p.events);
    OnEventsFresh(t, p.events);
    assert [Concat(pieces)][1..] == [];
  }
}
