/**
 What becomes of a conversation: which messages are the answer, which are thoughts, and which are the
 text of a tool call, however the text is cut.
 */
module HarmonyMeaning {
  import opened Text
  import opened Options
  import opened FunctionNames
  import opened HarmonyHeaders
  import opened HarmonyHandler
  import Harmony

  datatype Said = Said(header: Printed, content: string) {
    predicate Valid(tags: Harmony.Tags) {
      header.Valid() && Scan(content + tags.messageEnd, tags.messageEnd) == Found(content, [])
    }

    function Channel(): string { header.Header().channel }
    function Recipient(): string { header.Header().recipient }

    /** It is for a tool. */
    predicate IsCall() { (Channel() == "analysis" || Channel() == "commentary") && Recipient() != "" }

    predicate IsThought() { Channel() == "analysis" && Recipient() == "" }

    function Message(): Harmony.Message { Harmony.Message(header.Text(), content) }
  }

  function Messages(ms: seq<Said>): seq<Harmony.Message> {
    if ms == [] then [] else [ms[0].Message()] + Messages(ms[1..])
  }

  /** Everything that is no call and no thought: final messages, comments, and messages of other channels or none. */
  function Answer(ms: seq<Said>): string {
    if ms == [] then [] else (if ms[0].IsCall() || ms[0].IsThought() then [] else ms[0].content) + Answer(ms[1..])
  }

  function Thoughts(ms: seq<Said>): string {
    if ms == [] then [] else (if ms[0].IsThought() then ms[0].content else []) + Thoughts(ms[1..])
  }

  function CallText(ms: seq<Said>): string {
    if ms == [] then [] else (if ms[0].IsCall() then ms[0].content else []) + CallText(ms[1..])
  }

  /** The tool that is called last. */
  function Tool(ms: seq<Said>): Option<string>
    decreases |ms|
  {
    if ms == [] then None
    else if ms[|ms| - 1].IsCall() then Some(ms[|ms| - 1].Recipient())
    else Tool(ms[..|ms| - 1])
  }

  /** A message is sorted as a whole, and leaves the handler ready for the next one. */
  lemma MessageIsSorted(t: Tally, m: Said)
    requires t.state == Normal && m.header.Valid()
    ensures OnEvents(t, m.Message().Events()) ==
      if m.IsCall() then t.(toolContent := t.toolContent + m.content, tool := Some(m.Recipient()))
      else if m.IsThought() then t.(thinking := t.thinking + m.content)
      else t.(content := t.content + m.content)
  {
    var header := m.header.Header();
    HeaderIsReadBack(m.header);
    EventsAreSorted(t, header, m.content, m.Message().Events());
    HeaderSorts(t, header, m.content);
  }

  lemma EventsAreSorted(t: Tally, header: Harmony.Header, s: string, events: seq<Harmony.Event>)
    requires events == [Harmony.MessageStart] + [Harmony.HeaderComplete(header)] + (Harmony.Content(s) + [Harmony.MessageEnd])
    ensures OnEvents(t, events) == OnContent(OnHeader(t, header), s).(state := Normal)
  {
    var start: seq<Harmony.Event> := [Harmony.MessageStart] + [Harmony.HeaderComplete(header)];
    OnConcatenation(t, start, Harmony.Content(s) + [Harmony.MessageEnd]);
    assert start[1..] == [Harmony.HeaderComplete(header)] && start[1..][1..] == [];
    assert OnEvents(t, start) == OnEvents(OnEvent(t, start[0]), start[1..]);
    ContentIsSorted(OnHeader(t, header), s);
  }

  /** The channel and the recipient decide. */
  lemma HeaderSorts(t: Tally, header: Harmony.Header, s: string)
    requires t.state == Normal
    ensures OnContent(OnHeader(t, header), s).(state := Normal) ==
      if (header.channel == "analysis" || header.channel == "commentary") && header.recipient != "" then
        t.(toolContent := t.toolContent + s, tool := Some(header.recipient))
      else if header.channel == "analysis" then t.(thinking := t.thinking + s)
      else t.(content := t.content + s)
  {
  }

  lemma ContentIsSorted(t: Tally, s: string)
    ensures OnEvents(t, Harmony.Content(s) + [Harmony.MessageEnd]) == OnContent(t, s).(state := Normal)
  {
    var e := Harmony.Content(s) + [Harmony.MessageEnd];
    OnConcatenation(t, Harmony.Content(s), [Harmony.MessageEnd]);
    assert [Harmony.MessageEnd][1..] == [];
    if s == [] {
      AppendNothing(t.content);
      AppendNothing(t.thinking);
      AppendNothing(t.toolContent);
    } else {
      assert Harmony.Content(s)[1..] == [];
    }
  }

  lemma {:induction false} ToolUnfolds(ms: seq<Said>)
    requires ms != []
    ensures Tool(ms) == if Tool(ms[1..]) != None then Tool(ms[1..]) else if ms[0].IsCall() then Some(ms[0].Recipient()) else None
    decreases |ms|
  {
    if |ms| > 1 {
      assert ms[1..][|ms| - 2] == ms[|ms| - 1] && ms[1..][..|ms| - 2] == ms[..|ms| - 1][1..];
      if !ms[|ms| - 1].IsCall() {
        ToolUnfolds(ms[..|ms| - 1]);
      }
    } else {
      assert ms[..0] == [];
    }
  }

  lemma {:induction false} MessagesAreSorted(t: Tally, ms: seq<Said>)
    requires t.state == Normal && forall m <- ms :: m.header.Valid()
    ensures OnEvents(t, Harmony.EventsOf(Messages(ms))) ==
      Tally(Normal, if Tool(ms) == None then t.tool else Tool(ms),
            t.content + Answer(ms), t.thinking + Thoughts(ms), t.toolContent + CallText(ms))
    decreases |ms|
  {
    AppendNothing(t.content);
    AppendNothing(t.thinking);
    AppendNothing(t.toolContent);
    if ms != [] {
      var m, rest := ms[0], ms[1..];
      var head := m.Message().Events();
      var next := OnEvents(t, head);
      assert Messages(ms)[0] == m.Message() && Messages(ms)[1..] == Messages(rest);
      OnConcatenation(t, head, Harmony.EventsOf(Messages(rest)));
      MessageIsSorted(t, m);
      MessagesAreSorted(next, rest);
      ToolUnfolds(ms);
      AppendAssociates(t.content, if m.IsCall() || m.IsThought() then [] else m.content, Answer(rest));
      AppendAssociates(t.thinking, if m.IsThought() then m.content else [], Thoughts(rest));
      AppendAssociates(t.toolContent, if m.IsCall() then m.content else [], CallText(rest));
    }
  }

  lemma {:induction false} MessagesAreValid(tags: Harmony.Tags, ms: seq<Said>)
    requires tags.Valid() && tags.headerEnd == "<|message|>" && forall m <- ms :: m.Valid(tags)
    ensures forall m <- Messages(ms) :: m.Valid(tags)
    decreases |ms|
  {
    if ms != [] {
      assert ms[0].Valid(tags);
      HeaderEndsAtTag(ms[0].header, tags.headerEnd);
      MessagesAreValid(tags, ms[1..]);
    }
  }

  const START := Tally(Normal, None, [], [], [])

  /** However a printed conversation is cut, its messages go where they belong. */
  lemma ConversationIsSorted(tags: Harmony.Tags, ms: seq<Said>, pieces: seq<string>)
    requires tags.Valid() && tags.headerEnd == "<|message|>" && pieces != [] && forall m <- ms :: m.Valid(tags)
    requires Concat(pieces) == Harmony.TextOf(tags, Messages(ms))
    ensures Feed(tags, Harmony.LookingForMessageStart, [], START, pieces) == Tally(Normal, Tool(ms), Answer(ms), Thoughts(ms), CallText(ms))
  {
    var f, p := Harmony.Feed(tags, Harmony.LookingForMessageStart, [], pieces), Harmony.Parse(tags, Harmony.LookingForMessageStart, Concat(pieces));
    assert [] + Concat(pieces) == Concat(pieces);
    Harmony.FeedIsSimilar(tags, Harmony.LookingForMessageStart, [], pieces);
    FeedIsOnEvents(tags, Harmony.LookingForMessageStart, [], START, pieces);
    OnAtoms(START, f.events);
    OnAtoms(START, p.events);
    MessagesAreValid(tags, ms);
    Harmony.ParseMessages(tags, Messages(ms));
    MessagesAreSorted(START, ms);
    assert [] + Answer(ms) == Answer(ms) && [] + Thoughts(ms) == Thoughts(ms) && [] + CallText(ms) == CallText(ms);
  }

  /** The handler, through a whole conversation: answer, thoughts, the text of the calls, and the tool that is called. */
  method Listen(tags: Harmony.Tags, ghost ms: seq<Said>, pieces: seq<string>, names: FunctionNameMap, decodes: string -> bool)
    returns (answer: string, thoughts: string, callText: string, tool: Option<string>)
    requires tags.Valid() && tags.headerEnd == "<|message|>" && pieces != [] && forall m <- ms :: m.Valid(tags)
    requires Concat(pieces) == Harmony.TextOf(tags, Messages(ms))
    ensures answer == Answer(ms) && thoughts == Thoughts(ms) && callText == CallText(ms) && tool == Tool(ms)
  {
    var parser := new Harmony.HarmonyParser(tags);
    var handler := new HarmonyMessageHandler(parser, names, decodes);
    answer, thoughts, callText := [], [], [];
    var i := 0;
    ghost var sorted := Feed(tags, Harmony.LookingForMessageStart, [], START, pieces);
    assert pieces[0..] == pieces;
    while i < |pieces|
      invariant i <= |pieces| && fresh(handler) && fresh(handler.tools) && handler.parser == parser && fresh(parser) && parser.tags == tags
      invariant Consistent(handler.state, parser.state)
      invariant Feed(tags, parser.state, parser.acc, Tally(handler.state, handler.tools.currentToolName, answer, thoughts, callText), pieces[i..]) == sorted
    {
      assert pieces[i..][0] == pieces[i] && pieces[i..][1..] == pieces[i + 1..];
      var content, thinking, toolContent := handler.AddContent(pieces[i]);
      answer, thoughts, callText := answer + content, thoughts + thinking, callText + toolContent;
      i := i + 1;
    }
    assert pieces[i..] == [];
    tool := handler.tools.currentToolName;
    ConversationIsSorted(tags, ms, pieces);
  }

  /** A call is reported when the text is done: under the name that the user gave to the function. */
  lemma CallIsReported(t: Tally, raw: string, names: Maps, decodes: string -> bool, user: string, name: string)
    requires name in names.harmonyToUser && names.harmonyToUser[name] == user && decodes(raw)
    requires t.tool == Some("functions." + name) || (t.tool == Some(name) && !("functions." <= name))
    ensures Finish(true, t, raw, names, decodes) == Parsed(t.content, t.thinking, [ToolCall(user, raw)])
    ensures Finish(false, t, raw, names, decodes) == Parsed(t.content, t.thinking, [])
  {
    assert ("functions." + name)[|"functions."|..] == name;
  }

  /** A message that has been started goes on with what is generated of its header. */
  lemma StartIsContinued(p: Printed, role: string, tail: string, opening: string, text: string, tags: Harmony.Tags)
    requires tags.Valid() && tags.headerEnd == "<|message|>" && p.Valid() && p.Text() == role + tail && opening == tags.messageStart + role
    ensures Harmony.Parse(tags, Harmony.LookingForMessageStart, opening + (tail + tags.headerEnd + text)) ==
      Harmony.After'([Harmony.MessageStart] + [Harmony.HeaderComplete(p.Header())], Harmony.Parse(tags, Harmony.ParsingContent, text))
  {
    HeaderIsReadBack(p);
    HeaderEndsAtTag(p, tags.headerEnd);
    Harmony.HeaderIsRead(tags, p.Text(), text);
    Continued(tags.messageStart, role, tail, tags.headerEnd, text);
  }

  lemma Continued(start: string, role: string, tail: string, end: string, text: string)
    ensures (start + role) + (tail + end + text) == start + ((role + tail) + end) + text
  {
  }

  /** The implicit start begins a message of the assistant. */
  lemma ImplicitStartIs(role: string)
    requires role == "assistant"
    ensures Harmony.Opening(None) == Harmony.HARMONY_TAGS.messageStart + role
  {
  }

  lemma ImplicitStartIsContinued(p: Printed, role: string, tail: string, text: string, tags: Harmony.Tags)
    requires tags == Harmony.HARMONY_TAGS && role == "assistant" && p.Valid() && p.Text() == role + tail
    ensures Harmony.Parse(tags, Harmony.LookingForMessageStart, Harmony.Opening(None) + (tail + tags.headerEnd + text)) ==
      Harmony.After'([Harmony.MessageStart] + [Harmony.HeaderComplete(p.Header())], Harmony.Parse(tags, Harmony.ParsingContent, text))
  {
    ImplicitStartIs(role);
    StartIsContinued(p, role, tail, Harmony.Opening(None), text, tags);
  }
}
