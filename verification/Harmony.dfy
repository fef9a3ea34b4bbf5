/**
 The streaming parser for the Harmony message format: a text is a sequence of messages, each
 a start tag, a header, a header-end tag, a content and an end tag. The parser sees the text
 in arbitrary pieces and turns it into events as soon as they are certain.
 */
module Harmony {
  import opened Text
  import opened Options

  datatype State = LookingForMessageStart | ParsingHeader | ParsingContent

  datatype Tags = Tags(messageStart: string, headerEnd: string, messageEnd: string) {
    predicate Valid() { messageStart != [] && headerEnd != [] && messageEnd != [] }
  }

  datatype Header = Header(role: string, channel: string, recipient: string)

  datatype Event =
    | MessageStart
    | HeaderComplete(header: Header)
    | ContentEmitted(content: string)
    | MessageEnd

  /** Where the parser stands, and what it has announced on the way there. */
  datatype Outcome = Outcome(state: State, held: string, events: seq<Event>)

  // ----- headers -----

  /** The index of the first white space, or the length. */
  function FirstSpace(s: string): (i: nat)
    ensures i <= |s|
  {
    if s == [] || IsSpace(s[0]) then 0 else 1 + FirstSpace(s[1..])
  }

  /** `strings.Fields`: the maximal runs of characters that are not white space. */
  function Fields(s: string): seq<string>
    decreases |s|
  {
    var t := TrimLeft(s);
    if t == [] then []
    else
      FieldIsNotEmpty(s);
      [t[..FirstSpace(t)]] + Fields(t[FirstSpace(t)..])
  }

  lemma FieldIsNotEmpty(s: string)
    ensures TrimLeft(s) != [] ==> FirstSpace(TrimLeft(s)) > 0
  {
    TrimLeftStarts(s);
  }

  const CHANNEL := "<|channel|>"
  const CONSTRAIN := "<|constrain|>"
  const TO := "to="

  /** A space goes before the constrain tag, so that it becomes a token of its own. */
  function SeparateConstrain(raw: string): string {
    if Contains(raw, CONSTRAIN) then TrimSpace(SplitOnce(raw, CONSTRAIN).0 + " " + CONSTRAIN + SplitOnce(raw, CONSTRAIN).1)
    else raw
  }

  function ParseHeader(text: string): Header {
    var raw := SeparateConstrain(text);
    if Contains(raw, CHANNEL) then
      var (before, after) := SplitOnce(raw, CHANNEL);
      ParseRole(TrimSpace(before + after[FirstSpace(after)..]), after[..FirstSpace(after)])
    else
      ParseRole(raw, [])
  }

  /** The role and the recipient, once the channel is cut out. */
  function ParseRole(raw: string, channel: string): Header {
    var tokens := Fields(raw);
    if tokens == [] then Header([], channel, [])
    else
      var isCall := TO <= tokens[0];
      var role := if isCall then "tool" else tokens[0];
      var recipient := if isCall then tokens[0][|TO|..] else [];
      Header(role, channel, if recipient == [] && |tokens| > 1 && TO <= tokens[1] then tokens[1][|TO|..] else recipient)
  }

  // ----- what a parser in a given state owes for a given text -----

  function Content(s: string): seq<Event> {
    if s == [] then [] else [ContentEmitted(s)]
  }

  function After'(events: seq<Event>, rest: Outcome): Outcome {
    rest.(events := events + rest.events)
  }

  /** The tag that ends the part of a message which a state reads. */
  function TagOf(tags: Tags, state: State): string {
    match state
    case LookingForMessageStart => tags.messageStart
    case ParsingHeader => tags.headerEnd
    case ParsingContent => tags.messageEnd
  }

  function Next(state: State): State {
    match state
    case LookingForMessageStart => ParsingHeader
    case ParsingHeader => ParsingContent
    case ParsingContent => LookingForMessageStart
  }

  /** The events for a complete part. */
  function Complete(state: State, part: string): seq<Event> {
    match state
    case LookingForMessageStart => [MessageStart]
    case ParsingHeader => [HeaderComplete(ParseHeader(part))]
    case ParsingContent => Content(part) + [MessageEnd]
  }

  /** Only contents are given away before they are complete. */
  function Parse(tags: Tags, state: State, text: string): Outcome
    requires tags.Valid()
    decreases |text|
  {
    ScanLengths(text, TagOf(tags, state));
    match Scan(text, TagOf(tags, state))
    case Found(part, rest) => After'(Complete(state, part), Parse(tags, Next(state), rest))
    case Open(given, held) => if state == ParsingContent then Outcome(state, held, Content(given)) else Outcome(state, text, [])
  }

  /** The next step of parsing, in terms of what the parser searches for. */
  lemma ParseBySearch(tags: Tags, state: State, text: string)
    requires tags.Valid()
    ensures
      var tag := TagOf(tags, state);
      if Contains(text, tag) then
        var (part, rest) := SplitOnce(text, tag);
        |rest| < |text| && Parse(tags, state, text) == After'(Complete(state, part), Parse(tags, Next(state), rest))
      else
        var k := Overlap(text, tag);
        Parse(tags, state, text) ==
        if state != ParsingContent then Outcome(state, text, [])
        else if k > 0 then Outcome(state, text[|text| - k..], Content(text[..|text| - k]))
        else Outcome(state, [], Content(text))
  {
    SearchIsScan(text, TagOf(tags, state));
    ScanLengths(text, TagOf(tags, state));
  }

  // ----- how a text begins -----

  const HARMONY_TAGS := Tags("<|start|>", "<|message|>", "<|end|>")

  /** The last message of a chat, as far as it matters. */
  datatype LastMessage = LastMessage(role: string, content: string, thinking: string)

  /** What the parser is given before the first generated text. */
  function Opening(last: Option<LastMessage>): string {
    if last != None && last.value.role == "assistant" && last.value.content != "" then "<|start|>assistant<|channel|>final<|message|>"
    else if last != None && last.value.role == "assistant" && last.value.thinking != "" then "<|start|>assistant<|channel|>analysis<|message|>"
    else "<|start|>assistant"
  }

  // ----- the parser -----

  class HarmonyParser {
    var state: State
    var acc: string
    var lifetimeAcc: string
    const tags: Tags

    constructor (tags: Tags)
      ensures this.tags == tags && state == LookingForMessageStart && acc == lifetimeAcc == []
    {
      this.tags := tags;
      state := LookingForMessageStart;
      acc, lifetimeAcc := [], [];
    }

    method AddImplicitStart()
      modifies this`acc
      ensures acc == old(acc) + "<|start|>assistant"
    {
      acc := acc + "<|start|>assistant";
    }

    /** A message that the assistant has begun, with a content or with thoughts, is to be continued. */
    method AddImplicitStartOrPrefill(lastMessage: Option<LastMessage>)
      modifies this`acc
      ensures acc == old(acc) + Opening(lastMessage)
    {
      if lastMessage != None && lastMessage.value.role == "assistant" {
        if lastMessage.value.content != "" {
          acc := acc + "<|start|>assistant<|channel|>final<|message|>";
          return;
        } else if lastMessage.value.thinking != "" {
          acc := acc + "<|start|>assistant<|channel|>analysis<|message|>";
          return;
        }
      }
      AddImplicitStart();
    }

    /** One state's worth of parsing; `again` says that the new state may have more to say. */
    method Eat() returns (events: seq<Event>, again: bool)
      requires tags.Valid()
      modifies this`state, this`acc
      ensures again ==> |acc| < |old(acc)|
      ensures again ==> Parse(tags, old(state), old(acc)) == After'(events, Parse(tags, state, acc))
      ensures !again ==> Parse(tags, old(state), old(acc)) == Outcome(state, acc, events)
    {
      ParseBySearch(tags, state, acc);
      match state
      case LookingForMessageStart =>
        if Contains(acc, tags.messageStart) {
          var split := SplitOnce(acc, tags.messageStart);
          acc := split.1;
          state := ParsingHeader;
          return [MessageStart], true;
        }
        return [], false;
      case ParsingHeader =>
        if Contains(acc, tags.headerEnd) {
          var split := SplitOnce(acc, tags.headerEnd);
          acc := split.1;
          state := ParsingContent;
          return [HeaderComplete(ParseHeader(split.0))], true;
        }
        return [], false;
      case ParsingContent =>
        if Contains(acc, tags.messageEnd) {
          var split := SplitOnce(acc, tags.messageEnd);
          var content := split.0;
          acc := split.1;
          state := LookingForMessageStart;
          events := [];
          if content != [] {
            events := events + [ContentEmitted(content)];
          }
          assert events == Content(content);
          events := events + [MessageEnd];
          return events, true;
        }
        var overlapLen := ComputeOverlap(acc, tags.messageEnd);
        if overlapLen > 0 {
          var content := acc[..|acc| - overlapLen];
          var remaining := acc[|acc| - overlapLen..];
          acc := remaining;
          if content == [] {
            return [], false;
          }
          return [ContentEmitted(content)], false;
        } else {
          var content := acc;
          if content == [] {
            return [], false;
          }
          acc := [];
          return [ContentEmitted(content)], false;
        }
    }

    /** Hand in a piece of text; get back the events that are now certain. */
    method AddContent(content: string) returns (events: seq<Event>)
      requires tags.Valid()
      modifies this
      ensures Outcome(state, acc, events) == Parse(tags, old(state), old(acc) + content)
      ensures lifetimeAcc == old(lifetimeAcc) + content
    {
      lifetimeAcc := lifetimeAcc + content;
      acc := acc + content;
      events := [];
      var again := true;
      while again
        invariant again ==> After'(events, Parse(tags, state, acc)) == Parse(tags, old(state), old(acc) + content)
        invariant !again ==> Outcome(state, acc, events) == Parse(tags, old(state), old(acc) + content)
        invariant lifetimeAcc == old(lifetimeAcc) + content
        decreases again, |acc|
      {
        var newEvents;
        ghost var soFar := events;
        newEvents, again := Eat();
        events := events + newEvents;
      }
    }
  }

  // ----- the pieces do not matter -----

  /** The events, with contents taken apart into single characters. */
  function Atoms(events: seq<Event>): seq<Event> {
    if events == [] then []
    else AtomsOf(events[0]) + Atoms(events[1..])
  }

  function AtomsOf(e: Event): seq<Event> {
    if e.ContentEmitted? then Letters(e.content) else [e]
  }

  function Letters(s: string): seq<Event> {
    seq(|s|, i requires 0 <= i < |s| => ContentEmitted([s[i]]))
  }

  /** The events, with adjacent contents merged. */
  function Merge(events: seq<Event>): seq<Event> {
    if events == [] then [] else Prepend(events[0], Merge(events[1..]))
  }

  function Prepend(e: Event, merged: seq<Event>): seq<Event> {
    if !e.ContentEmitted? then [e] + merged
    else if e.content == [] then merged
    else if merged != [] && merged[0].ContentEmitted? then [ContentEmitted(e.content + merged[0].content)] + merged[1..]
    else [e] + merged
  }

  /** The same outcome, up to how contents are cut. */
  predicate Similar(a: Outcome, b: Outcome) {
    a.state == b.state && a.held == b.held && Atoms(a.events) == Atoms(b.events)
  }

  lemma SimilarAfter(events: seq<Event>, a: Outcome, b: Outcome)
    requires Similar(a, b)
    ensures Similar(After'(events, a), After'(events, b))
  {
    AtomsOfConcatenation(events, a.events);
    AtomsOfConcatenation(events, b.events);
  }

  lemma AfterTwice(a: seq<Event>, b: seq<Event>, o: Outcome)
    ensures After'(a, After'(b, o)) == After'(a + b, o)
  {
    assert a + (b + o.events) == a + b + o.events;
  }

  /** Feeding pieces one call at a time. */
  function Feed(tags: Tags, state: State, held: string, pieces: seq<string>): Outcome
    requires tags.Valid()
    decreases |pieces|
  {
    if pieces == [] then Outcome(state, held, [])
    else
      var first := Parse(tags, state, held + pieces[0]);
      After'(first.events, Feed(tags, first.state, first.held, pieces[1..]))
  }

  lemma {:induction false} AtomsOfConcatenation(a: seq<Event>, b: seq<Event>)
    ensures Atoms(a + b) == Atoms(a) + Atoms(b)
  {
    if a == [] {
      AppendNothing(b);
      AppendNothing(Atoms(b));
    } else {
      AtomsOfConcatenation(a[1..], b);
      assert (a + b)[1..] == a[1..] + b;
      AppendAssociates(AtomsOf(a[0]), Atoms(a[1..]), Atoms(b));
    }
  }

  lemma ContentAtoms(s: string, t: seq<Event>)
    ensures Atoms(Content(s) + t) == Letters(s) + Atoms(t)
  {
    var e := Content(s) + t;
    if s == [] {
      assert e == t;
    } else {
      assert e[1..] == t;
    }
  }

  lemma LettersOfConcatenation(s: string, t: string)
    ensures Letters(s + t) == Letters(s) + Letters(t)
  {
  }

  lemma PrependTwice(a: string, b: string, merged: seq<Event>)
    ensures Prepend(ContentEmitted(a), Prepend(ContentEmitted(b), merged)) == Prepend(ContentEmitted(a + b), merged)
  {
    if a == [] {
      assert a + b == b;
    } else if b == [] {
      assert a + b == a;
    } else if merged != [] && merged[0].ContentEmitted? {
      assert a + (b + merged[0].content) == a + b + merged[0].content;
    }
  }

  lemma {:induction false} MergeOfLetters(s: string, rest: seq<Event>)
    ensures Merge(Letters(s) + rest) == Prepend(ContentEmitted(s), Merge(rest))
    decreases |s|
  {
    var l := Letters(s) + rest;
    if s == [] {
      assert l == rest;
    } else {
      MergeOfLetters(s[1..], rest);
      assert l[1..] == Letters(s[1..]) + rest;
      assert l[0] == ContentEmitted(s[..1]);
      PrependTwice(s[..1], s[1..], Merge(rest));
      assert s[..1] + s[1..] == s;
    }
  }

  /** Merging adjacent contents forgets only how the contents were cut. */
  lemma {:induction false} MergeOfAtoms(events: seq<Event>)
    ensures Merge(Atoms(events)) == Merge(events)
  {
    if events != [] {
      MergeOfAtoms(events[1..]);
      if events[0].ContentEmitted? {
        MergeOfLetters(events[0].content, Atoms(events[1..]));
      } else {
        var a := [events[0]] + Atoms(events[1..]);
        assert a[1..] == Atoms(events[1..]);
      }
    }
  }

  lemma CutAtoms(a: string, b: string, t: seq<Event>)
    ensures Atoms(Content(a) + (Content(b) + t)) == Atoms(Content(a + b) + t)
  {
    ContentAtoms(a, Content(b) + t);
    ContentAtoms(b, t);
    ContentAtoms(a + b, t);
    LettersOfConcatenation(a, b);
    AppendAssociates(Letters(a), Letters(b), Atoms(t));
  }

  lemma CutContent(a: string, b: string, tail: seq<Event>, rest: Outcome)
    ensures Similar(After'(Content(a), After'(Content(b) + tail, rest)), After'(Content(a + b) + tail, rest))
  {
    var t := tail + rest.events;
    CutAtoms(a, b, t);
    assert Content(b) + tail + rest.events == Content(b) + t;
    assert Content(a + b) + tail + rest.events == Content(a + b) + t;
  }

  /** How the content is cut when x holds no end tag. */
  lemma ContentComposes(tags: Tags, given: string, h: string, text: string)
    requires tags.Valid() && Scan(text, tags.messageEnd) == Scan(h, tags.messageEnd).Behind(given)
    ensures Similar(After'(Content(given), Parse(tags, ParsingContent, h)), Parse(tags, ParsingContent, text))
  {
    match Scan(h, tags.messageEnd)
    case Found(part, rest) => CutContent(given, part, [MessageEnd], Parse(tags, LookingForMessageStart, rest));
    case Open(g, held) =>
      CutContent(given, g, [], Outcome(ParsingContent, held, []));
      AppendNothing(Content(g));
      AppendNothing(Content(given + g));
  }

  /** Parsing a text in two pieces is parsing it in one. */
  lemma {:induction false} ParseComposes(tags: Tags, state: State, x: string, y: string)
    requires tags.Valid()
    ensures
      var r := Parse(tags, state, x);
      Similar(After'(r.events, Parse(tags, r.state, r.held + y)), Parse(tags, state, x + y))
    decreases |x|, 0
  {
    ScanExtension(x, y, TagOf(tags, state));
    ScanLengths(x, TagOf(tags, state));
    match Scan(x, TagOf(tags, state))
    case Found(part, rest) => HeadComposes(tags, Complete(state, part), Next(state), rest, y);
    case Open(given, held) =>
      if state == ParsingContent {
        ContentComposes(tags, given, held + y, x + y);
      } else {
        AppendNothing(Parse(tags, state, x + y).events);
      }
  }

  lemma {:induction false} HeadComposes(tags: Tags, head: seq<Event>, state: State, x: string, y: string)
    requires tags.Valid()
    ensures
      var r := After'(head, Parse(tags, state, x));
      Similar(After'(r.events, Parse(tags, r.state, r.held + y)), After'(head, Parse(tags, state, x + y)))
    decreases |x|, 1
  {
    ParseComposes(tags, state, x, y);
    var r := Parse(tags, state, x);
    var q := Parse(tags, r.state, r.held + y);
    SimilarAfter(head, After'(r.events, q), Parse(tags, state, x + y));
    AfterTwice(head, r.events, q);
  }

  lemma {:induction false} FeedIsSimilar(tags: Tags, state: State, held: string, pieces: seq<string>)
    requires tags.Valid() && pieces != []
    ensures Similar(Feed(tags, state, held, pieces), Parse(tags, state, held + Concat(pieces)))
    decreases |pieces|
  {
    var first := Parse(tags, state, held + pieces[0]);
    FeedUnfolds(tags, state, held, pieces, first);
    ConcatUnfolds(held, pieces);
    if |pieces| > 1 {
      FeedIsSimilar(tags, first.state, first.held, pieces[1..]);
      FirstThenRest(tags, state, held + pieces[0], Concat(pieces[1..]), held + Concat(pieces), first,
                    Feed(tags, first.state, first.held, pieces[1..]), Feed(tags, state, held, pieces));
    }
  }

  lemma FeedUnfolds(tags: Tags, state: State, held: string, pieces: seq<string>, first: Outcome)
    requires tags.Valid() && pieces != [] && first == Parse(tags, state, held + pieces[0])
    ensures Feed(tags, state, held, pieces) ==
            if |pieces| == 1 then first else After'(first.events, Feed(tags, first.state, first.held, pieces[1..]))
  {
    assert first.events + [] == first.events;
  }

  lemma FirstThenRest(tags: Tags, state: State, x: string, y: string, text: string, first: Outcome, rest: Outcome, fed: Outcome)
    requires tags.Valid() && text == x + y && first == Parse(tags, state, x)
    requires Similar(rest, Parse(tags, first.state, first.held + y)) && fed == After'(first.events, rest)
    ensures Similar(fed, Parse(tags, state, text))
  {
    ParseComposes(tags, state, x, y);
    SimilarAfter(first.events, rest, Parse(tags, first.state, first.held + y));
  }

  /**
   Any way of cutting a text into pieces gives the state, the held buffer and, once adjacent
   contents are merged, the events that the uncut text gives.
   */
  lemma ChunkingIndependence(tags: Tags, state: State, held: string, pieces: seq<string>)
    requires tags.Valid() && pieces != []
    ensures
      var f, p := Feed(tags, state, held, pieces), Parse(tags, state, held + Concat(pieces));
      f.state == p.state && f.held == p.held && Merge(f.events) == Merge(p.events)
  {
    FeedIsSimilar(tags, state, held, pieces);
    MergeOfAtoms(Feed(tags, state, held, pieces).events);
    MergeOfAtoms(Parse(tags, state, held + Concat(pieces)).events);
  }

  // ----- what the whole text means -----

  datatype Message = Message(header: string, content: string) {
    /** The first header-end tag ends the header, and the first end tag ends the content. */
    predicate Valid(tags: Tags) {
      && Scan(header + tags.headerEnd, tags.headerEnd) == Found(header, [])
      && Scan(content + tags.messageEnd, tags.messageEnd) == Found(content, [])
    }
    function Text(tags: Tags): string {
      tags.messageStart + (header + tags.headerEnd + (content + tags.messageEnd))
    }
    function Events(): seq<Event> {
      [MessageStart] + [HeaderComplete(ParseHeader(header))] + (Content(content) + [MessageEnd])
    }
  }

  function TextOf(tags: Tags, messages: seq<Message>): string {
    if messages == [] then [] else messages[0].Text(tags) + TextOf(tags, messages[1..])
  }

  function EventsOf(messages: seq<Message>): seq<Event> {
    if messages == [] then [] else messages[0].Events() + EventsOf(messages[1..])
  }

  lemma ParseMessage(tags: Tags, m: Message, rest: string)
    requires tags.Valid() && m.Valid(tags)
    ensures Parse(tags, LookingForMessageStart, m.Text(tags) + rest) ==
            After'(m.Events(), Parse(tags, LookingForMessageStart, rest))
  {
    var t2 := m.content + tags.messageEnd + rest;
    var t1 := m.header + tags.headerEnd + t2;
    var last := Parse(tags, LookingForMessageStart, rest);
    TextAssociates(tags, m, rest);
    ParsePart(tags, LookingForMessageStart, [], t1);
    ParsePart(tags, ParsingHeader, m.header, t2);
    ParsePart(tags, ParsingContent, m.content, rest);
    AfterThrice([MessageStart], [HeaderComplete(ParseHeader(m.header))], Content(m.content) + [MessageEnd], last,
                Parse(tags, LookingForMessageStart, m.Text(tags) + rest), Parse(tags, ParsingHeader, t1), Parse(tags, ParsingContent, t2));
  }

  lemma TextAssociates(tags: Tags, m: Message, rest: string)
    ensures m.Text(tags) + rest == [] + tags.messageStart + (m.header + tags.headerEnd + (m.content + tags.messageEnd + rest))
    ensures tags.messageStart <= [] + tags.messageStart
  {
    var c := m.content + tags.messageEnd;
    AppendAssociates(tags.messageStart, m.header + tags.headerEnd + c, rest);
    AppendAssociates(m.header + tags.headerEnd, c, rest);
    AppendNothing(tags.messageStart);
  }

  /** A part that its tag ends is announced, and parsing goes on behind the tag. */
  lemma ParsePart(tags: Tags, state: State, part: string, rest: string)
    requires tags.Valid() && Scan(part + TagOf(tags, state), TagOf(tags, state)) == Found(part, [])
    ensures Parse(tags, state, part + TagOf(tags, state) + rest) == After'(Complete(state, part), Parse(tags, Next(state), rest))
  {
    ScanTagged(part, TagOf(tags, state), rest);
  }

  lemma AfterThrice(a: seq<Event>, b: seq<Event>, c: seq<Event>, last: Outcome, p: Outcome, q: Outcome, r: Outcome)
    requires p == After'(a, q) && q == After'(b, r) && r == After'(c, last)
    ensures p == After'(a + b + c, last)
  {
    AfterTwice(b, c, last);
    AfterTwice(a, b + c, last);
    AppendAssociates(a, b, c);
  }

  lemma {:induction false} ParseMessages(tags: Tags, messages: seq<Message>)
    requires tags.Valid() && forall m <- messages :: m.Valid(tags)
    ensures Parse(tags, LookingForMessageStart, TextOf(tags, messages)) ==
            Outcome(LookingForMessageStart, [], EventsOf(messages))
  {
    if messages != [] {
      ParseMessage(tags, messages[0], TextOf(tags, messages[1..]));
      ParseMessages(tags, messages[1..]);
    }
  }

  /** Messages that are printed, cut anywhere and parsed come back, one by one and complete. */
  lemma MessagesRoundTrip(tags: Tags, messages: seq<Message>, pieces: seq<string>)
    requires tags.Valid() && pieces != [] && forall m <- messages :: m.Valid(tags)
    requires Concat(pieces) == TextOf(tags, messages)
    ensures
      var f := Feed(tags, LookingForMessageStart, [], pieces);
      f.state == LookingForMessageStart && f.held == [] && Merge(f.events) == Merge(EventsOf(messages))
  {
    ChunkingIndependence(tags, LookingForMessageStart, [], pieces);
    assert [] + Concat(pieces) == Concat(pieces);
    ParseMessages(tags, messages);
  }

  // ----- what has been begun is continued -----

  /** No tag starts in s. */
  predicate Plain(s: string) {
    forall i | 0 <= i < |s| :: s[i] != '<' && !IsSpace(s[i])
  }

  predicate Untagged(s: string) {
    forall i | 0 <= i < |s| :: s[i] != '<'
  }

  lemma {:induction false} ScanBehindPlain(s: string, t: string, tag: string)
    requires Untagged(s) && tag != [] && tag[0] == '<'
    ensures Scan(s + t, tag) == Scan(t, tag).Behind(s)
  {
    if s == [] {
      AppendNothing(t);
      match Scan(t, tag)
      case Found(before, _) => AppendNothing(before);
      case Open(given, _) => AppendNothing(given);
    } else {
      ScanBehindPlain(s[1..], t, tag);
      assert (s + t)[0] == s[0] && (s + t)[1..] == s[1..] + t;
      BehindTwice(Scan(t, tag), [s[0]], s[1..]);
      assert [s[0]] + s[1..] == s;
    }
  }

  /** A tag that a text begins with is not another one, from which it differs at k. */
  lemma StepOver(x: string, t: string, tag: string, k: nat)
    requires 0 < k < |x| && k < |tag| && x[k] != tag[k] && x[0] == tag[0] == '<' && Plain(x[1..])
    ensures Scan(x + t, tag) == Scan(t, tag).Behind(x)
  {
    var s := x + t;
    assert s[k] == x[k];
    assert s[1..] == x[1..] + t;
    ScanBehindPlain(x[1..], t, tag);
    BehindTwice(Scan(t, tag), [s[0]], x[1..]);
    assert [s[0]] + x[1..] == x;
  }

  /** A role and a channel, in the form in which they are prefilled. */
  lemma HeaderIs(role: string, channel: string, h: string)
    requires Plain(role) && Plain(channel) && role != [] && !(TO <= role) && h == role + (CHANNEL + channel)
    ensures ParseHeader(h) == Header(role, channel, [])
  {
    assert CHANNEL[0] == '<' && CHANNEL[3] == 'h' && CONSTRAIN[0] == '<' && CONSTRAIN[3] == 'o';
    PlainChannel();
    ScanBehindPlain(role, CHANNEL + channel, CONSTRAIN);
    StepOver(CHANNEL, channel, CONSTRAIN, 3);
    AppendNothing(channel);
    ScanBehindPlain(channel, [], CONSTRAIN);
    SearchIsScan(h, CONSTRAIN);
    ScanBehindPlain(role, CHANNEL + channel, CHANNEL);
    assert (CHANNEL + channel)[|CHANNEL|..] == channel;
    SearchIsScan(h, CHANNEL);
    AppendNothing(role);
    NoSpace(channel);
    NoSpace(role);
    assert channel[|channel|..] == [];
    RoleIs(role, channel);
  }

  lemma PlainChannel()
    ensures Plain(CHANNEL[1..])
  {
    assert CHANNEL[1..] == "|channel|>";
  }

  lemma {:induction false} NoSpace(s: string)
    requires Plain(s)
    ensures FirstSpace(s) == |s| && TrimSpace(s) == s
  {
    if s != [] {
      NoSpace(s[1..]);
    }
  }

  lemma RoleIs(role: string, channel: string)
    requires Plain(role) && role != [] && !(TO <= role) && FirstSpace(role) == |role|
    ensures ParseRole(role, channel) == Header(role, channel, [])
  {
    assert TrimLeft(role) == role && role[..|role|] == role && role[|role|..] == [];
    assert Fields([]) == [];
    assert Fields(role) == [role];
  }

  /** Behind a header the parser is in a content. */
  lemma HeaderIsRead(tags: Tags, h: string, text: string)
    requires tags.Valid() && Scan(h + tags.headerEnd, tags.headerEnd) == Found(h, [])
    ensures Parse(tags, LookingForMessageStart, tags.messageStart + (h + tags.headerEnd) + text) ==
            After'([MessageStart] + [HeaderComplete(ParseHeader(h))], Parse(tags, ParsingContent, text))
  {
    AppendAssociates(tags.messageStart, h + tags.headerEnd, text);
    AppendNothing(tags.messageStart);
    ParsePart(tags, LookingForMessageStart, [], h + tags.headerEnd + text);
    ParsePart(tags, ParsingHeader, h, text);
    AfterTwice([MessageStart], [HeaderComplete(ParseHeader(h))], Parse(tags, ParsingContent, text));
  }

  lemma HeaderEnds(role: string, channel: string, h: string, tag: string)
    requires Plain(role) && Plain(channel) && h == role + (CHANNEL + channel) && tag == "<|message|>"
    ensures Scan(h + tag, tag) == Found(h, [])
  {
    PlainChannel();
    assert CHANNEL[0] == '<' && CHANNEL[2] == 'c';
    assert tag[|tag|..] == [];
    AppendAssociates(role, CHANNEL + channel, tag);
    AppendAssociates(CHANNEL, channel, tag);
    ScanBehindPlain(role, CHANNEL + (channel + tag), tag);
    StepOver(CHANNEL, channel + tag, tag, 2);
    ScanBehindPlain(channel, tag, tag);
    AppendNothing(channel);
  }

  /** What is prefilled for a role and a channel. */
  lemma PrefillIsContinued(tags: Tags, role: string, channel: string, h: string, opening: string, text: string)
    requires tags.Valid() && tags.headerEnd == "<|message|>" && opening == tags.messageStart + (h + tags.headerEnd)
    requires Plain(role) && Plain(channel) && role != [] && !(TO <= role) && h == role + (CHANNEL + channel)
    ensures Parse(tags, LookingForMessageStart, opening + text) ==
            After'([MessageStart] + [HeaderComplete(Header(role, channel, []))], Parse(tags, ParsingContent, text))
  {
    HeaderEnds(role, channel, h, tags.headerEnd);
    HeaderIs(role, channel, h);
    HeaderIsRead(tags, h, text);
  }

  lemma FinalOpening(role: string, channel: string)
    requires role == "assistant" && channel == "final"
    ensures "<|start|>assistant<|channel|>final<|message|>" == HARMONY_TAGS.messageStart + (role + (CHANNEL + channel) + HARMONY_TAGS.headerEnd)
  {
  }

  lemma AnalysisOpening(role: string, channel: string)
    requires role == "assistant" && channel == "analysis"
    ensures "<|start|>assistant<|channel|>analysis<|message|>" == HARMONY_TAGS.messageStart + (role + (CHANNEL + channel) + HARMONY_TAGS.headerEnd)
  {
  }

  /** A begun answer is continued as an answer, and begun thoughts as thoughts. */
  lemma Continues(last: LastMessage, text: string, tags: Tags)
    requires tags == HARMONY_TAGS && last.role == "assistant" && (last.content != "" || last.thinking != "")
    ensures var channel := if last.content != "" then "final" else "analysis";
      Parse(tags, LookingForMessageStart, Opening(Some(last)) + text) ==
      After'([MessageStart] + [HeaderComplete(Header("assistant", channel, []))], Parse(tags, ParsingContent, text))
  {
    var role, channel := "assistant", if last.content != "" then "final" else "analysis";
    assert Plain(role) && Plain(channel) && role[0] == 'a' && TO[0] == 't';
    if last.content != "" {
      FinalOpening(role, channel);
    } else {
      AnalysisOpening(role, channel);
    }
    PrefillIsContinued(tags, role, channel, role + (CHANNEL + channel), Opening(Some(last)), text);
  }
}
