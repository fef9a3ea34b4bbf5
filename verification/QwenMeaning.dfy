/**
 What becomes of a reply in the Qwen format: its contents and its tool calls come in the order in which
 they stand in the text, however the text is cut.
 */
module QwenMeaning {
  import opened Options
  import opened Text
  import opened Qwen

  // ----- what a call of Add gives back -----

  function Contents(events: seq<Event>): string {
    if events == [] then [] else (if events[0].Content? then events[0].content else []) + Contents(events[1..])
  }

  /** The texts of the tool calls, in order. */
  function RawCalls(events: seq<Event>): seq<string> {
    if events == [] then [] else (if events[0].RawToolCall? then [events[0].raw] else []) + RawCalls(events[1..])
  }

  /** The first call that cannot be decoded. */
  function FirstBad(decode: string -> Option<string>, raws: seq<string>): Option<string> {
    if raws == [] then None else if decode(raws[0]) == None then Some(raws[0]) else FirstBad(decode, raws[1..])
  }

  function Decoded(decode: string -> Option<string>, raws: seq<string>): seq<string>
    requires FirstBad(decode, raws) == None
  {
    if raws == [] then [] else [decode(raws[0]).value] + Decoded(decode, raws[1..])
  }

  /** The contents one behind the other, and the calls in order; or the first call that cannot be decoded. */
  lemma {:induction false} CollectsInOrder(decode: string -> Option<string>, content: string, calls: seq<string>, events: seq<Event>)
    ensures CollectFrom(decode, content, calls, events) ==
      match FirstBad(decode, RawCalls(events))
      case Some(raw) => BadToolCall(raw)
      case None => Parsed(content + Contents(events), calls + Decoded(decode, RawCalls(events)))
    decreases |events|
  {
    if events == [] {
      AppendNothing(content);
      AppendNothing(calls);
    } else {
      var rest := RawCalls(events[1..]);
      match events[0]
      case Content(c) =>
        CollectsInOrder(decode, content + c, calls, events[1..]);
        AppendAssociates(content, c, Contents(events[1..]));
        assert RawCalls(events) == rest;
      case RawToolCall(raw) =>
        assert RawCalls(events)[0] == raw && RawCalls(events)[1..] == rest;
        assert Contents(events) == Contents(events[1..]);
        if decode(raw) != None {
          CollectsInOrder(decode, content, calls + [decode(raw).value], events[1..]);
          if FirstBad(decode, rest) == None {
            AppendAssociates(calls, [decode(raw).value], Decoded(decode, rest));
          }
        }
    }
  }

  // ----- a printed reply -----

  /** A content without white space around it, and the tool call behind it. */
  datatype Turn = Turn(content: string, raw: string) {
    predicate Valid(tags: Tags) {
      && Scan(content + tags.open, tags.open) == Found(content, []) && Scan(raw + tags.close, tags.close) == Found(raw, [])
      && TrimSpace(content) == content
    }
  }

  function TextOf(tags: Tags, turns: seq<Turn>, last: string): string {
    if turns == [] then last else turns[0].content + (tags.open + (turns[0].raw + (tags.close + TextOf(tags, turns[1..], last))))
  }

  function EventsOf(turns: seq<Turn>, last: string): seq<Event> {
    if turns == [] then [Content(last)]
    else (if turns[0].content == [] then [] else [Content(turns[0].content)]) + ([RawToolCall(turns[0].raw)] + EventsOf(turns[1..], last))
  }

  predicate AllValid(tags: Tags, turns: seq<Turn>, last: string) {
    && (forall t <- turns :: t.Valid(tags))
    && Scan(last, tags.open) == Open(last, []) && TrimSpace(last) == last
  }

  lemma Tight(s: string)
    requires TrimSpace(s) == s
    ensures TrimLeft(s) == s && TrimRight(s) == s && TrailingSpace(s) == []
    ensures s != [] ==> !IsSpace(s[0])
  {
    TrimLeftStarts(s);
    assert |s| <= |TrimLeft(s)|;
  }

  /** No white space is lost in front of a reply. */
  lemma NothingToTrim(tags: Tags, turns: seq<Turn>, last: string)
    requires tags.Valid() && AllValid(tags, turns, last)
    ensures TrimLeft(TextOf(tags, turns, last)) == TextOf(tags, turns, last)
  {
    var s := TextOf(tags, turns, last);
    if turns == [] {
      Tight(last);
    } else {
      var t := turns[0];
      assert t.Valid(tags);
      Tight(t.content);
      assert s != [] && s[0] == if t.content == [] then tags.open[0] else t.content[0];
    }
  }

  lemma {:induction false} ReplyIsParsed(tags: Tags, turns: seq<Turn>, last: string)
    requires tags.Valid() && AllValid(tags, turns, last)
    ensures Parse(tags, LookingForToolStart, TextOf(tags, turns, last)) == Outcome(LookingForToolStart, [], EventsOf(turns, last))
    decreases |turns|
  {
    if turns == [] {
      Tight(last);
      AppendNothing<char>([]);
    } else {
      var t, rest := turns[0], TextOf(tags, turns[1..], last);
      TurnIsParsed(tags, t, rest);
      NothingToTrim(tags, turns[1..], last);
      ReplyIsParsed(tags, turns[1..], last);
    }
  }

  lemma TurnIsParsed(tags: Tags, t: Turn, rest: string)
    requires tags.Valid() && t.Valid(tags)
    ensures Parse(tags, LookingForToolStart, t.content + (tags.open + (t.raw + (tags.close + rest)))) ==
      Behind(if t.content == [] then [] else [Content(t.content)], Behind([RawToolCall(t.raw)], Parse(tags, LookingForToolStart, TrimLeft(rest))))
  {
    var tail := t.raw + (tags.close + rest);
    AppendAssociates(t.content, tags.open, tail);
    ScanTagged(t.content, tags.open, tail);
    AppendAssociates(t.raw, tags.close, rest);
    ScanTagged(t.raw, tags.close, rest);
    Tight(t.content);
  }

  // ----- however it is cut -----

  lemma {:induction false} RawCallsAreVisible(events: seq<Event>)
    ensures RawCalls(Visible(events)) == RawCalls(events)
  {
    if events != [] {
      RawCallsAreVisible(events[1..]);
      RawCallsAppend(VisibleOf(events[0]), Visible(events[1..]));
      if events[0].Content? {
        NoCallInLetters(events[0].content);
      } else {
        assert VisibleOf(events[0])[1..] == [];
      }
    }
  }

  lemma {:induction false} RawCallsAppend(a: seq<Event>, b: seq<Event>)
    ensures RawCalls(a + b) == RawCalls(a) + RawCalls(b)
  {
    if a == [] {
      assert a + b == b;
    } else {
      assert (a + b)[1..] == a[1..] + b;
      RawCallsAppend(a[1..], b);
    }
  }

  lemma {:induction false} NoCallInLetters(s: string)
    ensures RawCalls(VisibleLetters(s)) == []
  {
    if s != [] {
      NoCallInLetters(s[1..]);
      var first: seq<Event> := if IsSpace(s[0]) then [] else [Content(s[..1])];
      assert first != [] ==> first[1..] == [];
      RawCallsAppend(first, VisibleLetters(s[1..]));
    }
  }

  function RawsOf(turns: seq<Turn>): seq<string> {
    if turns == [] then [] else [turns[0].raw] + RawsOf(turns[1..])
  }

  function ContentsOf(turns: seq<Turn>, last: string): string {
    if turns == [] then last else turns[0].content + ContentsOf(turns[1..], last)
  }

  lemma {:induction false} EventsAre(turns: seq<Turn>, last: string)
    ensures RawCalls(EventsOf(turns, last)) == RawsOf(turns) && Contents(EventsOf(turns, last)) == ContentsOf(turns, last)
    decreases |turns|
  {
    if turns == [] {
      assert [Content(last)][1..] == [];
      AppendNothing(last);
    } else {
      EventsAre(turns[1..], last);
      var call := [RawToolCall(turns[0].raw)] + EventsOf(turns[1..], last);
      assert call[1..] == EventsOf(turns[1..], last);
      if turns[0].content != [] {
        assert ([Content(turns[0].content)] + call)[1..] == call;
      } else {
        assert [] + call == call;
      }
    }
  }

  /** The reply in one piece. */
  lemma ReplyIsCollected(tags: Tags, decode: string -> Option<string>, turns: seq<Turn>, last: string)
    requires tags.Valid() && AllValid(tags, turns, last)
    ensures Collect(decode, Parse(tags, LookingForToolStart, TextOf(tags, turns, last)).events) ==
      match FirstBad(decode, RawsOf(turns))
      case Some(raw) => BadToolCall(raw)
      case None => Parsed(ContentsOf(turns, last), Decoded(decode, RawsOf(turns)))
  {
    ReplyIsParsed(tags, turns, last);
    EventsAre(turns, last);
    CollectsInOrder(decode, [], [], EventsOf(turns, last));
    assert [] + ContentsOf(turns, last) == ContentsOf(turns, last);
    if FirstBad(decode, RawsOf(turns)) == None {
      assert [] + Decoded(decode, RawsOf(turns)) == Decoded(decode, RawsOf(turns));
    }
  }

  /** However it is cut, all its calls are announced, in order, and its contents, white space aside. */
  lemma ReplyInPieces(tags: Tags, turns: seq<Turn>, last: string, pieces: seq<string>)
    requires tags.Valid() && AllValid(tags, turns, last) && pieces != [] && Concat(pieces) == TextOf(tags, turns, last)
    ensures var f := Feed(tags, LookingForToolStart, [], pieces);
      && f.state == LookingForToolStart && AllBlank(f.held) && RawCalls(f.events) == RawsOf(turns)
      && Visible(f.events) == Visible(EventsOf(turns, last))
  {
    var f := Feed(tags, LookingForToolStart, [], pieces);
    assert [] + Concat(pieces) == Concat(pieces);
    ChunkingIndependence(tags, LookingForToolStart, [], pieces);
    ReplyIsParsed(tags, turns, last);
    RawCallsAreVisible(f.events);
    RawCallsAreVisible(EventsOf(turns, last));
    EventsAre(turns, last);
  }

  predicate AllBlank(s: string) { TrimLeft(s) == [] }
}
