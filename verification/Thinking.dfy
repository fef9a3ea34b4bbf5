/**
 The streaming parser that separates a model's thinking from its answer. The parser sees the
 text in arbitrary pieces and buffers only what is still ambiguous; what it has handed out
 and what it still holds depend on the text alone.
 */
module Thinking {
  import opened Text

  datatype State =
    | LookingForOpening
    | ThinkingStartedEatingWhitespace
    | Thinking
    | ThinkingDoneEatingWhitespace
    | ThinkingDone

  datatype Tags = Tags(opening: string, closing: string) {
    predicate Valid() { opening != [] && closing != [] }
  }

  /** Where the parser stands, and what it has handed out on the way there. */
  datatype Outcome = Outcome(state: State, held: string, thinking: string, content: string) {
    function Then(next: Outcome): Outcome {
      Outcome(next.state, next.held, thinking + next.thinking, content + next.content)
    }
  }

  // ----- what a parser in a given state owes for a given text -----

  function AfterClosing(text: string): Outcome {
    var t := TrimLeft(text);
    Outcome(if t == [] then ThinkingDoneEatingWhitespace else ThinkingDone, [], [], t)
  }

  function InThinking(tags: Tags, text: string): Outcome {
    match Scan(text, tags.closing)
    case Found(before, after) => Outcome(ThinkingDone, [], before, []).Then(AfterClosing(after))
    case Open(given, held) => Outcome(Thinking, held, given, [])
  }

  function AfterOpening(tags: Tags, text: string): Outcome {
    var t := TrimLeft(text);
    if t == [] then Outcome(ThinkingStartedEatingWhitespace, [], [], []) else InThinking(tags, t)
  }

  function AtStart(tags: Tags, text: string): Outcome {
    var t := TrimLeft(text);
    if tags.opening <= t then AfterOpening(tags, t[|tags.opening|..])
    else if t <= tags.opening then Outcome(LookingForOpening, text, [], [])
    else Outcome(ThinkingDone, [], [], text)
  }

  function Parse(tags: Tags, state: State, text: string): Outcome {
    match state
    case LookingForOpening => AtStart(tags, text)
    case ThinkingStartedEatingWhitespace => AfterOpening(tags, text)
    case Thinking => InThinking(tags, text)
    case ThinkingDoneEatingWhitespace => AfterClosing(text)
    case ThinkingDone => Outcome(ThinkingDone, [], [], text)
  }

  function Rank(state: State): nat {
    match state
    case LookingForOpening => 2
    case ThinkingStartedEatingWhitespace => 1
    case _ => 0
  }

  // ----- the parser -----

  class Parser {
    var state: State
    var acc: string
    const tags: Tags

    constructor (tags: Tags)
      ensures this.tags == tags && state == LookingForOpening && acc == []
    {
      this.tags := tags;
      state := LookingForOpening;
      acc := [];
    }

    /** One state's worth of parsing; `again` says that the new state may have more to say. */
    method Eat() returns (thinking: string, remaining: string, again: bool)
      requires tags.Valid()
      modifies this
      ensures again ==> thinking == remaining == [] && Rank(state) < Rank(old(state))
      ensures again ==> Parse(tags, state, acc) == Parse(tags, old(state), old(acc))
      ensures !again ==> Outcome(state, acc, thinking, remaining) == Parse(tags, old(state), old(acc))
    {
      match state
      case LookingForOpening =>
        var trimmed := TrimLeft(acc);
        if tags.opening <= trimmed {
          WhatTheSearchFinds(trimmed, tags.opening);
          var after := TrimLeft(Join(Split(trimmed, tags.opening)[1..], tags.opening));
          TrimLeftStarts(trimmed[|tags.opening|..]);
          acc := after;
          state := if after == [] then ThinkingStartedEatingWhitespace else Thinking;
          return [], [], true;
        } else if trimmed <= tags.opening {
          return [], [], false;
        } else if trimmed == [] {
          return [], [], false;
        } else {
          state := ThinkingDone;
          var untrimmed := acc;
          acc := [];
          return [], untrimmed, false;
        }
      case ThinkingStartedEatingWhitespace =>
        var trimmed := TrimLeft(acc);
        acc := [];
        if trimmed == [] {
          return [], [], false;
        }
        state := Thinking;
        acc := trimmed;
        return [], [], true;
      case Thinking =>
        var text := acc;
        WhatTheSearchFinds(text, tags.closing);
        if Contains(text, tags.closing) {
          var split := Split(text, tags.closing);
          thinking := split[0];
          remaining := TrimLeft(Join(split[1..], tags.closing));
          acc := [];
          state := if remaining == [] then ThinkingDoneEatingWhitespace else ThinkingDone;
          return thinking, remaining, false;
        }
        var overlapLen := ComputeOverlap(text, tags.closing);
        if overlapLen > 0 {
          acc := text[|text| - overlapLen..];
          return text[..|text| - overlapLen], [], false;
        }
        acc := [];
        return text, [], false;
      case ThinkingDoneEatingWhitespace =>
        var trimmed := TrimLeft(acc);
        acc := [];
        if trimmed != [] {
          state := ThinkingDone;
        }
        return [], trimmed, false;
      case ThinkingDone =>
        var text := acc;
        acc := [];
        return [], text, false;
    }

    /** Hand in a piece of text; get back the thinking and the content that are now certain. */
    method AddContent(content: string) returns (thinking: string, remaining: string)
      requires tags.Valid()
      modifies this
      ensures Outcome(state, acc, thinking, remaining) == Parse(tags, old(state), old(acc) + content)
    {
      acc := acc + content;
      thinking, remaining := [], [];
      var again := true;
      while again
        invariant again ==> thinking == remaining == [] && Parse(tags, state, acc) == Parse(tags, old(state), old(acc) + content)
        invariant !again ==> Outcome(state, acc, thinking, remaining) == Parse(tags, old(state), old(acc) + content)
        decreases again, Rank(state)
      {
        var t, r;
        t, r, again := Eat();
        thinking, remaining := thinking + t, remaining + r;
      }
    }
  }

  /** Splitting into all parts and joining all but the first is splitting once. */
  lemma WhatTheSearchFinds(text: string, tag: string)
    requires tag != []
    ensures Contains(text, tag) ==> Scan(text, tag) == Found(Split(text, tag)[0], Join(Split(text, tag)[1..], tag))
    ensures !Contains(text, tag) ==>
      var k := Overlap(text, tag);
      Scan(text, tag) == if k > 0 then Open(text[..|text| - k], text[|text| - k..]) else Open(text, [])
  {
    SearchIsScan(text, tag);
    if Contains(text, tag) {
      JoinTailOfSplit(text, tag);
    }
  }

  // ----- the pieces do not matter -----

  /** Feeding pieces one call at a time. */
  function Feed(tags: Tags, state: State, held: string, pieces: seq<string>): Outcome
    decreases |pieces|
  {
    if pieces == [] then Outcome(state, held, [], [])
    else
      var first := Parse(tags, state, held + pieces[0]);
      first.Then(Feed(tags, first.state, first.held, pieces[1..]))
  }

  lemma AfterClosingComposes(x: string, y: string)
    ensures
      var r := AfterClosing(x);
      AfterClosing(x + y) == r.Then(if r.state == ThinkingDone then Outcome(ThinkingDone, [], [], y) else AfterClosing(y))
  {
    TrimLeftExtension(x, y);
  }

  lemma ThenAssociates(a: Outcome, b: Outcome, c: Outcome)
    ensures a.Then(b).Then(c) == a.Then(b.Then(c))
  {
    AppendAssociates(a.thinking, b.thinking, c.thinking);
    AppendAssociates(a.content, b.content, c.content);
  }

  lemma InThinkingComposes(tags: Tags, x: string, y: string)
    ensures
      var r := InThinking(tags, x);
      InThinking(tags, x + y) == r.Then(Parse(tags, r.state, r.held + y))
  {
    ScanExtension(x, y, tags.closing);
    match Scan(x, tags.closing)
    case Found(before, after) =>
      AfterClosingComposes(after, y);
      AppendNothing(y);
      ThenAssociates(Outcome(ThinkingDone, [], before, []), AfterClosing(after),
                     if AfterClosing(after).state == ThinkingDone then Outcome(ThinkingDone, [], [], y) else AfterClosing(y));
    case Open(given, held) =>
      match Scan(held + y, tags.closing)
      case Found(b, a) => ThenAssociates(Outcome(Thinking, held, given, []), Outcome(ThinkingDone, [], b, []), AfterClosing(a));
      case Open(_, _) =>
  }

  lemma AfterOpeningComposes(tags: Tags, x: string, y: string)
    ensures
      var r := AfterOpening(tags, x);
      AfterOpening(tags, x + y) == r.Then(Parse(tags, r.state, r.held + y))
  {
    TrimLeftExtension(x, y);
    var t := TrimLeft(x);
    if t == [] {
      AppendNothing(y);
      NothingThen(ThinkingStartedEatingWhitespace, [], AfterOpening(tags, y));
    } else {
      InThinkingComposes(tags, t, y);
    }
  }

  lemma NothingThen(state: State, held: string, next: Outcome)
    ensures Outcome(state, held, [], []).Then(next) == next
  {
    AppendNothing(next.thinking);
    AppendNothing(next.content);
  }

  lemma AtStartComposes(tags: Tags, x: string, y: string)
    requires tags.Valid()
    ensures
      var r := AtStart(tags, x);
      AtStart(tags, x + y) == r.Then(Parse(tags, r.state, r.held + y))
  {
    var t := TrimLeft(x);
    TrimLeftExtension(x, y);
    if tags.opening <= t {
      var u := t[|tags.opening|..];
      assert (t + y)[|tags.opening|..] == u + y;
      AfterOpeningComposes(tags, u, y);
    } else if t <= tags.opening {
      NothingThen(LookingForOpening, x, AtStart(tags, x + y));
    } else {
      Diverge(t, y, tags.opening);
      AppendNothing(y);
    }
  }

  /** Parsing a text in two pieces is parsing it in one. */
  lemma ParseComposes(tags: Tags, state: State, x: string, y: string)
    requires tags.Valid()
    ensures
      var r := Parse(tags, state, x);
      Parse(tags, state, x + y) == r.Then(Parse(tags, r.state, r.held + y))
  {
    AppendNothing(y);
    match state
    case LookingForOpening => AtStartComposes(tags, x, y);
    case ThinkingStartedEatingWhitespace => AfterOpeningComposes(tags, x, y);
    case Thinking => InThinkingComposes(tags, x, y);
    case ThinkingDoneEatingWhitespace => AfterClosingComposes(x, y);
    case ThinkingDone =>
  }

  /**
   Any way of cutting a text into pieces gives the thinking, the content, the state and the
   held buffer that the uncut text gives.
   */
  lemma {:induction false} ChunkingIndependence(tags: Tags, state: State, held: string, pieces: seq<string>)
    requires tags.Valid() && pieces != []
    ensures Feed(tags, state, held, pieces) == Parse(tags, state, held + Concat(pieces))
    decreases |pieces|
  {
    var first := Parse(tags, state, held + pieces[0]);
    FeedUnfolds(tags, state, held, pieces, first);
    ConcatUnfolds(held, pieces);
    if |pieces| > 1 {
      ChunkingIndependence(tags, first.state, first.held, pieces[1..]);
      ParseComposes(tags, state, held + pieces[0], Concat(pieces[1..]));
    }
  }

  lemma FeedUnfolds(tags: Tags, state: State, held: string, pieces: seq<string>, first: Outcome)
    requires pieces != [] && first == Parse(tags, state, held + pieces[0])
    ensures Feed(tags, state, held, pieces) ==
            if |pieces| == 1 then first else first.Then(Feed(tags, first.state, first.held, pieces[1..]))
  {
    if |pieces| == 1 {
      assert first.Then(Outcome(first.state, first.held, [], [])) == first;
    }
  }

  // ----- what the whole text means -----

  /**
   A text that consists of an opening tag, a thinking block, a closing tag and an answer
   yields exactly that block and that answer, however it is cut. White space around the
   tags is dropped; that before the closing tag belongs to the thinking.
   */
  lemma ThinkingBlock(tags: Tags, pieces: seq<string>, s0: string, s1: string, body: string, s2: string, answer: string)
    requires tags.Valid() && !IsSpace(tags.opening[0]) && pieces != []
    requires AllSpace(s0) && AllSpace(s1) && AllSpace(s2)
    requires !IsSpace((body + tags.closing)[0]) && (answer != [] ==> !IsSpace(answer[0]))
    requires Scan(body + tags.closing, tags.closing) == Found(body, [])
    requires Concat(pieces) == s0 + (tags.opening + (s1 + (body + tags.closing + (s2 + answer))))
    ensures Feed(tags, LookingForOpening, [], pieces) ==
            Outcome(if answer == [] then ThinkingDoneEatingWhitespace else ThinkingDone, [], body, answer)
  {
    ChunkingIndependence(tags, LookingForOpening, [], pieces);
    assert [] + Concat(pieces) == Concat(pieces);
    var t2 := body + tags.closing + (s2 + answer);
    var t0 := tags.opening + (s1 + t2);
    DropSpace(s0, t0);
    assert tags.opening <= t0 && t0[|tags.opening|..] == s1 + t2;
    assert t2[0] == (body + tags.closing)[0];
    DropSpace(s1, t2);
    ThinkingUntilClosing(tags, body, s2, answer);
  }

  lemma ThinkingUntilClosing(tags: Tags, body: string, s2: string, answer: string)
    requires AllSpace(s2) && (answer != [] ==> !IsSpace(answer[0]))
    requires Scan(body + tags.closing, tags.closing) == Found(body, [])
    ensures InThinking(tags, body + tags.closing + (s2 + answer)) ==
            Outcome(if answer == [] then ThinkingDoneEatingWhitespace else ThinkingDone, [], body, answer)
  {
    ScanTagged(body, tags.closing, s2 + answer);
    DropSpace(s2, answer);
  }

  /**
   A text is passed through unchanged, white space included, exactly when its first
   non-space character starts something that neither is nor could become an opening tag.
   */
  lemma PassThrough(tags: Tags, pieces: seq<string>)
    requires tags.Valid() && pieces != []
    ensures
      var text := Concat(pieces);
      var t := TrimLeft(text);
      Feed(tags, LookingForOpening, [], pieces) == Outcome(ThinkingDone, [], [], text)
      <==> !(tags.opening <= t) && !(t <= tags.opening)
  {
    ChunkingIndependence(tags, LookingForOpening, [], pieces);
    var text := Concat(pieces);
    assert [] + text == text;
    var t := TrimLeft(text);
    if tags.opening <= t {
      // the tag itself is never handed out
      var body := t[|tags.opening|..];
      ContentIsShorter(tags, body);
    }
  }

  lemma ContentIsShorter(tags: Tags, text: string)
    ensures |AfterOpening(tags, text).content| <= |text|
  {
    ScanRestores(TrimLeft(text), tags.closing);
  }
}
