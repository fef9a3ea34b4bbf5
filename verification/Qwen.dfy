/**
 The streaming parser that separates tool calls from content. Contents lose the white space
 in front of a tool call, and, as far as it arrives together with the end of the call, the
 white space behind it: the one place where the cutting of the text shows.
 */
module Qwen {
  import opened Text
  import opened Options

  /** The tags around a tool call. All that matters of them is said by Valid. */
  datatype Tags = Tags(open: string, close: string) {
    predicate Valid() { open != [] && close != [] && !IsSpace(open[0]) }
  }

  const QWEN_TAGS := Tags("<tool_call>", "</tool_call>")

  datatype State = LookingForToolStart | CollectingToolContent

  datatype Event = Content(content: string) | RawToolCall(raw: string)

  datatype Outcome = Outcome(state: State, held: string, events: seq<Event>)

  function Behind(events: seq<Event>, rest: Outcome): Outcome {
    rest.(events := events + rest.events)
  }

  // ----- what a parser in a given state owes for a given text -----

  /** Contents are given away without their trailing white space, calls when they are complete. */
  function Parse(tags: Tags, state: State, text: string): Outcome
    requires tags.Valid()
    decreases |text|
  {
    if state == LookingForToolStart then
      ScanLengths(text, tags.open);
      match Scan(text, tags.open)
      case Found(before, after) => Behind(Trimmed(before), Parse(tags, CollectingToolContent, after))
      case Open(given, held) => Outcome(state, TrailingSpace(given) + held, [Content(TrimRight(given))])
    else
      ScanLengths(text, tags.close);
      match Scan(text, tags.close)
      case Found(raw, after) => Behind([RawToolCall(raw)], Parse(tags, LookingForToolStart, TrimLeft(after)))
      case Open(_, _) => Outcome(state, text, [])
  }

  function Trimmed(s: string): seq<Event> {
    if TrimRight(s) == [] then [] else [Content(TrimRight(s))]
  }

  // ----- the parser -----

  /** `trailingWhitespaceLen`: walk back from the end. */
  method TrailingWhitespaceLen(s: string) returns (total: nat)
    ensures total == |TrailingSpace(s)|
  {
    var remaining := s;
    total := 0;
    while |remaining| > 0
      invariant total <= |s| && remaining == s[..|s| - total]
      invariant TrimRight(s) == TrimRight(remaining)
    {
      var r := remaining[|remaining| - 1];
      if !IsSpace(r) {
        break;
      }
      total := total + 1;
      remaining := remaining[..|remaining| - 1];
    }
  }

  /** What the caller of Add gets, or the tool call that could not be decoded. */
  datatype Added = Parsed(content: string, calls: seq<string>) | BadToolCall(raw: string)

  class Qwen3CoderParser {
    var state: State
    var acc: string
    /** The decoding of the text of a tool call. */
    const decode: string -> Option<string>
    const tags: Tags

    constructor (decode: string -> Option<string>)
      ensures this.decode == decode && tags == QWEN_TAGS && tags.Valid() && state == LookingForToolStart && acc == []
    {
      this.decode := decode;
      tags := QWEN_TAGS;
      state := LookingForToolStart;
      acc := [];
    }

    /** One state's worth of parsing; `again` says that the new state may have more to say. */
    method Eat() returns (events: seq<Event>, again: bool)
      requires tags.Valid()
      modifies this
      ensures again ==> |acc| < |old(acc)|
      ensures again ==> Parse(tags, old(state), old(acc)) == Behind(events, Parse(tags, state, acc))
      ensures !again ==> SameButEmpty(Parse(tags, old(state), old(acc)), Outcome(state, acc, events))
    {
      match state
      case LookingForToolStart =>
        LookingBySearch(tags, acc);
        if Contains(acc, tags.open) {
          var split := SplitOnce(acc, tags.open);
          var before := TrimRight(split.0);
          events := [];
          if |before| > 0 {
            events := events + [Content(before)];
          }
          assert events == Trimmed(split.0);
          acc := split.1;
          state := CollectingToolContent;
          return events, true;
        }
        events := EatContent();
        return events, false;
      case CollectingToolContent =>
        CollectingBySearch(tags, acc);
        if Contains(acc, tags.close) {
          var split := SplitOnce(acc, tags.close);
          acc := TrimLeft(split.1);
          state := LookingForToolStart;
          return [RawToolCall(split.0)], true;
        }
        return [], false;
    }

    /** The part of Eat for a content without a tool call. */
    method EatContent() returns (events: seq<Event>)
      requires tags.Valid() && state == LookingForToolStart && !Contains(acc, tags.open)
      modifies this`acc
      ensures SameButEmpty(Parse(tags, LookingForToolStart, old(acc)), Outcome(LookingForToolStart, acc, events))
    {
      var overlap := ComputeOverlap(acc, tags.open);
      if overlap > 0 {
        var beforePartialTag := acc[..|acc| - overlap];
        var trailingWhitespaceLen := TrailingWhitespaceLen(beforePartialTag);
        var ambiguousStart := |beforePartialTag| - trailingWhitespaceLen;
        HeldFrom(tags, acc, overlap, beforePartialTag, ambiguousStart);
        var unambiguous := acc[..ambiguousStart];
        var ambiguous := acc[ambiguousStart..];
        acc := ambiguous;
        events := [Content(unambiguous)];
      } else {
        assert acc[..|acc|] == acc;
        var whitespaceLen := TrailingWhitespaceLen(acc);
        var ambiguousStart := |acc| - whitespaceLen;
        HeldFrom(tags, acc, 0, acc, ambiguousStart);
        var unambiguous := acc[..ambiguousStart];
        var ambiguous := acc[ambiguousStart..];
        acc := ambiguous;
        EmptyContent(unambiguous, acc);
        events := [];
        if |unambiguous| > 0 {
          events := [Content(unambiguous)];
        }
      }
    }

    method ParseEvents() returns (all: seq<Event>)
      requires tags.Valid()
      modifies this
      ensures SameButEmpty(Parse(tags, old(state), old(acc)), Outcome(state, acc, all))
    {
      all := [];
      var again := true;
      while again
        invariant again ==> Parse(tags, old(state), old(acc)) == Behind(all, Parse(tags, state, acc))
        invariant !again ==> SameButEmpty(Parse(tags, old(state), old(acc)), Outcome(state, acc, all))
        decreases again, |acc|
      {
        var events;
        ghost var before := all;
        ghost var p := Parse(tags, state, acc);
        events, again := Eat();
        if again {
          EventsBehindTwice(before, events, Parse(tags, state, acc));
        } else {
          AtomsOfConcatenation(before, p.events);
          AtomsOfConcatenation(before, events);
        }
        if |events| > 0 {
          all := all + events;
        } else {
          AppendNothing(all);
        }
      }
    }

    /** Hand in a piece of text; get back the content and the tool calls that are now certain. */
    method Add(s: string) returns (r: Added)
      requires tags.Valid()
      modifies this
      ensures
        var p := Parse(tags, old(state), old(acc) + s);
        state == p.state && acc == p.held && r == Collect(decode, p.events)
    {
      acc := acc + s;
      ghost var p := Parse(tags, state, acc);
      var events := ParseEvents();
      CollectAtoms(decode, p.events);
      CollectAtoms(decode, events);
      var content, calls := "", [];
      var i := 0;
      assert events[0..] == events;
      while i < |events|
        invariant 0 <= i <= |events|
        invariant CollectFrom(decode, content, calls, events[i..]) == CollectFrom(decode, [], [], events)
      {
        assert events[i..][1..] == events[i + 1..];
        match events[i] {
          case RawToolCall(raw) =>
            var call := decode(raw);
            if call == None {
              return BadToolCall(raw);
            }
            calls := calls + [call.value];
          case Content(c) =>
            content := content + c;
        }
        i := i + 1;
      }
      return Parsed(content, calls);
    }
  }

  /** What Add makes of the events of one call: the first bad tool call spoils everything. */
  function CollectFrom(decode: string -> Option<string>, content: string, calls: seq<string>, events: seq<Event>): Added
    decreases |events|
  {
    if events == [] then Parsed(content, calls)
    else match events[0]
      case Content(c) => CollectFrom(decode, content + c, calls, events[1..])
      case RawToolCall(raw) =>
        match decode(raw)
        case None => BadToolCall(raw)
        case Some(call) => CollectFrom(decode, content, calls + [call], events[1..])
  }

  function Collect(decode: string -> Option<string>, events: seq<Event>): Added {
    CollectFrom(decode, [], [], events)
  }

  // ----- events, up to the cutting of contents -----

  /** The events, with contents taken apart into single characters. */
  function Atoms(events: seq<Event>): seq<Event> {
    if events == [] then [] else AtomsOf(events[0]) + Atoms(events[1..])
  }

  function AtomsOf(e: Event): seq<Event> {
    if e.Content? then Letters(e.content) else [e]
  }

  function Letters(s: string): seq<Event> {
    if s == [] then [] else [Content(s[..1])] + Letters(s[1..])
  }

  /** The same outcome, up to how contents are cut (and up to empty ones). */
  predicate SameButEmpty(a: Outcome, b: Outcome) {
    a.state == b.state && a.held == b.held && Atoms(a.events) == Atoms(b.events)
  }

  lemma EventsBehindTwice(a: seq<Event>, b: seq<Event>, o: Outcome)
    ensures Behind(a, Behind(b, o)) == Behind(a + b, o)
  {
    AppendAssociates(a, b, o.events);
  }

  lemma {:induction false} AtomsOfConcatenation(a: seq<Event>, b: seq<Event>)
    ensures Atoms(a + b) == Atoms(a) + Atoms(b)
  {
    if a == [] {
      AppendNothing(b);
      AppendNothing(Atoms(b));
    } else {
      AtomsOfConcatenation(a[1..], b);
      assert (a + b)[1..] == a[1..] + b;
      AppendAssociates(AtomsOf(a[0]), Atoms(a[1..]), Atoms(b));
    }
  }

  lemma {:induction false} LettersOfConcatenation(s: string, t: string)
    ensures Letters(s + t) == Letters(s) + Letters(t)
  {
    if s == [] {
      AppendNothing(t);
      AppendNothing(Letters(t));
    } else {
      LettersOfConcatenation(s[1..], t);
      assert (s + t)[1..] == s[1..] + t;
      assert (s + t)[..1] == s[..1];
      AppendAssociates([Content(s[..1])], Letters(s[1..]), Letters(t));
    }
  }

  lemma SameBehind(events: seq<Event>, a: Outcome, b: Outcome)
    requires SameButEmpty(a, b)
    ensures SameButEmpty(Behind(events, a), Behind(events, b))
  {
    AtomsOfConcatenation(events, a.events);
    AtomsOfConcatenation(events, b.events);
  }

  lemma {:induction false} CollectLetters(decode: string -> Option<string>, content: string, calls: seq<string>, s: string, rest: seq<Event>)
    ensures CollectFrom(decode, content, calls, Letters(s) + rest) == CollectFrom(decode, content + s, calls, rest)
    decreases |s|
  {
    if s == [] {
      AppendNothing(rest);
      AppendNothing(content);
    } else {
      var l := Letters(s) + rest;
      assert l[0] == Content(s[..1]) && l[1..] == Letters(s[1..]) + rest;
      CollectLetters(decode, content + s[..1], calls, s[1..], rest);
      AppendAssociates(content, s[..1], s[1..]);
      assert s[..1] + s[1..] == s;
    }
  }

  /** How contents are cut does not matter to Add. */
  lemma {:induction false} CollectAtomsFrom(decode: string -> Option<string>, content: string, calls: seq<string>, events: seq<Event>)
    ensures CollectFrom(decode, content, calls, Atoms(events)) == CollectFrom(decode, content, calls, events)
    decreases |events|
  {
    if events != [] {
      match events[0]
      case Content(c) =>
        CollectLetters(decode, content, calls, c, Atoms(events[1..]));
        CollectAtomsFrom(decode, content + c, calls, events[1..]);
      case RawToolCall(raw) =>
        var a := [events[0]] + Atoms(events[1..]);
        assert a[0] == events[0] && a[1..] == Atoms(events[1..]);
        if decode(raw) != None {
          CollectAtomsFrom(decode, content, calls + [decode(raw).value], events[1..]);
        }
    }
  }

  lemma CollectAtoms(decode: string -> Option<string>, events: seq<Event>)
    ensures Collect(decode, Atoms(events)) == Collect(decode, events)
  {
    CollectAtomsFrom(decode, [], [], events);
  }

  lemma ContentAtoms(s: string, t: seq<Event>)
    ensures Atoms([Content(s)] + t) == Letters(s) + Atoms(t)
    ensures Atoms(Trimmed(s) + t) == Letters(TrimRight(s)) + Atoms(t)
  {
    assert ([Content(s)] + t)[1..] == t;
    if TrimRight(s) == [] {
      AppendNothing(t);
    } else {
      assert (Trimmed(s) + t)[1..] == t;
    }
  }

  /** The next step of parsing, in terms of what the parser searches for. */
  lemma LookingBySearch(tags: Tags, text: string)
    requires tags.Valid()
    ensures
      if Contains(text, tags.open) then
        var (part, rest) := SplitOnce(text, tags.open);
        && |rest| < |text|
        && Parse(tags, LookingForToolStart, text) == Behind(Trimmed(part), Parse(tags, CollectingToolContent, rest))
      else
        var given := text[..|text| - Overlap(text, tags.open)];
        var n := |given| - |TrailingSpace(given)|;
        Parse(tags, LookingForToolStart, text) == Outcome(LookingForToolStart, text[n..], [Content(text[..n])])
  {
    SearchIsScan(text, tags.open);
    ScanLengths(text, tags.open);
    if !Contains(text, tags.open) {
      var cut := |text| - Overlap(text, tags.open);
      ScanIsOverlap(text, tags.open);
      CutAtSpace(text, cut);
    }
  }

  /** Without a tool call the content is given up to the white space before what may begin a tag. */
  lemma HeldFrom(tags: Tags, text: string, overlap: nat, given: string, n: int)
    requires tags.Valid() && !Contains(text, tags.open) && overlap == Overlap(text, tags.open)
    requires given == text[..|text| - overlap] && n == |given| - |TrailingSpace(given)|
    ensures 0 <= n <= |text| && Parse(tags, LookingForToolStart, text) == Outcome(LookingForToolStart, text[n..], [Content(text[..n])])
  {
    LookingBySearch(tags, text);
  }

  /** An empty content makes no difference. */
  lemma EmptyContent(s: string, held: string)
    ensures s == [] ==>
      SameButEmpty(Outcome(LookingForToolStart, held, [Content(s)]), Outcome(LookingForToolStart, held, []))
  {
    if s == [] {
      ContentAtoms(s, []);
    }
  }

  lemma CutAtSpace(text: string, cut: nat)
    requires cut <= |text|
    ensures
      var given := text[..cut];
      var n := cut - |TrailingSpace(given)|;
      TrimRight(given) == text[..n] && TrailingSpace(given) + text[cut..] == text[n..]
  {
    TrimRightIsPrefix(text[..cut]);
    CutTwice(text, |TrimRight(text[..cut])|, cut);
  }

  lemma CollectingBySearch(tags: Tags, text: string)
    requires tags.Valid()
    ensures
      if Contains(text, tags.close) then
        var (part, rest) := SplitOnce(text, tags.close);
        && |rest| < |text|
        && Parse(tags, CollectingToolContent, text) == Behind([RawToolCall(part)], Parse(tags, LookingForToolStart, TrimLeft(rest)))
      else Parse(tags, CollectingToolContent, text) == Outcome(CollectingToolContent, text, [])
  {
    SearchIsScan(text, tags.close);
    ScanLengths(text, tags.close);
  }

  // ----- the pieces hardly matter -----

  /** The text so far ends with the end of a tool call, perhaps followed by white space. */
  predicate JustClosed(tags: Tags, state: State, text: string)
    requires tags.Valid()
    decreases |text|
  {
    if state == LookingForToolStart then
      ScanLengths(text, tags.open);
      match Scan(text, tags.open)
      case Found(_, after) => JustClosed(tags, CollectingToolContent, after)
      case Open(_, _) => false
    else
      ScanLengths(text, tags.close);
      match Scan(text, tags.close)
      case Found(_, after) => TrimLeft(after) == [] || JustClosed(tags, LookingForToolStart, TrimLeft(after))
      case Open(_, _) => false
  }

  /** What a content held back so far makes of the text that follows. */
  lemma ContentComposes(tags: Tags, given: string, z: string, text: string)
    requires tags.Valid() && Scan(text, tags.open) == Scan(z, tags.open).Behind(given)
    ensures SameButEmpty(Behind([Content(TrimRight(given))], Parse(tags, LookingForToolStart, TrailingSpace(given) + z)),
                         Parse(tags, LookingForToolStart, text))
  {
    var t, w := TrimRight(given), TrailingSpace(given);
    TrimRightRestores(given);
    ScanBehindSpace(w, z, tags.open);
    match Scan(z, tags.open)
    case Found(before, after) =>
      TrimAcross(given, before);
      CutContent(t, w + before, given + before, Parse(tags, CollectingToolContent, after));
    case Open(g, held) =>
      TrimAcross(given, g);
      CutOpenContent(t, TrimRight(w + g), TrailingSpace(w + g) + held);
  }

  lemma CutContent(t: string, u: string, v: string, rest: Outcome)
    requires TrimRight(v) == t + TrimRight(u)
    ensures SameButEmpty(Behind([Content(t)], Behind(Trimmed(u), rest)), Behind(Trimmed(v), rest))
  {
    ContentAtoms(t, Trimmed(u) + rest.events);
    ContentAtoms(u, rest.events);
    ContentAtoms(v, rest.events);
    LettersOfConcatenation(t, TrimRight(u));
    AppendAssociates(Letters(t), Letters(TrimRight(u)), Atoms(rest.events));
  }

  lemma CutOpenContent(t: string, u: string, held: string)
    ensures SameButEmpty(Behind([Content(t)], Outcome(LookingForToolStart, held, [Content(u)])),
                         Outcome(LookingForToolStart, held, [Content(t + u)]))
  {
    ContentAtoms(t, [Content(u)]);
    ContentAtoms(u, []);
    ContentAtoms(t + u, []);
    AppendNothing([Content(u)]);
    AppendNothing([Content(t + u)]);
    LettersOfConcatenation(t, u);
    AppendAssociates(Letters(t), Letters(u), []);
  }

  /** Where the parsing of a text that was cut goes on. */
  function Remaining(tags: Tags, state: State, x: string, y: string): string
    requires tags.Valid()
  {
    if JustClosed(tags, state, x) then TrimLeft(y) else Parse(tags, state, x).held + y
  }

  /**
   Parsing a text in two pieces is parsing it in one, except that white space at the
   beginning of the second piece is lost in one piece if the first ends with a tool call.
   */
  lemma {:induction false} ParseComposes(tags: Tags, state: State, x: string, y: string)
    requires tags.Valid()
    ensures
      var r := Parse(tags, state, x);
      && (JustClosed(tags, state, x) ==> r.state == LookingForToolStart && r.held == [])
      && SameButEmpty(Behind(r.events, Parse(tags, r.state, Remaining(tags, state, x, y))), Parse(tags, state, x + y))
    decreases |x|, 0
  {
    if state == LookingForToolStart {
      ScanExtension(x, y, tags.open);
      ScanLengths(x, tags.open);
      match Scan(x, tags.open)
      case Found(before, after) => HeadComposes(tags, Trimmed(before), CollectingToolContent, after, y);
      case Open(given, held) =>
        ContentComposes(tags, given, held + y, x + y);
        AppendAssociates(TrailingSpace(given), held, y);
    } else {
      ScanExtension(x, y, tags.close);
      ScanLengths(x, tags.close);
      match Scan(x, tags.close)
      case Found(raw, after) =>
        TrimLeftExtension(after, y);
        if TrimLeft(after) == [] {
          AfterCall(tags, raw, y);
        } else {
          HeadComposes(tags, [RawToolCall(raw)], LookingForToolStart, TrimLeft(after), y);
        }
      case Open(_, _) => AppendNothing(Parse(tags, state, x + y).events);
    }
  }

  /** Nothing is held right behind a tool call. */
  lemma AfterCall(tags: Tags, raw: string, y: string)
    requires tags.Valid()
    ensures
      var r := Behind([RawToolCall(raw)], Parse(tags, LookingForToolStart, []));
      && r.state == LookingForToolStart && r.held == []
      && SameButEmpty(Behind(r.events, Parse(tags, r.state, TrimLeft(y))), Behind([RawToolCall(raw)], Parse(tags, LookingForToolStart, TrimLeft(y))))
  {
    var call, p := [RawToolCall(raw)], Parse(tags, LookingForToolStart, TrimLeft(y));
    assert Parse(tags, LookingForToolStart, []) == Outcome(LookingForToolStart, [], [Content([])]);
    AppendAssociates(call, [Content([])], p.events);
    AtomsOfConcatenation(call, [Content([])] + p.events);
    AtomsOfConcatenation(call, p.events);
    ContentAtoms([], p.events);
    AppendNothing(Atoms(p.events));
  }

  lemma {:induction false} HeadComposes(tags: Tags, head: seq<Event>, state: State, x: string, y: string)
    requires tags.Valid()
    ensures
      var r := Behind(head, Parse(tags, state, x));
      && (JustClosed(tags, state, x) ==> r.state == LookingForToolStart && r.held == [])
      && SameButEmpty(Behind(r.events, Parse(tags, r.state, Remaining(tags, state, x, y))), Behind(head, Parse(tags, state, x + y)))
    decreases |x|, 1
  {
    ParseComposes(tags, state, x, y);
    var r := Parse(tags, state, x);
    var q := Parse(tags, r.state, Remaining(tags, state, x, y));
    SameBehind(head, Behind(r.events, q), Parse(tags, state, x + y));
    EventsBehindTwice(head, r.events, q);
  }

  // ----- exactly where a cut shows -----

  lemma SameBehindExactly(events: seq<Event>, a: Outcome, b: Outcome)
    ensures SameButEmpty(Behind(events, a), Behind(events, b)) <==> SameButEmpty(a, b)
  {
    AtomsOfConcatenation(events, a.events);
    AtomsOfConcatenation(events, b.events);
    var e := Atoms(events);
    assert (e + Atoms(a.events))[|e|..] == Atoms(a.events);
    assert (e + Atoms(b.events))[|e|..] == Atoms(b.events);
  }

  lemma {:induction false} LettersLength(s: string)
    ensures |Letters(s)| == |s|
  {
    if s != [] {
      LettersLength(s[1..]);
    }
  }

  /** White space at the beginning of a content shows, unless a tool call follows at once. */
  lemma LeadingSpaceShows(tags: Tags, y: string)
    requires tags.Valid()
    ensures SameButEmpty(Parse(tags, LookingForToolStart, y), Parse(tags, LookingForToolStart, TrimLeft(y)))
            <==> y == [] || !IsSpace(y[0]) || tags.open <= TrimLeft(y)
  {
    var u := TrimLeft(y);
    var w := TrimLeftRestores(y);
    TrimLeftStarts(y);
    if w == [] {
      AppendNothing(u);
    } else {
      ScanBehindSpace(w, u, tags.open);
      TrimRightOfSpace([], w);
      AppendNothing(w);
      match Scan(u, tags.open)
      case Found(before, after) =>
        var rest := Parse(tags, CollectingToolContent, after);
        LeadingSpaceBeforeCall(tags, w, before, rest, u);
        assert Parse(tags, LookingForToolStart, y) == Behind(Trimmed(w + before), rest);
      case Open(given, held) =>
        LeadingSpaceOfContent(tags, w, given, held, u);
    }
  }

  lemma LeadingSpaceBeforeCall(tags: Tags, w: string, before: string, rest: Outcome, u: string)
    requires tags.Valid() && w != [] && AllSpace(w) && TrimRight(w) == []
    requires Scan(u, tags.open).Found? && Scan(u, tags.open).before == before && (u != [] ==> !IsSpace(u[0]))
    ensures SameButEmpty(Behind(Trimmed(w + before), rest), Behind(Trimmed(before), rest)) <==> tags.open <= u
  {
    ContentAtoms(w + before, rest.events);
    ContentAtoms(before, rest.events);
    LettersLength(TrimRight(w + before));
    LettersLength(TrimRight(before));
    TrimRightAppend(w, before);
    if tags.open <= u {
      assert before == [];
    } else {
      assert before != [] && before[0] == u[0];
      TrimRightOfNonSpace(before);
    }
  }

  lemma LeadingSpaceOfContent(tags: Tags, w: string, given: string, held: string, u: string)
    requires tags.Valid() && w != [] && AllSpace(w) && TrimRight(w) == []
    requires Scan(u, tags.open) == Open(given, held) && (u != [] ==> !IsSpace(u[0]))
    ensures !SameButEmpty(Outcome(LookingForToolStart, TrailingSpace(w + given) + held, [Content(TrimRight(w + given))]),
                          Outcome(LookingForToolStart, TrailingSpace(given) + held, [Content(TrimRight(given))]))
    ensures !(tags.open <= u)
  {
    AppendNothing([Content(TrimRight(w + given))]);
    AppendNothing([Content(TrimRight(given))]);
    ContentAtoms(TrimRight(w + given), []);
    ContentAtoms(TrimRight(given), []);
    LettersLength(TrimRight(w + given));
    LettersLength(TrimRight(given));
    TrimRightAppend(w, given);
    if given != [] {
      assert given[0] == u[0];
      TrimRightOfNonSpace(given);
    } else {
      AppendNothing(w);
    }
  }

  lemma {:induction false} TrimRightOfNonSpace(s: string)
    requires s != [] && !IsSpace(s[0])
    ensures TrimRight(s) != []
  {
    TrimRightRestores(s);
    if TrimRight(s) == [] {
      AppendNothing(TrailingSpace(s));
    }
  }

  /** The cut between x and y shows: y starts with white space that only a whole text would lose. */
  predicate Ragged(tags: Tags, state: State, x: string, y: string)
    requires tags.Valid()
  {
    JustClosed(tags, state, x) && y != [] && IsSpace(y[0]) && !(tags.open <= TrimLeft(y))
  }

  /**
   Exactly when the second of two pieces starts with white space, the first ends with a tool
   call, and no other tool call follows at once, does the cut change state, buffer or events.
   */
  lemma ChunkingDependsExactlyOn(tags: Tags, state: State, x: string, y: string)
    requires tags.Valid()
    ensures
      var r := Parse(tags, state, x);
      SameButEmpty(Behind(r.events, Parse(tags, r.state, r.held + y)), Parse(tags, state, x + y)) <==> !Ragged(tags, state, x, y)
  {
    var r := Parse(tags, state, x);
    ParseComposes(tags, state, x, y);
    if JustClosed(tags, state, x) {
      AppendNothing(y);
      SameBehindExactly(r.events, Parse(tags, LookingForToolStart, y), Parse(tags, LookingForToolStart, TrimLeft(y)));
      LeadingSpaceShows(tags, y);
    }
  }

  /** A tool call, and then a content that starts with a blank: cut in front of the blank, the blank is kept. */
  lemma RaggedCut()
    ensures QWEN_TAGS.Valid()
    ensures var x, y := QWEN_TAGS.open + ("a" + QWEN_TAGS.close), " b";
      var r := Parse(QWEN_TAGS, LookingForToolStart, x);
      !SameButEmpty(Behind(r.events, Parse(QWEN_TAGS, r.state, r.held + y)), Parse(QWEN_TAGS, LookingForToolStart, x + y))
  {
    var tags := QWEN_TAGS;
    var raw := "a" + tags.close;
    var x := tags.open + raw;
    assert Scan(x, tags.open) == Found([], raw) by {
      assert x[|tags.open|..] == raw;
    }
    assert Scan(raw, tags.close) == Found("a", []) by {
      assert raw[0] == 'a' && tags.close[0] == '<';
      assert raw[1..] == tags.close && tags.close[|tags.close|..] == [];
      assert ['a'] == "a" && "a" + [] == "a";
    }
    assert JustClosed(tags, CollectingToolContent, raw);
    assert " b"[1..] == "b" && "b"[0] == 'b' && tags.open[0] == '<';
    assert TrimLeft(" b") == "b";
    ChunkingDependsExactlyOn(tags, LookingForToolStart, x, " b");
  }

  // ----- what never depends on the pieces -----

  /** The events without white space, contents taken apart into single characters. */
  function Visible(events: seq<Event>): seq<Event> {
    if events == [] then [] else VisibleOf(events[0]) + Visible(events[1..])
  }

  function VisibleOf(e: Event): seq<Event> {
    if e.Content? then VisibleLetters(e.content) else [e]
  }

  function VisibleLetters(s: string): seq<Event> {
    if s == [] then [] else (if IsSpace(s[0]) then [] else [Content(s[..1])]) + VisibleLetters(s[1..])
  }

  /** The same but for white space, which may also be held in front of a content. */
  predicate Alike(a: Outcome, b: Outcome) {
    && a.state == b.state
    && AlikeHeld(a.state, a.held, b.held)
    && Visible(a.events) == Visible(b.events)
  }

  predicate AlikeHeld(state: State, g: string, h: string) {
    if state == LookingForToolStart then TrimLeft(g) == TrimLeft(h) else g == h
  }

  lemma {:induction false} VisibleOfConcatenation(a: seq<Event>, b: seq<Event>)
    ensures Visible(a + b) == Visible(a) + Visible(b)
  {
    if a == [] {
      AppendNothing(b);
      AppendNothing(Visible(b));
    } else {
      VisibleOfConcatenation(a[1..], b);
      assert (a + b)[1..] == a[1..] + b;
      AppendAssociates(VisibleOf(a[0]), Visible(a[1..]), Visible(b));
    }
  }

  lemma {:induction false} VisibleLettersOfConcatenation(s: string, t: string)
    ensures VisibleLetters(s + t) == VisibleLetters(s) + VisibleLetters(t)
  {
    if s == [] {
      AppendNothing(t);
      AppendNothing(VisibleLetters(t));
    } else {
      VisibleLettersOfConcatenation(s[1..], t);
      assert (s + t)[1..] == s[1..] + t;
      assert (s + t)[..1] == s[..1];
      AppendAssociates(if IsSpace(s[0]) then [] else [Content(s[..1])], VisibleLetters(s[1..]), VisibleLetters(t));
    }
  }

  lemma {:induction false} SpaceIsInvisible(w: string)
    requires AllSpace(w)
    ensures VisibleLetters(w) == []
  {
    if w != [] {
      SpaceIsInvisible(w[1..]);
    }
  }

  lemma VisibleLetter(c: string)
    requires |c| == 1
    ensures VisibleLetters(c) == if IsSpace(c[0]) then [] else [Content(c)]
  {
    assert c[1..] == [] && c[..1] == c;
  }

  lemma {:induction false} VisibleOfLetters(s: string, rest: seq<Event>)
    ensures Visible(Letters(s) + rest) == VisibleLetters(s) + Visible(rest)
  {
    if s == [] {
      AppendNothing(rest);
      AppendNothing(Visible(rest));
    } else {
      var l := Letters(s) + rest;
      assert l[0] == Content(s[..1]) && l[1..] == Letters(s[1..]) + rest;
      VisibleOfLetters(s[1..], rest);
      VisibleLetter(s[..1]);
      AppendAssociates(VisibleLetters(s[..1]), VisibleLetters(s[1..]), Visible(rest));
    }
  }

  lemma {:induction false} VisibleOfAtoms(events: seq<Event>)
    ensures Visible(Atoms(events)) == Visible(events)
  {
    if events != [] {
      VisibleOfAtoms(events[1..]);
      if events[0].Content? {
        VisibleOfLetters(events[0].content, Atoms(events[1..]));
      } else {
        var a := [events[0]] + Atoms(events[1..]);
        assert a[0] == events[0] && a[1..] == Atoms(events[1..]);
      }
    }
  }

  lemma SameIsAlike(a: Outcome, b: Outcome)
    requires SameButEmpty(a, b)
    ensures Alike(a, b)
  {
    VisibleOfAtoms(a.events);
    VisibleOfAtoms(b.events);
  }

  lemma AlikeBehind(events: seq<Event>, a: Outcome, b: Outcome)
    requires Alike(a, b)
    ensures Alike(Behind(events, a), Behind(events, b))
  {
    VisibleOfConcatenation(events, a.events);
    VisibleOfConcatenation(events, b.events);
  }

  lemma TrimmedVisibly(w: string, b: string)
    requires AllSpace(w)
    ensures VisibleLetters(TrimRight(w + b)) == VisibleLetters(TrimRight(b))
  {
    TrimRightAppend(w, b);
    AllSpaceIffTrimmed(w);
    SpaceIsInvisible(w);
    VisibleLettersOfConcatenation(w, TrimRight(b));
    AppendNothing(VisibleLetters(TrimRight(b)));
  }

  lemma VisibleContent(s: string, t: seq<Event>)
    ensures Visible([Content(s)] + t) == VisibleLetters(s) + Visible(t)
    ensures Visible(Trimmed(s) + t) == VisibleLetters(TrimRight(s)) + Visible(t)
  {
    assert ([Content(s)] + t)[1..] == t;
    if TrimRight(s) == [] {
      AppendNothing(t);
      AppendNothing(Visible(t));
    } else {
      assert (Trimmed(s) + t)[1..] == t;
    }
  }

  /** White space in front of a content is all that is lost or kept. */
  lemma LeadingSpaceIsInvisible(tags: Tags, text: string)
    requires tags.Valid()
    ensures Alike(Parse(tags, LookingForToolStart, text), Parse(tags, LookingForToolStart, TrimLeft(text)))
  {
    var u := TrimLeft(text);
    var w := TrimLeftRestores(text);
    ScanBehindSpace(w, u, tags.open);
    match Scan(u, tags.open)
    case Found(before, after) =>
      var rest := Parse(tags, CollectingToolContent, after);
      TrimmedVisibly(w, before);
      VisibleContent(w + before, rest.events);
      VisibleContent(before, rest.events);
    case Open(given, held) =>
      TrimmedVisibly(w, given);
      VisibleContent(TrimRight(w + given), []);
      VisibleContent(TrimRight(given), []);
      AppendNothing([Content(TrimRight(w + given))]);
      AppendNothing([Content(TrimRight(given))]);
      HeldBehindSpace(w, given, held);
  }

  lemma HeldBehindSpace(w: string, given: string, held: string)
    requires AllSpace(w)
    ensures TrimLeft(TrailingSpace(w + given) + held) == TrimLeft(TrailingSpace(given) + held)
  {
    TrimRightAppend(w, given);
    AllSpaceIffTrimmed(w);
    if TrimRight(given) == [] {
      assert TrailingSpace(w + given) == w + given && TrailingSpace(given) == given;
      AppendAssociates(w, given, held);
      TrimLeftExtension(w, given + held);
    } else {
      DropAcross(w, given, |TrimRight(given)|);
    }
  }

  lemma ParseComposesVisibly(tags: Tags, state: State, x: string, y: string)
    requires tags.Valid()
    ensures
      var r := Parse(tags, state, x);
      Alike(Behind(r.events, Parse(tags, r.state, r.held + y)), Parse(tags, state, x + y))
  {
    var r := Parse(tags, state, x);
    ParseComposes(tags, state, x, y);
    var q := Parse(tags, r.state, Remaining(tags, state, x, y));
    SameIsAlike(Behind(r.events, q), Parse(tags, state, x + y));
    if JustClosed(tags, state, x) {
      AppendNothing(y);
      LeadingSpaceIsInvisible(tags, y);
      AlikeBehind(r.events, Parse(tags, r.state, y), q);
    }
  }

  /** Feeding pieces one call at a time. */
  function Feed(tags: Tags, state: State, held: string, pieces: seq<string>): Outcome
    requires tags.Valid()
    decreases |pieces|
  {
    if pieces == [] then Outcome(state, held, [])
    else
      var first := Parse(tags, state, held + pieces[0]);
      Behind(first.events, Feed(tags, first.state, first.held, pieces[1..]))
  }

  /**
   Any way of cutting a text into pieces gives the state, the tool calls and, white space
   aside, the contents that the uncut text gives, in the same order.
   */
  lemma {:induction false} ChunkingIndependence(tags: Tags, state: State, held: string, pieces: seq<string>)
    requires tags.Valid() && pieces != []
    ensures Alike(Feed(tags, state, held, pieces), Parse(tags, state, held + Concat(pieces)))
    decreases |pieces|
  {
    var first := Parse(tags, state, held + pieces[0]);
    ConcatUnfolds(held, pieces);
    FeedUnfolds(tags, state, held, pieces, first);
    if |pieces| > 1 {
      ChunkingIndependence(tags, first.state, first.held, pieces[1..]);
      FirstThenRest(tags, state, held + pieces[0], Concat(pieces[1..]), held + Concat(pieces), first,
                    Feed(tags, first.state, first.held, pieces[1..]), Feed(tags, state, held, pieces));
    }
  }

  lemma FeedUnfolds(tags: Tags, state: State, held: string, pieces: seq<string>, first: Outcome)
    requires tags.Valid() && pieces != [] && first == Parse(tags, state, held + pieces[0])
    ensures Feed(tags, state, held, pieces) ==
            if |pieces| == 1 then first else Behind(first.events, Feed(tags, first.state, first.held, pieces[1..]))
  {
    AppendNothing(first.events);
  }

  lemma FirstThenRest(tags: Tags, state: State, x: string, y: string, text: string, first: Outcome, rest: Outcome, fed: Outcome)
    requires tags.Valid() && text == x + y && first == Parse(tags, state, x)
    requires Alike(rest, Parse(tags, first.state, first.held + y)) && fed == Behind(first.events, rest)
    ensures Alike(fed, Parse(tags, state, text))
  {
    ParseComposesVisibly(tags, state, x, y);
    AlikeBehind(first.events, rest, Parse(tags, first.state, first.held + y));
  }

  // ----- exactly where cuts show, for any number of pieces -----

  /** How many letters and calls have been announced, and how many letters are held. */
  function Weight(o: Outcome): nat { |Atoms(o.events)| + |o.held| }

  lemma WeightBehind(events: seq<Event>, o: Outcome)
    ensures Weight(Behind(events, o)) == |Atoms(events)| + Weight(o)
  {
    AtomsOfConcatenation(events, o.events);
  }

  /** The weight of a content, with what is held behind it. */
  lemma WeightOfContent(given: string, held: string)
    ensures Weight(Outcome(LookingForToolStart, TrailingSpace(given) + held, [Content(TrimRight(given))])) == |given| + |held|
  {
    TrimRightRestores(given);
    ContentAtoms(TrimRight(given), []);
    AppendNothing([Content(TrimRight(given))]);
    LettersLength(TrimRight(given));
  }

  lemma WeightOfTrimmed(s: string, rest: Outcome)
    ensures Weight(Behind(Trimmed(s), rest)) == |TrimRight(s)| + Weight(rest)
  {
    ContentAtoms(s, rest.events);
    LettersLength(TrimRight(s));
  }

  /** White space at the beginning of a content has a weight, unless a tool call follows at once. */
  lemma LeadingSpaceWeighs(tags: Tags, y: string)
    requires tags.Valid()
    ensures var a, b := Weight(Parse(tags, LookingForToolStart, y)), Weight(Parse(tags, LookingForToolStart, TrimLeft(y)));
      a >= b && (y != [] && IsSpace(y[0]) && !(tags.open <= TrimLeft(y)) ==> a > b)
  {
    var u := TrimLeft(y);
    var w := TrimLeftRestores(y);
    TrimLeftStarts(y);
    if w == [] {
      AppendNothing(u);
    } else {
      ScanBehindSpace(w, u, tags.open);
      match Scan(u, tags.open)
      case Found(before, after) =>
        var rest := Parse(tags, CollectingToolContent, after);
        assert Parse(tags, LookingForToolStart, y) == Behind(Trimmed(w + before), rest);
        SpaceBeforeCallWeighs(tags, w, before, rest, u);
      case Open(given, held) =>
        assert Parse(tags, LookingForToolStart, y) == Outcome(LookingForToolStart, TrailingSpace(w + given) + held, [Content(TrimRight(w + given))]);
        WeightOfContent(w + given, held);
        WeightOfContent(given, held);
    }
  }

  lemma SpaceBeforeCallWeighs(tags: Tags, w: string, before: string, rest: Outcome, u: string)
    requires tags.Valid() && w != [] && Scan(u, tags.open).Found? && Scan(u, tags.open).before == before && (u != [] ==> !IsSpace(u[0]))
    ensures var a, b := Weight(Behind(Trimmed(w + before), rest)), Weight(Behind(Trimmed(before), rest));
      a >= b && (!(tags.open <= u) ==> a > b)
  {
    WeightOfTrimmed(w + before, rest);
    WeightOfTrimmed(before, rest);
    TrimRightAppend(w, before);
    if !(tags.open <= u) {
      assert before != [] && before[0] == u[0];
      TrimRightOfNonSpace(before);
    }
  }

  /** A cut never makes less of the text, and a ragged one makes more of it. */
  lemma CutWeighs(tags: Tags, state: State, x: string, y: string)
    requires tags.Valid()
    ensures var r := Parse(tags, state, x);
      var a, b := Weight(Behind(r.events, Parse(tags, r.state, r.held + y))), Weight(Parse(tags, state, x + y));
      a >= b && (Ragged(tags, state, x, y) ==> a > b)
  {
    var r := Parse(tags, state, x);
    ParseComposes(tags, state, x, y);
    WeightBehind(r.events, Parse(tags, r.state, r.held + y));
    WeightBehind(r.events, Parse(tags, r.state, Remaining(tags, state, x, y)));
    if JustClosed(tags, state, x) {
      AppendNothing(y);
      LeadingSpaceWeighs(tags, y);
    }
  }

  /** No cut between the pieces is ragged, with what is in front of it and all that is behind it. */
  predicate NoCutIsRagged(tags: Tags, state: State, held: string, pieces: seq<string>)
    requires tags.Valid()
    decreases |pieces|
  {
    |pieces| <= 1 ||
    var first := Parse(tags, state, held + pieces[0]);
    !Ragged(tags, state, held + pieces[0], Concat(pieces[1..])) && NoCutIsRagged(tags, first.state, first.held, pieces[1..])
  }

  lemma {:induction false} PiecesWeigh(tags: Tags, state: State, held: string, pieces: seq<string>)
    requires tags.Valid() && pieces != []
    ensures var f, p := Feed(tags, state, held, pieces), Parse(tags, state, held + Concat(pieces));
      if NoCutIsRagged(tags, state, held, pieces) then SameButEmpty(f, p) else Weight(f) > Weight(p)
    decreases |pieces|
  {
    var first := Parse(tags, state, held + pieces[0]);
    ConcatUnfolds(held, pieces);
    FeedUnfolds(tags, state, held, pieces, first);
    if |pieces| > 1 {
      PiecesWeigh(tags, first.state, first.held, pieces[1..]);
      FirstThenOthers(tags, state, held + pieces[0], Concat(pieces[1..]), held + Concat(pieces), first,
                      Feed(tags, first.state, first.held, pieces[1..]), Feed(tags, state, held, pieces),
                      NoCutIsRagged(tags, first.state, first.held, pieces[1..]));
    }
  }

  lemma FirstThenOthers(tags: Tags, state: State, x: string, y: string, text: string, first: Outcome, rest: Outcome, fed: Outcome, smooth: bool)
    requires tags.Valid() && text == x + y && first == Parse(tags, state, x) && fed == Behind(first.events, rest)
    requires var p := Parse(tags, first.state, first.held + y); if smooth then SameButEmpty(rest, p) else Weight(rest) > Weight(p)
    ensures var p := Parse(tags, state, text);
      if smooth && !Ragged(tags, state, x, y) then SameButEmpty(fed, p) else Weight(fed) > Weight(p)
  {
    var p := Parse(tags, first.state, first.held + y);
    ChunkingDependsExactlyOn(tags, state, x, y);
    CutWeighs(tags, state, x, y);
    SameBehindExactly(first.events, rest, p);
    WeightBehind(first.events, rest);
    WeightBehind(first.events, p);
  }

  /** A text in pieces gives the state, buffer and events of the uncut text exactly if no cut is ragged. */
  lemma PiecesDependExactlyOn(tags: Tags, state: State, held: string, pieces: seq<string>)
    requires tags.Valid() && pieces != []
    ensures SameButEmpty(Feed(tags, state, held, pieces), Parse(tags, state, held + Concat(pieces))) <==>
            NoCutIsRagged(tags, state, held, pieces)
  {
    PiecesWeigh(tags, state, held, pieces);
  }
}
