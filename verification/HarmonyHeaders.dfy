/**
 What a header means: the role, the channel and the recipient that are printed into it are read
 from it, wherever the recipient stands, and whatever constraint there is on the content.
 */
module HarmonyHeaders {
  import opened Text
  import opened Options
  import opened Harmony

  // ----- words and the white space between them -----

  /** A word, and the white space in front of it. */
  datatype Item = Item(gap: string, word: string)

  predicate Solid(s: string) {
    s != [] && forall i | 0 <= i < |s| :: !IsSpace(s[i])
  }

  function Spread(items: seq<Item>): string {
    if items == [] then [] else items[0].gap + (items[0].word + Spread(items[1..]))
  }

  function Words(items: seq<Item>): seq<string> {
    if items == [] then [] else [items[0].word] + Words(items[1..])
  }

  /** There is white space between words. */
  predicate Separated(items: seq<Item>) {
    items != [] ==>
      && AllSpace(items[0].gap) && Solid(items[0].word)
      && (|items| > 1 ==> items[1].gap != []) && Separated(items[1..])
  }

  lemma {:induction false} FirstSpaceBehind(w: string, rest: string)
    requires forall i | 0 <= i < |w| :: !IsSpace(w[i])
    requires rest == [] || IsSpace(rest[0])
    ensures FirstSpace(w + rest) == |w|
  {
    if w == [] {
      assert w + rest == rest;
    } else {
      assert (w + rest)[0] == w[0] && (w + rest)[1..] == w[1..] + rest;
      FirstSpaceBehind(w[1..], rest);
    }
  }

  lemma SpreadStarts(items: seq<Item>)
    requires Separated(items) && items != [] && items[0].gap != []
    ensures Spread(items) != [] && IsSpace(Spread(items)[0])
  {
  }

  /** The fields of a text are its words. */
  lemma {:induction false} FieldsAreWords(items: seq<Item>)
    requires Separated(items)
    ensures Fields(Spread(items)) == Words(items)
    decreases |items|
  {
    if items != [] {
      var gap, w, rest := items[0].gap, items[0].word, Spread(items[1..]);
      FieldsAreWords(items[1..]);
      if |items| > 1 {
        SpreadStarts(items[1..]);
      }
      DropSpace(gap, w + rest);
      FirstSpaceBehind(w, rest);
      FieldIsNotEmpty(gap + (w + rest));
      assert (w + rest)[..|w|] == w && (w + rest)[|w|..] == rest;
    }
  }

  lemma {:induction false} SpreadAppend(a: seq<Item>, b: seq<Item>)
    ensures Spread(a + b) == Spread(a) + Spread(b) && Words(a + b) == Words(a) + Words(b)
  {
    if a == [] {
      assert a + b == b;
      AppendNothing(Spread(b));
    } else {
      SpreadAppend(a[1..], b);
      assert (a + b)[1..] == a[1..] + b;
      AppendAssociates(a[0].word, Spread(a[1..]), Spread(b));
      AppendAssociates(a[0].gap, a[0].word + Spread(a[1..]), Spread(b));
    }
  }

  lemma {:induction false} SeparatedAppend(a: seq<Item>, b: seq<Item>)
    requires Separated(a) && Separated(b) && (a != [] && b != [] ==> b[0].gap != [])
    ensures Separated(a + b)
  {
    if a == [] {
      assert a + b == b;
    } else {
      SeparatedAppend(a[1..], b);
      assert (a + b)[1..] == a[1..] + b;
    }
  }

  lemma {:induction false} SpreadEnds(items: seq<Item>)
    requires Separated(items) && items != []
    ensures Spread(items) != [] && !IsSpace(Spread(items)[|Spread(items)| - 1])
  {
    if |items| > 1 {
      SpreadEnds(items[1..]);
    } else {
      AppendNothing(items[0].word);
    }
  }

  /** White space around the words does not matter. */
  lemma FieldsOfTrimmed(items: seq<Item>)
    requires Separated(items)
    ensures Fields(TrimSpace(Spread(items))) == Words(items)
  {
    if items != [] {
      var bare := [Item([], items[0].word)] + items[1..];
      assert bare[1..] == items[1..];
      DropSpace(items[0].gap, items[0].word + Spread(items[1..]));
      AppendNothing(items[0].word + Spread(items[1..]));
      SpreadEnds(bare);
      FieldsAreWords(bare);
    }
  }

  // ----- headers -----

  /** A header: words, among them a role and a recipient, around a channel; and a constraint on the content. */
  datatype Printed = Printed(before: seq<Item>, channel: Option<string>, after: seq<Item>, constrain: Option<Item>) {
    predicate Valid() {
      && Separated(before) && Separated(after) && Untagged(Spread(before)) && Untagged(Spread(after))
      && before + after != [] && (before != [] ==> before[0].gap == []) && (after != [] ==> after[0].gap != [])
      && (channel != None ==> Plain(channel.value))
      && (channel == None ==> after == [] && constrain == None)
      && (constrain != None ==> AllSpace(constrain.value.gap) && Solid(constrain.value.word) && Untagged(constrain.value.gap + constrain.value.word))
    }

    function Text(): string {
      Spread(before) + Rest()
    }

    /** From the channel on. */
    function Rest(): string {
      (if channel == None then [] else CHANNEL + (channel.value + Spread(after)))
      + (if constrain == None then [] else constrain.value.gap + (CONSTRAIN + constrain.value.word))
    }

    function Header(): Header {
      Meaning(Words(before + after), if channel == None then [] else channel.value)
    }
  }

  /** The first word is the role, unless it names a recipient, which else may be the second word. */
  function Meaning(words: seq<string>, channel: string): Header {
    if words == [] then Header([], channel, [])
    else if TO < words[0] then Header("tool", channel, words[0][|TO|..])
    else Header(if words[0] == TO then "tool" else words[0], channel,
                if |words| > 1 && TO <= words[1] then words[1][|TO|..] else [])
  }

  /** A text that is untagged in front of a tag has it there first. */
  lemma FoundBehind(s: string, t: string, tag: string)
    requires Untagged(s) && tag != [] && tag[0] == '<'
    ensures Scan(s + (tag + t), tag) == Found(s, t)
    ensures Contains(s + (tag + t), tag) && SplitOnce(s + (tag + t), tag) == (s, t)
  {
    ScanBehindPlain(s, tag + t, tag);
    assert (tag + t)[|tag|..] == t;
    AppendNothing(s);
    SearchIsScan(s + (tag + t), tag);
  }

  lemma NotInUntagged(s: string, tag: string)
    requires Untagged(s) && tag != [] && tag[0] == '<'
    ensures Scan(s, tag) == Open(s, []) && !Contains(s, tag)
  {
    AppendNothing(s);
    ScanBehindPlain(s, [], tag);
    SearchIsScan(s, tag);
  }

  /** The words around a channel. */
  lemma ChannelIsCut(before: seq<Item>, channel: string, after: seq<Item>, raw: string)
    requires Separated(before) && Separated(after) && Untagged(Spread(before)) && Plain(channel)
    requires after != [] ==> after[0].gap != []
    requires raw == Spread(before) + (CHANNEL + (channel + Spread(after)))
    ensures Contains(raw, CHANNEL)
    ensures var (b, a) := SplitOnce(raw, CHANNEL);
      a[..FirstSpace(a)] == channel && Fields(TrimSpace(b + a[FirstSpace(a)..])) == Words(before + after)
  {
    FoundBehind(Spread(before), channel + Spread(after), CHANNEL);
    if after != [] {
      SpreadStarts(after);
    }
    FirstSpaceBehind(channel, Spread(after));
    var a := channel + Spread(after);
    assert a[..|channel|] == channel && a[|channel|..] == Spread(after);
    SpreadAppend(before, after);
    SeparatedAppend(before, after);
    FieldsOfTrimmed(before + after);
  }

  lemma RoleOfWords(raw: string, words: seq<string>, channel: string)
    requires Fields(raw) == words
    ensures ParseRole(raw, channel) == Meaning(words, channel)
  {
    if words != [] && TO <= words[0] {
      assert TO < words[0] <==> words[0][|TO|..] != [];
    }
  }

  /** A header without a constraint. */
  lemma UnconstrainedIsRead(p: Printed)
    requires p.Valid() && p.constrain == None
    ensures ParseHeader(p.Text()) == p.Header()
  {
    AppendNothing(if p.channel == None then [] else CHANNEL + (p.channel.value + Spread(p.after)));
    if p.channel == None {
      AppendNothing(Spread(p.before));
      NotInUntagged(Spread(p.before), CONSTRAIN);
      NotInUntagged(Spread(p.before), CHANNEL);
      FieldsAreWords(p.before);
      assert p.before + p.after == p.before;
      RoleOfWords(Spread(p.before), Words(p.before), []);
    } else {
      var channel, rest := p.channel.value, p.channel.value + Spread(p.after);
      NoConstraint(Spread(p.before), rest, p.Text());
      ChannelIsCut(p.before, channel, p.after, p.Text());
      var (b, a) := SplitOnce(p.Text(), CHANNEL);
      RoleOfWords(TrimSpace(b + a[FirstSpace(a)..]), Words(p.before + p.after), channel);
    }
  }

  lemma NoConstraint(before: string, rest: string, text: string)
    requires Untagged(before) && Untagged(rest) && text == before + (CHANNEL + rest)
    ensures !Contains(text, CONSTRAIN)
  {
    assert CHANNEL[0] == '<' && CHANNEL[3] == 'h' && CONSTRAIN[0] == '<' && CONSTRAIN[3] == 'o';
    PlainChannel();
    ScanBehindPlain(before, CHANNEL + rest, CONSTRAIN);
    StepOver(CHANNEL, rest, CONSTRAIN, 3);
    NotInUntagged(rest, CONSTRAIN);
    SearchIsScan(text, CONSTRAIN);
  }

  /** A header with a constraint: a space goes in front of it, so that it is a word of its own. */
  lemma ConstrainedIsRead(p: Printed)
    requires p.Valid() && p.constrain != None
    ensures ParseHeader(p.Text()) == p.Header()
  {
    var channel, c := p.channel.value, p.constrain.value;
    var last := Item(c.gap + " ", CONSTRAIN + c.word);
    var raw := Spread(p.before) + (CHANNEL + (channel + Spread(p.after + [last])));
    ConstraintIsSeparated(p, channel, c, last, raw);
    LastIsSeparated(c, last);
    SeparatedAppend(p.after, [last]);
    ChannelIsCut(p.before, channel, p.after + [last], raw);
    var (b, a) := SplitOnce(raw, CHANNEL);
    RoleOfWords(TrimSpace(b + a[FirstSpace(a)..]), Words(p.before + (p.after + [last])), channel);
    ConstraintIsNoWord(p.before + p.after, last, channel);
    assert p.before + (p.after + [last]) == p.before + p.after + [last];
  }

  lemma LastIsSeparated(c: Item, last: Item)
    requires AllSpace(c.gap) && Solid(c.word) && last == Item(c.gap + " ", CONSTRAIN + c.word)
    ensures Separated([last]) && last.gap != []
  {
    AllSpaceAppend(c.gap, " ");
    assert AllSpace(" ") by {
      assert " "[1..] == [];
    }
    assert [last][1..] == [];
    assert forall i | 0 <= i < |CONSTRAIN| :: !IsSpace(CONSTRAIN[i]);
  }

  /** It is neither the role nor the recipient. */
  lemma ConstraintIsNoWord(items: seq<Item>, last: Item, channel: string)
    requires items != [] && CONSTRAIN <= last.word
    ensures Meaning(Words(items + [last]), channel) == Meaning(Words(items), channel)
  {
    SpreadAppend(items, [last]);
    assert [last][1..] == [] && Words([last]) == [last.word];
    assert last.word[0] == CONSTRAIN[0] == '<' && TO[0] == 't';
  }

  lemma Regroup(a: string, b: string, c: string, d: string, e: string)
    ensures a + (b + (c + d)) + e == a + (b + (c + d + e))
  {
  }

  /** The text in which the constraint is a word of its own. */
  lemma ConstraintIsSeparated(p: Printed, channel: string, c: Item, last: Item, raw: string)
    requires p.Valid() && p.constrain == Some(c) && p.channel == Some(channel)
    requires last == Item(c.gap + " ", CONSTRAIN + c.word) && raw == Spread(p.before) + (CHANNEL + (channel + Spread(p.after + [last])))
    ensures SeparateConstrain(p.Text()) == raw
  {
    var x := Spread(p.before) + (CHANNEL + (channel + Spread(p.after))) + c.gap;
    TextOfConstrained(Spread(p.before), CHANNEL + (channel + Spread(p.after)), c.gap, CONSTRAIN + c.word);
    ConstraintIsFound(p, channel, c, x);
    SpreadOneMore(p.after, last);
    RawIs(Spread(p.before), CHANNEL, channel, Spread(p.after), c.gap, " ", CONSTRAIN, c.word, x, raw);
    HeaderStarts(p, raw);
    RawEnds(x, " ", CONSTRAIN, c.word, raw);
    TrimNothing(raw);
  }

  lemma TextOfConstrained(b: string, m: string, gap: string, t: string)
    ensures b + (m + (gap + t)) == b + m + gap + t
  {
  }

  lemma SpreadOneMore(items: seq<Item>, last: Item)
    ensures Spread(items + [last]) == Spread(items) + (last.gap + last.word)
  {
    SpreadAppend(items, [last]);
    assert [last][1..] == [] && Spread([last]) == last.gap + (last.word + []);
    AppendNothing(last.word);
  }

  lemma RawIs(b: string, tag: string, channel: string, a: string, gap: string, space: string, con: string, word: string, x: string, raw: string)
    requires x == b + (tag + (channel + a)) + gap && raw == b + (tag + (channel + (a + ((gap + space) + (con + word)))))
    ensures raw == x + space + con + word
  {
    assert (gap + space) + (con + word) == gap + (space + (con + word));
    assert a + (gap + (space + (con + word))) == (a + gap) + (space + (con + word));
    assert x + space + con + word == x + (space + (con + word));
    Regroup(b, tag, channel, a, gap);
    Regroup(b, tag, channel, a + gap, space + (con + word));
  }

  lemma RawEnds(x: string, space: string, con: string, word: string, raw: string)
    requires word != [] && raw == x + space + con + word
    ensures raw != [] && raw[|raw| - 1] == word[|word| - 1]
  {
  }

  lemma TrimNothing(s: string)
    requires s != [] && !IsSpace(s[0]) && !IsSpace(s[|s| - 1])
    ensures TrimSpace(s) == s
  {
  }

  lemma HeaderStarts(p: Printed, raw: string)
    requires p.Valid() && raw != [] && (if p.before == [] then raw[0] == '<' else Spread(p.before) <= raw)
    ensures !IsSpace(raw[0])
  {
    if p.before != [] {
      var w := p.before[0].word;
      assert Spread(p.before) == [] + (w + Spread(p.before[1..]));
      assert raw[0] == w[0];
    }
  }

  lemma ConstraintIsFound(p: Printed, channel: string, c: Item, x: string)
    requires p.Valid() && p.constrain == Some(c) && p.channel == Some(channel)
    requires x == Spread(p.before) + (CHANNEL + (channel + Spread(p.after))) + c.gap
    ensures Contains(x + (CONSTRAIN + c.word), CONSTRAIN) && SplitOnce(x + (CONSTRAIN + c.word), CONSTRAIN) == (x, c.word)
  {
    var b, rest, t := Spread(p.before), channel + Spread(p.after) + c.gap, CONSTRAIN + c.word;
    Regroup(b, CHANNEL, channel, Spread(p.after), c.gap);
    AppendAssociates(b, CHANNEL + rest, t);
    AppendAssociates(CHANNEL, rest, t);
    assert forall i | 0 <= i < |c.gap| :: c.gap[i] == (c.gap + c.word)[i];
    StepOverChannel(b, rest + t, CONSTRAIN, 3);
    FoundBehind(rest, c.word, CONSTRAIN);
    AppendAssociates(b, CHANNEL, rest);
    SearchIsScan(x + t, CONSTRAIN);
  }

  lemma StepOverChannel(b: string, t: string, tag: string, k: nat)
    requires Untagged(b) && 0 < k < |CHANNEL| && k < |tag| && tag[0] == '<' && CHANNEL[k] != tag[k]
    ensures Scan(b + (CHANNEL + t), tag) == Scan(t, tag).Behind(b + CHANNEL)
  {
    PlainChannel();
    ScanBehindPlain(b, CHANNEL + t, tag);
    StepOver(CHANNEL, t, tag, k);
    BehindTwice(Scan(t, tag), b, CHANNEL);
  }

  /** What is printed into a header is read from it. */
  lemma HeaderIsReadBack(p: Printed)
    requires p.Valid()
    ensures ParseHeader(p.Text()) == p.Header()
  {
    if p.constrain == None {
      UnconstrainedIsRead(p);
    } else {
      ConstrainedIsRead(p);
    }
  }

  /** Its end is where the tag behind it is. */
  lemma HeaderEndsAtTag(p: Printed, tag: string)
    requires p.Valid() && tag == "<|message|>"
    ensures Scan(p.Text() + tag, tag) == Found(p.Text(), [])
  {
    var b, c := Spread(p.before), if p.constrain == None then [] else p.constrain.value.gap + (CONSTRAIN + p.constrain.value.word);
    ConstraintEnds(p, c, tag);
    TagIs(tag);
    if p.channel == None {
      AppendNothing(c);
      AppendNothing(b);
      ScanBehindPlain(b, tag, tag);
    } else {
      ChannelEnds(b, p.channel.value + Spread(p.after), c, tag);
    }
  }

  lemma ChannelEnds(b: string, rest: string, c: string, tag: string)
    requires Untagged(b) && Untagged(rest) && |tag| > 2 && tag[0] == '<' && tag[2] == 'm' && Scan(c + tag, tag) == Found(c, [])
    ensures Scan(b + ((CHANNEL + rest) + c) + tag, tag) == Found(b + ((CHANNEL + rest) + c), [])
  {
    assert CHANNEL[2] == 'c';
    StepOverChannel(b, rest + (c + tag), tag, 2);
    RestEnds(b, CHANNEL, rest, c, tag);
  }

  lemma RestEnds(b: string, channel: string, rest: string, c: string, tag: string)
    requires Untagged(rest) && tag != [] && tag[0] == '<' && Scan(c + tag, tag) == Found(c, [])
    requires Scan(b + (channel + (rest + (c + tag))), tag) == Scan(rest + (c + tag), tag).Behind(b + channel)
    ensures Scan(b + ((channel + rest) + c) + tag, tag) == Found(b + ((channel + rest) + c), [])
  {
    FourParts(b, channel, rest, c, tag);
    ScanBehindPlain(rest, c + tag, tag);
  }

  lemma FourParts(a: string, b: string, c: string, d: string, e: string)
    ensures a + ((b + c) + d) + e == a + (b + (c + (d + e)))
    ensures a + ((b + c) + d) == (a + b) + (c + d)
  {
    AppendAssociates(b, c, d);
    AppendAssociates(a, b, c + d);
    AppendAssociates(a, b + (c + d), e);
    AppendAssociates(b, c + d, e);
    AppendAssociates(c, d, e);
  }

  lemma ConstraintEnds(p: Printed, c: string, tag: string)
    requires p.Valid() && tag == "<|message|>"
    requires c == if p.constrain == None then [] else p.constrain.value.gap + (CONSTRAIN + p.constrain.value.word)
    ensures Scan(c + tag, tag) == Found(c, [])
  {
    assert tag[|tag|..] == [];
    if p.constrain == None {
      assert c + tag == tag;
    } else {
      SomeConstraintEnds(p.constrain.value.gap, p.constrain.value.word, c, CONSTRAIN, tag);
    }
  }

  lemma PlainConstrain()
    ensures Plain(CONSTRAIN[1..]) && |CONSTRAIN| > 2 && CONSTRAIN[0] == '<' && CONSTRAIN[2] == 'c'
  {
    assert CONSTRAIN[1..] == "|constrain|>";
  }

  lemma TagIs(tag: string)
    requires tag == "<|message|>"
    ensures |tag| > 2 && tag[0] == '<' && tag[2] == 'm' && tag[|tag|..] == []
  {
  }

  lemma SomeConstraintEnds(gap: string, word: string, c: string, con: string, tag: string)
    requires Untagged(gap + word) && c == gap + (con + word) && con == CONSTRAIN && tag == "<|message|>"
    ensures Scan(c + tag, tag) == Found(c, [])
  {
    PlainConstrain();
    TagIs(tag);
    assert forall i | 0 <= i < |gap| :: gap[i] == (gap + word)[i];
    assert forall i | 0 <= i < |word| :: word[i] == (gap + word)[|gap| + i];
    AppendAssociates(gap, con + word, tag);
    AppendAssociates(con, word, tag);
    ScanBehindPlain(gap, con + (word + tag), tag);
    StepOver(con, word + tag, tag, 2);
    ScanBehindPlain(word, tag, tag);
    AppendNothing(word);
    BehindTwice(Scan(word + tag, tag), gap, con);
    BehindTwice(Scan(tag, tag), gap + con, word);
    AppendAssociates(gap, con, word);
    AppendNothing(c);
  }
}
