/**
 A whole generation from any tokens, also from those whose text ends in the middle of a character.
 Such a text is not searched; the next search may then miss a stop word. When it does is said
 exactly: the run is cut at its first stop word if and only if, at the first search of a text that
 has one, a stop word that starts there does not end before the last token.
 */
module Streaming {
  import opened Text
  import opened StopWords

  function TextAfter(tokens: seq<Bytes>, n: nat): Bytes
    requires n <= |tokens|
  {
    Concat(tokens[..n])
  }

  /** Behind token i the text is searched, and has a stop word. */
  ghost predicate IsHit(words: seq<Bytes>, tokens: seq<Bytes>, i: nat)
    requires i < |tokens|
  {
    Complete(TextAfter(tokens, i + 1)) && HasStop(words, TextAfter(tokens, i + 1))
  }

  ghost predicate NoHit(words: seq<Bytes>, tokens: seq<Bytes>, n: nat)
    requires n <= |tokens|
  {
    forall i: nat | i < n :: !IsHit(words, tokens, i)
  }

  ghost predicate IsFirstHit(words: seq<Bytes>, tokens: seq<Bytes>, i: nat)
    requires i < |tokens|
  {
    IsHit(words, tokens, i) && NoHit(words, tokens, i)
  }

  /** A stop word that starts where the first one does does not end before token i. */
  ghost predicate InTime(words: seq<Bytes>, tokens: seq<Bytes>, i: nat)
    requires i < |tokens|
  {
    EndsLate(words, TextAfter(tokens, i + 1), |tokens[i]|)
  }

  /** Token i is the last one, and what has been sent is the text before its first stop word. */
  ghost predicate IsCutAt(words: seq<Bytes>, tokens: seq<Bytes>, used: nat, sent: Bytes, stopped: bool, i: nat)
    requires i < |tokens|
  {
    used == i + 1 && stopped && IsFirstStop(words, TextAfter(tokens, i + 1), |sent|)
  }

  /** While no search had a stop word to find: nothing but a possible beginning of one is held back. */
  ghost predicate Clean(words: seq<Bytes>, tokens: seq<Bytes>, eog: bool, used: nat, st: Stream, more: bool, stopped: bool)
    requires used <= |tokens|
  {
    var text := TextAfter(tokens, used);
    && !stopped && st.Text() == text && !HasStop(words, st.sent) && (more ==> Settled(words, st.sent))
    && (Complete(text) ==> (st.sent == text <==> eog || !MayStop(words, text)))
  }

  /** What holds after `used` tokens, the last of which ended the generation by itself or not. */
  ghost predicate Streams(words: seq<Bytes>, tokens: seq<Bytes>, eog: bool, used: nat, st: Stream, more: bool, stopped: bool) {
    && used <= |tokens| && (stopped ==> !more)
    && (NoHit(words, tokens, used) ==> Clean(words, tokens, eog, used, st, more, stopped))
    && forall i: nat | i < used && IsFirstHit(words, tokens, i) ::
         IsCutAt(words, tokens, used, st.sent, stopped, i) <==> InTime(words, tokens, i)
  }

  lemma NextText(tokens: seq<Bytes>, used: nat, next: nat)
    requires used < |tokens| && next == used + 1
    ensures TextAfter(tokens, next) == TextAfter(tokens, used) + tokens[used]
  {
    ConcatSnoc(tokens[..used], tokens[used]);
    assert tokens[..used] + [tokens[used]] == tokens[..next];
  }

  /** A search that could have found a stop word before remains the first one. */
  lemma EarlierHit(words: seq<Bytes>, tokens: seq<Bytes>, eog: bool, used: nat, st: Stream, next: nat, sent: Bytes, stopped: bool, i: nat)
    requires Streams(words, tokens, eog, used, st, true, false) && next == used + 1 <= |tokens|
    requires i < used && IsFirstHit(words, tokens, i)
    ensures IsCutAt(words, tokens, next, sent, stopped, i) <==> InTime(words, tokens, i)
  {
    assert IsCutAt(words, tokens, used, st.sent, false, i) <==> InTime(words, tokens, i);
  }

  /** A token behind which the text is not searched. */
  lemma StreamsOn(words: seq<Bytes>, tokens: seq<Bytes>, before: bool, eog: bool, used: nat, st: Stream, after: Stream, more: bool, next: nat)
    requires Streams(words, tokens, before, used, st, true, false) && used < |tokens| && next == used + 1
    requires after.sent == st.sent && !Complete(TextAfter(tokens, next))
    requires NoHit(words, tokens, used) ==> after.Text() == st.Text() + tokens[used]
    ensures Streams(words, tokens, eog, next, after, more, false)
  {
    NextText(tokens, used, next);
    assert NoHit(words, tokens, next) ==> NoHit(words, tokens, used);
    forall i: nat | i < next && IsFirstHit(words, tokens, i)
      ensures IsCutAt(words, tokens, next, after.sent, false, i) <==> InTime(words, tokens, i)
    {
      EarlierHit(words, tokens, before, used, st, next, after.sent, false, i);
    }
  }

  /** A search of a text without a stop word. */
  lemma StaysClean(words: seq<Bytes>, tokens: seq<Bytes>, before: bool, eog: bool, used: nat, st: Stream, after: Stream, more: bool, next: nat)
    requires ValidWords(words) && used < |tokens| && next == used + 1
    requires Clean(words, tokens, before, used, st, true, false) && !HasStop(words, TextAfter(tokens, next))
    requires after == StepOf(words, st, tokens[used], eog) && (more ==> !eog)
    ensures !after.stopped && Clean(words, tokens, eog, next, after, more, false)
  {
    var text := TextAfter(tokens, next);
    NextText(tokens, used, next);
    NoStopBefore(words, st.Text(), tokens[used]);
    StepDelivers(words, st, tokens[used], eog);
    Consequences(words, st, tokens[used], eog, after);
  }

  lemma NoStopBefore(words: seq<Bytes>, x: Bytes, y: Bytes)
    requires !HasStop(words, x + y)
    ensures !HasStop(words, x)
  {
    forall w | w in words
      ensures !Contains(x, w)
    {
      HasNoStop(words, x + y, w);
      if Contains(x, w) {
        assert (x + y)[..|x|] == x;
        OccurrenceInPrefix(x + y, |x|, w);
      }
    }
  }

  /** The first search of a text with a stop word. */
  lemma IsJudged(words: seq<Bytes>, tokens: seq<Bytes>, before: bool, eog: bool, used: nat, st: Stream, after: Stream, next: nat)
    requires ValidWords(words) && used < |tokens| && next == used + 1
    requires Clean(words, tokens, before, used, st, true, false)
    requires after == StepOf(words, st, tokens[used], eog)
    ensures IsCutAt(words, tokens, next, after.sent, after.stopped, used) <==> InTime(words, tokens, used)
  {
    NextText(tokens, used, next);
    CutsAtFirstStopIff(words, st, tokens[used], eog);
  }

  /** A token behind which the text is searched. */
  lemma StreamsSearched(words: seq<Bytes>, tokens: seq<Bytes>, before: bool, eog: bool, used: nat, st: Stream, after: Stream, more: bool, next: nat)
    requires ValidWords(words) && Streams(words, tokens, before, used, st, true, false) && used < |tokens| && next == used + 1
    requires after == StepOf(words, st, tokens[used], eog) && Complete(TextAfter(tokens, next))
    requires more ==> !eog && !after.stopped
    ensures Streams(words, tokens, eog, next, after, more, after.stopped)
  {
    if NoHit(words, tokens, next) {
      assert NoHit(words, tokens, used) && !IsHit(words, tokens, used);
      StaysClean(words, tokens, before, eog, used, st, after, more, next);
    }
    forall i: nat | i < next && IsFirstHit(words, tokens, i)
      ensures IsCutAt(words, tokens, next, after.sent, after.stopped, i) <==> InTime(words, tokens, i)
    {
      if i == used {
        IsJudged(words, tokens, before, eog, used, st, after, next);
      } else {
        EarlierHit(words, tokens, before, used, st, next, after.sent, after.stopped, i);
      }
    }
  }

  /** Whatever has been found before, a text that is not cut goes on. */
  lemma NotCut(words: seq<Bytes>, st: Stream, token: Bytes, eog: bool)
    ensures !StepOf(words, st, token, eog).stopped ==> StepOf(words, st, token, eog).Text() == st.Text() + token
  {
    AppendAssociates(st.sent, st.held, token);
    AppendNothing(st.Text() + token);
  }

  /** The state of the slot after a token, if its text is `next`. */
  lemma StreamsNext(words: seq<Bytes>, tokens: seq<Bytes>, before: bool, eog: bool, used: nat, st: Stream, now: Stream,
                    more: bool, stopped: bool, next: nat, token: Bytes)
    requires ValidWords(words) && Streams(words, tokens, before, used, st, true, false) && used < |tokens| && next == used + 1
    requires token == tokens[used] && st.Text() == TextAfter(tokens, used)
    requires stopped == (Complete(TextAfter(tokens, next)) && StepOf(words, st, token, eog).stopped) && (more ==> !eog && !stopped)
    requires if Complete(TextAfter(tokens, next)) then now.(stopped := stopped) == StepOf(words, st, token, eog)
             else now.sent == st.sent && now.Text() == st.Text() + token
    ensures Streams(words, tokens, eog, next, now, more, stopped) && (!stopped ==> now.Text() == TextAfter(tokens, next))
  {
    NextText(tokens, used, next);
    NotCut(words, st, token, eog);
    if Complete(TextAfter(tokens, next)) {
      StreamsSearched(words, tokens, before, eog, used, st, now.(stopped := stopped), more, next);
      SameStreams(words, tokens, eog, next, now.(stopped := stopped), now, more, stopped);
    } else {
      StreamsOn(words, tokens, before, eog, used, st, now, more, next);
    }
  }

  lemma SameStreams(words: seq<Bytes>, tokens: seq<Bytes>, eog: bool, used: nat, st: Stream, now: Stream, more: bool, stopped: bool)
    requires Streams(words, tokens, eog, used, st, more, stopped) && now.sent == st.sent && now.held == st.held
    ensures Streams(words, tokens, eog, used, now, more, stopped)
  {
  }

  /** The next token of a generation; `shown` is its text, without what a search has held back. */
  method StreamNext(slot: Slot, ghost tokens: seq<Bytes>, ghost before: bool, ghost used: nat, token: Bytes, limit: Limits)
    returns (shown: Bytes, more: bool, ghost stopped: bool)
    requires slot.Valid() && ValidWords(slot.antiprompt) && used < |tokens| && token == tokens[used]
    requires slot.generatedText == TextAfter(tokens, used)
    requires Streams(slot.antiprompt, tokens, before, used, slot.State(), true, false)
    modifies slot
    ensures slot.Valid() && (more <==> !limit.End(shown) && !stopped)
    ensures Streams(slot.antiprompt, tokens, limit.eog, used + 1, slot.State(), more, stopped)
    ensures !stopped ==> slot.generatedText == TextAfter(tokens, used + 1)
  {
    ghost var words, st, text := slot.antiprompt, slot.State(), slot.generatedText + token;
    SentAndUnsent(slot.sent, slot.generatedText);
    NextText(tokens, used, used + 1);
    shown, more := slot.ProcessToken(token, limit.eog, limit.contextFull, limit.noBudget, limit.timeUp);
    SentAndUnsent(slot.sent, slot.generatedText);
    stopped := Complete(text) && StepOf(words, st, token, limit.eog).stopped;
    StreamsNext(words, tokens, before, limit.eog, used, st, slot.State(), more, stopped, used + 1, token);
  }

  /** Why a generation has come to an end after some tokens, and no sooner. */
  ghost predicate Ends(limits: seq<Limits>, shown: seq<Bytes>, stopped: bool, more: bool) {
    && |shown| <= |limits|
    && (forall i | 0 <= i < |shown| - 1 :: !limits[i].End(shown[i]))
    && (more <==> !stopped && (shown != [] ==> !limits[|shown| - 1].End(shown[|shown| - 1])))
  }

  /**
   Any tokens, one after the other, until a stop word or one of the limits ends the generation. While
   no search could have found a stop word, all of the text is sent, but for the beginning of a stop
   word and what has not been searched. At the first search of a text with a stop word, the run ends
   and has sent the text before that stop word, if and only if the stop word, or one that starts at
   the same place, does not end before the last token.
   */
  method GenerateAny(words: seq<Bytes>, tokens: seq<Bytes>, limits: seq<Limits>)
    returns (shown: seq<Bytes>, ghost sent: Bytes, ghost stopped: bool)
    requires ValidWords(words) && |limits| == |tokens|
    ensures |shown| <= |tokens| && exists more :: Ends(limits, shown, stopped, more) && (more ==> |shown| == |tokens|)
    ensures NoHit(words, tokens, |shown|) ==>
      var text := TextAfter(tokens, |shown|);
      && !stopped && sent <= text && !HasStop(words, sent)
      && (Complete(text) ==> (sent == text <==> (shown != [] && limits[|shown| - 1].eog) || !MayStop(words, text)))
    ensures forall i: nat | i < |shown| && IsFirstHit(words, tokens, i) ::
      IsCutAt(words, tokens, |shown|, sent, stopped, i) <==> InTime(words, tokens, i)
  {
    var slot := new Slot(words);
    shown, stopped := [], false;
    StreamsFirst(words, tokens);
    var more := true;
    ghost var eog := false;
    while more && |shown| < |tokens|
      invariant slot.Valid() && slot.antiprompt == words && fresh(slot) && |shown| <= |tokens|
      invariant more ==> slot.generatedText == TextAfter(tokens, |shown|)
      invariant Streams(words, tokens, eog, |shown|, slot.State(), more, stopped) && Ends(limits, shown, stopped, more)
      invariant eog == (shown != [] && limits[|shown| - 1].eog)
      decreases |tokens| - |shown|
    {
      var piece;
      var used := |shown|;
      piece, more, stopped := StreamNext(slot, tokens, eog, used, tokens[used], limits[used]);
      eog := limits[used].eog;
      EndsNext(limits, shown, piece, stopped, more);
      shown := shown + [piece];
    }
    sent := slot.sent;
    if NoHit(words, tokens, |shown|) {
      Behind(words, tokens, eog, |shown|, slot.State(), more, stopped);
    }
  }

  lemma EndsNext(limits: seq<Limits>, shown: seq<Bytes>, piece: Bytes, stopped: bool, more: bool)
    requires Ends(limits, shown, false, true) && |shown| < |limits|
    requires more <==> !limits[|shown|].End(piece) && !stopped
    ensures Ends(limits, shown + [piece], stopped, more)
  {
  }

  lemma StreamsFirst(words: seq<Bytes>, tokens: seq<Bytes>)
    requires ValidWords(words)
    ensures Streams(words, tokens, false, 0, Stream([], [], false), true, false) && TextAfter(tokens, 0) == []
  {
    assert tokens[..0] == [];
    AppendNothing<Byte>([]);
  }

  lemma Behind(words: seq<Bytes>, tokens: seq<Bytes>, eog: bool, used: nat, st: Stream, more: bool, stopped: bool)
    requires Streams(words, tokens, eog, used, st, more, stopped) && NoHit(words, tokens, used)
    ensures st.sent <= TextAfter(tokens, used)
  {
  }

  lemma {:induction false} CompleteTexts(tokens: seq<Bytes>, n: nat)
    requires n <= |tokens| && forall t | t in tokens :: Complete(t)
    ensures Complete(TextAfter(tokens, n))
    decreases n
  {
    if n == 0 {
      assert tokens[..0] == [];
    } else {
      CompleteTexts(tokens, n - 1);
      NextText(tokens, n - 1, n);
      CompleteAppend(TextAfter(tokens, n - 1), tokens[n - 1]);
    }
  }

  /** If no token ends in the middle of a character no stop word is missed. */
  lemma CompleteTokensAreInTime(words: seq<Bytes>, tokens: seq<Bytes>, i: nat)
    requires ValidWords(words) && i < |tokens| && IsFirstHit(words, tokens, i) && forall t | t in tokens :: Complete(t)
    ensures InTime(words, tokens, i)
  {
    StreamsFirst(words, tokens);
    var text := TextAfter(tokens, i);
    if i > 0 {
      CompleteTexts(tokens, i);
      var last := i - 1;
      assert !IsHit(words, tokens, last);
    }
    assert !HasStop(words, text) && Settled(words, []);
    var st := Stream([], text, false);
    assert st.Text() == text;
    NextText(tokens, i, i + 1);
    StepDelivers(words, st, tokens[i], false);
    CutsAtFirstStopIff(words, st, tokens[i], false);
  }
}
