/**
 The streaming of generated text with stop words. Each new token is searched for stop words
 only in a window of the text that is not sent yet; what is sent is nevertheless what a
 search of the whole text would allow.
 */
module StopWords {
  import opened Text

  type Byte = b: int | 0 <= b < 256
  type Bytes = seq<Byte>

  // ----- complete UTF-8 -----

  /** How many bytes the character has that starts with c; 0 if c starts no multi-byte character. */
  function Needs(c: Byte): nat {
    if 0xC0 <= c < 0xE0 then 2
    else if 0xE0 <= c < 0xF0 then 3
    else if 0xF0 <= c < 0xF8 then 4
    else 0
  }

  /** The i-th byte from the end starts a character that is cut off. */
  predicate CutOff(text: Bytes, i: nat)
    requires 1 <= i <= |text|
  {
    Needs(text[|text| - i]) > i
  }

  predicate Complete(text: Bytes) {
    forall i | 1 <= i <= 4 && i <= |text| :: !CutOff(text, i)
  }

  /** The length of the text without a character that is cut off at its end. */
  method ValidateUtf8(text: Bytes) returns (n: nat)
    ensures n <= |text| && (n == |text| <==> Complete(text))
    ensures n < |text| ==> |text| - n <= 4 && CutOff(text, |text| - n)
  {
    if |text| == 0 { return 0; }
    var i := 1;
    while i <= 4 && i <= |text|
      invariant 1 <= i <= 5
      invariant forall j | 1 <= j < i && j <= |text| :: !CutOff(text, j)
    {
      var c := text[|text| - i];
      assert Needs(c) > i ==> CutOff(text, i);
      if 0xC0 <= c < 0xE0 {
        if i < 2 { return |text| - i; }
      } else if 0xE0 <= c < 0xF0 {
        if i < 3 { return |text| - i; }
      } else if 0xF0 <= c < 0xF8 {
        if i < 4 { return |text| - i; }
      }
      i := i + 1;
    }
    return |text|;
  }

  /** Complete texts make a complete text. */
  lemma CompleteAppend(a: Bytes, b: Bytes)
    requires Complete(a) && Complete(b)
    ensures Complete(a + b)
  {
    forall i | 1 <= i <= 4 && i <= |a + b|
      ensures !CutOff(a + b, i)
    {
      if i <= |b| {
        assert (a + b)[|a + b| - i] == b[|b| - i];
        assert !CutOff(b, i);
      } else {
        assert (a + b)[|a + b| - i] == a[|a| - (i - |b|)];
        assert !CutOff(a, i - |b|);
      }
    }
  }

  // ----- searching -----

  /** `std::string::find(word, from)`. */
  function FindFrom(s: Bytes, w: Bytes, from: nat): int
    requires from <= |s|
  {
    var r := Index(s[from..], w);
    if r == -1 then -1 else from + r
  }

  /** Where a suffix of s starts that is a prefix of w: the longest one; -1 if there is none. */
  function FindPartial(s: Bytes, w: Bytes): int {
    var k := Overlap(s, w);
    if k == 0 then -1 else |s| - k
  }

  /** Where the code's search finds w; the search for a whole word looks at the end of the text only. */
  function Position(s: Bytes, w: Bytes, lastTokenSize: nat, full: bool): int {
    if full then FindFrom(s, w, Max(0, |s| - (|w| + lastTokenSize))) else FindPartial(s, w)
  }

  /** r is the least position at which the code's search finds a word; -1 if it finds none. */
  ghost predicate IsLeast(words: seq<Bytes>, s: Bytes, lastTokenSize: nat, full: bool, r: int) {
    && (forall w | w in words :: Position(s, w, lastTokenSize, full) == -1 || 0 <= r <= Position(s, w, lastTokenSize, full))
    && (r != -1 ==> exists w | w in words :: Position(s, w, lastTokenSize, full) == r)
  }

  /** w is the first word in the list that is found at r. */
  ghost predicate IsFirstWordAt(words: seq<Bytes>, s: Bytes, lastTokenSize: nat, r: int, w: Bytes) {
    exists i | 0 <= i < |words| ::
      && words[i] == w && Position(s, w, lastTokenSize, true) == r
      && forall j | 0 <= j < i :: Position(s, words[j], lastTokenSize, true) != r
  }

  /** The code's search of the text that is not sent finds a stop word. */
  ghost predicate WindowHasStop(words: seq<Bytes>, held: Bytes, token: Bytes) {
    exists w | w in words :: Position(held + token, w, |token|, true) != -1
  }

  predicate HasStop(words: seq<Bytes>, text: Bytes) {
    exists w | w in words :: Contains(text, w)
  }

  /** The text ends with the beginning of a stop word, or with a stop word. */
  predicate MayStop(words: seq<Bytes>, text: Bytes) {
    exists w | w in words :: Overlap(text, w) > 0
  }

  /** p is where the first stop word of the text starts. */
  ghost predicate IsFirstStop(words: seq<Bytes>, text: Bytes, p: int) {
    && p >= 0 && (exists w | w in words :: Index(text, w) == p)
    && forall w | w in words :: Contains(text, w) ==> p <= Index(text, w)
  }

  // ----- the window sees enough -----

  lemma FindFromIsFirst(s: Bytes, w: Bytes, from: nat)
    requires from <= |s|
    ensures FindFrom(s, w, from) != -1 ==> from <= FindFrom(s, w, from) && OccursAt(s, w, FindFrom(s, w, from))
    ensures forall j :: from <= j && OccursAt(s, w, j) ==> 0 <= FindFrom(s, w, from) <= j
  {
    IndexIsFirst(s[from..], w);
    forall j | from <= j
      ensures OccursAt(s, w, j) <==> OccursAt(s[from..], w, j - from)
    {
      DropOccurrence(s, w, from, j);
    }
    if FindFrom(s, w, from) != -1 {
      DropOccurrence(s, w, from, FindFrom(s, w, from));
    }
  }

  lemma DropOccurrence<T>(s: seq<T>, w: seq<T>, d: nat, j: int)
    requires d <= |s| && d <= j
    ensures OccursAt(s, w, j) <==> OccursAt(s[d..], w, j - d)
  {
    if j + |w| <= |s| {
      assert s[j..j + |w|] == s[d..][j - d..j - d + |w|];
    }
  }

  /** An occurrence in u + t that ends inside u is an occurrence in u. */
  lemma OccurrenceInside<T>(u: seq<T>, t: seq<T>, w: seq<T>, j: int)
    requires 0 <= j && j + |w| <= |u|
    ensures OccursAt(u + t, w, j) <==> OccursAt(u, w, j)
  {
    assert (u + t)[j..j + |w|] == u[j..j + |w|];
  }

  /** A search from an index on finds the first occurrence, or misses it if it starts before. */
  lemma FindFromIsIndex(s: Bytes, w: Bytes, from: nat)
    requires from <= |s|
    ensures FindFrom(s, w, from) == Index(s, w) <==> (Contains(s, w) ==> from <= Index(s, w))
  {
    FindFromIsFirst(s, w, from);
    IndexIsFirst(s, w);
  }

  /**
   The windowed search of a text whose last token has n bytes finds what the full search
   finds, exactly if the first occurrence does not end before that token.
   */
  lemma WindowFindsExactly(s: Bytes, n: nat, w: Bytes)
    requires n <= |s|
    ensures Position(s, w, n, true) == Index(s, w) <==> (Contains(s, w) ==> |s| - n <= Index(s, w) + |w|)
  {
    FindFromIsIndex(s, w, Max(0, |s| - (|w| + n)));
  }

  /** So it does if there is no occurrence before the last token. */
  lemma WindowSuffices(u: Bytes, t: Bytes, w: Bytes)
    requires !Contains(u, w)
    ensures Position(u + t, w, |t|, true) == Index(u + t, w)
  {
    WindowFindsExactly(u + t, |t|, w);
    var j := Index(u + t, w);
    if j != -1 && j + |w| < |u| {
      IndexIsFirst(u + t, w);
      IndexIsFirst(u, w);
      OccurrenceInside(u, t, w, j);
    }
  }

  // ----- what was sent is out of reach -----

  /** No stop word is in the text, and none can begin at its end. */
  ghost predicate Settled(words: seq<Bytes>, sent: Bytes) {
    !HasStop(words, sent) && !MayStop(words, sent)
  }

  /** If w cannot begin in `sent`, its occurrences in sent + u are those in u. */
  lemma SearchUnsent(sent: Bytes, u: Bytes, w: Bytes)
    requires w != [] && !Contains(sent, w) && Overlap(sent, w) == 0
    ensures Index(sent + u, w) == if Contains(u, w) then |sent| + Index(u, w) else -1
  {
    ScanIsIndex(sent, w);
    ScanIsOverlap(sent, w);
    assert Scan(sent, w) == Open(sent, []) by { assert sent[..|sent|] == sent; }
    ScanExtension(sent, u, w);
    AppendNothing(u);
    ScanIsIndex(u, w);
    ScanIsIndex(sent + u, w);
    ScanRestores(u, w);
    if Contains(u, w) {
      assert |Scan(u, w).before| == Index(u, w);
      assert |Scan(sent + u, w).before| == |sent| + Index(u, w);
    }
  }

  /** Nor can it begin in `sent` and go on in a u that ends with no beginning of it. */
  lemma StaysSettled(sent: Bytes, u: Bytes, w: Bytes)
    requires w != [] && !Contains(sent, w) && Overlap(sent, w) == 0
    requires !Contains(u, w)
    ensures Overlap(sent + u, w) == Overlap(u, w)
  {
    ScanIsIndex(sent, w);
    ScanIsOverlap(sent, w);
    assert Scan(sent, w) == Open(sent, []) by { assert sent[..|sent|] == sent; }
    ScanExtension(sent, u, w);
    AppendNothing(u);
    ScanIsIndex(u, w);
    ScanIsOverlap(u, w);
    ScanIsOverlap(sent + u, w);
  }

  // ----- streaming, with full searches -----

  /** What has been sent, and what is held back because it may begin a stop word. */
  datatype Stream = Stream(sent: Bytes, held: Bytes, stopped: bool) {
    function Text(): Bytes { sent + held }

    ghost predicate Valid(words: seq<Bytes>) {
      && !HasStop(words, Text())
      && Settled(words, sent)
    }
  }

  ghost predicate ValidWords(words: seq<Bytes>) {
    forall w | w in words :: w != []
  }

  /** What the user may see after one more token: decided by full searches of the whole text. */
  ghost predicate Delivers(words: seq<Bytes>, before: Stream, token: Bytes, eog: bool, after: Stream) {
    var text := before.Text() + token;
    if HasStop(words, text) then
      && after.stopped && after.held == []
      && |after.sent| <= |text| && after.sent == text[..|after.sent|] && IsFirstStop(words, text, |after.sent|)
    else
      after == if !eog && MayStop(words, text) then Stream(before.sent, before.held + token, false)
               else Stream(text, [], false)
  }

  lemma HasNoStop(words: seq<Bytes>, text: Bytes, w: Bytes)
    requires w in words
    ensures !HasStop(words, text) ==> !Contains(text, w)
    ensures !MayStop(words, text) ==> Overlap(text, w) == 0
  {
  }

  /** A text without w has no w in its second part. */
  lemma NoneInSuffix(x: Bytes, y: Bytes, w: Bytes)
    requires !Contains(x + y, w)
    ensures !Contains(y, w)
  {
    IndexIsFirst(x + y, w);
    IndexIsFirst(y, w);
    assert (x + y)[|x|..] == y;
    DropOccurrence(x + y, w, |x|, |x| + Text.Max(0, Index(y, w)));
  }

  /** The window over the text that is not sent decides about the whole text. */
  lemma OneWord(words: seq<Bytes>, st: Stream, token: Bytes, w: Bytes)
    requires ValidWords(words) && st.Valid(words) && w in words
    ensures
      var p := Position(st.held + token, w, |token|, true);
      Index(st.Text() + token, w) == if p == -1 then -1 else |st.sent| + p
  {
    HasNoStop(words, st.sent, w);
    HasNoStop(words, st.Text(), w);
    NoneInSuffix(st.sent, st.held, w);
    WindowSuffices(st.held, token, w);
    SearchUnsent(st.sent, st.held + token, w);
    AppendAssociates(st.sent, st.held, token);
  }

  lemma WholeStop(words: seq<Bytes>, st: Stream, token: Bytes, p: int)
    requires ValidWords(words) && st.Valid(words) && IsLeast(words, st.held + token, |token|, true, p)
    ensures var text := st.Text() + token;
            if p == -1 then !HasStop(words, text)
            else HasStop(words, text) && 0 <= p <= |st.held + token| && IsFirstStop(words, text, |st.sent| + p)
  {
    forall w | w in words
      ensures
        var q := Position(st.held + token, w, |token|, true);
        Index(st.Text() + token, w) == if q == -1 then -1 else |st.sent| + q
    {
      OneWord(words, st, token, w);
    }
    if p != -1 {
      var w :| w in words && Position(st.held + token, w, |token|, true) == p;
      assert Index(st.Text() + token, w) == |st.sent| + p;
    }
  }

  lemma PartialStop(words: seq<Bytes>, s: Bytes, n: nat, p: int)
    requires IsLeast(words, s, n, false, p)
    ensures p == -1 <==> !MayStop(words, s)
  {
    forall w | w in words
      ensures Overlap(s, w) > 0 <==> Position(s, w, n, false) != -1
    {
    }
  }

  /** What a text without a stop word ends with is what the text that is not sent ends with. */
  lemma MayStopInUnsent(words: seq<Bytes>, st: Stream, token: Bytes)
    requires ValidWords(words) && st.Valid(words) && !HasStop(words, st.Text() + token)
    ensures MayStop(words, st.held + token) <==> MayStop(words, st.Text() + token)
  {
    AppendAssociates(st.sent, st.held, token);
    forall w | w in words
      ensures Overlap(st.Text() + token, w) == Overlap(st.held + token, w)
    {
      HasNoStop(words, st.sent, w);
      HasNoStop(words, st.Text() + token, w);
      NoneInSuffix(st.sent, st.held + token, w);
      StaysSettled(st.sent, st.held + token, w);
    }
  }

  /** What the code leaves after a token, given what its two searches found. */
  function Leaves(st: Stream, token: Bytes, eog: bool, wholeStop: int, partialStop: int): Stream
    requires -1 <= wholeStop <= |st.held + token|
  {
    var text := st.Text() + token;
    if wholeStop != -1 then Stream(text[..|st.sent| + wholeStop], [], true)
    else if !eog && partialStop != -1 then Stream(st.sent, st.held + token, false)
    else Stream(text, [], false)
  }

  /** The code delivers what full searches would deliver. */
  lemma LeavesIsDelivers(words: seq<Bytes>, st: Stream, token: Bytes, eog: bool, wholeStop: int, partialStop: int)
    requires ValidWords(words) && st.Valid(words) && IsLeast(words, st.held + token, |token|, true, wholeStop)
    requires wholeStop == -1 && !eog ==> IsLeast(words, st.held + token, |token|, false, partialStop)
    requires -1 <= wholeStop <= |st.held + token|
    ensures
      var after := Leaves(st, token, eog, wholeStop, partialStop);
      && Delivers(words, st, token, eog, after)
      && (after.stopped <==> HasStop(words, st.Text() + token))
      && (!after.stopped && !eog ==> after.Valid(words))
  {
    WholeStop(words, st, token, wholeStop);
    if wholeStop != -1 {
      CutDelivers(words, st, token, eog, wholeStop, partialStop);
    } else {
      if !eog {
        PartialStop(words, st.held + token, |token|, partialStop);
        MayStopInUnsent(words, st, token);
      }
      RestDelivers(words, st, token, eog, partialStop);
    }
  }

  lemma CutDelivers(words: seq<Bytes>, st: Stream, token: Bytes, eog: bool, p: nat, partialStop: int)
    requires HasStop(words, st.Text() + token) && p <= |st.held + token| && IsFirstStop(words, st.Text() + token, |st.sent| + p)
    ensures var after := Leaves(st, token, eog, p, partialStop);
      Delivers(words, st, token, eog, after) && after.stopped
  {
    AppendAssociates(st.sent, st.held, token);
  }

  lemma RestDelivers(words: seq<Bytes>, st: Stream, token: Bytes, eog: bool, partialStop: int)
    requires st.Valid(words) && !HasStop(words, st.Text() + token)
    requires !eog ==> (partialStop == -1 <==> !MayStop(words, st.Text() + token))
    ensures var after := Leaves(st, token, eog, -1, partialStop);
      Delivers(words, st, token, eog, after) && !after.stopped && (!eog ==> after.Valid(words))
  {
    HoldsOn(words, st, token);
  }

  /** Without a stop word what is held, or sent, is valid again. */
  lemma HoldsOn(words: seq<Bytes>, st: Stream, token: Bytes)
    requires st.Valid(words) && !HasStop(words, st.Text() + token)
    ensures Stream(st.sent, st.held + token, false).Valid(words)
    ensures !MayStop(words, st.Text() + token) ==> Stream(st.Text() + token, [], false).Valid(words)
  {
    AppendAssociates(st.sent, st.held, token);
    AppendNothing(st.Text() + token);
  }

  // ----- what the code does, as a function -----

  /** The least position at which the code's search finds a word; -1 if it finds none. */
  function Least(words: seq<Bytes>, s: Bytes, lastTokenSize: nat, full: bool): (r: int)
    ensures -1 <= r <= |s|
  {
    if words == [] then -1
    else
      var p, q := Position(s, words[0], lastTokenSize, full), Least(words[1..], s, lastTokenSize, full);
      if p == -1 || (q != -1 && q < p) then q else p
  }

  lemma {:induction false} LeastIs(words: seq<Bytes>, s: Bytes, n: nat, full: bool)
    ensures IsLeast(words, s, n, full, Least(words, s, n, full))
  {
    if words != [] {
      LeastIs(words[1..], s, n, full);
      assert words == [words[0]] + words[1..];
      if Least(words, s, n, full) != -1 && Position(s, words[0], n, full) != Least(words, s, n, full) {
        var w :| w in words[1..] && Position(s, w, n, full) == Least(words[1..], s, n, full);
        assert w in words;
      }
    }
  }

  lemma LeastIsTheOne(words: seq<Bytes>, s: Bytes, n: nat, full: bool, r: int)
    requires IsLeast(words, s, n, full, r)
    ensures r == Least(words, s, n, full)
  {
    LeastIs(words, s, n, full);
  }

  /** What one token does to what is sent and what is held, if it completes its last character. */
  function StepOf(words: seq<Bytes>, st: Stream, token: Bytes, eog: bool): Stream {
    Leaves(st, token, eog, Least(words, st.held + token, |token|, true), Least(words, st.held + token, |token|, false))
  }

  lemma LeavesIsStep(words: seq<Bytes>, st: Stream, token: Bytes, eog: bool, wholeStop: int, partialStop: int)
    requires IsLeast(words, st.held + token, |token|, true, wholeStop) && -1 <= wholeStop <= |st.held + token|
    requires wholeStop == -1 && !eog ==> IsLeast(words, st.held + token, |token|, false, partialStop)
    ensures Leaves(st, token, eog, wholeStop, partialStop) == StepOf(words, st, token, eog)
    ensures StepOf(words, st, token, eog).stopped <==> WindowHasStop(words, st.held, token)
  {
    LeastIsTheOne(words, st.held + token, |token|, true, wholeStop);
    if wholeStop == -1 && !eog {
      LeastIsTheOne(words, st.held + token, |token|, false, partialStop);
    }
  }

  /** Without a stop word in the text so far, it does what full searches would do. */
  lemma StepDelivers(words: seq<Bytes>, st: Stream, token: Bytes, eog: bool)
    requires ValidWords(words) && st.Valid(words)
    ensures var after := StepOf(words, st, token, eog);
      && Delivers(words, st, token, eog, after)
      && (after.stopped <==> HasStop(words, st.Text() + token))
      && (!after.stopped && !eog ==> after.Valid(words))
  {
    LeastIs(words, st.held + token, |token|, true);
    LeastIs(words, st.held + token, |token|, false);
    LeavesIsDelivers(words, st, token, eog, Least(words, st.held + token, |token|, true), Least(words, st.held + token, |token|, false));
  }

  lemma CompleteDelivers(words: seq<Bytes>, st: Stream, token: Bytes, eog: bool, now: Stream)
    requires ValidWords(words) && st.Valid(words)
    requires now.(stopped := StepOf(words, st, token, eog).stopped) == StepOf(words, st, token, eog)
    ensures var stopped := HasStop(words, st.Text() + token);
      && stopped == StepOf(words, st, token, eog).stopped
      && Delivers(words, st, token, eog, now.(stopped := stopped)) && (!stopped && !eog ==> now.Valid(words))
  {
    StepDelivers(words, st, token, eog);
  }

  /** A word that starts where the first stop word does, and does not end before the last n bytes. */
  ghost predicate IsLate(words: seq<Bytes>, text: Bytes, n: nat, w: Bytes) {
    w in words && IsFirstStop(words, text, Index(text, w)) && |text| - n <= Index(text, w) + |w|
  }

  ghost predicate EndsLate(words: seq<Bytes>, text: Bytes, n: nat) {
    exists w :: IsLate(words, text, n, w)
  }

  /** What the window over the unsent text finds of a word that cannot begin in the text that is sent. */
  lemma WindowOverUnsent(words: seq<Bytes>, st: Stream, token: Bytes, w: Bytes)
    requires ValidWords(words) && Settled(words, st.sent) && w in words
    ensures var p, i := Position(st.held + token, w, |token|, true), Index(st.Text() + token, w);
      && (i == -1 ==> p == -1)
      && (p != -1 ==> |st.sent| + p >= i != -1)
      && (i != -1 ==> (p != -1 && |st.sent| + p == i <==> |st.Text() + token| - |token| <= i + |w|))
  {
    var u := st.held + token;
    HasNoStop(words, st.sent, w);
    SearchUnsent(st.sent, u, w);
    AppendAssociates(st.sent, st.held, token);
    WindowFindsExactly(u, |token|, w);
    FindFromIsFirst(u, w, Max(0, |u| - (|w| + |token|)));
    IndexIsFirst(u, w);
  }

  /**
   Whatever is held, also if tokens that end in the middle of a character have not been searched:
   the text is cut at its first stop word exactly if a stop word that starts there does not end
   before the last token. Without a stop word it is not cut.
   */
  lemma CutsAtFirstStopIff(words: seq<Bytes>, st: Stream, token: Bytes, eog: bool)
    requires ValidWords(words) && Settled(words, st.sent)
    ensures var text, after := st.Text() + token, StepOf(words, st, token, eog);
      && (after.stopped ==> HasStop(words, text))
      && (after.stopped && IsFirstStop(words, text, |after.sent|) <==> EndsLate(words, text, |token|))
  {
    LeastIs(words, st.held + token, |token|, true);
    CutIs(words, st, token, eog);
    FoundIff(words, st, token, Least(words, st.held + token, |token|, true));
  }

  lemma FoundIff(words: seq<Bytes>, st: Stream, token: Bytes, p: int)
    requires ValidWords(words) && Settled(words, st.sent) && IsLeast(words, st.held + token, |token|, true, p) && p >= -1
    ensures p != -1 ==> HasStop(words, st.Text() + token)
    ensures p != -1 && IsFirstStop(words, st.Text() + token, |st.sent| + p) <==> EndsLate(words, st.Text() + token, |token|)
  {
    if p != -1 {
      FoundIsStop(words, st, token, p);
    }
    if w :| IsLate(words, st.Text() + token, |token|, w) {
      LateIsFound(words, st, token, w, p);
    }
  }

  lemma CutIs(words: seq<Bytes>, st: Stream, token: Bytes, eog: bool)
    ensures var p, after := Least(words, st.held + token, |token|, true), StepOf(words, st, token, eog);
      (after.stopped <==> p != -1) && (p != -1 ==> |after.sent| == |st.sent| + p)
  {
    AppendAssociates(st.sent, st.held, token);
  }

  /** What is found is a stop word; if it is the first one, it does not end before the last token. */
  lemma FoundIsStop(words: seq<Bytes>, st: Stream, token: Bytes, p: nat)
    requires ValidWords(words) && Settled(words, st.sent) && IsLeast(words, st.held + token, |token|, true, p)
    ensures HasStop(words, st.Text() + token)
    ensures IsFirstStop(words, st.Text() + token, |st.sent| + p) ==> EndsLate(words, st.Text() + token, |token|)
  {
    var w :| w in words && Position(st.held + token, w, |token|, true) == p;
    WindowOverUnsent(words, st, token, w);
    assert Contains(st.Text() + token, w);
    if IsFirstStop(words, st.Text() + token, |st.sent| + p) {
      assert IsLate(words, st.Text() + token, |token|, w);
    }
  }

  lemma LateIsFound(words: seq<Bytes>, st: Stream, token: Bytes, w: Bytes, p: int)
    requires ValidWords(words) && Settled(words, st.sent) && IsLate(words, st.Text() + token, |token|, w)
    requires IsLeast(words, st.held + token, |token|, true, p)
    ensures p != -1 && IsFirstStop(words, st.Text() + token, |st.sent| + p)
  {
    WindowOverUnsent(words, st, token, w);
    if p != Position(st.held + token, w, |token|, true) {
      var v :| v in words && Position(st.held + token, v, |token|, true) == p;
      WindowOverUnsent(words, st, token, v);
      assert Contains(st.Text() + token, v);
    }
  }

  // ----- the slot -----

  datatype StopType = None | Eos | Word | Limit

  class Slot {
    var generatedText: Bytes
    var nSentText: nat
    var hasNextToken: bool
    var stop: StopType
    var stoppingWord: Bytes
    const antiprompt: seq<Bytes>
    /** Everything sent so far. */
    ghost var sent: Bytes

    constructor (antiprompt: seq<Bytes>)
      ensures this.antiprompt == antiprompt && Valid() && generatedText == sent == []
    {
      this.antiprompt := antiprompt;
      generatedText, nSentText, sent := [], 0, [];
      hasNextToken, stop, stoppingWord := true, None, [];
    }

    ghost predicate Valid()
      reads this
    {
      nSentText == |sent| && sent <= generatedText
    }

    ghost function State(): Stream
      reads this
      requires Valid()
    {
      Stream(sent, generatedText[|sent|..], false)
    }

    /** The earliest stop word, whole or partial; a whole one ends the generation. */
    method FindStoppingStrings(text: Bytes, lastTokenSize: nat, isFullStop: bool) returns (stopPos: int)
      modifies this`stop, this`stoppingWord, this`hasNextToken
      ensures IsLeast(antiprompt, text, lastTokenSize, isFullStop, stopPos)
      ensures if isFullStop && stopPos != -1 then
                stop == Word && !hasNextToken && IsFirstWordAt(antiprompt, text, lastTokenSize, stopPos, stoppingWord)
              else stop == old(stop) && stoppingWord == old(stoppingWord) && hasNextToken == old(hasNextToken)
    {
      stopPos := -1;
      ghost var found := 0;
      var i := 0;
      while i < |antiprompt|
        invariant 0 <= i <= |antiprompt|
        invariant forall j | 0 <= j < i ::
          var p := Position(text, antiprompt[j], lastTokenSize, isFullStop);
          p == -1 || (0 <= stopPos <= p && (j < found ==> stopPos < p))
        invariant stopPos != -1 ==>
          found < i && stopPos == Position(text, antiprompt[found], lastTokenSize, isFullStop) && 0 <= stopPos
        invariant if isFullStop && stopPos != -1 then stop == Word && !hasNextToken && stoppingWord == antiprompt[found]
                  else stop == old(stop) && stoppingWord == old(stoppingWord) && hasNextToken == old(hasNextToken)
      {
        var word := antiprompt[i];
        var pos;
        if isFullStop {
          var tmp := |word| + lastTokenSize;
          var fromPos := if |text| > tmp then |text| - tmp else 0;
          pos := FindFrom(text, word, fromPos);
        } else {
          pos := FindPartial(text, word);
        }
        if pos != -1 && (stopPos == -1 || pos < stopPos) {
          if isFullStop {
            stop := Word;
            stoppingWord := word;
            hasNextToken := false;
          }
          stopPos := pos;
          found := i;
        }
        i := i + 1;
      }
      if stopPos != -1 {
        assert antiprompt[found] in antiprompt;
      }
    }

    /**
     One sampled token. `eog` says that the token ends the generation, `contextFull` that there
     is no room for another one, `noBudget` that no further token may be generated, and `timeUp`
     that generation ends with the line.
     */
    method ProcessToken(token: Bytes, eog: bool, contextFull: bool, noBudget: bool, timeUp: bool) returns (textToSend: Bytes, more: bool)
      requires Valid() && ValidWords(antiprompt)
      modifies this
      ensures Valid() && more == hasNextToken
      ensures Complete(old(generatedText) + token) ==> sent == old(sent) + textToSend
      ensures Complete(old(generatedText) + token) ==>
        var after := StepOf(antiprompt, old(State()), token, eog);
        && State().(stopped := after.stopped) == after
        && (after.stopped <==> WindowHasStop(antiprompt, old(State()).held, token))
      ensures !Complete(old(generatedText) + token) ==>
        sent == old(sent) && State().Text() == old(generatedText) + token && textToSend == token
      ensures Complete(old(generatedText) + token) && old(State()).Valid(antiprompt) ==>
        var stopped := HasStop(antiprompt, old(generatedText) + token);
        && Delivers(antiprompt, old(State()), token, eog, State().(stopped := stopped))
        && (stopped <==> WindowHasStop(antiprompt, old(State()).held, token))
        && (stopped ==> stoppingWord in antiprompt)
        && (more ==> State().Valid(antiprompt))
      ensures var found := Complete(old(generatedText) + token) && WindowHasStop(antiprompt, old(State()).held, token);
        stop == if eog then Eos
                else if contextFull || (timeUp && 10 in textToSend) || (noBudget && !found) then Limit
                else if found then Word else old(stop)
      ensures more <==> !eog && !contextFull && !noBudget && !(timeUp && 10 in textToSend)
                        && (Complete(old(generatedText) + token) ==> !WindowHasStop(antiprompt, old(State()).held, token))
    {
      textToSend := Receive(token, eog);
      CheckLimits(textToSend, eog, contextFull, noBudget, timeUp);
      more := hasNextToken;
    }

    /** The part of ProcessToken that takes the token in, and searches the text if it is complete. */
    method Receive(token: Bytes, eog: bool) returns (textToSend: Bytes)
      requires Valid() && ValidWords(antiprompt)
      modifies this
      ensures Valid()
      ensures Complete(old(generatedText) + token) ==> sent == old(sent) + textToSend
      ensures Complete(old(generatedText) + token) ==>
        var after := StepOf(antiprompt, old(State()), token, eog);
        && State().(stopped := after.stopped) == after
        && (after.stopped <==> WindowHasStop(antiprompt, old(State()).held, token))
      ensures !Complete(old(generatedText) + token) ==>
        sent == old(sent) && State().Text() == old(generatedText) + token && textToSend == token
      ensures Complete(old(generatedText) + token) && old(State()).Valid(antiprompt) ==>
        var stopped := HasStop(antiprompt, old(generatedText) + token);
        && Delivers(antiprompt, old(State()), token, eog, State().(stopped := stopped))
        && (stopped <==> WindowHasStop(antiprompt, old(State()).held, token))
        && (stopped ==> stoppingWord in antiprompt) && (!stopped && !eog ==> State().Valid(antiprompt))
      ensures var found := Complete(old(generatedText) + token) && WindowHasStop(antiprompt, old(State()).held, token);
        hasNextToken == !found && stop == if found then Word else old(stop)
    {
      textToSend := token;
      ghost var before := State();
      generatedText := generatedText + token;
      hasNextToken := true;
      var n := ValidateUtf8(generatedText);
      var incomplete := n < |generatedText|;
      if !incomplete {
        textToSend := SearchComplete(before, token, eog);
        if before.Valid(antiprompt) {
          CompleteDelivers(antiprompt, before, token, eog, State());
        }
      }
      if incomplete {
        hasNextToken := true;
      }
    }

    /** The part of ProcessToken for a text that ends with a complete character does what the function says. */
    method SearchComplete(ghost before: Stream, token: Bytes, eog: bool) returns (textToSend: Bytes)
      requires nSentText == |sent| && hasNextToken && before.sent == sent && generatedText == before.Text() + token
      modifies this
      ensures Valid() && sent == before.sent + textToSend
      ensures var after := StepOf(antiprompt, before, token, eog);
        && State().(stopped := after.stopped) == after && (after.stopped <==> WindowHasStop(antiprompt, before.held, token))
        && (hasNextToken <==> !after.stopped) && (after.stopped ==> stoppingWord in antiprompt)
        && stop == if after.stopped then Word else old(stop)
    {
      ghost var wholeStop, partialStop;
      textToSend, wholeStop, partialStop := SearchAndSend(before, token, eog);
      ghost var leaves := Leaves(before, token, eog, wholeStop, partialStop);
      SentAndRest(leaves.sent, leaves.held);
      LeavesIsStep(antiprompt, before, token, eog, wholeStop, partialStop);
    }

    /** The part of ProcessToken that ends the generation for other reasons than stop words. */
    method CheckLimits(textToSend: Bytes, eog: bool, contextFull: bool, noBudget: bool, timeUp: bool)
      modifies this`stop, this`hasNextToken
      ensures hasNextToken <==> old(hasNextToken) && !eog && !contextFull && !noBudget && !(timeUp && 10 in textToSend)
      ensures stop == if eog then Eos
                      else if contextFull || (timeUp && 10 in textToSend) || (noBudget && old(hasNextToken)) then Limit
                      else old(stop)
    {
      if contextFull {
        stop := Limit;
        hasNextToken := false;
      }
      if hasNextToken && noBudget {
        stop := Limit;
        hasNextToken := false;
      }
      if timeUp && 10 in textToSend {
        stop := Limit;
        hasNextToken := false;
      }
      if eog {
        stop := Eos;
        hasNextToken := false;
      }
    }

    /** The part of ProcessToken for a text that ends with a complete character. */
    method SearchAndSend(ghost before: Stream, token: Bytes, eog: bool)
      returns (textToSend: Bytes, ghost wholeStop: int, ghost partialStop: int)
      requires nSentText == |sent| && hasNextToken
      requires before.sent == sent && generatedText == before.Text() + token
      modifies this
      ensures nSentText == |sent| && sent == before.sent + textToSend
      ensures IsLeast(antiprompt, before.held + token, |token|, true, wholeStop)
      ensures wholeStop == -1 && !eog ==> IsLeast(antiprompt, before.held + token, |token|, false, partialStop)
      ensures -1 <= wholeStop <= |before.held + token|
      ensures hasNextToken <==> wholeStop == -1
      ensures stop == if wholeStop != -1 then Word else old(stop)
      ensures wholeStop != -1 ==> stoppingWord in antiprompt
      ensures sent == Leaves(before, token, eog, wholeStop, partialStop).sent
      ensures generatedText == Leaves(before, token, eog, wholeStop, partialStop).Text()
    {
      ghost var text := generatedText;
      TextAndUnsent(before, token, text);
      var pos := Min(nSentText, |generatedText|);
      var strTest := generatedText[pos..];
      var stopPos := FindStoppingStrings(strTest, |token|, true);
      PositionInText(antiprompt, strTest, |token|, stopPos);
      wholeStop, partialStop := stopPos, -1;
      if stopPos != -1 {
        textToSend := CutAndSend(pos, stopPos);
      } else {
        textToSend, partialStop := SendOrHold(pos, strTest, |token|, eog);
      }
      WhatIsLeft(before, token, text, eog, wholeStop, partialStop);
    }

    /** A stop word is deleted with all that follows; what is before it is sent. */
    method CutAndSend(pos: nat, stopPos: nat) returns (textToSend: Bytes)
      requires nSentText == |sent| == pos && pos + stopPos <= |generatedText| && sent == generatedText[..pos]
      modifies this`generatedText, this`nSentText, this`sent
      ensures sent == old(sent) + textToSend == generatedText == old(generatedText)[..pos + stopPos]
      ensures nSentText == |sent|
    {
      CutTwice(generatedText, pos, pos + stopPos);
      generatedText := generatedText[..pos + stopPos];
      textToSend := Send(Min(nSentText, |generatedText|));
    }

    /** Without a stop word the text is sent, unless it may end with the beginning of one. */
    method SendOrHold(pos: nat, strTest: Bytes, lastTokenSize: nat, eog: bool) returns (textToSend: Bytes, ghost partialStop: int)
      requires nSentText == |sent| == pos <= |generatedText| && sent == generatedText[..pos] && hasNextToken
      modifies this
      ensures generatedText == old(generatedText) && hasNextToken && nSentText == |sent| && stop == old(stop)
      ensures sent == old(sent) + textToSend
      ensures !eog ==> IsLeast(antiprompt, strTest, lastTokenSize, false, partialStop)
      ensures sent == if !eog && partialStop != -1 then old(sent) else generatedText
    {
      var sendText := true;
      partialStop := -1;
      if hasNextToken && !eog {
        var stopPos := FindStoppingStrings(strTest, lastTokenSize, false);
        partialStop := stopPos;
        sendText := stopPos == -1;
      }
      if sendText {
        textToSend := Send(pos);
      } else {
        textToSend := [];
        AppendNothing(sent);
      }
    }

    /** The text from pos on, which is not sent yet, is sent. */
    method Send(pos: nat) returns (textToSend: Bytes)
      requires nSentText == |sent| == pos <= |generatedText| && sent == generatedText[..pos]
      modifies this`nSentText, this`sent
      ensures sent == old(sent) + textToSend == generatedText && nSentText == |sent|
    {
      textToSend := generatedText[pos..];
      nSentText := nSentText + |textToSend|;
      sent := sent + textToSend;
    }
  }

  lemma TextAndUnsent(before: Stream, token: Bytes, text: Bytes)
    requires text == before.Text() + token
    ensures |before.sent| <= |text| && text[..|before.sent|] == before.sent && text[|before.sent|..] == before.held + token
  {
    AppendAssociates(before.sent, before.held, token);
    SentAndRest(before.sent, before.held + token);
  }

  lemma WhatIsLeft(before: Stream, token: Bytes, text: Bytes, eog: bool, wholeStop: int, partialStop: int)
    requires text == before.Text() + token && -1 <= wholeStop <= |before.held + token|
    ensures var left := Leaves(before, token, eog, wholeStop, partialStop);
      && left.sent == (if wholeStop != -1 then text[..|before.sent| + wholeStop]
                       else if !eog && partialStop != -1 then before.sent else text)
      && left.Text() == if wholeStop != -1 then text[..|before.sent| + wholeStop] else text
  {
    AppendAssociates(before.sent, before.held, token);
    AppendNothing(Leaves(before, token, eog, wholeStop, partialStop).sent);
  }

  lemma SentAndRest(sent: Bytes, rest: Bytes)
    ensures (sent + rest)[..|sent|] == sent && (sent + rest)[|sent|..] == rest
  {
  }

  lemma PositionInText(words: seq<Bytes>, s: Bytes, n: nat, p: int)
    requires IsLeast(words, s, n, true, p)
    ensures -1 <= p <= |s|
    ensures p != -1 ==> exists w | w in words :: Position(s, w, n, true) == p
  {
  }

  // ----- a whole generation -----

  lemma {:induction false} ConcatSnoc<T>(pieces: seq<seq<T>>, last: seq<T>)
    ensures Concat(pieces + [last]) == Concat(pieces) + last
  {
    if pieces == [] {
      AppendNothing(last);
      assert [last][1..] == [];
      assert Concat([last]) == last + Concat([]);
    } else {
      ConcatSnoc(pieces[1..], last);
      assert (pieces + [last])[1..] == pieces[1..] + [last];
      AppendAssociates(pieces[0], Concat(pieces[1..]), last);
    }
  }

  /** An occurrence in the beginning of a text is one in the text. */
  lemma OccurrenceInPrefix(text: Bytes, p: nat, w: Bytes)
    requires p <= |text| && Contains(text[..p], w)
    ensures 0 <= Index(text, w) <= p - |w|
  {
    IndexIsFirst(text, w);
    IndexIsFirst(text[..p], w);
    var j := Index(text[..p], w);
    assert text[j..j + |w|] == text[..p][j..j + |w|];
    assert OccursAt(text, w, j);
  }

  /** What a token makes the code deliver has no stop word, and ends where the first one starts. */
  lemma Consequences(words: seq<Bytes>, before: Stream, token: Bytes, eog: bool, after: Stream)
    requires ValidWords(words) && before.Valid(words) && Delivers(words, before, token, eog, after)
    ensures var text := before.Text() + token;
      && !HasStop(words, after.sent) && after.sent <= text
      && (HasStop(words, text) ==> IsFirstStop(words, text, |after.sent|))
      && (!HasStop(words, text) ==> after.Text() == text && (after.sent == text <==> eog || !MayStop(words, text)))
  {
    var text := before.Text() + token;
    AppendAssociates(before.sent, before.held, token);
    AppendNothing(text);
    if !HasStop(words, text) {
      assert after.Text() == text;
      SentAndRest(after.sent, after.held);
    }
    assert after.sent == text[..|after.sent|];
    forall w | w in words
      ensures !Contains(after.sent, w)
    {
      if Contains(after.sent, w) {
        OccurrenceInPrefix(text, |after.sent|, w);
      }
    }
  }

  /** What else may end a generation with a token, and what may end it with the line. */
  datatype Limits = Limits(eog: bool, contextFull: bool, noBudget: bool, timeUp: bool) {
    predicate End(piece: Bytes) {
      eog || contextFull || noBudget || (timeUp && 10 in piece)
    }
  }

  /** What holds after a number of tokens; `more` says whether a further one is generated. */
  ghost predicate Reached(words: seq<Bytes>, tokens: seq<Bytes>, limits: seq<Limits>, used: nat, st: Stream, more: bool) {
    used <= |tokens| == |limits| &&
    var text := Concat(tokens[..used]);
    && !HasStop(words, st.sent) && st.sent <= text
    && (more ==> st.Valid(words) && st.Text() == text && Complete(text))
    && (!more ==> used > 0 && !HasStop(words, Concat(tokens[..used - 1])))
    && (HasStop(words, text) ==> !more && IsFirstStop(words, text, |st.sent|))
    && (!HasStop(words, text) ==> (st.sent == text <==> (used > 0 && limits[used - 1].eog) || !MayStop(words, text)))
  }

  lemma ReachedFirst(words: seq<Bytes>, tokens: seq<Bytes>, limits: seq<Limits>)
    requires ValidWords(words) && |limits| == |tokens|
    ensures Reached(words, tokens, limits, 0, Stream([], [], false), true)
  {
    assert tokens[..0] == [];
    AppendNothing<Byte>([]);
  }

  lemma ReachedNext(words: seq<Bytes>, tokens: seq<Bytes>, limits: seq<Limits>, used: nat, st: Stream,
                    token: Bytes, after: Stream, stopped: bool, more: bool)
    requires ValidWords(words) && used < |tokens| && token == tokens[used] && Complete(token)
    requires Reached(words, tokens, limits, used, st, true)
    requires stopped == HasStop(words, st.Text() + token)
    requires Delivers(words, st, token, limits[used].eog, after.(stopped := stopped))
    requires more ==> !stopped && after.Valid(words)
    ensures Reached(words, tokens, limits, used + 1, after, more) && Concat(tokens[..used + 1]) == st.Text() + token
  {
    var text := st.Text() + token;
    ConcatSnoc(tokens[..used], token);
    assert tokens[..used] + [token] == tokens[..used + 1];
    CompleteAppend(st.Text(), token);
    Consequences(words, st, token, limits[used].eog, after.(stopped := stopped));
  }

  /** The same, with what has been sent piece by piece, and why the generation has ended. */
  ghost predicate Generated(words: seq<Bytes>, tokens: seq<Bytes>, limits: seq<Limits>, st: Stream, pieces: seq<Bytes>, more: bool) {
    && Reached(words, tokens, limits, |pieces|, st, more) && st.sent == Concat(pieces)
    && (forall i | 0 <= i < |pieces| && (more || i < |pieces| - 1) :: !limits[i].End(pieces[i]))
    && (!more && !HasStop(words, Concat(tokens[..|pieces|])) ==> limits[|pieces| - 1].End(pieces[|pieces| - 1]))
  }

  lemma GeneratedNext(words: seq<Bytes>, tokens: seq<Bytes>, limits: seq<Limits>, st: Stream, pieces: seq<Bytes>,
                      after: Stream, piece: Bytes, more: bool)
    requires Generated(words, tokens, limits, st, pieces, true)
    requires Reached(words, tokens, limits, |pieces| + 1, after, more) && after.sent == st.sent + piece
    requires more <==> !limits[|pieces|].End(piece) && !HasStop(words, Concat(tokens[..|pieces| + 1]))
    ensures Generated(words, tokens, limits, after, pieces + [piece], more)
  {
    ConcatSnoc(pieces, piece);
  }

  /** The next token of a generation. */
  method GenerateNext(slot: Slot, ghost tokens: seq<Bytes>, ghost limits: seq<Limits>, ghost pieces: seq<Bytes>, token: Bytes, limit: Limits)
    returns (piece: Bytes, more: bool)
    requires slot.Valid() && ValidWords(slot.antiprompt) && Generated(slot.antiprompt, tokens, limits, slot.State(), pieces, true)
    requires |pieces| < |tokens| && token == tokens[|pieces|] && limit == limits[|pieces|] && Complete(token)
    modifies slot
    ensures slot.Valid() && Generated(slot.antiprompt, tokens, limits, slot.State(), pieces + [piece], more)
  {
    ghost var words, st := slot.antiprompt, slot.State();
    SentAndUnsent(slot.sent, slot.generatedText);
    CompleteAppend(slot.generatedText, token);
    piece, more := slot.ProcessToken(token, limit.eog, limit.contextFull, limit.noBudget, limit.timeUp);
    TokenGenerated(words, tokens, limits, st, pieces, token, limit, slot.State(), piece, HasStop(words, st.Text() + token), more);
  }

  lemma TokenGenerated(words: seq<Bytes>, tokens: seq<Bytes>, limits: seq<Limits>, st: Stream, pieces: seq<Bytes>,
                       token: Bytes, limit: Limits, after: Stream, piece: Bytes, stopped: bool, more: bool)
    requires ValidWords(words) && Generated(words, tokens, limits, st, pieces, true)
    requires |pieces| < |tokens| && token == tokens[|pieces|] && limit == limits[|pieces|] && Complete(token)
    requires stopped == HasStop(words, st.Text() + token) && after.sent == st.sent + piece
    requires Delivers(words, st, token, limit.eog, after.(stopped := stopped))
    requires more <==> !limit.End(piece) && !stopped
    requires more ==> after.Valid(words)
    ensures Generated(words, tokens, limits, after, pieces + [piece], more)
  {
    ReachedNext(words, tokens, limits, |pieces|, st, token, after, stopped, more);
    GeneratedNext(words, tokens, limits, st, pieces, after, piece, more);
  }

  /**
   Tokens are generated one after the other, until a stop word or one of the limits ends the
   generation. If each of them has the text of complete characters, then what is sent is the text
   before its first stop word. Without a stop word it is all of the text, exactly unless the text
   may end with the beginning of a stop word and has not come to an end by itself.
   */
  method Generate(words: seq<Bytes>, tokens: seq<Bytes>, limits: seq<Limits>) returns (pieces: seq<Bytes>)
    requires ValidWords(words) && |limits| == |tokens| && forall t | t in tokens :: Complete(t)
    ensures var used := |pieces|;
      used <= |tokens| &&
      var text, sent := Concat(tokens[..used]), Concat(pieces);
      && sent <= text && !HasStop(words, sent)
      && (HasStop(words, text) ==>
            IsFirstStop(words, text, |sent|) && used > 0 && !HasStop(words, Concat(tokens[..used - 1])))
      && (!HasStop(words, text) ==>
            && (sent == text <==> (used > 0 && limits[used - 1].eog) || !MayStop(words, text))
            && (used == |tokens| || (used > 0 && limits[used - 1].End(pieces[used - 1]))))
      && forall i | 0 <= i < used - 1 :: !limits[i].End(pieces[i])
  {
    var slot := new Slot(words);
    pieces := [];
    ReachedFirst(words, tokens, limits);
    var more := true;
    while more && |pieces| < |tokens|
      invariant slot.Valid() && slot.antiprompt == words && fresh(slot)
      invariant Generated(words, tokens, limits, slot.State(), pieces, more)
      decreases |tokens| - |pieces|
    {
      var piece;
      piece, more := GenerateNext(slot, tokens, limits, pieces, tokens[|pieces|], limits[|pieces|]);
      pieces := pieces + [piece];
    }
  }

  lemma SentAndUnsent(sent: Bytes, text: Bytes)
    requires sent <= text
    ensures sent + text[|sent|..] == text
  {
  }

  /** A word of one byte is found where the byte is. */
  lemma {:induction false} IndexOfByte(text: Bytes, b: Byte)
    ensures Contains(text, [b]) <==> b in text
    ensures text != [] && text[0] == b ==> Index(text, [b]) == 0
    ensures Overlap(text, [b]) > 0 <==> text != [] && text[|text| - 1] == b
  {
    ByteAtTheEnd(text, b);
    if text != [] {
      assert [b] <= text <==> text[0] == b;
      IndexOfByte(text[1..], b);
    }
  }

  lemma ByteAtTheEnd(text: Bytes, b: Byte)
    ensures Overlap(text, [b]) > 0 <==> text != [] && text[|text| - 1] == b
  {
    assert [b][..1] == [b];
    if text != [] {
      assert OverlapUpTo(text, [b], 1) == 1 <==> EndsWith(text, [b][..1]);
      assert text[|text| - 1..] == [text[|text| - 1]];
    } else {
      assert Overlap(text, [b]) <= |text|;
    }
  }

  /**
   A token that ends in the middle of a character is not searched, and the window of the search
   after the next token does not reach back to a stop word in it: the stop word is sent.
   */
  method StopWordMissed() returns (pieces: seq<Bytes>, more: bool)
    ensures var word: Bytes, first: Bytes, second: Bytes := [83], [83, 0xE2], [0x82, 0xAC];
      && Contains(first + second, word) && !Complete(first) && Complete(first + second)
      && more && |pieces| == 2 && pieces[1] == first + second
  {
    var word: Bytes, first: Bytes, second: Bytes := [83], [83, 0xE2], [0x82, 0xAC];
    var text := first + second;
    assert text == [83, 0xE2, 0x82, 0xAC];
    assert CutOff(first, 1);
    IndexOfByte(text, 83);
    assert Complete(text);
    var slot := new Slot([word]);
    var piece1, piece2;
    assert slot.generatedText + first == first;
    piece1, more := slot.ProcessToken(first, false, false, false, false);
    ghost var held := slot.State();
    assert slot.sent == [] && held.Text() == first;
    AppendNothing(held.held);
    SentAndUnsent(slot.sent, slot.generatedText);
    MissedAtSecond(held, second, text);
    piece2, more := slot.ProcessToken(second, false, false, false, false);
    pieces := [piece1, piece2];
  }

  lemma MissedAtSecond(st: Stream, second: Bytes, text: Bytes)
    requires st.sent == [] && st.held == [83, 0xE2] && second == [0x82, 0xAC] && text == [83, 0xE2, 0x82, 0xAC]
    ensures StepOf([[83]], st, second, false) == Stream(text, [], false)
  {
    var word: Bytes := [83];
    var words: seq<Bytes> := [word];
    assert st.held + second == text && st.Text() + second == text;
    var window := text[1..];
    assert window == [0xE2, 0x82, 0xAC];
    IndexOfByte(window, 83);
    IndexOfByte(text, 83);
    assert words[1..] == [];
    assert Least([], text, 2, true) == -1 && Least([], text, 2, false) == -1;
    assert Position(text, word, 2, true) == FindFrom(text, word, 1) == -1;
    assert Position(text, word, 2, false) == -1;
  }
}
