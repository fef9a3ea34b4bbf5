/**
 What a slot does to its tokens and to its part of the memory at once: the reuse of chunks of
 the old prompt, and the shift of the context.
 */
module Reuse {
  import opened Tokens
  import opened Memory
  import opened Decoding

  // ----- the shift -----

  lemma ShiftMovesFreely(kv: Kv, cut: Kv, n: nat, nKeep: nat, nDiscard: int)
    requires nDiscard >= 0 && cut == Rm(kv, nKeep, nKeep + nDiscard)
    ensures MovesFreely(cut, nKeep + nDiscard, n, -nDiscard)
  {
  }

  lemma ShiftedKvAt(kv: Kv, cut: Kv, moved: Kv, n: nat, nKeep: nat, nDiscard: int, p: nat)
    requires nDiscard >= 0 && forall q: nat :: q in kv ==> q < n
    requires cut == Rm(kv, nKeep, nKeep + nDiscard)
    requires MovesFreely(cut, nKeep + nDiscard, n, -nDiscard) && moved == Add(cut, nKeep + nDiscard, n, -nDiscard)
    ensures p < nKeep ==> (p in kv <==> p in moved) && (p in kv ==> moved[p] == kv[p])
    ensures nKeep <= p ==>
      (p in moved <==> p + nDiscard in kv) && (p + nDiscard in kv ==> moved[p] == kv[p + nDiscard])
  {
    AddIs(cut, nKeep + nDiscard, n, -nDiscard, p);
  }

  lemma ShiftedAt(tokens: seq<Token>, nKeep: nat, nDiscard: nat, p: nat)
    requires nKeep + nDiscard <= |tokens| && p < |tokens| - nDiscard
    ensures |Shifted(tokens, nKeep, nDiscard)| == |tokens| - nDiscard
    ensures Shifted(tokens, nKeep, nDiscard)[p] == if p < nKeep then tokens[p] else tokens[p + nDiscard]
  {
  }

  /** The positions that stay move with the tokens. */
  lemma ShiftedMemory(kv: Kv, cut: Kv, moved: Kv, tokens: seq<Token>, nKeep: nat, nDiscard: int)
    requires nDiscard >= 0 && Exact(kv, tokens) && nKeep + nDiscard <= |tokens|
    requires cut == Rm(kv, nKeep, nKeep + nDiscard)
    requires MovesFreely(cut, nKeep + nDiscard, |tokens|, -nDiscard)
    requires moved == Add(cut, nKeep + nDiscard, |tokens|, -nDiscard)
    ensures Exact(moved, Shifted(tokens, nKeep, nDiscard))
  {
    var shifted := Shifted(tokens, nKeep, nDiscard);
    forall p: nat
      ensures p in moved <==> p < |shifted|
      ensures p in moved ==> moved[p] == shifted[p]
    {
      ShiftedKvAt(kv, cut, moved, |tokens|, nKeep, nDiscard, p);
      if p < |shifted| {
        ShiftedAt(tokens, nKeep, nDiscard, p);
      }
    }
  }

  /** What the code leaves of the tokens, also if it is asked to drop more than there are behind nKeep. */
  function Dropped(tokens: seq<Token>, nKeep: nat, nDiscard: nat): seq<Token>
    requires nKeep <= |tokens| && nDiscard <= |tokens|
  {
    if nKeep + nDiscard <= |tokens| then Shifted(tokens, nKeep, nDiscard) else tokens[..|tokens| - nDiscard]
  }

  /** Memory and tokens stay the same exactly if there is as much to drop. */
  lemma ShiftIsExactIff(kv: Kv, tokens: seq<Token>, nKeep: nat, nDiscard: int)
    requires nDiscard >= 0 && Exact(kv, tokens) && nKeep <= |tokens| && nDiscard <= |tokens|
    ensures var cut := Rm(kv, nKeep, nKeep + nDiscard);
      && MovesFreely(cut, nKeep + nDiscard, |tokens|, -nDiscard)
      && (Exact(Add(cut, nKeep + nDiscard, |tokens|, -nDiscard), Dropped(tokens, nKeep, nDiscard))
          <==> nKeep + nDiscard <= |tokens|)
  {
    var cut := Rm(kv, nKeep, nKeep + nDiscard);
    ShiftMovesFreely(kv, cut, |tokens|, nKeep, nDiscard);
    var moved := Add(cut, nKeep + nDiscard, |tokens|, -nDiscard);
    if nKeep + nDiscard <= |tokens| {
      ShiftedMemory(kv, cut, moved, tokens, nKeep, nDiscard);
    } else {
      ShiftedKvAt(kv, cut, moved, |tokens|, nKeep, nDiscard, nKeep - 1);
      assert nKeep - 1 in kv;
    }
  }

  // ----- the reuse of chunks -----

  /** The memory holds the tokens from lo up to hi. */
  ghost predicate Holds(kv: Kv, tokens: seq<Token>, lo: nat, hi: nat) {
    hi <= |tokens| && forall j: nat :: lo <= j < hi ==> j in kv && kv[j] == tokens[j]
  }

  /** A chunk at c of the old prompt is moved to p. */
  function MoveChunk(kv: Kv, p: nat, c: nat, n: nat): Kv
    requires p <= c
  {
    CutMovesFreely(kv, p, c, n);
    Add(Rm(kv, p, c), c, c + n, p - c)
  }

  lemma CutMovesFreely(kv: Kv, p: nat, c: nat, n: nat)
    requires p <= c
    ensures MovesFreely(Rm(kv, p, c), c, c + n, p - c)
  {
  }

  lemma RemovedAt(kv: Kv, p0: nat, p1: nat, j: nat)
    ensures j in Rm(kv, p0, p1) <==> j in kv && !(p0 <= j < p1)
    ensures j in Rm(kv, p0, p1) ==> Rm(kv, p0, p1)[j] == kv[j]
  {
  }

  lemma OutsideAt(kv: Kv, p: nat, c: nat, n: nat, j: nat)
    requires p <= c && (j < p || c + n <= j)
    ensures j in MoveChunk(kv, p, c, n) <==> j in kv
    ensures j in kv ==> MoveChunk(kv, p, c, n)[j] == kv[j]
  {
    CutMovesFreely(kv, p, c, n);
    AddIs(Rm(kv, p, c), c, c + n, p - c, j);
    RemovedAt(kv, p, c, j);
  }

  lemma InsideAt(kv: Kv, p: nat, c: nat, n: nat, i: nat)
    requires p <= c && i < n
    ensures p + i in MoveChunk(kv, p, c, n) <==> c + i in kv
    ensures c + i in kv ==> MoveChunk(kv, p, c, n)[p + i] == kv[c + i]
  {
    CutMovesFreely(kv, p, c, n);
    AddIs(Rm(kv, p, c), c, c + n, p - c, p + i);
    RemovedAt(kv, p, c, c + i);
    RemovedAt(kv, p, c, p + i);
  }

  /** If the new prompt has the same tokens at p, more of the new prompt is in place. */
  lemma ChunkMoves(kv: Kv, tokens: seq<Token>, input: seq<Token>, p: nat, c: nat, n: nat)
    requires p <= c && c + n <= |tokens| && p + n <= |input| && tokens[c..c + n] == input[p..p + n]
    requires Holds(kv, input, 0, p) && Holds(kv, tokens, c, |tokens|)
    ensures Holds(MoveChunk(kv, p, c, n), input, 0, p + n)
    ensures Holds(MoveChunk(kv, p, c, n), tokens, c + n, |tokens|)
  {
    var moved := MoveChunk(kv, p, c, n);
    forall j: nat | j < p + n
      ensures j in moved && moved[j] == input[j]
    {
      if j < p {
        OutsideAt(kv, p, c, n, j);
      } else {
        InsideAt(kv, p, c, n, j - p);
        SameInChunk(tokens, input, p, c, n, j - p);
      }
    }
    forall j: nat | c + n <= j < |tokens|
      ensures j in moved && moved[j] == tokens[j]
    {
      OutsideAt(kv, p, c, n, j);
    }
  }

  lemma SameInChunk(tokens: seq<Token>, input: seq<Token>, p: nat, c: nat, n: nat, i: nat)
    requires c + n <= |tokens| && p + n <= |input| && tokens[c..c + n] == input[p..p + n] && i < n
    ensures tokens[c + i] == input[p + i]
  {
    assert tokens[c..c + n][i] == input[p..p + n][i];
  }

  /**
   How many tokens of the new prompt are in place after the loop over the old prompt: a chunk
   at c that agrees with the new prompt at p is reused if it is long enough.
   */
  function ReusedFrom(had: seq<Token>, input: seq<Token>, c: nat, p: nat, atLeast: nat): nat
    requires c <= |had| && p <= |input| && atLeast > 0
    decreases |had| - c
  {
    if c == |had| || p == |input| then p
    else
      var n := CommonPrefix(had[c..], input[p..]);
      if n >= atLeast then
        CommonPrefixIs(had[c..], input[p..]);
        ReusedFrom(had, input, c + n, p + n, atLeast)
      else ReusedFrom(had, input, c + 1, p, atLeast)
  }

  lemma {:induction false} ReusedBounds(had: seq<Token>, input: seq<Token>, c: nat, p: nat, atLeast: nat)
    requires p <= c <= |had| && p <= |input| && atLeast > 0
    ensures p <= ReusedFrom(had, input, c, p, atLeast) <= |input|
    ensures ReusedFrom(had, input, c, p, atLeast) <= |had|
    decreases |had| - c
  {
    if c < |had| && p < |input| {
      var n := CommonPrefix(had[c..], input[p..]);
      CommonPrefixIs(had[c..], input[p..]);
      if n >= atLeast {
        ReusedBounds(had, input, c + n, p + n, atLeast);
      } else {
        ReusedBounds(had, input, c + 1, p, atLeast);
      }
    }
  }

  /** Position q of the new prompt lies in a chunk of the old one that is long enough and not in front of it. */
  ghost predicate InChunk(had: seq<Token>, input: seq<Token>, q: nat, atLeast: nat) {
    exists c: nat, p: nat, n: nat ::
      n >= atLeast && p <= c && p <= q < p + n && IsChunk(had, input, c, p, n)
  }

  predicate IsChunk(had: seq<Token>, input: seq<Token>, c: nat, p: nat, n: nat) {
    c + n <= |had| && p + n <= |input| && had[c..c + n] == input[p..p + n]
  }

  lemma ChunkFound(had: seq<Token>, input: seq<Token>, c: nat, p: nat, n: nat)
    requires c <= |had| && p <= |input| && n == CommonPrefix(had[c..], input[p..])
    ensures IsChunk(had, input, c, p, n)
  {
    CommonPrefixIs(had[c..], input[p..]);
    assert had[c..][..n] == had[c..c + n] && input[p..][..n] == input[p..p + n];
  }

  /** Whatever is reused behind the common prefix comes in chunks of the demanded length. */
  lemma {:induction false} ReusedInChunks(had: seq<Token>, input: seq<Token>, c: nat, p: nat, atLeast: nat, q: nat)
    requires p <= c <= |had| && p <= |input| && atLeast > 0
    requires p <= q < ReusedFrom(had, input, c, p, atLeast)
    ensures InChunk(had, input, q, atLeast)
    decreases |had| - c
  {
    if c < |had| && p < |input| {
      var n := CommonPrefix(had[c..], input[p..]);
      ChunkFound(had, input, c, p, n);
      if n < atLeast {
        ReusedInChunks(had, input, c + 1, p, atLeast, q);
      } else if q >= p + n {
        ReusedInChunks(had, input, c + n, p + n, atLeast, q);
      }
    }
  }

  /**
   Where the last chunk of a walk from c and p to r ends, and how many tokens it has; if nothing has been
   reused the walk ends where it began. Unless all of the new prompt is in place, no chunk of the demanded
   length behind that agrees with what comes next in the new prompt.
   */
  ghost predicate IsEnd(had: seq<Token>, input: seq<Token>, c: nat, p: nat, atLeast: nat, r: nat, end: nat, last: nat) {
    && c <= end <= |had| && p <= r
    && (r == |input| || forall d | end <= d :: !IsChunk(had, input, d, r, atLeast))
    && (if r == p then end == c else atLeast <= last <= r - p && c + last <= end && IsChunk(had, input, end - last, r - last, last))
  }

  /** Nothing is missed. */
  lemma {:induction false} NothingMissed(had: seq<Token>, input: seq<Token>, c: nat, p: nat, atLeast: nat) returns (end: nat, last: nat)
    requires p <= c <= |had| && p <= |input| && atLeast > 0
    ensures IsEnd(had, input, c, p, atLeast, ReusedFrom(had, input, c, p, atLeast), end, last)
    decreases |had| - c
  {
    end, last := c, 0;
    if c < |had| && p < |input| {
      var n := CommonPrefix(had[c..], input[p..]);
      var r := ReusedFrom(had, input, c, p, atLeast);
      ChunkFound(had, input, c, p, n);
      if n >= atLeast {
        var m;
        end, m := NothingMissed(had, input, c + n, p + n, atLeast);
        last := if r == p + n then n else m;
        EndOfLater(had, input, c, p, atLeast, r, end, last, m, n);
      } else {
        var e;
        e, last := NothingMissed(had, input, c + 1, p, atLeast);
        end := if r == p then c else e;
        ShortChunk(had, input, c, p, atLeast);
        EndOfSkipped(had, input, c, p, atLeast, r, e, end, last);
      }
    }
  }

  lemma EndOfLater(had: seq<Token>, input: seq<Token>, c: nat, p: nat, atLeast: nat, r: nat, end: nat, last: nat, m: nat, n: nat)
    requires IsChunk(had, input, c, p, n) && 0 < atLeast <= n && IsEnd(had, input, c + n, p + n, atLeast, r, end, m)
    requires last == if r == p + n then n else m
    ensures IsEnd(had, input, c, p, atLeast, r, end, last)
  {
  }

  lemma EndOfSkipped(had: seq<Token>, input: seq<Token>, c: nat, p: nat, atLeast: nat, r: nat, e: nat, end: nat, last: nat)
    requires !IsChunk(had, input, c, p, atLeast) && IsEnd(had, input, c + 1, p, atLeast, r, e, last)
    requires end == if r == p then c else e
    ensures IsEnd(had, input, c, p, atLeast, r, end, last)
  {
  }

  lemma ShortChunk(had: seq<Token>, input: seq<Token>, c: nat, p: nat, n: nat)
    requires c <= |had| && p <= |input| && CommonPrefix(had[c..], input[p..]) < n
    ensures !IsChunk(had, input, c, p, n)
  {
    if IsChunk(had, input, c, p, n) {
      assert had[c..][..n] == had[c..c + n] && input[p..][..n] == input[p..p + n];
      CommonPrefixIsLongest(had[c..], input[p..], had[c..][..n]);
    }
  }

  /** Something is reused behind the common prefix exactly if there is a chunk of the demanded length for it. */
  lemma ReusesIff(had: seq<Token>, input: seq<Token>, c: nat, p: nat, atLeast: nat)
    requires p <= c <= |had| && p <= |input| && atLeast > 0
    ensures ReusedFrom(had, input, c, p, atLeast) > p <==> exists d :: d >= c && IsChunk(had, input, d, p, atLeast)
    ensures ReusedFrom(had, input, c, p, atLeast) > p ==> ReusedFrom(had, input, c, p, atLeast) >= p + atLeast
    decreases |had| - c
  {
    ReusedBounds(had, input, c, p, atLeast);
    var end, _ := NothingMissed(had, input, c, p, atLeast);
    if c < |had| && p < |input| {
      var n := CommonPrefix(had[c..], input[p..]);
      ChunkFound(had, input, c, p, n);
      if n >= atLeast {
        assert had[c..c + n][..atLeast] == had[c..c + atLeast] && input[p..p + n][..atLeast] == input[p..p + atLeast];
        assert IsChunk(had, input, c, p, atLeast);
        ReusedBounds(had, input, c + n, p + n, atLeast);
      } else {
        ReusesIff(had, input, c + 1, p, atLeast);
      }
    }
  }

  /** The tokens behind those that are dropped are copied down, and the list is cut. */
  method DropTokens(tokens: seq<Token>, nKeep: nat, nDiscard: nat) returns (newTokens: seq<Token>)
    requires 0 < nDiscard && nKeep + nDiscard <= |tokens|
    ensures newTokens == Shifted(tokens, nKeep, nDiscard)
  {
    newTokens := tokens;
    for i := nKeep + nDiscard to |tokens|
      invariant |newTokens| == |tokens|
      invariant newTokens[..i - nDiscard] == tokens[..nKeep] + tokens[nKeep + nDiscard..i]
      invariant newTokens[i..] == tokens[i..]
    {
      CopyDown(newTokens, tokens, nKeep, nDiscard, i);
      newTokens := newTokens[i - nDiscard := newTokens[i]];
    }
    newTokens := newTokens[..|tokens| - nDiscard];
  }

  /** The tokens to drop are removed from the memory, and those behind them are moved. */
  method ShiftKv(kv: Kv, tokens: seq<Token>, nKeep: nat, nDiscard: int) returns (moved: Kv)
    requires nDiscard >= 0 && nKeep + nDiscard <= |tokens| && Exact(kv, tokens)
    ensures Exact(moved, Shifted(tokens, nKeep, nDiscard))
  {
    var cut := Rm(kv, nKeep, nKeep + nDiscard);
    ShiftMovesFreely(kv, cut, |tokens|, nKeep, nDiscard);
    moved := Add(cut, nKeep + nDiscard, |tokens|, -nDiscard);
    ShiftedMemory(kv, cut, moved, tokens, nKeep, nDiscard);
  }

  lemma CopyDown(s: seq<Token>, tokens: seq<Token>, nKeep: nat, nDiscard: nat, i: nat)
    requires |s| == |tokens| && nKeep + nDiscard <= i < |tokens| && nDiscard > 0
    requires s[..i - nDiscard] == tokens[..nKeep] + tokens[nKeep + nDiscard..i] && s[i..] == tokens[i..]
    ensures var t := s[i - nDiscard := s[i]];
      t[..i + 1 - nDiscard] == tokens[..nKeep] + tokens[nKeep + nDiscard..i + 1] && t[i + 1..] == tokens[i + 1..]
  {
    assert s[i] == s[i..][0] == tokens[i];
    assert s[i + 1..] == s[i..][1..];
    assert tokens[nKeep + nDiscard..i + 1] == tokens[nKeep + nDiscard..i] + [tokens[i]];
  }

  // ----- the reuse of chunks -----

  /** How far the tokens at c agree with the input at p. */
  method MatchLength(tokens: seq<Token>, c: nat, input: seq<Token>, p: nat) returns (n: nat)
    requires c <= |tokens| && p <= |input|
    ensures n == CommonPrefix(tokens[c..], input[p..])
  {
    n := 0;
    ghost var a, b := tokens[c..], input[p..];
    while c + n < |tokens| && p + n < |input| && tokens[c + n] == input[p + n]
      invariant c + n <= |tokens| && p + n <= |input|
      invariant forall k | 0 <= k < n :: a[k] == b[k]
    {
      assert a[n] == tokens[c + n] && b[n] == input[p + n];
      n := n + 1;
    }
    MatchIs(a, b, n);
  }

  lemma MatchIs(a: seq<Token>, b: seq<Token>, n: nat)
    requires n <= |a| && n <= |b| && forall k | 0 <= k < n :: a[k] == b[k]
    requires n < |a| && n < |b| ==> a[n] != b[n]
    ensures n == CommonPrefix(a, b)
  {
    assert a[..n] == b[..n];
    CommonPrefixIsTheOne(a, b, n);
  }

  /** The tokens from c on are copied in place to p and behind; the two ranges may overlap. */
  method CopyChunk(tokens: seq<Token>, p: nat, c: nat, n: nat) returns (copied: seq<Token>)
    requires p <= c && c + n <= |tokens|
    ensures |copied| == |tokens|
    ensures copied[..p + n] == tokens[..p] + tokens[c..c + n] && copied[c + n..] == tokens[c + n..]
  {
    copied := tokens;
    for i := 0 to n
      invariant |copied| == |tokens|
      invariant copied[..p + i] == tokens[..p] + tokens[c..c + i] && copied[c + i..] == tokens[c + i..]
    {
      CopyOne(copied, tokens, p, c, i);
      copied := copied[p + i := copied[c + i]];
    }
  }

  lemma CopyOne(s: seq<Token>, tokens: seq<Token>, p: nat, c: nat, i: nat)
    requires |s| == |tokens| && p <= c && c + i < |tokens|
    requires s[..p + i] == tokens[..p] + tokens[c..c + i] && s[c + i..] == tokens[c + i..]
    ensures var t := s[p + i := s[c + i]];
      t[..p + (i + 1)] == tokens[..p] + tokens[c..c + (i + 1)] && t[c + (i + 1)..] == tokens[c + (i + 1)..]
  {
    assert s[c + i] == s[c + i..][0] == tokens[c + i];
    assert s[c + i + 1..] == s[c + i..][1..];
    assert tokens[c..c + i + 1] == tokens[c..c + i] + [tokens[c + i]];
  }

  /**
   Chunks of the old prompt that the new one has elsewhere are moved to their new place, in the
   memory and in the list of tokens.
   */
  method ReuseChunks(kv0: Kv, had: seq<Token>, input: seq<Token>, nCacheReuse: nat, nPast0: nat)
    returns (kv: Kv, tokens: seq<Token>, nPast: nat)
    requires nCacheReuse > 0 && nPast0 <= |had| && nPast0 <= |input| && had[..nPast0] == input[..nPast0]
    requires Mirrors(kv0, had)
    ensures nPast == ReusedFrom(had, input, nPast0, nPast0, nCacheReuse)
    ensures |tokens| == |had| && nPast <= |had| && nPast <= |input|
    ensures tokens[..nPast] == input[..nPast] && Mirrors(kv, tokens[..nPast])
  {
    kv, tokens, nPast := kv0, had, nPast0;
    var headC: nat, headP: nat := nPast, nPast;
    ReuseStarts(kv, had, input, nPast);
    while headC < |tokens| && headP < |input|
      invariant Reusing(kv, tokens, had, input, headC, headP) && nPast == headP
      invariant ReusedFrom(had, input, headC, headP, nCacheReuse) == ReusedFrom(had, input, nPast0, nPast0, nCacheReuse)
      decreases |tokens| - headC
    {
      kv, tokens, headC, headP := ReuseStep(kv, tokens, had, input, nCacheReuse, headC, headP);
      nPast := headP;
    }
    ReuseEnds(kv, tokens, had, input, headC, headP);
  }

  /** One round of the loop: the chunk at c is reused if it is long enough; otherwise c moves on. */
  method ReuseStep(kv0: Kv, tokens0: seq<Token>, ghost had: seq<Token>, input: seq<Token>, nCacheReuse: nat, c0: nat, p0: nat)
    returns (kv: Kv, tokens: seq<Token>, c: nat, p: nat)
    requires nCacheReuse > 0 && Reusing(kv0, tokens0, had, input, c0, p0) && c0 < |tokens0| && p0 < |input|
    ensures Reusing(kv, tokens, had, input, c, p) && c0 < c
    ensures ReusedFrom(had, input, c, p, nCacheReuse) == ReusedFrom(had, input, c0, p0, nCacheReuse)
  {
    var nMatch := MatchLength(tokens0, c0, input, p0);
    assert nMatch == CommonPrefix(had[c0..], input[p0..]);
    if nMatch >= nCacheReuse {
      kv, tokens := ReuseChunk(kv0, tokens0, had, input, c0, p0, nMatch);
      c, p := c0 + nMatch, p0 + nMatch;
    } else {
      ReuseSkips(kv0, tokens0, had, input, c0, p0);
      kv, tokens, c, p := kv0, tokens0, c0 + 1, p0;
    }
  }

  method ReuseChunk(kv: Kv, tokens: seq<Token>, ghost had: seq<Token>, ghost input: seq<Token>, c: nat, p: nat, n: nat)
    returns (moved: Kv, copied: seq<Token>)
    requires Reusing(kv, tokens, had, input, c, p) && c <= |had| && n == CommonPrefix(had[c..], input[p..])
    ensures Reusing(moved, copied, had, input, c + n, p + n)
  {
    ChunkFound(had, input, c, p, n);
    copied := CopyChunk(tokens, p, c, n);
    ReuseGoesOn(kv, tokens, copied, had, input, c, p, n);
    moved := MoveChunk(kv, p, c, n);
  }

  /** The first p tokens of the input are in place, and the old prompt is intact from c on. */
  ghost predicate Reusing(kv: Kv, tokens: seq<Token>, had: seq<Token>, input: seq<Token>, c: nat, p: nat) {
    && p <= c <= |tokens| == |had| && p <= |input|
    && tokens[..p] == input[..p] && tokens[c..] == had[c..]
    && Holds(kv, input, 0, p) && Holds(kv, had, c, |had|)
  }

  lemma ReuseStarts(kv: Kv, had: seq<Token>, input: seq<Token>, n: nat)
    requires Mirrors(kv, had) && n <= |had| && n <= |input| && had[..n] == input[..n]
    ensures Reusing(kv, had, had, input, n, n)
  {
    forall j: nat | j < n
      ensures j in kv && kv[j] == input[j]
    {
      SameAt(had, input, n, j);
    }
  }

  lemma ReuseSkips(kv: Kv, tokens: seq<Token>, had: seq<Token>, input: seq<Token>, c: nat, p: nat)
    requires Reusing(kv, tokens, had, input, c, p) && c < |had|
    ensures Reusing(kv, tokens, had, input, c + 1, p)
  {
    assert tokens[c + 1..] == tokens[c..][1..] && had[c + 1..] == had[c..][1..];
  }

  lemma ReuseGoesOn(kv: Kv, tokens: seq<Token>, copied: seq<Token>, had: seq<Token>, input: seq<Token>, c: nat, p: nat, n: nat)
    requires Reusing(kv, tokens, had, input, c, p) && IsChunk(had, input, c, p, n)
    requires |copied| == |tokens|
    requires copied[..p + n] == tokens[..p] + tokens[c..c + n] && copied[c + n..] == tokens[c + n..]
    ensures Reusing(MoveChunk(kv, p, c, n), copied, had, input, c + n, p + n)
  {
    ChunkMoves(kv, had, input, p, c, n);
    ChunkCopied(tokens, had, input, p, c, n);
  }

  lemma ReuseEnds(kv: Kv, tokens: seq<Token>, had: seq<Token>, input: seq<Token>, c: nat, p: nat)
    requires Reusing(kv, tokens, had, input, c, p)
    ensures Mirrors(kv, tokens[..p])
  {
    assert tokens[..p] == input[..p];
  }

  lemma ChunkCopied(tokens: seq<Token>, had: seq<Token>, input: seq<Token>, p: nat, c: nat, n: nat)
    requires p <= c && |tokens| == |had| && IsChunk(had, input, c, p, n)
    requires tokens[..p] == input[..p] && tokens[c..] == had[c..]
    ensures tokens[..p] + tokens[c..c + n] == input[..p + n] && tokens[c + n..] == had[c + n..]
  {
    assert tokens[c..c + n] == tokens[c..][..n] == had[c..c + n];
    assert tokens[c + n..] == tokens[c..][n..] == had[c + n..];
  }
}
