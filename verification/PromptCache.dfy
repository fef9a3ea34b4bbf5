/**
 The cache of saved prompts: which prompts it keeps, which it evicts, and which one it gives
 back for a new prompt. A saved prompt stands for all its prefixes, which can be reused from it.
 */
module PromptCache {
  import opened Options
  import opened Tokens

  /** A saved prompt: its tokens, the snapshot of the memory, and how many bytes these take. */
  datatype Entry<D> = Entry(tokens: seq<Token>, data: D, dataSize: nat, checkpointsSize: nat) {
    function Size(): nat { dataSize + checkpointsSize }
  }

  function Size<D>(states: seq<Entry<D>>): nat {
    if states == [] then 0 else states[0].Size() + Size(states[1..])
  }

  function NTokens<D>(states: seq<Entry<D>>): nat {
    if states == [] then 0 else |states[0].tokens| + NTokens(states[1..])
  }

  /** Some cached prompt starts with p. */
  predicate Covers<D>(states: seq<Entry<D>>, p: seq<Token>) {
    exists i | 0 <= i < |states| :: p <= states[i].tokens
  }

  predicate Comparable(a: seq<Token>, b: seq<Token>) { a <= b || b <= a }

  /** No cached prompt is a prefix of another one: each cannot be compared with those behind it. */
  ghost predicate Antichain<D>(states: seq<Entry<D>>) {
    states != [] ==>
      && (forall e | e in states[1..] :: !Comparable(states[0].tokens, e.tokens))
      && Antichain(states[1..])
  }

  // ----- saving -----

  /** The cached prompts that are not prefixes of a prompt. */
  function NotIn<D>(states: seq<Entry<D>>, prompt: seq<Token>): seq<Entry<D>> {
    if states == [] then []
    else if states[0].tokens <= prompt then NotIn(states[1..], prompt)
    else [states[0]] + NotIn(states[1..], prompt)
  }

  lemma {:induction false} NotInIs<D>(states: seq<Entry<D>>, prompt: seq<Token>, e: Entry<D>)
    ensures e in NotIn(states, prompt) <==> e in states && !(e.tokens <= prompt)
  {
    if states != [] {
      NotInIs(states[1..], prompt, e);
      assert states == [states[0]] + states[1..];
    }
  }

  lemma {:induction false} NotInIsAntichain<D>(states: seq<Entry<D>>, prompt: seq<Token>)
    requires Antichain(states)
    ensures Antichain(NotIn(states, prompt))
  {
    if states != [] {
      var rest := NotIn(states[1..], prompt);
      NotInIsAntichain(states[1..], prompt);
      forall e | e in rest
        ensures e in states[1..]
      {
        NotInIs(states[1..], prompt, e);
      }
      assert ([states[0]] + rest)[1..] == rest;
    }
  }

  lemma {:induction false} AntichainSnoc<D>(states: seq<Entry<D>>, e: Entry<D>)
    requires Antichain(states) && forall f | f in states :: !Comparable(f.tokens, e.tokens)
    ensures Antichain(states + [e])
  {
    if states == [] {
      assert [] + [e] == [e] && [e][1..] == [];
    } else {
      AntichainSnoc(states[1..], e);
      assert (states + [e])[1..] == states[1..] + [e];
    }
  }

  /** Removing prefixes of a prompt and adding it loses no prefix. */
  lemma SavingCovers<D>(states: seq<Entry<D>>, prompt: Entry<D>, p: seq<Token>)
    ensures Covers(NotIn(states, prompt.tokens) + [prompt], p) <==> Covers(states, p) || p <= prompt.tokens
  {
    var kept := NotIn(states, prompt.tokens);
    var after := kept + [prompt];
    if Covers(states, p) && !(p <= prompt.tokens) {
      var i :| 0 <= i < |states| && p <= states[i].tokens;
      NotInIs(states, prompt.tokens, states[i]);
      var j :| 0 <= j < |kept| && kept[j] == states[i];
      assert after[j] == states[i];
    }
    if p <= prompt.tokens {
      assert after[|kept|] == prompt;
    }
    if Covers(after, p) && !(p <= prompt.tokens) {
      var j :| 0 <= j < |after| && p <= after[j].tokens;
      NotInIs(states, prompt.tokens, kept[j]);
      var i :| 0 <= i < |states| && states[i] == kept[j];
    }
  }

  /** The prompt can be added to what is kept if it was not covered. */
  lemma SavingIsAntichain<D>(states: seq<Entry<D>>, prompt: Entry<D>)
    requires Antichain(states) && !Covers(states, prompt.tokens)
    ensures Antichain(NotIn(states, prompt.tokens) + [prompt])
  {
    var kept := NotIn(states, prompt.tokens);
    NotInIsAntichain(states, prompt.tokens);
    forall e | e in kept
      ensures !Comparable(e.tokens, prompt.tokens)
    {
      NotInIs(states, prompt.tokens, e);
      var k :| 0 <= k < |states| && states[k] == e;
    }
    AntichainSnoc(kept, prompt);
  }

  lemma {:induction false} NotInAppend<D>(a: seq<Entry<D>>, b: seq<Entry<D>>, prompt: seq<Token>)
    ensures NotIn(a + b, prompt) == NotIn(a, prompt) + NotIn(b, prompt)
  {
    if a == [] {
      assert a + b == b;
    } else {
      assert (a + b)[1..] == a[1..] + b;
      NotInAppend(a[1..], b, prompt);
    }
  }

  // ----- evicting -----

  /** Entries are evicted from the front until the limit holds; the last one stays. */
  function EvictBytes<D>(states: seq<Entry<D>>, limit: nat): seq<Entry<D>> {
    if |states| > 1 && Size(states) > limit then EvictBytes(states[1..], limit) else states
  }

  function EvictTokens<D>(states: seq<Entry<D>>, limit: nat): seq<Entry<D>> {
    if |states| > 1 && NTokens(states) > limit then EvictTokens(states[1..], limit) else states
  }

  function Max(a: nat, b: nat): nat { if a >= b then a else b }

  /**
   The token limit is raised to the number of tokens that fit into the byte limit at the
   average size of a token, which counts as one byte at least.
   */
  function TokenLimit(size: nat, nTokens: nat, limitSize: nat, limitTokens: nat): nat {
    var n := Max(1, nTokens);
    if limitSize == 0 then limitTokens
    else Max(limitTokens, if size <= n then limitSize else limitSize * n / size)
  }

  function Evict<D>(states: seq<Entry<D>>, limitSize: nat, limitTokens: nat): seq<Entry<D>> {
    var s := if limitSize > 0 then EvictBytes(states, limitSize) else states;
    if limitTokens > 0 then EvictTokens(s, TokenLimit(Size(s), NTokens(s), limitSize, limitTokens)) else s
  }

  lemma {:induction false} EvictBytesIs<D>(states: seq<Entry<D>>, limit: nat) returns (k: nat)
    ensures k <= |states| && EvictBytes(states, limit) == states[k..]
    ensures (k < |states| || states == []) && (Size(states[k..]) <= limit || |states[k..]| <= 1)
    ensures forall j | 0 <= j < k :: Size(states[j..]) > limit
  {
    if |states| > 1 && Size(states) > limit {
      k := EvictBytesIs(states[1..], limit);
      assert states[1..][k..] == states[k + 1..];
      forall j | 0 <= j < k + 1
        ensures Size(states[j..]) > limit
      {
        if j == 0 {
          assert states[0..] == states;
        } else {
          assert states[j..] == states[1..][j - 1..];
        }
      }
      k := k + 1;
    } else {
      k := 0;
      assert states[0..] == states;
    }
  }

  lemma {:induction false} EvictTokensIs<D>(states: seq<Entry<D>>, limit: nat) returns (k: nat)
    ensures k <= |states| && EvictTokens(states, limit) == states[k..]
    ensures (k < |states| || states == []) && (NTokens(states[k..]) <= limit || |states[k..]| <= 1)
    ensures forall j | 0 <= j < k :: NTokens(states[j..]) > limit
  {
    if |states| > 1 && NTokens(states) > limit {
      k := EvictTokensIs(states[1..], limit);
      assert states[1..][k..] == states[k + 1..];
      forall j | 0 <= j < k + 1
        ensures NTokens(states[j..]) > limit
      {
        if j == 0 {
          assert states[0..] == states;
        } else {
          assert states[j..] == states[1..][j - 1..];
        }
      }
      k := k + 1;
    } else {
      k := 0;
      assert states[0..] == states;
    }
  }

  /** Both limits hold, or one entry is left. */
  predicate WithinLimits<D>(s: seq<Entry<D>>, limitSize: nat, limitTokens: nat, tokenLimit: nat) {
    || |s| <= 1
    || ((limitSize == 0 || Size(s) <= limitSize) && (limitTokens == 0 || NTokens(s) <= tokenLimit))
  }

  /** The token limit that `update` uses: it is estimated after the byte limit has been met. */
  function EstimatedLimit<D>(states: seq<Entry<D>>, limitSize: nat, limitTokens: nat): nat {
    var s := if limitSize > 0 then EvictBytes(states, limitSize) else states;
    TokenLimit(Size(s), NTokens(s), limitSize, limitTokens)
  }

  lemma {:induction false} SuffixIsSmaller<D>(states: seq<Entry<D>>, k: nat)
    requires k <= |states|
    ensures Size(states[k..]) <= Size(states) && NTokens(states[k..]) <= NTokens(states)
  {
    if k > 0 {
      assert states[k..] == states[1..][k - 1..];
      SuffixIsSmaller(states[1..], k - 1);
    } else {
      assert states[0..] == states;
    }
  }

  /** The oldest prompts are evicted, and no more of them than the limits ask for. */
  lemma EvictIsShortest<D>(states: seq<Entry<D>>, limitSize: nat, limitTokens: nat) returns (k: nat)
    ensures k <= |states| && Evict(states, limitSize, limitTokens) == states[k..]
    ensures states != [] ==> k < |states|
    ensures var limit := EstimatedLimit(states, limitSize, limitTokens);
      && WithinLimits(states[k..], limitSize, limitTokens, limit)
      && forall j | 0 <= j < k :: !WithinLimits(states[j..], limitSize, limitTokens, limit)
  {
    var limit := EstimatedLimit(states, limitSize, limitTokens);
    var k1, k2 := 0, 0;
    assert states[0..] == states;
    if limitSize > 0 {
      k1 := EvictBytesIs(states, limitSize);
    }
    var s := states[k1..];
    assert s[0..] == s;
    if limitTokens > 0 {
      k2 := EvictTokensIs(s, limit);
    }
    k := k1 + k2;
    assert s[k2..] == states[k..];
    SuffixIsSmaller(s, k2);
    forall j | 0 <= j < k
      ensures !WithinLimits(states[j..], limitSize, limitTokens, limit)
    {
      if j >= k1 {
        assert states[j..] == s[j - k1..];
      }
      StillTooMuch(states, j, k, limitSize, limitTokens, limit);
    }
  }

  lemma StillTooMuch<D>(states: seq<Entry<D>>, j: nat, k: nat, limitSize: nat, limitTokens: nat, limit: nat)
    requires j < k < |states|
    requires (limitSize > 0 && Size(states[j..]) > limitSize) || (limitTokens > 0 && NTokens(states[j..]) > limit)
    ensures !WithinLimits(states[j..], limitSize, limitTokens, limit)
  {
  }

  lemma AverageFits(size: nat, n: nat, limit: nat)
    requires 0 < size <= limit
    ensures limit * n / size >= n
  {
    assert limit * n >= size * n;
    DivideProduct(limit * n, size, n);
  }

  lemma DivideProduct(a: nat, b: nat, c: nat)
    requires b > 0 && a >= b * c
    ensures a / b >= c
  {
    assert b * (a / b + 1) > a;
    SmallerFactor(b, c, a / b + 1);
  }

  /**
   With a byte limit, the token limit matters only if a token takes less than a byte on
   average: it evicts something exactly if more tokens are left than the token limit, and
   than the byte limit, allow.
   */
  lemma TokenLimitMatters<D>(states: seq<Entry<D>>, limitSize: nat, limitTokens: nat)
    requires limitSize > 0 && limitTokens > 0
    ensures var s := EvictBytes(states, limitSize);
      Evict(states, limitSize, limitTokens) != s <==> |s| > 1 && NTokens(s) > Max(limitTokens, limitSize)
  {
    var s := EvictBytes(states, limitSize);
    var limit := EstimatedLimit(states, limitSize, limitTokens);
    var k1 := EvictBytesIs(states, limitSize);
    var k2 := EvictTokensIs(s, limit);
    assert s[0..] == s;
    var n := Max(1, NTokens(s));
    if |s| > 1 && Size(s) > n {
      AverageFits(Size(s), n, limitSize);
    }
    assert |s| > 1 && NTokens(s) > limit <==> |s| > 1 && NTokens(s) > Max(limitTokens, limitSize);
    if |s| > 1 && NTokens(s) > limit {
      assert k2 > 0;
    }
  }

  lemma {:induction false} SuffixIsAntichain<D>(states: seq<Entry<D>>, k: nat)
    requires Antichain(states) && k <= |states|
    ensures Antichain(states[k..])
  {
    if k > 0 {
      assert states[k..] == states[1..][k - 1..];
      SuffixIsAntichain(states[1..], k - 1);
    } else {
      assert states[0..] == states;
    }
  }

  lemma {:induction false} RemovalIsAntichain<D>(states: seq<Entry<D>>, k: nat)
    requires Antichain(states) && k < |states|
    ensures Antichain(states[..k] + states[k + 1..])
  {
    var after := states[..k] + states[k + 1..];
    if k == 0 {
      assert after == states[1..];
    } else {
      var rest := states[1..];
      RemovalIsAntichain(rest, k - 1);
      assert after[1..] == rest[..k - 1] + rest[k..];
      forall e | e in after[1..]
        ensures e in rest
      {
      }
    }
  }

  // ----- choosing -----

  /** The floating-point comparison a/b < c/d, where 0/0 is not a number. */
  predicate Less(a: nat, b: nat, c: nat, d: nat) {
    b != 0 && d != 0 && a * d < c * b
  }

  /** A cached prompt of which less than a quarter would be kept is not considered. */
  predicate Considered(tokens: seq<Token>, wanted: seq<Token>) {
    !Less(CommonPrefix(tokens, wanted), |tokens|, 1, 4)
  }

  /** a keeps a larger part of its own tokens than b, and covers a larger part of the new ones. */
  predicate Better(a: seq<Token>, b: seq<Token>, wanted: seq<Token>) {
    && Less(CommonPrefix(b, wanted), |b|, CommonPrefix(a, wanted), |a|)
    && Less(CommonPrefix(b, wanted), |wanted|, CommonPrefix(a, wanted), |wanted|)
  }

  /**
   What is worth loading: it has tokens, at least a quarter of which would be kept; it has more in common
   with the new prompt than the current one, and also relative to its length. Nothing is worth loading
   for an empty prompt, or in place of an empty one.
   */
  lemma WorthLoadingIff(a: seq<Token>, b: seq<Token>, wanted: seq<Token>)
    ensures Considered(a, wanted) && Better(a, b, wanted) <==>
      && a != [] && b != [] && wanted != [] && 4 * CommonPrefix(a, wanted) >= |a|
      && CommonPrefix(a, wanted) > CommonPrefix(b, wanted)
      && CommonPrefix(a, wanted) * |b| > CommonPrefix(b, wanted) * |a|
  {
    var n := |wanted|;
    if n > 0 {
      Scale(CommonPrefix(b, wanted), CommonPrefix(a, wanted), n);
    }
  }

  lemma Scale(a: nat, b: nat, n: nat)
    requires n > 0
    ensures a * n < b * n <==> a < b
  {
    if a < b {
      assert (b - a) * n > 0;
    } else {
      assert (a - b) * n >= 0;
    }
  }

  lemma LessIsTransitive(a: nat, b: nat, c: nat, d: nat, e: nat, f: nat)
    requires Less(a, b, c, d) && Less(c, d, e, f)
    ensures Less(a, b, e, f)
  {
    assert (a * d) * f < (c * b) * f;
    assert (c * f) * b < (e * d) * b;
    assert (c * b) * f == (c * f) * b;
    assert d * (a * f) == (a * d) * f && d * (e * b) == (e * d) * b;
    assert d * (a * f) < d * (e * b);
    SmallerFactor(d, a * f, e * b);
  }

  lemma SmallerFactor(d: nat, x: nat, y: nat)
    requires d * x < d * y
    ensures x < y
  {
    if y <= x {
      LargerProduct(d, y, x);
    }
  }

  lemma LargerProduct(d: nat, x: nat, y: nat)
    requires x <= y
    ensures d * x <= d * y
  {
  }

  lemma BetterIsTransitive(a: seq<Token>, b: seq<Token>, c: seq<Token>, wanted: seq<Token>)
    requires Better(a, b, wanted) && Better(b, c, wanted)
    ensures Better(a, c, wanted)
  {
    LessIsTransitive(CommonPrefix(c, wanted), |c|, CommonPrefix(b, wanted), |b|, CommonPrefix(a, wanted), |a|);
    LessIsTransitive(CommonPrefix(c, wanted), |wanted|, CommonPrefix(b, wanted), |wanted|, CommonPrefix(a, wanted), |wanted|);
  }

  /** A better prompt has more in common with the new one. */
  lemma BetterHasMoreInCommon(a: seq<Token>, b: seq<Token>, wanted: seq<Token>)
    requires Better(a, b, wanted)
    ensures CommonPrefix(a, wanted) > CommonPrefix(b, wanted)
  {
    SmallerFactor(|wanted|, CommonPrefix(b, wanted), CommonPrefix(a, wanted));
  }

  /** After is what is left of the entries when e is taken out. */
  ghost predicate IsWithout<D>(states: seq<Entry<D>>, e: Entry<D>, after: seq<Entry<D>>) {
    exists k | 0 <= k < |states| :: states[k] == e && after == states[..k] + states[k + 1..]
  }

  /** No prompt that is considered is better than `best`. */
  ghost predicate NoneBetter<D>(states: seq<Entry<D>>, best: seq<Token>, wanted: seq<Token>) {
    forall e | e in states :: !(Considered(e.tokens, wanted) && Better(e.tokens, best, wanted))
  }

  // ----- the cache -----

  lemma NotInNext<D>(states: seq<Entry<D>>, j: nat, prompt: seq<Token>)
    requires j < |states|
    ensures NotIn(states[..j + 1], prompt) ==
            if states[j].tokens <= prompt then NotIn(states[..j], prompt) else NotIn(states[..j], prompt) + [states[j]]
  {
    assert states[..j + 1] == states[..j] + [states[j]];
    NotInAppend(states[..j], [states[j]], prompt);
    assert [states[j]][1..] == [];
  }

  class ServerPromptCache<D> {
    /** Oldest first. */
    var states: seq<Entry<D>>
    /** In bytes; 0 means no limit. */
    var limitSize: nat
    /** In tokens; 0 means no limit. */
    var limitTokens: nat

    constructor (limitSizeMib: int, limitTokens: nat)
      ensures states == [] && this.limitTokens == limitTokens
      ensures limitSize == if limitSizeMib < 0 then 0 else 1024 * 1024 * limitSizeMib
    {
      states := [];
      limitSize := 1024 * 1024 * (if limitSizeMib < 0 then 0 else limitSizeMib);
      this.limitTokens := limitTokens;
    }

    /** Makes room for a prompt, unless a cached prompt has it as a prefix, and adds it. */
    method Alloc(prompt: Entry<D>, canAllocate: bool) returns (added: bool)
      modifies this
      ensures limitTokens == old(limitTokens)
      ensures added <==> !Covers(old(states), prompt.tokens) && canAllocate
      ensures Covers(old(states), prompt.tokens) ==> states == old(states) && limitSize == old(limitSize)
      ensures added ==> states == NotIn(old(states), prompt.tokens) + [prompt] && limitSize == old(limitSize)
      ensures !Covers(old(states), prompt.tokens) && !canAllocate ==>
        var kept := NotIn(old(states), prompt.tokens);
        && limitSize == Max(1, 2 * Size(kept) / 5)
        && states == Evict(kept, limitSize, limitTokens)
      ensures canAllocate ==>
        forall p :: Covers(states, p) <==> Covers(old(states), p) || p <= prompt.tokens
      ensures Antichain(old(states)) ==> Antichain(states)
      ensures forall e | e in states :: e in old(states) || e == prompt
    {
      var contained := IsContained(prompt.tokens);
      if contained {
        forall p | Covers(states, p) || p <= prompt.tokens
          ensures Covers(states, p)
        {
          if p <= prompt.tokens {
            CoversShorter(states, prompt.tokens, p);
          }
        }
        return false;
      }
      RemoveContained(prompt.tokens);
      if !canAllocate {
        NotInIsAntichainIf(old(states), prompt.tokens);
        limitSize := Max(1, 2 * Size(states) / 5);
        Update();
        forall e | e in states
          ensures e in old(states)
        {
          NotInIs(old(states), prompt.tokens, e);
        }
        return false;
      }
      states := states + [prompt];
      forall e | e in states && e != prompt
        ensures e in old(states)
      {
        NotInIs(old(states), prompt.tokens, e);
      }
      forall p
        ensures Covers(states, p) <==> Covers(old(states), p) || p <= prompt.tokens
      {
        SavingCovers(old(states), prompt, p);
      }
      if Antichain(old(states)) {
        SavingIsAntichain(old(states), prompt);
      }
      added := true;
    }

    /** Some cached prompt has the prompt as a prefix. */
    method IsContained(prompt: seq<Token>) returns (contained: bool)
      ensures contained <==> Covers(states, prompt)
    {
      for i := 0 to |states|
        invariant forall j | 0 <= j < i :: !(prompt <= states[j].tokens)
      {
        var curLcpLen := GetCommonPrefix(states[i].tokens, prompt);
        PrefixIffAllCommon(states[i].tokens, prompt);
        if curLcpLen == |prompt| {
          return true;
        }
      }
      return false;
    }

    /** Cached prompts that are prefixes of the prompt are removed. */
    method RemoveContained(prompt: seq<Token>)
      modifies this`states
      ensures states == NotIn(old(states), prompt)
    {
      ghost var j := 0;
      var i := 0;
      assert states[0..] == states && states[..0] == [];
      while i < |states|
        invariant j <= |old(states)| && i <= |states|
        invariant states[..i] == NotIn(old(states)[..j], prompt) && states[i..] == old(states)[j..]
        decreases |states| - i
      {
        var len := GetCommonPrefix(states[i].tokens, prompt);
        PrefixIffAllCommon(states[i].tokens, prompt);
        assert states[i..][0] == states[i] && old(states)[j..][0] == old(states)[j];
        NotInNext(old(states), j, prompt);
        RemovalParts(states, i);
        assert old(states)[j..][1..] == old(states)[j + 1..];
        if len == |states[i].tokens| {
          states := states[..i] + states[i + 1..];
        } else {
          i := i + 1;
        }
        j := j + 1;
      }
      assert states[..i] == states && old(states)[..j] == old(states);
    }

    /** Evicts the oldest prompts. */
    method Update()
      modifies this`states
      ensures states == Evict(old(states), limitSize, limitTokens)
      ensures Antichain(old(states)) ==> Antichain(states)
      ensures forall e | e in states :: e in old(states)
    {
      if limitSize > 0 {
        while |states| > 1 && Size(states) > limitSize
          invariant EvictBytes(states, limitSize) == EvictBytes(old(states), limitSize)
          decreases |states|
        {
          states := states[1..];
        }
      }
      var limitTokensCur := TokenLimit(Size(states), NTokens(states), limitSize, limitTokens);
      if limitTokens > 0 {
        label Tokens:
        while |states| > 1 && NTokens(states) > limitTokensCur
          invariant EvictTokens(states, limitTokensCur) == old@Tokens(EvictTokens(states, limitTokensCur))
          decreases |states|
        {
          states := states[1..];
        }
      }
      ghost var k := EvictIsShortest(old(states), limitSize, limitTokens);
      if Antichain(old(states)) {
        SuffixIsAntichain(old(states), k);
      }
    }

    /** The cached prompt that is better than the current one, and than which no other one is. */
    method FindBest(prompt: seq<Token>, wanted: seq<Token>) returns (best: int)
      ensures -1 <= best < |states|
      ensures best == -1 ==>
        NoneBetter(states, prompt, wanted)
      ensures best != -1 ==>
        && Considered(states[best].tokens, wanted) && Better(states[best].tokens, prompt, wanted)
        && NoneBetter(states, states[best].tokens, wanted)
    {
      var lcpBest := GetCommonPrefix(prompt, wanted);
      var lenBest := |prompt|;
      best := -1;
      ghost var bestTokens := prompt;
      for i := 0 to |states|
        invariant -1 <= best < i
        invariant lcpBest == CommonPrefix(bestTokens, wanted) && lenBest == |bestTokens|
        invariant bestTokens == if best == -1 then prompt else states[best].tokens
        invariant best != -1 ==> Considered(bestTokens, wanted) && Better(bestTokens, prompt, wanted)
        invariant NoneBetter(states[..i], bestTokens, wanted)
      {
        var tokens := states[i].tokens;
        var lcpCur := GetCommonPrefix(tokens, wanted);
        assert states[..i + 1] == states[..i] + [states[i]];
        if Less(lcpCur, |tokens|, 1, 4) {
          continue;
        }
        if Less(lcpBest, lenBest, lcpCur, |tokens|) && Less(lcpBest, |wanted|, lcpCur, |wanted|) {
          ReplaceBest(states[..i], prompt, bestTokens, tokens, wanted);
          lcpBest, lenBest, best, bestTokens := lcpCur, |tokens|, i, tokens;
        }
      }
      assert states[..|states|] == states;
    }

    /**
     Looks for a cached prompt that is better than the current one for the wanted tokens. The
     one that is chosen leaves the cache; `restores` says whether its snapshot can be restored.
     */
    method Load(prompt: seq<Token>, wanted: seq<Token>, restores: bool) returns (ok: bool, loaded: Option<Entry<D>>)
      modifies this`states
      ensures loaded == None ==> states == old(states)
      ensures loaded == None && ok ==>
        NoneBetter(old(states), prompt, wanted)
      ensures !ok ==> loaded == None && !restores && !NoneBetter(old(states), prompt, wanted)
      ensures loaded != None ==>
        var tokens := loaded.value.tokens;
        && restores && IsWithout(old(states), loaded.value, states)
        && CommonPrefix(tokens, wanted) > CommonPrefix(prompt, wanted)
        && Considered(tokens, wanted) && Better(tokens, prompt, wanted)
        && NoneBetter(old(states), tokens, wanted)
      ensures Antichain(old(states)) ==> Antichain(states)
      ensures forall e | e in states :: e in old(states)
    {
      var best := FindBest(prompt, wanted);
      loaded := None;
      ok := true;
      if best != -1 {
        if !restores {
          assert states[best] in states;
          return false, None;
        }
        BetterHasMoreInCommon(states[best].tokens, prompt, wanted);
        loaded := Some(states[best]);
        if Antichain(states) {
          RemovalIsAntichain(states, best);
        }
        states := states[..best] + states[best + 1..];
      }
    }
  }

  lemma RemovalParts<D>(states: seq<Entry<D>>, i: nat)
    requires i < |states|
    ensures var after := states[..i] + states[i + 1..];
      && after[..i] == states[..i] && after[i..] == states[i + 1..] == states[i..][1..]
      && states[..i + 1] == states[..i] + [states[i]]
  {
  }

  lemma CoversShorter<D>(states: seq<Entry<D>>, q: seq<Token>, p: seq<Token>)
    requires Covers(states, q) && p <= q
    ensures Covers(states, p)
  {
    var i :| 0 <= i < |states| && q <= states[i].tokens;
  }

  /** What is taken out of the cache covers what the cache does not cover any more. */
  lemma WithoutCovers<D>(states: seq<Entry<D>>, e: Entry<D>, after: seq<Entry<D>>)
    requires IsWithout(states, e, after)
    ensures forall p :: Covers(states, p) ==> Covers(after, p) || p <= e.tokens
  {
    var k :| 0 <= k < |states| && states[k] == e && after == states[..k] + states[k + 1..];
    forall p | Covers(states, p) && !(p <= e.tokens)
      ensures Covers(after, p)
    {
      var i :| 0 <= i < |states| && p <= states[i].tokens;
      assert after[if i < k then i else i - 1] == states[i];
    }
  }

  lemma NotInIsAntichainIf<D>(states: seq<Entry<D>>, prompt: seq<Token>)
    ensures Antichain(states) ==> Antichain(NotIn(states, prompt))
  {
    if Antichain(states) {
      NotInIsAntichain(states, prompt);
    }
  }

  /** What a better prompt replaces, it keeps from coming back. */
  lemma ReplaceBest<D>(seen: seq<Entry<D>>, prompt: seq<Token>, last: seq<Token>, best: seq<Token>, wanted: seq<Token>)
    requires Better(best, last, wanted)
    requires last == prompt || Better(last, prompt, wanted)
    requires NoneBetter(seen, last, wanted)
    ensures Better(best, prompt, wanted) && !Better(best, best, wanted)
    ensures NoneBetter(seen, best, wanted)
  {
    if last != prompt {
      BetterIsTransitive(best, last, prompt, wanted);
    }
    forall e | e in seen && Considered(e.tokens, wanted)
      ensures !Better(e.tokens, best, wanted)
    {
      if Better(e.tokens, best, wanted) {
        BetterIsTransitive(e.tokens, best, last, wanted);
      }
    }
  }
}
