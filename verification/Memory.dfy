/**
 The key-value memory of the language model: for each sequence, which token sits at which
 position; and what it means that a list of tokens describes a sequence.
 */
module Memory {
  import opened Tokens

  /** What the memory holds of one sequence. */
  type Kv = map<nat, Token>

  /** `llama_memory_seq_rm`: removes the positions from p0 up to p1; negative bounds are open. */
  function Rm(kv: Kv, p0: int, p1: int): Kv {
    map p | p in kv && !(p0 <= p && (p1 < 0 || p < p1)) :: kv[p]
  }

  function Plus(p: int, delta: int): int { p + delta }

  /** Moving the positions from p0 up to p1 by delta hits no position that stays. */
  ghost predicate MovesFreely(kv: Kv, p0: int, p1: int, delta: int) {
    forall p {:trigger Plus(p, delta)} | p in kv && p0 <= p < p1 :: Free(kv, p0, p1, Plus(p, delta))
  }

  predicate Free(kv: Kv, p0: int, p1: int, q: int) {
    q >= 0 && (q in kv ==> p0 <= q < p1)
  }

  /** The positions after those from p0 up to p1 are moved. */
  function MovedKeys(kv: Kv, p0: int, p1: int, delta: int): set<int> {
    set p | p in kv :: if p0 <= p < p1 then Plus(p, delta) else p
  }

  /** The token at q comes from the range that is moved. */
  predicate IsMoved(kv: Kv, p0: int, p1: int, delta: int, q: int) {
    p0 <= q - delta < p1 && q - delta >= 0 && q - delta in kv
  }

  /** `llama_memory_seq_add`: moves the positions from p0 up to p1 by delta. */
  function Add(kv: Kv, p0: int, p1: int, delta: int): Kv
    requires MovesFreely(kv, p0, p1, delta)
  {
    map q: nat | q in MovedKeys(kv, p0, p1, delta) :: if IsMoved(kv, p0, p1, delta, q) then kv[q - delta] else kv[q]
  }

  lemma AddIs(kv: Kv, p0: int, p1: int, delta: int, q: nat)
    requires MovesFreely(kv, p0, p1, delta)
    ensures var moved := IsMoved(kv, p0, p1, delta, q);
      && (q in Add(kv, p0, p1, delta) <==> moved || (q in kv && !(p0 <= q < p1)))
      && (q in Add(kv, p0, p1, delta) ==> Add(kv, p0, p1, delta)[q] == if moved then kv[q - delta] else kv[q])
  {
    MovedKeysAre(kv, p0, p1, delta, q);
  }

  lemma MovedKeysAre(kv: Kv, p0: int, p1: int, delta: int, q: int)
    ensures q in MovedKeys(kv, p0, p1, delta) <==>
            IsMoved(kv, p0, p1, delta, q) || (q in kv && !(p0 <= q < p1))
  {
    if IsMoved(kv, p0, p1, delta, q) {
      assert Plus(q - delta, delta) == q;
    }
  }

  /** The memory holds all the tokens. */
  ghost predicate Mirrors(kv: Kv, tokens: seq<Token>) {
    forall p: nat :: p < |tokens| ==> p in kv && kv[p] == tokens[p]
  }

  /** The memory holds the tokens and nothing else. */
  ghost predicate Exact(kv: Kv, tokens: seq<Token>) {
    Mirrors(kv, tokens) && forall p: nat :: p in kv ==> p < |tokens|
  }

  /** Removing everything from a position on leaves the tokens before it. */
  lemma Truncated(kv: Kv, tokens: seq<Token>, n: nat)
    requires n <= |tokens| && Mirrors(kv, tokens)
    ensures Exact(Rm(kv, n, -1), tokens[..n])
  {
  }

  lemma MirrorsPrefix(kv: Kv, tokens: seq<Token>, n: nat)
    requires n <= |tokens| && Mirrors(kv, tokens)
    ensures Mirrors(kv, tokens[..n])
  {
  }

  /** The context of the language model, as far as it is the memory of its sequences. */
  class LlamaContext {
    var seqs: seq<Kv>

    constructor (nSeqs: nat)
      ensures |seqs| == nSeqs && forall i | 0 <= i < nSeqs :: seqs[i] == map[]
    {
      seqs := seq(nSeqs, _ => map[]);
    }
  }

  // ----- the batch -----

  /** A token of the batch, with its position in the sequence of a slot. */
  datatype BatchToken = BatchToken(token: Token, pos: nat, slot: nat)

  /** Decoding writes the tokens of a batch to the memory of their slots. */
  function Decoded(kv: Kv, batch: seq<BatchToken>, slot: nat): Kv
    decreases |batch|
  {
    if batch == [] then kv
    else Decoded(if batch[0].slot == slot then kv[batch[0].pos := batch[0].token] else kv, batch[1..], slot)
  }

  /** Memory and batch together: once decoded, each token to a new position, they are the tokens. */
  ghost predicate Aligned(kv: Kv, tokens: seq<Token>, batch: seq<BatchToken>, slot: nat)
    decreases |batch|
  {
    if batch == [] then Exact(kv, tokens)
    else if batch[0].slot != slot then Aligned(kv, tokens, batch[1..], slot)
    else batch[0].pos !in kv && Aligned(kv[batch[0].pos := batch[0].token], tokens, batch[1..], slot)
  }

  predicate Absent(batch: seq<BatchToken>, slot: nat) {
    forall b | b in batch :: b.slot != slot
  }

  lemma {:induction false} AlignedAbsent(kv: Kv, tokens: seq<Token>, batch: seq<BatchToken>, slot: nat)
    requires Absent(batch, slot)
    ensures Aligned(kv, tokens, batch, slot) <==> Exact(kv, tokens)
    ensures Decoded(kv, batch, slot) == kv
    decreases |batch|
  {
    if batch != [] {
      assert batch[0] in batch;
      AlignedAbsent(kv, tokens, batch[1..], slot);
    }
  }

  /** Decoding a first part of the batch leaves the rest of it to be decoded. */
  lemma {:induction false} AlignedSplit(kv: Kv, tokens: seq<Token>, a: seq<BatchToken>, b: seq<BatchToken>, slot: nat)
    requires Aligned(kv, tokens, a + b, slot)
    ensures Aligned(Decoded(kv, a, slot), tokens, b, slot)
    decreases |a|
  {
    if a == [] {
      assert a + b == b;
    } else {
      assert (a + b)[1..] == a[1..] + b;
      AlignedSplit(if a[0].slot == slot then kv[a[0].pos := a[0].token] else kv, tokens, a[1..], b, slot);
    }
  }

  /** A token that is added to the prompt and to the batch at once keeps them aligned. */
  lemma {:induction false} AlignedPush(kv: Kv, tokens: seq<Token>, batch: seq<BatchToken>, slot: nat, token: Token)
    requires Aligned(kv, tokens, batch, slot)
    ensures Aligned(kv, tokens + [token], batch + [BatchToken(token, |tokens|, slot)], slot)
    decreases |batch|
  {
    var last := BatchToken(token, |tokens|, slot);
    if batch == [] {
      assert [] + [last] == [last] && [last][1..] == [];
      assert Exact(kv[|tokens| := token], tokens + [token]);
    } else {
      assert (batch + [last])[1..] == batch[1..] + [last];
      AlignedPush(if batch[0].slot == slot then kv[batch[0].pos := batch[0].token] else kv, tokens, batch[1..], slot, token);
    }
  }

  /** A token for another slot does not matter. */
  lemma {:induction false} AlignedOther(kv: Kv, tokens: seq<Token>, batch: seq<BatchToken>, slot: nat, other: BatchToken)
    requires Aligned(kv, tokens, batch, slot) && other.slot != slot
    ensures Aligned(kv, tokens, batch + [other], slot)
    decreases |batch|
  {
    if batch == [] {
      assert [] + [other] == [other] && [other][1..] == [];
    } else {
      assert (batch + [other])[1..] == batch[1..] + [other];
      AlignedOther(if batch[0].slot == slot then kv[batch[0].pos := batch[0].token] else kv, tokens, batch[1..], slot, other);
    }
  }

  // ----- what the sampler sees -----

  /** The tokens at the positions before n, as the memory holds them. */
  function Context(kv: Kv, n: nat): seq<Token> {
    if n == 0 then [] else Context(kv, n - 1) + [if n - 1 in kv then kv[n - 1] else 0]
  }

  lemma {:induction false} ContextIsPrefix(kv: Kv, tokens: seq<Token>, n: nat)
    requires Mirrors(kv, tokens) && n <= |tokens|
    ensures Context(kv, n) == tokens[..n]
  {
    if n > 0 {
      ContextIsPrefix(kv, tokens, n - 1);
      assert tokens[..n] == tokens[..n - 1] + [tokens[n - 1]];
    }
  }
}
