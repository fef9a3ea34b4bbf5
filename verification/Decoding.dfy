/**
 Token-by-token decoding with a deterministic sampler, as the reference for the slot engine;
 and why a round of speculative decoding is a number of its steps.
 */
module Decoding {
  import opened Tokens

  /** The model and sampler: the next token, given the tokens so far. */
  type Sampler = seq<Token> -> Token

  /** How far a slot is: its tokens, and the sampled one that is not among them yet. */
  datatype Gen = Gen(tokens: seq<Token>, sampled: Token)

  /** How the context of a slot is shifted when it is full, if it is. */
  datatype Window = Window(shifts: bool, nCtx: nat, nKeep: nat, nDiscard: nat) {
    predicate Valid() {
      nCtx >= 4 && 1 <= nDiscard && nKeep + nDiscard < nCtx
    }
  }

  /** The tokens from nKeep up to nKeep + nDiscard are dropped. */
  function Shifted(tokens: seq<Token>, nKeep: nat, nDiscard: nat): seq<Token>
    requires nKeep + nDiscard <= |tokens|
  {
    tokens[..nKeep] + tokens[nKeep + nDiscard..]
  }

  /** The tokens after the check that there is room for one more. */
  function MakeRoom(w: Window, tokens: seq<Token>): (r: seq<Token>)
    requires w.Valid()
  {
    if w.shifts && |tokens| + 1 >= w.nCtx then Shifted(tokens, w.nKeep, w.nDiscard) else tokens
  }

  /** One token is decoded and the next one sampled. */
  function Step(w: Window, f: Sampler, g: Gen): Gen
    requires w.Valid()
  {
    var tokens := g.tokens + [g.sampled];
    Gen(MakeRoom(w, tokens), f(tokens))
  }

  function Steps(w: Window, f: Sampler, g: Gen, n: nat): Gen
    requires w.Valid()
    decreases n
  {
    if n == 0 then g else Steps(w, f, Step(w, f, g), n - 1)
  }

  lemma {:induction false} StepsAdd(w: Window, f: Sampler, g: Gen, m: nat, n: nat)
    requires w.Valid()
    ensures Steps(w, f, g, m + n) == Steps(w, f, Steps(w, f, g, m), n)
    decreases m
  {
    if m > 0 {
      StepsAdd(w, f, Step(w, f, g), m - 1, n);
    }
  }

  /**
   The tokens that are accepted of a draft: those with which the sampler agrees, and the one
   with which it goes on.
   */
  function Accepted(f: Sampler, context: seq<Token>, draft: seq<Token>): (ids: seq<Token>)
    ensures 1 <= |ids| <= |draft| + 1
    decreases |draft|
  {
    var id := f(context);
    if draft != [] && draft[0] == id then [id] + Accepted(f, context + [id], draft[1..]) else [id]
  }

  /** All accepted tokens but the last are those of the draft. */
  lemma {:induction false} AcceptedIsDrafted(f: Sampler, context: seq<Token>, draft: seq<Token>)
    ensures var ids := Accepted(f, context, draft); ids[..|ids| - 1] == draft[..|ids| - 1]
    decreases |draft|
  {
    var id := f(context);
    if draft != [] && draft[0] == id {
      var rest := Accepted(f, context + [id], draft[1..]);
      AcceptedIsDrafted(f, context + [id], draft[1..]);
      var ids := [id] + rest;
      assert ids[..|ids| - 1] == [id] + rest[..|rest| - 1];
      assert draft[..|ids| - 1] == [draft[0]] + draft[1..][..|rest| - 1];
    }
  }

  /** The state after tokens have been accepted. */
  function Take(w: Window, g: Gen, ids: seq<Token>): Gen
    requires w.Valid() && ids != []
  {
    Gen(MakeRoom(w, g.tokens + [g.sampled] + ids[..|ids| - 1]), ids[|ids| - 1])
  }

  /** What a speculative round leaves. */
  function Round(w: Window, f: Sampler, g: Gen, draft: seq<Token>): Gen
    requires w.Valid()
  {
    Take(w, g, Accepted(f, g.tokens + [g.sampled], draft))
  }

  /** Whatever was drafted, a round is as many steps as it accepts tokens. */
  lemma {:induction false} RoundIsSteps(w: Window, f: Sampler, g: Gen, draft: seq<Token>)
    requires w.Valid() && |g.tokens| + |draft| + 1 < w.nCtx
    ensures Round(w, f, g, draft) == Steps(w, f, g, |Accepted(f, g.tokens + [g.sampled], draft)|)
    decreases |draft|
  {
    var base := g.tokens + [g.sampled];
    var id := f(base);
    if draft != [] && draft[0] == id {
      var next := Gen(base, id);
      assert Step(w, f, g) == next;
      RoundIsSteps(w, f, next, draft[1..]);
      var rest := Accepted(f, base + [id], draft[1..]);
      var ids := [id] + rest;
      assert ids[..|ids| - 1] == [id] + rest[..|rest| - 1];
      assert base + ids[..|ids| - 1] == (base + [id]) + rest[..|rest| - 1];
    } else {
      assert [id][..0] == [];
      assert base + [] == base;
      assert Steps(w, f, Step(w, f, g), 0) == Step(w, f, g);
    }
  }

  /** Making room does nothing the second time. */
  lemma MakeRoomTwice(w: Window, tokens: seq<Token>)
    requires w.Valid() && |tokens| < w.nCtx
    ensures MakeRoom(w, MakeRoom(w, tokens)) == MakeRoom(w, tokens)
    ensures w.shifts ==> |MakeRoom(w, tokens)| + 1 < w.nCtx
  {
  }

  // ----- where token-by-token decoding is -----

  /** Tokens that have room made for them, and a sampled one, are what a number of steps reaches. */
  ghost predicate Reached(w: Window, f: Sampler, first: Gen, steps: nat, tokens: seq<Token>, sampled: Token)
    requires w.Valid()
  {
    Gen(MakeRoom(w, tokens), sampled) == Steps(w, f, first, steps)
  }

  lemma ReachedStart(w: Window, f: Sampler, tokens: seq<Token>, sampled: Token)
    requires w.Valid()
    ensures Reached(w, f, Gen(MakeRoom(w, tokens), sampled), 0, tokens, sampled)
  {
  }

  lemma ReachedStep(w: Window, f: Sampler, first: Gen, steps: nat, tokens: seq<Token>, sampled: Token)
    requires w.Valid() && |tokens| + 1 < w.nCtx && Reached(w, f, first, steps, tokens, sampled)
    ensures Reached(w, f, first, steps + 1, tokens + [sampled], f(tokens + [sampled]))
  {
    var g := Gen(tokens, sampled);
    StepsAdd(w, f, first, steps, 1);
    assert Steps(w, f, g, 1) == Steps(w, f, Step(w, f, g), 0);
  }

  lemma RoundIsTaken(w: Window, f: Sampler, g: Gen, draft: seq<Token>, ids: seq<Token>)
    requires w.Valid() && |g.tokens| + |draft| + 1 < w.nCtx
    requires ids == Accepted(f, g.tokens + [g.sampled], draft)
    ensures ids != [] && Take(w, g, ids) == Steps(w, f, g, |ids|)
  {
    RoundIsSteps(w, f, g, draft);
  }

  lemma ReachedTake(w: Window, f: Sampler, first: Gen, steps: nat, g: Gen, ids: seq<Token>)
    requires w.Valid() && |g.tokens| + 1 < w.nCtx && Reached(w, f, first, steps, g.tokens, g.sampled)
    requires ids != [] && Take(w, g, ids) == Steps(w, f, g, |ids|)
    ensures Reached(w, f, first, steps + |ids|, g.tokens + [g.sampled] + ids[..|ids| - 1], ids[|ids| - 1])
  {
    StepsAdd(w, f, first, steps, |ids|);
  }

  lemma ReachedShift(w: Window, f: Sampler, first: Gen, steps: nat, tokens: seq<Token>, sampled: Token)
    requires w.Valid() && |tokens| < w.nCtx && Reached(w, f, first, steps, tokens, sampled)
    ensures Reached(w, f, first, steps, MakeRoom(w, tokens), sampled)
  {
    MakeRoomTwice(w, tokens);
  }

  // ----- a run of rounds -----

  /** A run of rounds, each with a draft that fits into the context. */
  function Rounds(w: Window, f: Sampler, g: Gen, drafts: seq<seq<Token>>): Gen
    requires w.Valid()
    decreases |drafts|
  {
    if drafts == [] then g else Rounds(w, f, Round(w, f, g, drafts[0]), drafts[1..])
  }

  /** Each draft leaves room for the sampled token and one more. */
  ghost predicate DraftsFit(w: Window, f: Sampler, g: Gen, drafts: seq<seq<Token>>)
    requires w.Valid()
    decreases |drafts|
  {
    drafts == [] || (|g.tokens| + |drafts[0]| + 1 < w.nCtx && DraftsFit(w, f, Round(w, f, g, drafts[0]), drafts[1..]))
  }

  /** Speculative decoding refines plain decoding: what it reaches, plain decoding reaches too. */
  lemma {:induction false} RoundsAreSteps(w: Window, f: Sampler, g: Gen, drafts: seq<seq<Token>>) returns (n: nat)
    requires w.Valid() && DraftsFit(w, f, g, drafts)
    ensures Rounds(w, f, g, drafts) == Steps(w, f, g, n) && n >= |drafts|
    decreases |drafts|
  {
    if drafts == [] {
      n := 0;
    } else {
      RoundIsSteps(w, f, g, drafts[0]);
      var m := |Accepted(f, g.tokens + [g.sampled], drafts[0])|;
      n := RoundsAreSteps(w, f, Round(w, f, g, drafts[0]), drafts[1..]);
      StepsAdd(w, f, g, m, n);
      n := m + n;
    }
  }
}
