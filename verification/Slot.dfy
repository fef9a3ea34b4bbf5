/**
 A slot of the server: the tokens it believes to be in its sequence of the memory, and the
 operations that change both.
 */
module Slots {
  import opened Tokens
  import opened Memory
  import opened Decoding
  import opened Reuse
  import opened SlotState

  /** Of the sequences in the memory, at most one has changed. */
  ghost predicate OnlyOne(before: seq<Memory.Kv>, after: seq<Memory.Kv>, id: nat) {
    |before| == |after| && forall j | 0 <= j < |before| && j != id :: before[j] == after[j]
  }

  class ServerSlot {
    const id: nat
    const ctx: LlamaContext
    const nCtx: nat
    const canSpeculate: bool

    var state: State
    var task: Task
    var lora: int
    var tokens: seq<Token>
    var sampled: Token
    var drafted: seq<Token>
    var iBatch: int
    var iBatchDft: seq<nat>
    var nDecoded: nat
    var nRemaining: int
    /** How many tokens have been sampled since the first one behind the prompt. */
    ghost var steps: nat

    constructor (id: nat, ctx: LlamaContext, nCtx: nat, canSpeculate: bool)
      ensures this.id == id && this.ctx == ctx && this.nCtx == nCtx
      ensures state == Idle && tokens == [] && drafted == [] && iBatchDft == []
      ensures this.canSpeculate == canSpeculate
    {
      this.id, this.ctx, this.nCtx, this.canSpeculate := id, ctx, nCtx, canSpeculate;
      state, task, lora, tokens, sampled := Idle, NO_TASK, 0, [], 0;
      drafted, iBatch, iBatchDft, nDecoded, nRemaining := [], -1, [], 0, -1;
    }

    ghost predicate Valid()
      reads this, ctx
    {
      id < |ctx.seqs| && nCtx >= 4
    }

    ghost function View(): Slot
      reads this
    {
      Slot(id, nCtx, canSpeculate, state, task, tokens, sampled, drafted, iBatch, iBatchDft, lora, steps, nDecoded)
    }

    function Kv(): Memory.Kv
      reads this, ctx
      requires Valid()
    {
      ctx.seqs[id]
    }

    method PromptClear()
      requires Valid()
      modifies this`tokens, ctx
      ensures Valid() && OnlyOne(old(ctx.seqs), ctx.seqs, id) && tokens == [] && Kv() == map[]
    {
      var kv := Rm(Kv(), -1, -1);
      assert kv == map[];
      ctx.seqs := ctx.seqs[id := kv];
      tokens := [];
    }

    // ----- releasing -----

    /** The task ends; what is known of the tokens stays. */
    method Release()
      modifies this
      ensures state == Idle && tokens == old(tokens)
      ensures old(state) != Idle ==> drafted == [] && iBatchDft == []
      ensures old(state) == Idle ==> View() == old(View())
      ensures steps == old(steps)
    {
      if state != Idle {
        state := Idle;
        drafted, iBatchDft := [], [];
        task := NO_TASK;
      }
    }

    // ----- the context shift -----

    method ShiftMemory(nKeep: nat, nDiscard: int)
      requires Valid() && nDiscard >= 0 && nKeep + nDiscard <= |tokens| && Exact(Kv(), tokens)
      modifies ctx
      ensures Valid() && OnlyOne(old(ctx.seqs), ctx.seqs, id)
      ensures Exact(Kv(), Shifted(tokens, nKeep, nDiscard))
    {
      var kv := ShiftKv(Kv(), tokens, nKeep, nDiscard);
      ctx.seqs := ctx.seqs[id := kv];
    }

    /** Drops tokens to make room, in the prompt and in the memory. */
    method ShiftContext(cfg: Config)
      requires Valid() && Exact(Kv(), tokens) && |tokens| + 1 == nCtx
      requires DiscardsInRange(cfg, task, nCtx)
      modifies this`tokens, ctx
      ensures tokens == Shifted(old(tokens), Keeps(cfg, task, nCtx), Discards(cfg, task, nCtx, nCtx - 1))
      ensures IsShifted(cfg, task, nCtx, old(tokens), tokens)
      ensures Valid() && OnlyOne(old(ctx.seqs), ctx.seqs, id) && Exact(Kv(), tokens)
    {
      ShiftIsAsAsked(cfg, task, nCtx, tokens);
      var nKeep := if task.nKeep < 0 then |task.tokens| else task.nKeep;
      if cfg.addBos {
        nKeep := nKeep + 1;
      }
      nKeep := Min(nCtx - 4, nKeep);
      var nLeft := |tokens| - nKeep;
      var nDiscard := if task.nDiscard != 0 then task.nDiscard else nLeft / 2;
      assert nKeep == Keeps(cfg, task, nCtx) && nDiscard == Discards(cfg, task, nCtx, nCtx - 1);

      ShiftMemory(nKeep, nDiscard);
      tokens := DropTokens(tokens, nKeep, nDiscard);
    }

    /** A slot that is generating gets room for the next token. */
    method ShiftIfFull(cfg: Config, ghost f: Samplers)
      requires Valid() && AtRest(cfg, f, View(), Kv())
      modifies this`tokens, ctx
      ensures Valid() && OnlyOne(old(ctx.seqs), ctx.seqs, id) && AtRest(cfg, f, View(), Kv())
      ensures state == Generating ==> |tokens| + 1 < nCtx
      ensures View() == old(View()).(tokens := tokens)
      ensures ShiftedSlot(cfg, old(View()), View())
    {
      if state == Generating && |tokens| + 1 >= nCtx {
        if !cfg.ctxShift {
          // Generation has been stopped before: this cannot happen.
          assert false;
          return;
        }
        ghost var before := View();
        ShiftContext(cfg);
        FollowsShifted(cfg, f, before, View());
      }
    }

    // ----- the prompt -----

    /** A new prompt keeps what it can of the old one. */
    method StartPrompt(cfg: Config) returns (goesOn: bool)
      requires Valid() && View().Wf(cfg) && View().Undrafted() && state == Started && Mirrors(Kv(), tokens)
      modifies this, ctx
      ensures Valid() && OnlyOne(old(ctx.seqs), ctx.seqs, id) && View().Wf(cfg) && View().Undrafted()
      ensures Mirrors(Kv(), tokens)
      ensures goesOn <==> Admitted(cfg, old(View()))
      ensures !goesOn ==> state == Idle && tokens == old(tokens)
      ensures goesOn ==> state == ProcessingPrompt && task == old(task) && InPrompt(cfg, View())
      ensures goesOn ==> |tokens| == Past(cfg, old(View())) && lora == old(lora)
    {
      state := ProcessingPrompt;
      var input := task.tokens;
      if input == [] {
        Release();
        return false;
      }
      if !CanSplit(cfg, task) {
        if |input| > cfg.nUbatch {
          Release();
          return false;
        }
        if |input| > nCtx {
          Release();
          return false;
        }
      } else {
        if |input| >= nCtx {
          Release();
          return false;
        }
      }
      KeepPast(cfg);
      goesOn := true;
    }

    /** What is reused of the old prompt stays; at least one token is left to be decoded. */
    method KeepPast(cfg: Config)
      requires Valid() && Mirrors(Kv(), tokens) && task.tokens != []
      modifies this`tokens, ctx
      ensures Valid() && OnlyOne(old(ctx.seqs), ctx.seqs, id)
      ensures Mirrors(Kv(), tokens) && tokens < task.tokens && |tokens| == Past(cfg, old(View()))
    {
      var input := task.tokens;
      var nPast := FindPast(cfg);
      if nPast > 0 && nPast < |tokens| {
        CheckPosMin(nPast);
      }
      if nPast == |input| && nPast > 0 {
        MirrorsPrefix(Kv(), tokens[..nPast], nPast - 1);
        PrefixOfPrefix(tokens, input, nPast, nPast - 1);
        nPast := nPast - 1;
      }
      tokens := tokens[..nPast];
    }

    /** How much can be reused; chunks of the old prompt are moved to where the new one has them. */
    method FindPast(cfg: Config) returns (nPast: nat)
      requires Valid() && Mirrors(Kv(), tokens)
      modifies this`tokens, ctx
      ensures Valid() && OnlyOne(old(ctx.seqs), ctx.seqs, id)
      ensures nPast == Reusable(cfg, old(View())) && nPast <= |tokens| && nPast <= |task.tokens|
      ensures tokens[..nPast] == task.tokens[..nPast] && Mirrors(Kv(), tokens[..nPast])
    {
      nPast := 0;
      if CanSplit(cfg, task) && task.cachePrompt {
        nPast := GetCommonPrefix(tokens, task.tokens);
        if cfg.canShift && task.nCacheReuse > 0 {
          var kv;
          kv, tokens, nPast := ReuseChunks(Kv(), tokens, task.tokens, task.nCacheReuse, nPast);
          ctx.seqs := ctx.seqs[id := kv];
        } else {
          MirrorsPrefix(Kv(), tokens, nPast);
        }
      }
    }

    /** The check that the memory still holds what is reused; without a sliding window it does. */
    method CheckPosMin(nPast: nat)
      requires Valid() && 0 < nPast <= |tokens| && Mirrors(Kv(), tokens[..nPast])
    {
      var posMin := SeqPosMin(Kv());
      NoCheckpointNeeded(Kv(), tokens, nPast, posMin);
      if posMin == -1 {
        // The original aborts: this cannot happen.
        assert false;
      }
      if posMin > nPast - 1 {
        // A checkpoint would be looked for: this cannot happen.
        assert false;
      }
    }

    /** Tokens of the prompt are added to the batch, behind what the memory is cut down to. */
    method AddPrompt(cfg: Config, ghost f: Samplers, batch0: seq<BatchToken>, truncates: bool)
      returns (added: bool, batch: seq<BatchToken>, ghost more: seq<BatchToken>)
      requires Valid() && AtRest(cfg, f, View(), Kv()) && state == ProcessingPrompt && Absent(batch0, id)
      modifies this, ctx
      ensures Valid() && OnlyOne(old(ctx.seqs), ctx.seqs, id)
      ensures batch == batch0 + more && forall b | b in more :: b.slot == id
      ensures Queued(cfg, f, View(), Kv(), batch, 0, 0) && (state == ProcessingPrompt || state == DonePrompt)
      ensures lora == old(lora) && (!added ==> batch == batch0)
      ensures !added <==> !CanSplit(cfg, old(task)) && |batch0| + |old(task).tokens| > cfg.nBatch
      ensures added ==> state == DonePrompt || |batch| >= cfg.nBatch
      ensures |batch| <= cfg.nBatch || more == []
      ensures task == old(task) && |tokens| == (if added && !truncates then 0 else |old(tokens)|) + |more|
    {
      if !CanSplit(cfg, task) && |batch0| + |task.tokens| > cfg.nBatch {
        assert batch0 + [] == batch0 && batch0[0..] == batch0;
        return false, batch0, [];
      }
      added := true;
      CutMemory(truncates);
      AlignedAbsent(Kv(), tokens, batch0, id);
      batch, more := FillFrom(cfg, f, batch0);
    }

    /** The batch is filled with tokens of the prompt, which may complete it. */
    method FillFrom(cfg: Config, ghost f: Samplers, batch0: seq<BatchToken>) returns (batch: seq<BatchToken>, ghost more: seq<BatchToken>)
      requires Valid() && View().Wf(cfg) && View().Undrafted() && state == ProcessingPrompt && InPrompt(cfg, View())
      requires Aligned(Kv(), tokens, batch0, id)
      modifies this
      ensures batch == batch0 + more && forall b | b in more :: b.slot == id
      ensures Queued(cfg, f, View(), Kv(), batch, 0, 0) && (state == ProcessingPrompt || state == DonePrompt)
      ensures state == DonePrompt || |batch| >= cfg.nBatch
      ensures |batch| <= cfg.nBatch || more == []
      ensures task == old(task) && |tokens| == |old(tokens)| + |more|
      ensures lora == old(lora)
    {
      var filled;
      filled, batch, more := FillBatch(tokens, task.tokens, batch0, cfg.nBatch, id, Kv());
      tokens := filled;
      if |tokens| == |task.tokens| {
        state := DonePrompt;
        nDecoded := 0;
        iBatch := |batch| - 1;
        PromptEnds(cfg, f, View(), Kv(), batch);
      } else {
        PromptWaits(cfg, f, View(), Kv(), batch);
      }
    }

    /** The memory behind the tokens is removed; if that is not possible, all of it, and the tokens. */
    method CutMemory(truncates: bool)
      requires Valid() && Mirrors(Kv(), tokens)
      modifies this`tokens, ctx
      ensures Valid() && OnlyOne(old(ctx.seqs), ctx.seqs, id)
      ensures Exact(Kv(), tokens) && tokens == if truncates then old(tokens) else []
    {
      if truncates {
        Truncated(Kv(), tokens, |tokens|);
        assert tokens[..|tokens|] == tokens;
        ctx.seqs := ctx.seqs[id := Rm(Kv(), |tokens|, -1)];
      } else {
        PromptClear();
      }
    }

    // ----- sampling -----

    /** Another token may be generated. */
    method HasBudget(cfg: Config) returns (more: bool)
      modifies this`nRemaining
      ensures more <==> InBudget(cfg, task, nDecoded)
      ensures nRemaining == if Budget(cfg, task) == -1 then old(nRemaining) else Budget(cfg, task) - nDecoded
    {
      if task.nPredict == -1 && cfg.nPredict == -1 {
        return true;
      }
      nRemaining := -1;
      if task.nPredict != -1 {
        nRemaining := task.nPredict - nDecoded;
      } else if cfg.nPredict != -1 {
        nRemaining := cfg.nPredict - nDecoded;
      }
      more := nRemaining > 0;
    }

    /**
     Whether another token is wanted: if nothing has stopped the generation, if there is room for
     it or the context will be shifted, and if the budget is not used up.
     */
    method ProcessToken(cfg: Config, token: Token, stopped: bool) returns (more: bool)
      modifies this`sampled, this`nRemaining
      ensures sampled == token
      ensures more <==>
        && !stopped && (cfg.ctxShift || |tokens| + 1 < nCtx)
        && (nDecoded > 0 ==> InBudget(cfg, task, nDecoded))
      ensures more && nDecoded > 0 && Budget(cfg, task) != -1 ==> nRemaining == Budget(cfg, task) - nDecoded
    {
      sampled := token;
      more := !stopped;
      if !cfg.ctxShift && |tokens| + 1 >= nCtx {
        more := false;
      }
      if nDecoded > 0 && more {
        more := HasBudget(cfg);
      }
    }

    /** The first token behind the prompt is sampled. */
    method BeginGenerating(cfg: Config, ghost f: Samplers, ghost token: Token)
      requires Valid() && View().Wf(cfg) && View().Undrafted() && task.NeedsSampling()
      requires Exact(Kv(), tokens) && |tokens| < nCtx && state == DonePrompt && nDecoded == 0
      requires tokens == task.tokens && token == f(task)(tokens)
      modifies this
      ensures View().Wf(cfg) && state == Generating && tokens == old(tokens) && Sampled(cfg, f, View(), Kv(), token)
      ensures task == old(task) && steps == 0 && nDecoded == 1
    {
      state := Generating;
      iBatch := -1;
      nDecoded := nDecoded + 1;
      steps := 0;
      ReachedStart(WindowOf(cfg, View()), f(task), tokens, token);
    }

    /** The token behind the one that was decoded last is sampled. */
    method GoOnGenerating(cfg: Config, ghost f: Samplers, ghost base: seq<Token>, ghost token: Token)
      requires Valid() && View().Wf(cfg) && View().Undrafted() && task.NeedsSampling()
      requires Exact(Kv(), tokens) && |tokens| < nCtx && state == Generating && nDecoded == steps + 1
      requires tokens == base + [sampled] && Follows(cfg, f, View(), base, sampled) && token == f(task)(tokens)
      modifies this
      ensures View().Wf(cfg) && state == Generating && tokens == old(tokens) && Sampled(cfg, f, View(), Kv(), token)
      ensures task == old(task)
      ensures steps == old(steps) + 1
    {
      ghost var before := View();
      iBatch := -1;
      nDecoded := nDecoded + 1;
      steps := steps + 1;
      FollowsOn(cfg, f, before, View(), base, sampled);
    }

    /** The decoded prompt, or the decoded token, is followed by a sampled one. */
    method Sample(cfg: Config, f: Samplers, pos: nat) returns (token: Token)
      requires Valid() && View().Wf(cfg) && View().Undrafted() && task.NeedsSampling()
      requires Exact(Kv(), tokens) && pos + 1 == |tokens| < nCtx
      requires (state == Generating && nDecoded == steps + 1) || (state == DonePrompt && tokens == task.tokens && nDecoded == 0)
      requires state == Generating ==> tokens[pos] == sampled && Follows(cfg, f, View(), tokens[..pos], sampled)
      modifies this
      ensures View().Wf(cfg) && state == Generating && tokens == old(tokens) && token == f(task)(tokens)
      ensures task == old(task)
      ensures Sampled(cfg, f, View(), Kv(), token)
      ensures steps == (if old(state) == Generating then old(steps) + 1 else 0) && nDecoded == old(nDecoded) + 1
    {
      ContextIsPrefix(Kv(), tokens, pos + 1);
      assert tokens[..pos + 1] == tokens;
      token := f(task)(Context(Kv(), pos + 1));
      if state == DonePrompt {
        BeginGenerating(cfg, f, token);
      } else {
        assert tokens == tokens[..pos] + [tokens[pos]];
        GoOnGenerating(cfg, f, tokens[..pos], token);
      }
    }

    /** The slot goes on with the sampled token, or is released. */
    method Continue(cfg: Config, ghost f: Samplers, token: Token, stopped: bool)
      requires Valid() && View().Wf(cfg) && state == Generating && Sampled(cfg, f, View(), Kv(), token)
      modifies this
      ensures AtRest(cfg, f, View(), Kv()) && tokens == old(tokens)
      ensures state == Idle || (state == Generating && sampled == token && !stopped && task == old(task))
      ensures state == Generating <==>
        && !stopped && (cfg.ctxShift || |tokens| + 1 < nCtx)
        && InBudget(cfg, old(task), old(nDecoded))
      ensures steps == old(steps)
    {
      ghost var before := View();
      var more := ProcessToken(cfg, token, stopped);
      FollowsStill(cfg, f, before, View(), tokens, token);
      if !more {
        Release();
      }
    }

    // ----- drafting -----

    /** The length of the longest draft that is allowed, if there is one. */
    method GetNDraftMax() returns (n: int)
      ensures n > 0 ==> DraftFits(View(), nRemaining, n)
      ensures forall m | m > 0 && DraftFits(View(), nRemaining, m) :: m <= n
    {
      if !canSpeculate {
        return 0;
      }
      n := Min(task.nDraftMax, nCtx - |tokens| - 2);
      if nRemaining > 0 {
        n := Min(n, nRemaining - 1);
      }
      if n < task.nDraftMin {
        n := 0;
      }
    }

    /** The sampled token is added to the batch, and behind it as much of a draft as is allowed. */
    method AddSampled(cfg: Config, ghost f: Samplers, draft: Drafters, batch0: seq<BatchToken>)
      returns (batch: seq<BatchToken>, ghost more: seq<BatchToken>)
      requires Valid() && View().Wf(cfg) && state == Generating && |tokens| + 1 < nCtx
      requires Ready(cfg, f, View(), Kv()) && Absent(batch0, id)
      modifies this
      ensures View().Wf(cfg) && state == Generating
      ensures batch == batch0 + more && forall b | b in more :: b.slot == id
      ensures Queued(cfg, f, View(), Kv(), batch, 0, 0)
      ensures tokens == old(tokens) + [sampled] + drafted
      ensures drafted <= draft(task)(old(tokens), sampled) && (drafted != [] ==> DraftFits(old(View()), old(nRemaining), |drafted|))
      ensures forall m | 0 < m <= |draft(task)(old(tokens), sampled)| && DraftFits(old(View()), old(nRemaining), m) :: m <= |drafted|
      ensures View() == old(View()).(tokens := tokens, drafted := drafted, iBatch := iBatch, iBatchDft := iBatchDft) && InBatch(View())
    {
      var nDraftMax := GetNDraftMax();
      if nDraftMax > 0 {
        var drawn := draft(task)(tokens, sampled);
        if |drawn| > nDraftMax {
          drawn := drawn[..nDraftMax];
        }
        if |drawn| >= task.nDraftMin {
          batch, more := AddDraft(cfg, f, drawn, batch0);
          return;
        }
      }
      batch, more := AddPlain(cfg, f, batch0);
    }

    method AddPlain(cfg: Config, ghost f: Samplers, batch0: seq<BatchToken>)
      returns (batch: seq<BatchToken>, ghost more: seq<BatchToken>)
      requires Valid() && View().Wf(cfg) && state == Generating && |tokens| + 1 < nCtx
      requires Ready(cfg, f, View(), Kv()) && Absent(batch0, id)
      modifies this
      ensures View().Wf(cfg) && state == Generating
      ensures batch == batch0 + more && forall b | b in more :: b.slot == id
      ensures Queued(cfg, f, View(), Kv(), batch, 0, 0)
      ensures tokens == old(tokens) + [sampled] + drafted && drafted == []
      ensures View() == old(View()).(tokens := tokens, drafted := drafted, iBatch := iBatch, iBatchDft := iBatchDft) && InBatch(View())
    {
      ghost var before := View();
      iBatch := |batch0|;
      var entry := BatchToken(sampled, |tokens|, id);
      batch, more := batch0 + [entry], [entry];
      AlignedAbsent(Kv(), tokens, batch0, id);
      AlignedPush(Kv(), tokens, batch0, id, sampled);
      assert tokens + [sampled] + drafted == tokens + [sampled];
      tokens := tokens + [sampled];
      PlainQueued(cfg, f, before, View(), Kv(), batch0, batch);
    }

    method AddDraft(cfg: Config, ghost f: Samplers, drawn: seq<Token>, batch0: seq<BatchToken>)
      returns (batch: seq<BatchToken>, ghost more: seq<BatchToken>)
      requires Valid() && View().Wf(cfg) && state == Generating && |tokens| + |drawn| + 1 < nCtx && canSpeculate
      requires Ready(cfg, f, View(), Kv()) && Absent(batch0, id)
      modifies this
      ensures View().Wf(cfg) && state == Generating
      ensures batch == batch0 + more && forall b | b in more :: b.slot == id
      ensures Queued(cfg, f, View(), Kv(), batch, 0, 0) && drafted == drawn
      ensures tokens == old(tokens) + [sampled] + drafted
      ensures View() == old(View()).(tokens := tokens, drafted := drafted, iBatch := iBatch, iBatchDft := iBatchDft) && InBatch(View())
    {
      ghost var before := View();
      AlignedAbsent(Kv(), tokens, batch0, id);
      var added;
      added, batch, iBatchDft, more := PushAll(tokens, [sampled] + drawn, batch0, id, Kv());
      assert tokens + ([sampled] + drawn) == tokens + [sampled] + drawn;
      tokens := added;
      drafted := drawn;
      DraftQueued(cfg, f, before, View(), Kv(), batch0, batch);
    }

    // ----- accepting -----

    /** What the model makes of a draft that has been decoded: the accepted tokens, and one more. */
    method Accept(cfg: Config, f: Samplers, batch: seq<BatchToken>) returns (ids: seq<Token>, base: seq<Token>)
      requires Valid() && View().Wf(cfg) && state == Generating && Drafting(cfg, f, View(), batch) && Exact(Kv(), tokens)
      ensures |tokens| == |base| + 1 + |drafted| && tokens == base + [sampled] + drafted
      ensures Follows(cfg, f, View(), base, sampled)
      ensures ids == Accepted(f(task), base + [sampled], drafted)
    {
      var n := |tokens| - |drafted| - 1;
      base := tokens[..n];
      assert tokens == base + [sampled] + drafted by {
        assert tokens == tokens[..n] + [tokens[n]] + tokens[n + 1..];
      }
      var positions := seq(|iBatchDft|, j requires 0 <= j < |iBatchDft| && iBatchDft[j] < |batch| reads this => batch[iBatchDft[j]].pos);
      ids := SampleAndAccept(f(task), Kv(), positions, drafted, base + [sampled]);
    }

    /** The draft is rolled back, and what was accepted of it is added again. */
    method KeepAccepted(ids: seq<Token>, ghost f: Sampler, ghost base: seq<Token>)
      requires Valid() && ids != [] && Exact(Kv(), tokens)
      requires tokens == base + drafted && ids == Accepted(f, base, drafted)
      modifies this`tokens, this`iBatchDft, this`drafted, this`nDecoded, this`sampled, ctx
      ensures Valid() && OnlyOne(old(ctx.seqs), ctx.seqs, id) && Exact(Kv(), tokens)
      ensures tokens == base + ids[..|ids| - 1] && View().Undrafted() && sampled == ids[|ids| - 1] && nDecoded == old(nDecoded) + |ids|
    {
      RolledBack(Kv(), base, drafted, ids, f);
      var nDraft := |drafted|;
      iBatchDft, drafted := [], [];
      nDecoded := nDecoded + |ids|;
      assert tokens[..|tokens| - nDraft] == base;
      tokens := tokens[..|tokens| - nDraft];
      tokens := tokens + ids[..|ids| - 1];
      sampled := ids[|ids| - 1];
      ctx.seqs := ctx.seqs[id := Rm(Kv(), |tokens|, -1)];
    }

    /** There is room for another token, and the budget allows one. */
    predicate HasLeft(cfg: Config, task: Task, n: nat)
      reads this`tokens
    {
      (cfg.ctxShift || |tokens| + 1 < nCtx) && InBudget(cfg, task, n)
    }

    /**
     One after the other, the accepted tokens are processed, until the slot is released; `shown` are those
     that have been processed. All of them are counted already: if they use up the budget, or the context,
     the first of them is the last one that is processed.
     */
    method ContinueAll(cfg: Config, ghost f: Samplers, base: seq<Token>, ids: seq<Token>, stops: Stops) returns (ghost shown: nat)
      requires Valid() && View().Wf(cfg) && state == Generating && ids != []
      requires Sampled(cfg, f, View(), Kv(), ids[|ids| - 1])
      modifies this
      ensures AtRest(cfg, f, View(), Kv()) && tokens == old(tokens)
      ensures state == Idle || (state == Generating && sampled == ids[|ids| - 1] && task == old(task))
      ensures steps == old(steps) && 1 <= shown <= |ids| && (state == Generating ==> shown == |ids|)
      ensures NoneStops(stops(old(task)), base, ids, shown - 1) && (shown > 1 ==> HasLeft(cfg, old(task), old(nDecoded)))
      ensures state == Idle <==> stops(old(task))(base + ids[..shown - 1], ids[shown - 1]) || !HasLeft(cfg, old(task), old(nDecoded))
    {
      var i, more, stop := 0, true, stops(task);
      ghost var left, own := HasLeft(cfg, task, nDecoded), task;
      shown := 0;
      while i < |ids| && more
        invariant 0 <= i <= |ids| && shown == i && tokens == old(tokens) && steps == old(steps) && (i == 0 ==> more)
        invariant more ==> task == own && HasLeft(cfg, task, nDecoded) == left && Pending(cfg, f, ids[|ids| - 1])
        invariant more && i > 0 ==> sampled == ids[i - 1]
        invariant (if more then i > 0 else i > 1) ==> left
        invariant NoneStops(stop, base, ids, if more then i else i - 1)
        invariant !more ==> state == Idle && AtRest(cfg, f, View(), Kv()) && (stop(base + ids[..i - 1], ids[i - 1]) || !left)
      {
        more := ProcessAccepted(cfg, f, ids[i], stop(base + ids[..i], ids[i]), ids[|ids| - 1]);
        i := i + 1;
        shown := i;
      }
    }

    /** The slot generates, and a token has been sampled last. */
    ghost predicate Pending(cfg: Config, f: Samplers, last: Token)
      reads this, ctx
    {
      Valid() && View().Wf(cfg) && state == Generating && Sampled(cfg, f, View(), Kv(), last)
    }

    /** One of the accepted tokens is processed; if nothing more is wanted the slot is released. */
    method ProcessAccepted(cfg: Config, ghost f: Samplers, token: Token, stopped: bool, ghost last: Token) returns (more: bool)
      requires Pending(cfg, f, last)
      modifies this
      ensures tokens == old(tokens) && steps == old(steps)
      ensures more <==> !stopped && HasLeft(cfg, old(task), old(nDecoded))
      ensures more ==> task == old(task) && nDecoded == old(nDecoded) && Pending(cfg, f, last) && sampled == token
      ensures !more ==> state == Idle && AtRest(cfg, f, View(), Kv())
    {
      ghost var before := View();
      more := ProcessToken(cfg, token, stopped);
      FollowsStill(cfg, f, before, View(), tokens, last);
      if !more {
        Release();
      }
    }

    /**
     A round of speculative decoding: whatever was drafted, it is a number of plain steps. The first `shown`
     of the accepted tokens are processed: all of them if and only if none but the last ends the generation.
     */
    method SpeculativeRound(cfg: Config, f: Samplers, batch: seq<BatchToken>, stops: Stops) returns (ghost shown: nat)
      requires Valid() && View().Wf(cfg) && state == Generating && task.NeedsSampling() && iBatchDft != []
      requires Drafting(cfg, f, View(), batch) && Exact(Kv(), tokens)
      modifies this, ctx
      ensures Valid() && OnlyOne(old(ctx.seqs), ctx.seqs, id) && AtRest(cfg, f, View(), Kv())
      ensures Handled(cfg, f, stops, old(View()), View()) && steps > old(steps)
      ensures IsShown(cfg, f, stops, old(View()), shown)
    {
      ghost var before := View();
      var base;
      var ids;
      ids, base := Accept(cfg, f, batch);
      ghost var g, draft := Gen(base, sampled), drafted;
      var front := base + [sampled];
      KeepAccepted(ids, f(task), front);
      steps := steps + |ids|;
      FollowsAccepted(cfg, f, before, View(), g, draft, ids);
      assert InFrontOfDraft(before) == front;
      ghost var left := HasLeft(cfg, task, nDecoded);
      shown := ContinueAll(cfg, f, front, ids, stops);
      RoundIsHandled(cfg, f, stops, before, View(), front, ids, shown, left);
    }
  }

  lemma PrefixOfPrefix(tokens: seq<Token>, input: seq<Token>, n: nat, m: nat)
    requires m <= n <= |tokens| && n <= |input| && tokens[..n] == input[..n]
    ensures tokens[..n][..m] == tokens[..m] == input[..m]
  {
  }

  /** Tokens are added to the prompt and to the batch, one by one. */
  method PushAll(tokens0: seq<Token>, news: seq<Token>, batch0: seq<BatchToken>, slot: nat, ghost kv: Memory.Kv)
    returns (tokens: seq<Token>, batch: seq<BatchToken>, indices: seq<nat>, ghost more: seq<BatchToken>)
    requires Aligned(kv, tokens0, batch0, slot)
    ensures tokens == tokens0 + news && Aligned(kv, tokens, batch, slot)
    ensures batch == batch0 + more && forall b | b in more :: b.slot == slot
    ensures |indices| == |news|
    ensures forall j | 0 <= j < |news| :: indices[j] < |batch| && batch[indices[j]].pos == |tokens0| + j
  {
    tokens, batch, indices, more := tokens0, batch0, [], [];
    assert batch0 + [] == batch0;
    for i := 0 to |news|
      invariant tokens == tokens0 + news[..i] && Aligned(kv, tokens, batch, slot)
      invariant batch == batch0 + more && forall b | b in more :: b.slot == slot
      invariant |indices| == i
      invariant forall j | 0 <= j < i :: indices[j] < |batch| && batch[indices[j]].pos == |tokens0| + j
    {
      AlignedPush(kv, tokens, batch, slot, news[i]);
      var entry := BatchToken(news[i], |tokens|, slot);
      assert batch0 + more + [entry] == batch0 + (more + [entry]);
      assert tokens0 + news[..i] + [news[i]] == tokens0 + news[..i + 1];
      indices := indices + [|batch|];
      tokens, batch, more := tokens + [news[i]], batch + [entry], more + [entry];
    }
    assert news[..|news|] == news;
  }
}
