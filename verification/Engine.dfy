/**
 The server that decodes for all its slots at once: one update shifts contexts, fills a batch
 with the tokens of many slots, decodes it in as many parts as it takes, and samples.
 */
module Engine {
  import opened Tokens
  import opened Memory
  import opened Decoding
  import opened SlotState
  import opened Slots
  import opened Options
  import PromptCache

  ghost predicate IsNew(slot: ServerSlot, k: nat, ctx: LlamaContext)
    reads slot
  {
    && slot.id == k && slot.ctx == ctx && slot.nCtx >= 4
    && slot.state == Idle && slot.tokens == [] && slot.drafted == [] && slot.iBatchDft == []
  }

  /** What the server is asked to do, with what it finds while doing it. */
  datatype Event =
    | Arrive(task: Task, lastUsed: nat -> int, stateSize: nat, canAllocate: bool, restores: bool, clearsCache: bool, accepted: bool)
    | Cancel(idTarget: int)
    | Update(codes: nat -> int, truncates: nat -> bool)

  class Server {
    const cfg: Config
    const ctx: LlamaContext
    const slots: seq<ServerSlot>
    /** The model with the sampler, the drafting model, and what ends a generation. */
    const f: Samplers
    const draft: Drafters
    const stops: Stops
    const cache: PromptCache.ServerPromptCache<Kv>
    var batch: seq<BatchToken>

    constructor (cfg: Config, nParallel: nat, nCtx: nat, canSpeculate: bool, f: Samplers,
                 draft: Drafters, stops: Stops,
                 cacheMib: int)
      requires nCtx >= 4 && cfg.nBatch > 0
      ensures Valid() && AllAtRest() && CacheMirrors() && |slots| == nParallel
      ensures this.cfg == cfg && this.f == f
      ensures fresh(ctx) && fresh(cache) && forall k | 0 <= k < |slots| :: fresh(slots[k])
    {
      this.cfg, this.f, this.draft, this.stops, batch := cfg, f, draft, stops, [];
      var p := new PromptCache.ServerPromptCache<Kv>(cacheMib, nCtx);
      cache := p;
      var c := new LlamaContext(nParallel);
      var list: seq<ServerSlot> := [];
      for i := 0 to nParallel
        invariant |list| == i && fresh(p) && p.states == [] && fresh(c) && |c.seqs| == nParallel
        invariant forall k | 0 <= k < nParallel :: c.seqs[k] == map[]
        invariant forall k | 0 <= k < i :: fresh(list[k]) && IsNew(list[k], k, c)
      {
        var slot := new ServerSlot(i, c, nCtx, canSpeculate);
        list := list + [slot];
      }
      ctx, slots := c, list;
    }

    ghost predicate Valid()
      reads ctx
    {
      && |ctx.seqs| == |slots| && cfg.nBatch > 0
      && forall k | 0 <= k < |slots| :: slots[k].id == k && slots[k].ctx == ctx && slots[k].nCtx >= 4
    }

    ghost predicate Rests(k: nat)
      requires k < |slots| && k < |ctx.seqs|
      reads slots[k], ctx
    {
      AtRest(cfg, f, slots[k].View(), ctx.seqs[k])
    }

    ghost predicate AllAtRest()
      requires Valid()
      reads slots, ctx
    {
      forall k | 0 <= k < |slots| :: Rests(k)
    }

    /** Each snapshot in the prompt cache holds the tokens it was saved for, and none is a prefix of another. */
    ghost predicate CacheMirrors()
      reads cache
    {
      && PromptCache.Antichain(cache.states)
      && forall e | e in cache.states :: Mirrors(e.data, e.tokens)
    }

    /** A generating slot has room for its sampled token. */
    ghost predicate Roomy(k: nat)
      requires k < |slots|
      reads slots[k]
    {
      slots[k].state == Generating ==> |slots[k].tokens| + 1 < slots[k].nCtx
    }

    predicate KeptOrHandled(o: Slot, s: Slot) {
      s == o || Handled(cfg, f, stops, o, s)
    }

    ghost function Views(): (views: seq<Slot>)
      reads slots
      ensures |views| == |slots| && forall k | 0 <= k < |slots| :: views[k] == slots[k].View()
    {
      ViewsTo(|slots|)
    }

    ghost function ViewsTo(n: nat): (views: seq<Slot>)
      requires n <= |slots|
      reads slots
      ensures |views| == n && forall k | 0 <= k < n :: views[k] == slots[k].View()
    {
      if n == 0 then [] else ViewsTo(n - 1) + [slots[n - 1].View()]
    }

    /** Nothing of the slots but one, and of their memory, has changed. */
    twostate predicate OnlySlot(k: nat)
      reads slots, ctx
    {
      && OnlyOne(old(ctx.seqs), ctx.seqs, k)
      && forall j | 0 <= j < |slots| && j != k :: unchanged(slots[j])
    }

    /** Apply context shifts. */
    method ShiftContexts()
      requires Valid() && AllAtRest()
      modifies slots, ctx
      ensures Valid() && AllAtRest() && forall k | 0 <= k < |slots| :: Roomy(k)
      ensures AllProceed(old(Views()), Views()) && AllShifted(cfg, old(Views()), Views())
    {
      for k := 0 to |slots|
        invariant Valid() && AllAtRest() && forall j | 0 <= j < k :: Roomy(j) && Proceeds(old(slots[j].View()), slots[j].View())
        invariant forall j | 0 <= j < k :: ShiftedSlot(cfg, old(slots[j].View()), slots[j].View())
        invariant forall j | k <= j < |slots| :: unchanged(slots[j])
      {
        assert Rests(k);
        label Before:
        slots[k].ShiftIfFull(cfg, f);
        assert OnlySlot@Before(k);
        forall j | 0 <= j < k
          ensures Roomy(j) && Proceeds(old(slots[j].View()), slots[j].View())
          ensures ShiftedSlot(cfg, old(slots[j].View()), slots[j].View())
        {
          assert old@Before(Roomy(j));
        }
        forall j | 0 <= j < |slots|
          ensures Rests(j)
        {
          assert old@Before(Rests(j));
        }
      }
    }

    // ----- choosing a slot -----

    predicate IsIdle(k: nat)
      requires k < |slots|
      reads slots[k]
    {
      slots[k].state == Idle
    }

    /** The slot has enough in common with a prompt to be preferred. */
    predicate IsSimilar(k: nat, prompt: seq<Token>)
      requires k < |slots|
      reads slots[k]
    {
      && IsIdle(k) && slots[k].tokens != []
      && PromptCache.Less(cfg.simNum, cfg.simDen, CommonPrefix(slots[k].tokens, prompt), |prompt|)
    }

    /** The idle slot that has most in common with the prompt, if it is enough. */
    method MostSimilar(prompt: seq<Token>) returns (best: int, lcpBest: nat)
      ensures -1 <= best < |slots|
      ensures best == -1 ==> forall k | 0 <= k < |slots| :: !IsSimilar(k, prompt)
      ensures best != -1 ==>
        && IsSimilar(best, prompt) && lcpBest == CommonPrefix(slots[best].tokens, prompt)
        && (forall k | 0 <= k < |slots| && IsSimilar(k, prompt) :: CommonPrefix(slots[k].tokens, prompt) <= lcpBest)
        && forall k | 0 <= k < best && IsSimilar(k, prompt) :: CommonPrefix(slots[k].tokens, prompt) < lcpBest
    {
      best, lcpBest := -1, 0;
      for k := 0 to |slots|
        invariant -1 <= best < k && (best == -1 ==> lcpBest == 0)
        invariant best != -1 ==> IsSimilar(best, prompt) && lcpBest == CommonPrefix(slots[best].tokens, prompt)
        invariant forall j | 0 <= j < k && IsSimilar(j, prompt) :: best != -1 && CommonPrefix(slots[j].tokens, prompt) <= lcpBest
        invariant forall j | 0 <= j < best && IsSimilar(j, prompt) :: CommonPrefix(slots[j].tokens, prompt) < lcpBest
      {
        if slots[k].state != Idle || slots[k].tokens == [] {
          continue;
        }
        var lcp := GetCommonPrefix(slots[k].tokens, prompt);
        NothingInCommon(cfg.simNum, cfg.simDen, |prompt|);
        if lcp > lcpBest && PromptCache.Less(cfg.simNum, cfg.simDen, lcp, |prompt|) {
          best, lcpBest := k, lcp;
        }
      }
    }

    lemma NothingInCommon(num: nat, den: nat, n: nat)
      ensures !PromptCache.Less(num, den, 0, n)
    {
      assert num * n >= 0;
    }

    /** The idle slot that has not been used for longest. */
    method LeastRecentlyUsed(lastUsed: nat -> int) returns (best: int)
      ensures -1 <= best < |slots|
      ensures best == -1 ==> forall k | 0 <= k < |slots| :: !IsIdle(k)
      ensures best != -1 ==> IsIdle(best) && forall k | 0 <= k < |slots| && IsIdle(k) :: lastUsed(best) <= lastUsed(k)
      ensures best != -1 ==> forall k | best < k < |slots| && IsIdle(k) :: lastUsed(best) < lastUsed(k)
    {
      best := -1;
      for k := 0 to |slots|
        invariant -1 <= best < k
        invariant best == -1 ==> forall j | 0 <= j < k :: !IsIdle(j)
        invariant best != -1 ==> IsIdle(best) && forall j | 0 <= j < k && IsIdle(j) :: lastUsed(best) <= lastUsed(j)
        invariant best != -1 ==> forall j | best < j < k && IsIdle(j) :: lastUsed(best) < lastUsed(j)
      {
        if slots[k].state == Idle && (best == -1 || lastUsed(k) <= lastUsed(best)) {
          best := k;
        }
      }
    }

    /** The first idle slot that has enough, and most, in common with the prompt; or else the last one that was used longest ago. */
    ghost predicate IsChosen(k: nat, prompt: seq<Token>, lastUsed: nat -> int)
      requires k < |slots|
      reads slots
    {
      && IsIdle(k)
      && if cfg.simNum != 0 && exists j | 0 <= j < |slots| :: IsSimilar(j, prompt) then
           && IsSimilar(k, prompt)
           && (forall j | 0 <= j < |slots| && IsSimilar(j, prompt) :: CommonPrefix(slots[j].tokens, prompt) <= CommonPrefix(slots[k].tokens, prompt))
           && forall j | 0 <= j < k && IsSimilar(j, prompt) :: CommonPrefix(slots[j].tokens, prompt) < CommonPrefix(slots[k].tokens, prompt)
         else
           && (forall j | 0 <= j < |slots| && IsIdle(j) :: lastUsed(k) <= lastUsed(j))
           && forall j | k < j < |slots| && IsIdle(j) :: lastUsed(k) < lastUsed(j)
    }

    /** The prompt of the slot is about to be lost, or most of it, and there is a cache for it. */
    ghost predicate LosesPrompt(k: nat, task: Task)
      requires k < |slots|
      reads slots
    {
      && cfg.useCache && task.kind == Completion && slots[k].tokens != []
      && (cfg.simNum != 0 && (exists j | 0 <= j < |slots| :: IsSimilar(j, task.tokens)) ==>
            2 * CommonPrefix(slots[k].tokens, task.tokens) < |slots[k].tokens|)
    }

    /**
     What the cache holds before it evicts anything, and the slot: unless there is no memory for it, all
     that they held is still there, and every prefix of it; and unless a snapshot cannot be restored, the
     slot has at least as much in common with the new prompt, and nothing that is left is better for it.
     */
    ghost predicate NothingLost(before: seq<PromptCache.Entry<Kv>>, tokens0: seq<Token>, kept: seq<PromptCache.Entry<Kv>>, tokens: seq<Token>,
                          prompt: seq<Token>, canAllocate: bool, restores: bool)
    {
      && (canAllocate ==> forall p: seq<Token> ::
            PromptCache.Covers(before, p) || p <= tokens0 ==> PromptCache.Covers(kept, p) || p <= tokens)
      && (restores ==> CommonPrefix(tokens, prompt) >= CommonPrefix(tokens0, prompt) && PromptCache.NoneBetter(kept, tokens, prompt))
    }

    /**
     An idle slot for a task, if there is one. If much of what the slot holds is of no use to
     the task, it is saved in the prompt cache, and something better is looked for there;
     `kept` is what the cache holds before it evicts.
     */
    method GetAvailableSlot(task: Task, lastUsed: nat -> int, stateSize: nat, canAllocate: bool, restores: bool)
      returns (k: int, ghost kept: seq<PromptCache.Entry<Kv>>)
      requires Valid() && AllAtRest() && CacheMirrors()
      modifies slots, ctx, cache
      ensures Valid() && AllAtRest() && CacheMirrors()
      ensures -1 <= k < |slots| && (k == -1 ==> forall j | 0 <= j < |slots| :: !old(IsIdle(j)))
      ensures k != -1 ==> IsIdle(k) && old(IsChosen(k, task.tokens, lastUsed))
      ensures forall j | 0 <= j < |slots| && j != k :: unchanged(slots[j])
      ensures k == -1 || !old(LosesPrompt(k, task)) ==> unchanged(cache) && unchanged(ctx) && forall j | 0 <= j < |slots| :: unchanged(slots[j])
      ensures k != -1 && old(LosesPrompt(k, task)) ==>
        && NothingLost(old(cache.states), old(slots[k].tokens), kept, slots[k].tokens, task.tokens, canAllocate, restores)
        && cache.states == PromptCache.Evict(kept, cache.limitSize, cache.limitTokens)
        && cache.limitTokens == old(cache.limitTokens) && (canAllocate ==> cache.limitSize == old(cache.limitSize))
    {
      k := -1;
      kept := cache.states;
      var lcp := 0;
      if cfg.simNum != 0 {
        k, lcp := MostSimilar(task.tokens);
      }
      var updateCache;
      if k != -1 {
        updateCache := 2 * lcp < |slots[k].tokens|;
      } else {
        k := LeastRecentlyUsed(lastUsed);
        updateCache := true;
      }
      forall j | 0 <= j < |slots| && k == -1
        ensures !old(IsIdle(j))
      {
        assert !IsIdle(j);
      }
      assert k != -1 ==> IsChosen(k, task.tokens, lastUsed);
      if k != -1 && updateCache && cfg.useCache && task.kind == Completion && slots[k].tokens != [] {
        assert old(IsIdle(k)) && LosesPrompt(k, task);
        kept := UpdateCache(k, task, stateSize, canAllocate, restores);
      }
    }

    /** What a slot holds is saved, and exchanged for something better if the cache has it. */
    method UpdateCache(k: nat, task: Task, stateSize: nat, canAllocate: bool, restores: bool) returns (ghost kept: seq<PromptCache.Entry<Kv>>)
      requires Valid() && AllAtRest() && CacheMirrors() && k < |slots| && slots[k].state == Idle
      modifies slots[k], ctx, cache
      ensures Valid() && AllAtRest() && CacheMirrors() && slots[k].state == Idle
      ensures forall j | 0 <= j < |slots| && j != k :: unchanged(slots[j])
      ensures NothingLost(old(cache.states), old(slots[k].tokens), kept, slots[k].tokens, task.tokens, canAllocate, restores)
      ensures cache.states == PromptCache.Evict(kept, cache.limitSize, cache.limitTokens)
      ensures cache.limitTokens == old(cache.limitTokens) && (canAllocate ==> cache.limitSize == old(cache.limitSize))
    {
      assert Rests(k);
      PromptSave(k, stateSize, canAllocate);
      var loaded := PromptLoad(k, task.tokens, restores);
      if !loaded {
        slots[k].PromptClear();
      }
      assert Rests(k);
      kept := cache.states;
      cache.Update();
      forall j | 0 <= j < |slots| && j != k
        ensures Rests(j)
      {
        assert old(Rests(j));
      }
    }

    method PromptSave(k: nat, stateSize: nat, canAllocate: bool)
      requires Valid() && k < |slots| && CacheMirrors() && Mirrors(ctx.seqs[k], slots[k].tokens)
      modifies cache
      ensures CacheMirrors() && cache.limitTokens == old(cache.limitTokens)
      ensures canAllocate ==> cache.limitSize == old(cache.limitSize)
      ensures canAllocate ==> forall p ::
        PromptCache.Covers(cache.states, p) <==> PromptCache.Covers(old(cache.states), p) || p <= slots[k].tokens
    {
      var entry := PromptCache.Entry(slots[k].tokens, ctx.seqs[k], stateSize, 0);
      var added := cache.Alloc(entry, canAllocate);
    }

    /**
     Whether the slot holds what it held, or what was found in the cache, which is in the cache no more
     but is the slot's.
     */
    method PromptLoad(k: nat, prompt: seq<Token>, restores: bool) returns (ok: bool)
      requires Valid() && k < |slots| && CacheMirrors() && Mirrors(ctx.seqs[k], slots[k].tokens)
      modifies slots[k], ctx, cache`states
      ensures Valid() && CacheMirrors() && OnlyOne(old(ctx.seqs), ctx.seqs, k)
      ensures slots[k].View() == old(slots[k].View()).(tokens := slots[k].tokens)
      ensures Mirrors(ctx.seqs[k], slots[k].tokens)
      ensures forall p :: PromptCache.Covers(old(cache.states), p) ==> PromptCache.Covers(cache.states, p) || p <= slots[k].tokens
      ensures CommonPrefix(slots[k].tokens, prompt) >= CommonPrefix(old(slots[k].tokens), prompt) && (restores ==> ok)
      ensures ok ==> PromptCache.NoneBetter(old(cache.states), slots[k].tokens, prompt)
      ensures !ok ==> cache.states == old(cache.states)
      ensures forall e | e in cache.states :: e in old(cache.states)
    {
      var loaded;
      ok, loaded := cache.Load(slots[k].tokens, prompt, restores);
      if loaded != None {
        slots[k].tokens := loaded.value.tokens;
        ctx.seqs := ctx.seqs[k := loaded.value.data];
        PromptCache.WithoutCovers(old(cache.states), loaded.value, cache.states);
      }
    }

    /**
     A task is given to an idle slot. If it asks for another adapter than the slot used, the
     tokens are forgotten, but not what the memory holds of them; `accepted` says that nothing
     is wrong with the task.
     */
    method LaunchSlotWithTask(k: nat, task: Task, clearsCache: bool, accepted: bool) returns (launched: bool)
      requires Valid() && AllAtRest() && k < |slots| && slots[k].state == Idle
      requires cfg.ctxShift ==> DiscardsInRange(cfg, task, slots[k].nCtx)
      modifies slots[k]
      ensures Valid() && AllAtRest() && launched == accepted
      ensures forall j | 0 <= j < |slots| && j != k :: unchanged(slots[j])
      ensures if launched then slots[k].state == Started && slots[k].task == task else slots[k].state == Idle
      ensures slots[k].lora == task.lora
      ensures slots[k].tokens == if task.lora != old(slots[k].lora) && clearsCache then [] else old(slots[k].tokens)
    {
      assert Rests(k);
      var slot := slots[k];
      if task.lora != slot.lora {
        if clearsCache {
          slot.tokens := [];
        }
        slot.lora := task.lora;
      }
      if !accepted {
        launched := false;
      } else {
        slot.task := task;
        slot.state := Started;
        launched := true;
      }
      assert Rests(k);
      forall j | 0 <= j < |slots| && j != k
        ensures Rests(j)
      {
        assert old(Rests(j));
      }
    }

    // ----- filling the batch -----

    /** What holds of a slot while the batch waits to be decoded from index `from` on. */
    ghost predicate Waits(k: nat, lo: nat, from: nat)
      requires k < |slots| && k < |ctx.seqs| && from <= |batch|
      reads this, slots[k], ctx
    {
      Queued(cfg, f, slots[k].View(), ctx.seqs[k], batch, lo, from)
    }

    ghost predicate AllWait(lo: nat, from: nat)
      requires Valid() && from <= |batch|
      reads this, slots, ctx
    {
      forall k | 0 <= k < |slots| :: Waits(k, lo, from)
    }

    /** The slot is at rest and has nothing in the batch. */
    ghost predicate Untouched(k: nat)
      requires k < |slots| && k < |ctx.seqs|
      reads this, slots[k], ctx
    {
      Rests(k) && Absent(batch, k)
    }

    predicate CanBatchWith(a: ServerSlot, b: ServerSlot)
      reads a, b
    {
      a.task.kind == b.task.kind && a.lora == b.lora
    }

    /** What a slot has in the batch goes with what slot `batched` has there: tasks of one kind, with one adapter. */
    ghost predicate GoesWith(batched: int, j: nat)
      requires j < |slots| && -1 <= batched < |slots|
      reads this, slots
    {
      Absent(batch, j) || (batched != -1 && slots[j].task.kind == slots[batched].task.kind && slots[j].lora == slots[batched].lora)
    }

    ghost predicate OneKind(batched: int)
      reads this, slots
    {
      -1 <= batched < |slots| && forall j | 0 <= j < |slots| :: GoesWith(batched, j)
    }

    /** All slots with tokens in the batch have tasks of one kind, with one adapter. */
    ghost predicate Homogeneous()
      reads this, slots
    {
      forall i, j | 0 <= i < |slots| && 0 <= j < |slots| && !Absent(batch, i) && !Absent(batch, j) ::
        slots[i].task.kind == slots[j].task.kind && slots[i].lora == slots[j].lora
    }

    lemma OneKindIsHomogeneous(batched: int)
      requires OneKind(batched)
      ensures Homogeneous()
    {
      forall i, j | 0 <= i < |slots| && 0 <= j < |slots| && !Absent(batch, i) && !Absent(batch, j)
        ensures slots[i].task.kind == slots[j].task.kind && slots[i].lora == slots[j].lora
      {
        assert GoesWith(batched, i) && GoesWith(batched, j);
      }
    }

    /** The sampled token of a slot, and a draft behind it, go into the batch. */
    method AddSampledOf(k: nat)
      requires Valid() && k < |slots| && Untouched(k) && Roomy(k) && slots[k].state == Generating
      modifies this`batch, slots[k]
      ensures Valid() && OnlySlot(k) && Waits(k, 0, 0) && slots[k].state == Generating && Proceeds(old(slots[k].View()), slots[k].View())
      ensures slots[k].tokens == old(slots[k].tokens) + [slots[k].sampled] + slots[k].drafted
      ensures SampledSlot(old(slots[k].View()), slots[k].View())
      ensures forall j | 0 <= j < |slots| && j != k && old(Waits(j, 0, 0)) :: Waits(j, 0, 0)
      ensures forall j | 0 <= j < |slots| && j != k && old(Untouched(j)) :: Untouched(j)
      ensures forall j: nat | j != k && old(Absent(batch, j)) :: Absent(batch, j)
    {
      ghost var more;
      batch, more := slots[k].AddSampled(cfg, f, draft, batch);
      forall j: nat | j != k && old(Absent(batch, j))
        ensures Absent(batch, j)
      {
        AbsentAppend(old(batch), more, j);
      }
      forall j | 0 <= j < |slots| && j != k
        ensures old(Waits(j, 0, 0)) ==> Waits(j, 0, 0)
        ensures old(Untouched(j)) ==> Untouched(j)
      {
        assert slots[j].id == j;
        AbsentAppend(old(batch), more, j);
        if old(Waits(j, 0, 0)) {
          QueuedOthers(cfg, f, slots[j].View(), ctx.seqs[j], old(batch), more);
        }
      }
    }

    /** The slots before k have been asked for their sampled tokens. */
    ghost predicate SampledUpTo(k: nat)
      requires Valid() && k <= |slots|
      reads this, slots, ctx
    {
      forall j | 0 <= j < |slots| :: AskedSlot(k, j)
    }

    /** A slot that has been asked has its token in the batch or nothing; one that has not has room. */
    ghost predicate AskedSlot(k: nat, j: nat)
      requires Valid() && j < |slots|
      reads this, slots[j], ctx
    {
      if j < k then Waits(j, 0, 0) && (slots[j].state != Generating ==> Untouched(j)) else Untouched(j) && Roomy(j)
    }

    /** The sampled tokens of all slots that generate go into the batch, as far as they can be batched. */
    method AddSampledTokens() returns (batched: int)
      requires Valid() && AllAtRest() && forall k | 0 <= k < |slots| :: Roomy(k)
      modifies this`batch, slots
      ensures Valid() && OneKind(batched) && PromptsUpTo(0) && (batched != -1 ==> slots[batched].state == Generating)
      ensures AllProceed(old(Views()), Views()) && AllSampled(old(Views()), Views())
      ensures Lead(old(Views())) == |slots| ==> batched == -1 && batch == []
    {
      ghost var start := Views();
      batch := [];
      NothingAsked(start);
      batched := AskAll(start);
      AllAsked(start, batched, Views());
    }

    lemma NoPromptsYet()
      requires Valid() && SampledUpTo(|slots|)
      ensures PromptsUpTo(0)
    {
      forall j | 0 <= j < |slots|
        ensures Waits(j, 0, 0) && (slots[j].state != Generating ==> Untouched(j))
      {
        assert AskedSlot(|slots|, j);
      }
    }

    lemma NothingAsked(start: seq<Slot>)
      requires Valid() && AllAtRest() && batch == [] && |start| == |slots|
      requires forall k | 0 <= k < |slots| :: Roomy(k) && start[k] == slots[k].View()
      ensures AskedUpTo(start, -1, 0)
    {
      forall k | 0 <= k < |slots|
        ensures AskedSlot(0, k)
      {
        assert Rests(k) && Roomy(k);
      }
    }

    method AskAll(ghost start: seq<Slot>) returns (batched: int)
      requires AskedUpTo(start, -1, 0)
      modifies this`batch, slots
      ensures AskedUpTo(start, batched, |slots|)
    {
      var k := 0;
      batched := -1;
      while k < |slots|
        invariant k <= |slots| && AskedUpTo(start, batched, k)
      {
        batched := AskSlot(k, batched, start);
        k := k + 1;
      }
    }

    lemma AllAsked(start: seq<Slot>, batched: int, views: seq<Slot>)
      requires AskedUpTo(start, batched, |slots|) && |views| == |slots| && forall j | 0 <= j < |views| :: views[j] == slots[j].View()
      ensures AllProceed(start, views) && AllSampled(start, views)
      ensures Valid() && OneKind(batched) && PromptsUpTo(0) && (batched != -1 ==> views[batched].state == Generating)
      ensures Lead(start) == |slots| ==> batched == -1 && batch == []
    {
      NoPromptsYet();
      forall j | 0 <= j < |views|
        ensures Proceeds(start[j], views[j]) && SampledWith(start, batched, j, views[j])
      {
        assert Asked(start, batched, |slots|, j);
      }
      LeadIs(start, batched, views);
    }

    /** What has become of a slot when those before k have been asked. */
    ghost predicate Asked(start: seq<Slot>, batched: int, k: nat, j: nat)
      requires |start| == |slots| && j < |slots| && -1 <= batched < |slots|
      reads slots[j]
    {
      if j < k then SampledWith(start, batched, j, slots[j].View()) && Proceeds(start[j], slots[j].View())
      else slots[j].View() == start[j]
    }

    ghost predicate AskedUpTo(start: seq<Slot>, batched: int, k: nat)
      reads this, slots, ctx
    {
      && Valid() && k <= |slots| && SampledUpTo(k) && OneKind(batched)
      && |start| == |slots| && -1 <= batched < |slots| && IsLead(start, batched, k) && (batched == -1 ==> batch == [])
      && forall j | 0 <= j < |slots| :: Asked(start, batched, k, j)
    }

    method AskSlot(k: nat, batched0: int, ghost start: seq<Slot>) returns (batched: int)
      requires k < |slots| && AskedUpTo(start, batched0, k)
      modifies this`batch, slots[k]
      ensures AskedUpTo(start, batched, k + 1)
    {
      assert Asked(start, batched0, k, k);
      assert batched0 != -1 ==> Asked(start, batched0, k, batched0);
      batched := AddSampledToken(k, batched0, start);
      NextLead(start, batched0, k, batched);
      var next := k + 1;
      forall j | 0 <= j < |slots|
        ensures Asked(start, batched, next, j)
      {
        assert old(Asked(start, batched0, k, j));
      }
    }

    method AddSampledToken(k: nat, batched0: int, ghost start: seq<Slot>) returns (batched: int)
      requires Valid() && k < |slots| && OneKind(batched0) && SampledUpTo(k) && (batched0 == -1 ==> batch == [])
      requires |start| == |slots| && slots[k].View() == start[k]
      requires batched0 != -1 ==> slots[batched0].task == start[batched0].task && slots[batched0].lora == start[batched0].lora
      modifies this`batch, slots[k]
      ensures Valid() && OneKind(batched) && SampledUpTo(k + 1) && Proceeds(start[k], slots[k].View())
      ensures batched == if start[k].state == Generating && batched0 == -1 then k else batched0
      ensures SampledWith(start, batched, k, slots[k].View()) && (start[k].state != Generating ==> batch == old(batch))
    {
      batched := batched0;
      assert AskedSlot(k, k);
      assert Untouched(k) && Roomy(k);
      assert batch[0..] == batch;
      RestingIsQueued(cfg, f, slots[k].View(), ctx.seqs[k], batch, 0, 0);
      assert Waits(k, 0, 0);
      if slots[k].state == Generating {
        if batched == -1 {
          batched := k;
          AddSampledOf(k);
        } else if CanBatchWith(slots[batched], slots[k]) {
          AddSampledOf(k);
        }
      }
      var next := k + 1;
      forall j | 0 <= j < |slots|
        ensures AskedSlot(next, j)
      {
        assert old(AskedSlot(k, j));
      }
      forall j | 0 <= j < |slots|
        ensures GoesWith(batched, j)
      {
        assert old(GoesWith(batched0, j));
      }
    }

    /** The slots from k on that have a prompt to decode have nothing in the batch. */
    ghost predicate PromptsUpTo(k: nat)
      requires Valid() && k <= |slots|
      reads this, slots, ctx
    {
      && (forall j | 0 <= j < |slots| :: Waits(j, 0, 0))
      && (forall j | k <= j < |slots| && (slots[j].state == Started || slots[j].state == ProcessingPrompt) :: Untouched(j))
    }

    /** A started slot takes over what it can of its old prompt, or is released. */
    method StartPromptOf(k: nat) returns (goesOn: bool)
      requires Valid() && k < |slots| && PromptsUpTo(k) && slots[k].state == Started
      modifies slots[k], ctx
      ensures Valid() && OnlySlot(k) && Untouched(k) && PromptsUpTo(k)
      ensures if goesOn then slots[k].state == ProcessingPrompt else slots[k].state == Idle
      ensures goesOn <==> Admitted(cfg, old(slots[k].View()))
      ensures goesOn ==> |slots[k].tokens| == Past(cfg, old(slots[k].View())) && slots[k].task == old(slots[k].task) && slots[k].lora == old(slots[k].lora)
    {
      assert Untouched(k);
      goesOn := slots[k].StartPrompt(cfg);
      assert Untouched(k);
      assert batch[0..] == batch;
      RestingIsQueued(cfg, f, slots[k].View(), ctx.seqs[k], batch, 0, 0);
      forall j | 0 <= j < |slots|
        ensures Waits(j, 0, 0)
        ensures old(Untouched(j)) && j != k ==> Untouched(j)
      {
        assert old(Waits(j, 0, 0));
      }
    }

    /** Tokens of a prompt go into the batch. */
    method AddPromptOf(k: nat, truncates: bool) returns (added: bool)
      requires Valid() && k < |slots| && PromptsUpTo(k) && slots[k].state == ProcessingPrompt
      modifies this`batch, slots[k], ctx
      ensures Valid() && OnlySlot(k) && PromptsUpTo(k + 1)
      ensures added ==> slots[k].state == DonePrompt || |batch| >= cfg.nBatch
      ensures added ==> slots[k].task == old(slots[k].task) && slots[k].lora == old(slots[k].lora)
      ensures !added ==> batch == old(batch)
      ensures forall j: nat | j != k && old(Absent(batch, j)) :: Absent(batch, j)
      ensures Proceeds(old(slots[k].View()), slots[k].View())
      ensures |old(batch)| < cfg.nBatch && old(CanSplit(cfg, slots[k].task) || (batch == [] && |slots[k].task.tokens| <= cfg.nBatch)) ==>
        PromptQueued(cfg, truncates, old(slots[k].View()), slots[k].View())
    {
      assert Untouched(k);
      ghost var more;
      added, batch, more := slots[k].AddPrompt(cfg, f, batch, truncates);
      forall j: nat | j != k && old(Absent(batch, j))
        ensures Absent(batch, j)
      {
        AbsentAppend(old(batch), more, j);
      }
      forall j | 0 <= j < |slots| && j != k
        ensures Waits(j, 0, 0)
        ensures old(Untouched(j)) ==> Untouched(j)
      {
        assert slots[j].id == j && old(Waits(j, 0, 0));
        AbsentAppend(old(batch), more, j);
        QueuedOthers(cfg, f, slots[j].View(), ctx.seqs[j], old(batch), more);
      }
    }

    /** The slot may add a prompt of its own to the batch, or begin it. */
    ghost predicate InTheWay(batched: int, k: nat)
      requires -1 <= batched < |slots| && k < |slots|
      reads slots
    {
      && slots[k].state != Idle
      && (batched != -1 ==>
            slots[k].state != Generating && slots[k].task.kind == slots[batched].task.kind && slots[k].lora == slots[batched].lora)
    }

    /** The prompt of the slot may go into the batch. */
    ghost predicate MayJoin(batched: int, k: nat)
      requires -1 <= batched < |slots| && k < |slots|
      reads this, slots
    {
      && (batched != -1 ==> slots[k].task.kind == slots[batched].task.kind && slots[k].lora == slots[batched].lora)
      && (CanSplit(cfg, slots[k].task) || (batch == [] && cfg.nUbatch <= cfg.nBatch))
    }

    /** The prompt of one slot goes into the batch, as far as the slot can be batched. */
    method AddPromptIfAny(k: nat, batched0: int, truncates: bool) returns (batched: int, full: bool)
      requires Valid() && k < |slots| && OneKind(batched0) && PromptsUpTo(k) && (batched0 == k ==> slots[k].state == Generating)
      modifies this`batch, slots[k], ctx
      ensures Valid() && OneKind(batched) && PromptsUpTo(k + 1) && Proceeds(old(slots[k].View()), slots[k].View())
      ensures (batched == batched0 || batched == k) && (full ==> |batch| >= cfg.nBatch)
      ensures old(slots[k].state) == Idle || old(slots[k].state) == Generating ==> slots[k].View() == old(slots[k].View())
      ensures old(InTheWay(batched0, k)) || (batched == batched0 && batch == old(batch) && (full ==> |batch| >= cfg.nBatch))
      ensures |old(batch)| < cfg.nBatch && old(IsPrompt(slots[k].View()) && MayJoin(batched0, k)) ==>
        PromptQueued(cfg, truncates, old(slots[k].View()), slots[k].View())
    {
      batched, full := batched0, false;
      if slots[k].state == Idle {
        return;
      }
      if batched != -1 && !CanBatchWith(slots[batched], slots[k]) {
        return;
      }
      var added := AddPromptOrSkip(k, truncates);
      if added {
        if batched == -1 {
          batched := k;
        }
        full := |batch| >= cfg.nBatch;
      }
      forall j | 0 <= j < |slots|
        ensures GoesWith(batched, j)
      {
        assert old(GoesWith(batched0, j));
      }
    }

    /** The prompt of one slot goes into the batch; whether the slot, which may have none, can stay in the batch. */
    method AddPromptOrSkip(k: nat, truncates: bool) returns (stays: bool)
      requires Valid() && k < |slots| && PromptsUpTo(k) && slots[k].state != Idle
      modifies this`batch, slots[k], ctx
      ensures Valid() && PromptsUpTo(k + 1) && Proceeds(old(slots[k].View()), slots[k].View())
      ensures !IsPrompt(old(slots[k].View())) ==> stays && slots[k].View() == old(slots[k].View()) && batch == old(batch)
      ensures stays ==> slots[k].task == old(slots[k].task) && slots[k].lora == old(slots[k].lora)
      ensures !stays ==> batch == old(batch) && Absent(batch, k)
      ensures forall j: nat | j != k && old(Absent(batch, j)) :: Absent(batch, j)
      ensures |old(batch)| < cfg.nBatch && old(IsPrompt(slots[k].View()) && (CanSplit(cfg, slots[k].task) || (batch == [] && cfg.nUbatch <= cfg.nBatch))) ==>
        PromptQueued(cfg, truncates, old(slots[k].View()), slots[k].View())
    {
      stays := true;
      if slots[k].state == Started {
        stays := StartPromptOf(k);
        if !stays {
          return;
        }
      }
      if slots[k].state == ProcessingPrompt {
        assert Untouched(k);
        stays := AddPromptOf(k, truncates);
      }
    }

    /** Pending prompts go into the batch, until it is full; the next one does, and all are of one kind. */
    method AddPrompts(batched0: int, truncates: nat -> bool) returns (batched: int)
      requires Valid() && OneKind(batched0) && (batched0 != -1 ==> slots[batched0].state == Generating) && PromptsUpTo(0)
      requires PromptIsNext(cfg, Views()) ==> batched0 == -1 && batch == []
      modifies this`batch, slots, ctx
      ensures Valid() && AllWait(0, 0) && Homogeneous()
      ensures AllProceed(old(Views()), Views()) && AllFilled(cfg, truncates, old(Views()), Views())
      ensures forall p: nat | IsNextPrompt(cfg, old(Views()), batched0, old(|batch|), p) ::
        PromptQueued(cfg, truncates(p), old(Views())[p], slots[p].View())
      ensures !cfg.contBatching && old(batch) != [] ==> batch == old(batch) && Views() == old(Views())
    {
      batched := batched0;
      ghost var start, old0 := Views(), batch;
      var k, full := 0, false;
      if cfg.contBatching || |batch| == 0 {
        while k < |slots| && !full
          invariant FilledUpTo(start, truncates, batched0, old0, batched, k) && (full ==> |batch| >= cfg.nBatch)
        {
          batched, full := FillFromSlot(start, k, batched0, old0, batched, truncates);
          k := k + 1;
        }
      } else {
        assert !PromptIsNext(cfg, start);
      }
      AllAdded(start, truncates, batched0, old0, batched, k, Views());
    }

    lemma AllAdded(start: seq<Slot>, truncates: nat -> bool, batched0: int, batch0: seq<BatchToken>, batched: int, k: nat, views: seq<Slot>)
      requires FilledUpTo(start, truncates, batched0, batch0, batched, k)
      requires k == |slots| || |batch| >= cfg.nBatch || (!cfg.contBatching && |batch0| > 0)
      requires PromptIsNext(cfg, start) ==> batched0 == -1 && batch0 == []
      requires |views| == |slots| && forall j | 0 <= j < |views| :: views[j] == slots[j].View()
      ensures AllProceed(start, views) && AllFilled(cfg, truncates, start, views) && Homogeneous()
      ensures forall p: nat | IsNextPrompt(cfg, start, batched0, |batch0|, p) :: PromptQueued(cfg, truncates(p), start[p], views[p])
    {
      OneKindIsHomogeneous(batched);
      forall j | 0 <= j < |views|
        ensures Proceeds(start[j], views[j]) && (start[j].state == Generating ==> views[j] == start[j])
        ensures IsNextPrompt(cfg, start, batched0, |batch0|, j) ==> PromptQueued(cfg, truncates(j), start[j], views[j])
      {
        assert FilledTo(start, truncates, batched0, batch0, batched, k, j);
      }
      if PromptIsNext(cfg, start) {
        FirstPromptIsNext(cfg, start);
      }
    }

    ghost predicate FilledUpTo(start: seq<Slot>, truncates: nat -> bool, batched0: int, batch0: seq<BatchToken>, batched: int, k: nat)
      reads this, slots, ctx
    {
      && Valid() && k <= |slots| && PromptsUpTo(k) && |start| == |slots| && OneKind(batched) && -1 <= batched0 < |slots|
      && (batched0 != -1 ==> start[batched0].state == Generating)
      && (batched != -1 ==> batched < k || start[batched].state == Generating)
      && forall j | 0 <= j < |slots| :: FilledTo(start, truncates, batched0, batch0, batched, k, j)
    }

    method FillFromSlot(ghost start: seq<Slot>, k: nat, ghost batched0: int, ghost batch0: seq<BatchToken>, batched1: int, truncates: nat -> bool)
      returns (batched: int, full: bool)
      requires k < |slots| && FilledUpTo(start, truncates, batched0, batch0, batched1, k)
      modifies this`batch, slots[k], ctx
      ensures FilledUpTo(start, truncates, batched0, batch0, batched, k + 1) && (full ==> |batch| >= cfg.nBatch)
    {
      assert FilledTo(start, truncates, batched0, batch0, batched1, k, k);
      assert batched0 != -1 ==> FilledTo(start, truncates, batched0, batch0, batched1, k, batched0);
      assert batched1 != -1 ==> FilledTo(start, truncates, batched0, batch0, batched1, k, batched1);
      batched, full := AddPromptIfAny(k, batched1, truncates(k));
      var next := k + 1;
      forall j | 0 <= j < |slots|
        ensures FilledTo(start, truncates, batched0, batch0, batched, next, j)
      {
        assert old(FilledTo(start, truncates, batched0, batch0, batched1, k, j));
      }
    }

    /** What has become of a slot when the prompts of those before k have been added. */
    ghost predicate FilledTo(start: seq<Slot>, truncates: nat -> bool, batched0: int, batch0: seq<BatchToken>, batched: int, k: nat, j: nat)
      requires |start| == |slots| && j < |slots| && -1 <= batched0 < |slots|
      reads this`batch, slots[j]
    {
      && Proceeds(start[j], slots[j].View())
      && (start[j].state == Generating || j >= k ==> slots[j].View() == start[j])
      && (IsNextPrompt(cfg, start, batched0, |batch0|, j) ==>
            if j < k then PromptQueued(cfg, truncates(j), start[j], slots[j].View()) else batched == batched0 && batch == batch0)
    }

    // ----- decoding -----

    /** A part of the batch is decoded. */
    method DecodePart(i: nat, to: nat)
      requires Valid() && i <= to <= |batch| && AllWait(i, i)
      modifies ctx
      ensures Valid() && AllWait(i, to)
    {
      var view := batch[i..to];
      var seqs := ctx.seqs;
      ctx.seqs := seq(|seqs|, j requires 0 <= j < |seqs| => Decoded(seqs[j], view, j));
      forall k | 0 <= k < |slots|
        ensures Waits(k, i, to)
      {
        assert slots[k].id == k && old(Waits(k, i, i));
        QueuedDecoded(cfg, f, slots[k].View(), seqs[k], batch, i, to - i);
      }
    }

    /** The slots before k have been sampled from if they were due. */
    ghost predicate DueUpTo(k: nat, i: nat, to: nat)
      requires Valid() && k <= |slots| && to <= |batch|
      reads this, slots, ctx
    {
      && (forall j | 0 <= j < k :: Waits(j, to, to))
      && (forall j | k <= j < |slots| :: Waits(j, i, to))
    }

    /** The slot is due in the part of the batch from i to `to`. */
    predicate IsDue(k: nat, i: nat, to: nat)
      requires k < |slots|
      reads slots[k]
    {
      && i <= slots[k].iBatch < to
      && (slots[k].state == DonePrompt || (slots[k].state == Generating && slots[k].iBatchDft == []))
    }

    /** A slot whose last token has been decoded is sampled from, or has its embedding sent. */
    method SampleDue(k: nat, i: nat, to: nat)
      requires Valid() && k < |slots| && i <= to <= |batch| && Waits(k, i, to) && IsDue(k, i, to)
      modifies slots[k]
      ensures Valid() && Waits(k, to, to) && NoDraft(k)
      ensures Handled(cfg, f, stops, old(slots[k].View()), slots[k].View())
    {
      var slot := slots[k];
      DueIsExact(cfg, f, slot.View(), ctx.seqs[k], batch, i, to);
      if slot.state == DonePrompt && slot.task.NeedsEmbd() {
        slot.Release();
        slot.iBatch := -1;
      } else {
        var token := slot.Sample(cfg, f, batch[slot.iBatch].pos);
        slot.Continue(cfg, f, token, stops(slot.task)(slot.tokens, token));
      }
      RestingIsQueued(cfg, f, slot.View(), ctx.seqs[k], batch, to, to);
    }

    method SampleAllDue(i: nat, to: nat)
      requires Valid() && i <= to <= |batch| && AllWait(i, to)
      modifies slots
      ensures Valid() && AllWait(to, to)
      ensures forall k | 0 <= k < |slots| && old(NoDraft(k)) :: NoDraft(k)
      ensures AllHandled(cfg, f, stops, old(Views()), Views())
    {
      for k := 0 to |slots|
        invariant Valid() && DueUpTo(k, i, to)
        invariant forall j | 0 <= j < |slots| && old(NoDraft(j)) :: NoDraft(j)
        invariant forall j | k <= j < |slots| :: unchanged(slots[j])
        invariant forall j | 0 <= j < k :: KeptOrHandled(old(slots[j].View()), slots[j].View())
      {
        SampleIfDue(k, i, to);
      }
    }

    method SampleIfDue(k: nat, i: nat, to: nat)
      requires Valid() && k < |slots| && i <= to <= |batch| && DueUpTo(k, i, to)
      modifies slots[k]
      ensures Valid() && DueUpTo(k + 1, i, to) && KeptOrHandled(old(slots[k].View()), slots[k].View())
      ensures forall j | 0 <= j < |slots| && old(NoDraft(j)) :: NoDraft(j)
    {
      assert Waits(k, i, to);
      if IsDue(k, i, to) {
        SampleDue(k, i, to);
      } else {
        NotDue(cfg, f, slots[k].View(), ctx.seqs[k], batch, i, to);
      }
      forall j | 0 <= j < |slots| && j != k
        ensures old(Waits(j, i, to)) ==> Waits(j, i, to)
        ensures old(Waits(j, to, to)) ==> Waits(j, to, to)
        ensures old(NoDraft(j)) ==> NoDraft(j)
      {
      }
    }

    /** No draft of a slot waits. */
    ghost predicate NoDraft(k: nat)
      requires k < |slots|
      reads slots[k]
    {
      slots[k].View().Undrafted()
    }

    method AnyDraft() returns (any: bool)
      requires Valid() && |batch| > 0 && AllWait(0, 0)
      ensures any <==> exists k | 0 <= k < |slots| :: !NoDraft(k)
      ensures any ==> exists k | 0 <= k < |slots| :: slots[k].canSpeculate
    {
      any := false;
      for k := 0 to |slots|
        invariant !any && forall j | 0 <= j < k :: NoDraft(j)
      {
        assert Waits(k, 0, 0);
        if slots[k].iBatchDft != [] {
          assert !NoDraft(k);
          return true;
        }
      }
    }

    /** The whole batch has been decoded: the drafts are tried. */
    method SpeculateAll()
      requires Valid() && AllWait(|batch|, |batch|)
      modifies slots, ctx
      ensures Valid() && AllWait(|batch|, |batch|) && forall k | 0 <= k < |slots| :: NoDraft(k)
      ensures AllHandled(cfg, f, stops, old(Views()), Views())
    {
      for k := 0 to |slots|
        invariant Valid() && AllWait(|batch|, |batch|)
        invariant forall j | 0 <= j < k :: NoDraft(j) && KeptOrHandled(old(slots[j].View()), slots[j].View())
        invariant forall j | k <= j < |slots| :: unchanged(slots[j])
      {
        assert Waits(k, |batch|, |batch|);
        label Before:
        if slots[k].state == Generating && slots[k].iBatchDft != [] {
          Speculate(k);
          assert OnlySlot@Before(k);
          forall j | 0 <= j < k
            ensures NoDraft(j) && KeptOrHandled(old(slots[j].View()), slots[j].View())
          {
            assert old@Before(NoDraft(j));
          }
        }
      }
    }

    method Speculate(k: nat)
      requires Valid() && AllWait(|batch|, |batch|) && k < |slots|
      requires slots[k].state == Generating && slots[k].iBatchDft != []
      modifies slots[k], ctx
      ensures Valid() && OnlySlot(k) && AllWait(|batch|, |batch|) && NoDraft(k)
      ensures Handled(cfg, f, stops, old(slots[k].View()), slots[k].View())
    {
      assert Waits(k, |batch|, |batch|);
      assert batch[|batch|..] == [];
      ghost var shown := slots[k].SpeculativeRound(cfg, f, batch, stops);
      RestingIsQueued(cfg, f, slots[k].View(), ctx.seqs[k], batch, |batch|, |batch|);
      forall j | 0 <= j < |slots| && j != k
        ensures Waits(j, |batch|, |batch|)
      {
        assert old(Waits(j, |batch|, |batch|));
      }
    }

    // ----- failures -----

    /** The idle slots whose tokens could be given up. */
    ghost function Purgeable(): set<nat>
      reads slots
    {
      set k: nat | k < |slots| && slots[k].state == Idle && slots[k].tokens != []
    }

    /** One idle slot gives up its tokens to make room in the memory. */
    method TryClearIdleSlots(i: nat) returns (cleared: bool)
      requires Valid() && i <= |batch| && AllWait(i, i)
      modifies slots, ctx
      ensures Valid() && AllWait(i, i)
      ensures cleared ==> Purgeable() < old(Purgeable())
      ensures !cleared ==> ctx.seqs == old(ctx.seqs) && forall k | 0 <= k < |slots| :: unchanged(slots[k])
      ensures cleared <==> cfg.kvUnified && old(Purgeable()) != {}
      ensures forall k | 0 <= k < |slots| && old(NoDraft(k)) :: NoDraft(k)
      ensures AllHandled(cfg, f, stops, old(Views()), Views())
    {
      cleared := false;
      if !cfg.kvUnified {
        return;
      }
      for k := 0 to |slots|
        invariant Valid() && AllWait(i, i) && forall j | 0 <= j < |slots| :: unchanged(slots[j])
        invariant forall j: nat | j < k :: j !in Purgeable()
      {
        if slots[k].state == Idle && slots[k].tokens != [] {
          assert k in Purgeable();
          ClearIdle(k, i);
          return true;
        }
      }
    }

    method ClearIdle(k: nat, i: nat)
      requires Valid() && k < |slots| && i <= |batch| && AllWait(i, i) && slots[k].state == Idle
      modifies slots[k], ctx
      ensures Valid() && AllWait(i, i) && Purgeable() == old(Purgeable()) - {k}
      ensures forall j | 0 <= j < |slots| && old(NoDraft(j)) :: NoDraft(j)
      ensures AllHandled(cfg, f, stops, old(Views()), Views())
    {
      assert Waits(k, i, i);
      slots[k].PromptClear();
      forall j | 0 <= j < |slots|
        ensures Waits(j, i, i)
      {
        assert old(Waits(j, i, i));
      }
      forall j: nat
        ensures j in Purgeable() <==> j in old(Purgeable()) && j != k
      {
      }
    }

    /** After a fatal error all slots that process something are released and cleared. */
    method ReleaseAll(i: nat)
      requires Valid() && i <= |batch| && AllWait(i, i)
      modifies slots, ctx
      ensures Valid() && AllAtRest() && forall k | 0 <= k < |slots| :: slots[k].state == Idle
      ensures forall k | 0 <= k < |slots| :: slots[k].tokens == if old(slots[k].state) == Idle then old(slots[k].tokens) else []
    {
      for k := 0 to |slots|
        invariant Valid()
        invariant forall j | 0 <= j < k :: Rests(j) && slots[j].state == Idle
        invariant forall j | 0 <= j < k :: slots[j].tokens == if old(slots[j].state) == Idle then old(slots[j].tokens) else []
        invariant forall j | k <= j < |slots| :: unchanged(slots[j])
        invariant forall j | k <= j < |slots| :: Waits(j, i, i)
      {
        assert Waits(k, i, i);
        label Before:
        if slots[k].state != Idle {
          slots[k].Release();
          slots[k].PromptClear();
        }
        assert OnlySlot@Before(k) && Rests(k);
        forall j | 0 <= j < k
          ensures Rests(j)
        {
          assert old@Before(Rests(j));
        }
        forall j | k < j < |slots|
          ensures Waits(j, i, i)
        {
          assert old@Before(Waits(j, i, i));
        }
      }
    }

    // ----- the update -----

    /**
     Decodes the batch in parts. If the memory is full, an idle slot is cleared or the parts are
     halved; what else goes wrong ends all tasks. `split` says that a draft would have been tried
     before all of its batch was decoded; the model ends there.
     */
    method DecodeBatch(codes: nat -> int) returns (split: bool, failed: bool, ghost parts: seq<(nat, nat)>)
      requires Valid() && AllWait(0, 0)
      modifies slots, ctx
      ensures Valid() && (!split ==> AllAtRest())
      ensures split ==> exists k | 0 <= k < |slots| :: slots[k].canSpeculate
      ensures split ==> |batch| > cfg.nBatch || exists c: nat :: codes(c) >= 1
      ensures !split && !failed ==> Follow(parts, 0, |batch|)
      ensures !split && !failed ==>
        forall k | 0 <= k < |slots| :: Handled(cfg, f, stops, old(Views())[k], slots[k].View())
      ensures split ==> AllHandled(cfg, f, stops, old(Views()), Views())
      ensures failed ==> forall k | 0 <= k < |slots| :: slots[k].state == Idle
      ensures !split ==> AllProceed(old(Views()), Views())
    {
      ghost var start := Views();
      var drafting := false;
      if |batch| > 0 {
        drafting := AnyDraft();
      } else {
        NothingWaits();
      }
      split, failed, parts := DecodeParts(codes, drafting);
      if !split && !failed {
        forall k | 0 <= k < |slots|
          ensures Rests(k) && Handled(cfg, f, stops, start[k], slots[k].View())
        {
          assert Waits(k, |batch|, |batch|) && NoDraft(k) && KeptOrHandled(start[k], Views()[k]);
          AllDecoded(cfg, f, slots[k].View(), ctx.seqs[k], batch);
          KeptIsHandled(cfg, f, stops, slots[k].View(), ctx.seqs[k]);
        }
        AllHandledProceed(cfg, f, stops, start, Views());
      }
    }

    /** The loop over the parts of the batch. */
    method DecodeParts(codes: nat -> int, drafting: bool) returns (split: bool, failed: bool, ghost parts: seq<(nat, nat)>)
      requires Valid() && AllWait(0, 0)
      requires drafting ==> |batch| > 0 && exists k | 0 <= k < |slots| :: slots[k].canSpeculate
      requires !drafting ==> forall k | 0 <= k < |slots| :: NoDraft(k)
      modifies slots, ctx
      ensures Valid()
      ensures split ==> drafting && (|batch| > cfg.nBatch || exists c: nat :: codes(c) >= 1)
      ensures !failed ==> AllHandled(cfg, f, stops, old(Views()), Views())
      ensures !split && !failed ==> Follow(parts, 0, |batch|) && AllWait(|batch|, |batch|)
      ensures !split && !failed ==> forall k | 0 <= k < |slots| :: NoDraft(k)
      ensures failed ==> !split && AllAtRest() && forall k | 0 <= k < |slots| :: slots[k].state == Idle
    {
      split, failed, parts := false, false, [];
      ghost var start := Views();
      var nBatch: nat := cfg.nBatch;
      var i, call := 0, 0;
      while i < |batch|
        invariant Valid() && i <= |batch| && AllWait(i, i) && nBatch <= cfg.nBatch
        invariant (forall c: nat :: codes(c) < 1) ==> nBatch == cfg.nBatch
        invariant drafting && i < |batch| ==> i == 0
        invariant !drafting || i == |batch| ==> forall k | 0 <= k < |slots| :: NoDraft(k)
        invariant Follow(parts, 0, i)
        invariant AllHandled(cfg, f, stops, start, Views())
        decreases |batch| - i, Purgeable(), nBatch
      {
        var to := Min(i + nBatch, |batch|);
        // A part without tokens is an invalid batch.
        var ret := if nBatch == 0 then -1 else codes(call);
        call := call + 1;
        ghost var before := Views();
        if ret != 0 {
          failed, nBatch := Retry(i, nBatch, ret);
          if failed {
            return;
          }
        } else {
          if drafting && to < |batch| {
            split := true;
            return;
          }
          HandlePart(i, to, drafting);
          nBatch := cfg.nBatch;
          FollowAppend(parts, 0, i, to);
          parts := parts + [(i, to)];
          i := to;
        }
        AllHandledOn(cfg, f, stops, start, before, Views());
      }
    }

    /** Decoding has failed: an idle slot is cleared, or the next part is smaller, or all slots are released. */
    method Retry(i: nat, nBatch: nat, ret: int) returns (failed: bool, smaller: nat)
      requires Valid() && i <= |batch| && AllWait(i, i) && ret != 0 && (nBatch == 0 ==> ret == -1)
      modifies slots, ctx
      ensures Valid() && (ret < 0 || (ret == 1 && nBatch == 1) <==> failed)
      ensures failed ==> AllAtRest() && forall k | 0 <= k < |slots| :: slots[k].state == Idle
      ensures !failed ==> AllWait(i, i) && AllHandled(cfg, f, stops, old(Views()), Views())
      ensures !failed ==> smaller <= nBatch && (Purgeable() < old(Purgeable()) || (Purgeable() == old(Purgeable()) && smaller < nBatch))
      ensures !failed ==> forall k | 0 <= k < |slots| && old(NoDraft(k)) :: NoDraft(k)
    {
      failed, smaller := false, nBatch;
      if (nBatch == 1 && ret == 1) || ret == -1 || ret < -1 {
        ReleaseAll(i);
        failed := true;
        return;
      }
      var cleared := TryClearIdleSlots(i);
      if !cleared {
        smaller := nBatch / 2;
      }
    }

    /** A part of the batch is decoded, and the slots that are due are handled. */
    method HandlePart(i: nat, to: nat, drafting: bool)
      requires Valid() && i < to <= |batch| && AllWait(i, i)
      requires if drafting then to == |batch| else forall k | 0 <= k < |slots| :: NoDraft(k)
      modifies slots, ctx
      ensures Valid() && AllWait(to, to) && forall k | 0 <= k < |slots| :: NoDraft(k)
      ensures AllHandled(cfg, f, stops, old(Views()), Views())
    {
      ghost var start := Views();
      DecodePart(i, to);
      assert Views() == start;
      SampleAllDue(i, to);
      ghost var sampled := Views();
      if drafting {
        SpeculateAll();
      }
      AllHandledOn(cfg, f, stops, start, sampled, Views());
    }

    lemma NothingWaits()
      requires Valid() && batch == [] && AllWait(0, 0)
      ensures forall k | 0 <= k < |slots| :: NoDraft(k)
    {
      forall k | 0 <= k < |slots|
        ensures NoDraft(k)
      {
        assert Waits(k, 0, 0);
        NothingDrafted(cfg, f, slots[k].View(), ctx.seqs[k]);
      }
    }

    /**
     One iteration of the server. Whatever it does, memory and tokens agree again afterwards, and
     each generation has ended or goes on from where it was. Unless decoding fails, in which case
     all tasks end, the slots that lead advance.
     */
    method UpdateSlots(codes: nat -> int, truncates: nat -> bool) returns (split: bool, failed: bool)
      requires Valid() && AllAtRest()
      modifies this`batch, slots, ctx
      ensures Valid() && (!split ==> AllAtRest())
      ensures split ==> exists k | 0 <= k < |slots| :: slots[k].canSpeculate
      ensures split ==> |batch| > cfg.nBatch || exists c: nat :: codes(c) >= 1
      ensures !split ==> AllProceed(old(Views()), Views())
      ensures !split && !failed ==> Progress(cfg, truncates, old(Views()), Views())
      ensures failed ==> forall k | 0 <= k < |slots| :: slots[k].state == Idle
    {
      split, failed := false, false;
      var allIdle := true;
      for k := 0 to |slots|
        invariant allIdle ==> forall j | 0 <= j < k :: slots[j].state == Idle
      {
        if slots[k].state != Idle {
          allIdle := false;
          break;
        }
      }
      if allIdle {
        return;
      }
      split, failed := Update(codes, truncates);
    }

    method Update(codes: nat -> int, truncates: nat -> bool) returns (split: bool, failed: bool)
      requires Valid() && AllAtRest()
      modifies this`batch, slots, ctx
      ensures Valid() && (!split ==> AllAtRest())
      ensures split ==> exists k | 0 <= k < |slots| :: slots[k].canSpeculate
      ensures split ==> |batch| > cfg.nBatch || exists c: nat :: codes(c) >= 1
      ensures !split ==> AllProceed(old(Views()), Views())
      ensures !split && !failed ==> Progress(cfg, truncates, old(Views()), Views())
      ensures failed ==> forall k | 0 <= k < |slots| :: slots[k].state == Idle
    {
      ghost var start := Views();
      ghost var shifted, added := FillBatch(truncates);
      ghost var filled := Views();
      ghost var parts;
      split, failed, parts := DecodeBatch(codes);
      if !split {
        AllProceedOn(start, filled, Views());
      }
      if !split && !failed {
        ProgressMade(cfg, f, stops, truncates, start, shifted, added, filled, Views());
      }
    }

    /** Everything before the decoding; in between the slots are as `shifted` and `added` say. */
    method FillBatch(truncates: nat -> bool) returns (ghost shifted: seq<Slot>, ghost added: seq<Slot>)
      requires Valid() && AllAtRest()
      modifies this`batch, slots, ctx
      ensures Valid() && AllWait(0, 0) && Homogeneous() && AllProceed(old(Views()), Views())
      ensures AllShifted(cfg, old(Views()), shifted) && AllSampled(shifted, added) && AllFilled(cfg, truncates, added, Views())
    {
      ghost var start := Views();
      ShiftContexts();
      shifted := Views();
      var batched := AddSampledTokens();
      added := Views();
      NextIsNotSampled(cfg, start, shifted, added);
      batched := AddPrompts(batched, truncates);
      AllProceedOn(start, shifted, added);
      AllProceedOn(start, added, Views());
    }

    /** Tasks are within the bounds of the context shift. */
    ghost predicate Admissible(e: Event) {
      match e
      case Arrive(task, _, _, _, _, _, _) => cfg.ctxShift ==> forall k | 0 <= k < |slots| :: DiscardsInRange(cfg, task, slots[k].nCtx)
      case _ => true
    }

    /**
     A whole run: after each event the memory agrees with the tokens, and so do the snapshots in the
     cache, none of which is a prefix of another. `history` has the slots before and after each event,
     which have become what the event makes of them.
     */
    method Serve(events: seq<Event>) returns (split: bool, ghost history: seq<seq<Slot>>)
      requires Valid() && AllAtRest() && CacheMirrors()
      requires forall e | e in events :: Admissible(e)
      modifies this`batch, slots, ctx, cache
      ensures Valid() && CacheMirrors() && (!split ==> AllAtRest())
      ensures split ==> exists k | 0 <= k < |slots| :: slots[k].canSpeculate
      ensures !split ==> |history| == |events| + 1 && history[0] == old(Views()) && history[|events|] == Views()
      ensures !split ==> IsHistory(cfg, f, events, history)
    {
      split := false;
      RestIsInOrder();
      history := [Views()];
      var i := 0;
      while i < |events|
        invariant 0 <= i <= |events| && |history| == i + 1 && history[0] == old(Views()) && history[i] == Views()
        invariant Valid() && CacheMirrors() && AllAtRest() && IsHistory(cfg, f, events[..i], history)
      {
        assert Admissible(events[i]);
        split, history := HandleNext(events[..i], history, events[i]);
        if split {
          return;
        }
        assert events[..i] + [events[i]] == events[..i + 1];
        i := i + 1;
      }
      assert events[..i] == events;
    }

    method HandleNext(ghost past: seq<Event>, ghost history: seq<seq<Slot>>, e: Event) returns (split: bool, ghost longer: seq<seq<Slot>>)
      requires Valid() && AllAtRest() && CacheMirrors() && Admissible(e)
      requires IsHistory(cfg, f, past, history) && history[|past|] == Views()
      modifies this`batch, slots, ctx, cache
      ensures Valid() && CacheMirrors() && (!split ==> AllAtRest())
      ensures split ==> exists k | 0 <= k < |slots| :: slots[k].canSpeculate
      ensures !split ==> longer == history + [Views()] && IsHistory(cfg, f, past + [e], longer)
    {
      split := HandleEvent(e);
      longer := history + [Views()];
      if !split {
        RestIsInOrder();
        HistoryGoesOn(cfg, f, past, history, e, Views());
      }
    }

    lemma RestIsInOrder()
      requires Valid() && AllAtRest()
      ensures InOrder(cfg, f, Views())
    {
      forall k | 0 <= k < |slots|
        ensures IsSane(cfg, f, Views()[k])
      {
        assert Rests(k);
      }
    }

    method HandleEvent(e: Event) returns (split: bool)
      requires Valid() && AllAtRest() && CacheMirrors() && Admissible(e)
      modifies this`batch, slots, ctx, cache
      ensures Valid() && CacheMirrors() && (!split ==> AllAtRest())
      ensures split ==> exists k | 0 <= k < |slots| :: slots[k].canSpeculate
      ensures !split ==> Responds(cfg, e, old(Views()), Views())
    {
      split := false;
      match e
      case Arrive(task, lastUsed, stateSize, canAllocate, restores, clearsCache, accepted) =>
        HandleTask(task, lastUsed, stateSize, canAllocate, restores, clearsCache, accepted);
      case Cancel(idTarget) =>
        CancelTask(idTarget);
      case Update(codes, truncates) =>
        var failed;
        split, failed := UpdateSlots(codes, truncates);
    }

    /** The first slot that works on the task is released. */
    method CancelTask(idTarget: int)
      requires Valid() && AllAtRest()
      modifies slots
      ensures Valid() && AllAtRest() && Cancelled(idTarget, old(Views()), Views())
    {
      ghost var start := Views();
      var k := 0;
      while k < |slots|
        invariant 0 <= k <= |slots| && Valid() && AllAtRest() && Views() == start
        invariant forall j | 0 <= j < k :: !WorksOn(start[j], idTarget)
      {
        if slots[k].state != Idle && slots[k].task.id == idTarget {
          ReleaseOne(k);
          return;
        }
        k := k + 1;
      }
    }

    method ReleaseOne(k: nat)
      requires Valid() && AllAtRest() && k < |slots|
      modifies slots[k]
      ensures Valid() && AllAtRest() && slots[k].state == Idle && slots[k].tokens == old(slots[k].tokens)
      ensures forall j | 0 <= j < |slots| && j != k :: unchanged(slots[j])
    {
      assert Rests(k);
      slots[k].Release();
      assert Rests(k);
      forall j | 0 <= j < |slots| && j != k
        ensures Rests(j)
      {
        assert old(Rests(j));
      }
    }

    /** A task is given to a slot, if one is idle. */
    method HandleTask(task: Task, lastUsed: nat -> int, stateSize: nat, canAllocate: bool, restores: bool, clearsCache: bool, accepted: bool)
      requires Valid() && AllAtRest() && CacheMirrors()
      requires cfg.ctxShift ==> forall k | 0 <= k < |slots| :: DiscardsInRange(cfg, task, slots[k].nCtx)
      modifies slots, ctx, cache
      ensures Valid() && AllAtRest() && CacheMirrors()
      ensures Launched(task, accepted, old(Views()), Views())
    {
      ghost var start := Views();
      var k, _ := GetAvailableSlot(task, lastUsed, stateSize, canAllocate, restores);
      if k != -1 {
        var launched := LaunchSlotWithTask(k, task, clearsCache, accepted);
        LaunchedIn(task, accepted, start, Views(), k);
      } else {
        forall j | 0 <= j < |slots|
          ensures start[j].state != Idle && Views()[j] == start[j]
        {
          assert !old(IsIdle(j));
        }
      }
    }
  }

  // ----- what events make of the slots -----

  predicate WorksOn(s: Slot, idTarget: int) {
    s.state != Idle && s.task.id == idTarget
  }

  /** The slot has become idle, and keeps what it knows. */
  predicate Stopped(o: Slot, s: Slot) {
    s.state == Idle && s.tokens == o.tokens
  }

  /** The first slot that works on the task, if any, is released; nothing else changes. */
  predicate Cancelled(idTarget: int, a: seq<Slot>, b: seq<Slot>) {
    && |a| == |b|
    && forall k | 0 <= k < |a| ::
         if WorksOn(a[k], idTarget) && forall j | 0 <= j < k :: !WorksOn(a[j], idTarget) then Stopped(a[k], b[k]) else b[k] == a[k]
  }

  /** The slot has the task. */
  predicate HasStarted(s: Slot, task: Task) {
    s.state == Started && s.task == task
  }

  /** An idle slot, if there is one, has the task if it is accepted; slots that are not idle stay as they are. */
  predicate Launched(task: Task, accepted: bool, a: seq<Slot>, b: seq<Slot>) {
    && |a| == |b|
    && (forall k | 0 <= k < |a| && a[k].state != Idle :: b[k] == a[k])
    && (forall k | 0 <= k < |a| && a[k].state == Idle :: b[k].state == Idle || (accepted && HasStarted(b[k], task)))
    && (forall j, k | 0 <= j < k < |a| && a[j].state == Idle && a[k].state == Idle :: b[j].state == Idle || b[k].state == Idle)
    && (accepted && (exists k | 0 <= k < |a| :: a[k].state == Idle) ==> exists k | 0 <= k < |a| :: a[k].state == Idle && HasStarted(b[k], task))
  }

  lemma LaunchedIn(task: Task, accepted: bool, a: seq<Slot>, b: seq<Slot>, k: nat)
    requires |a| == |b| && k < |a| && a[k].state == Idle
    requires if accepted then HasStarted(b[k], task) else b[k].state == Idle
    requires forall j | 0 <= j < |a| && j != k :: if a[j].state == Idle then b[j].state == Idle else b[j] == a[j]
    ensures Launched(task, accepted, a, b)
  {
  }

  predicate AllIdle(views: seq<Slot>) {
    forall k | 0 <= k < |views| :: views[k].state == Idle
  }

  /** What an event makes of the slots. */
  predicate Responds(cfg: Config, e: Event, a: seq<Slot>, b: seq<Slot>) {
    match e
    case Arrive(task, _, _, _, _, _, accepted) => Launched(task, accepted, a, b)
    case Cancel(idTarget) => Cancelled(idTarget, a, b)
    case Update(_, truncates) => AllProceed(a, b) && (AllIdle(b) || Progress(cfg, truncates, a, b))
  }

  /** A prompt that is being processed is not complete; a generation is where token-by-token decoding is. */
  ghost predicate IsSane(cfg: Config, f: Samplers, s: Slot) {
    && (s.state == ProcessingPrompt ==> s.tokens < s.task.tokens)
    && (s.state == Generating ==> s.Wf(cfg) && Follows(cfg, f, s, s.tokens, s.sampled))
  }

  ghost predicate InOrder(cfg: Config, f: Samplers, views: seq<Slot>) {
    forall k | 0 <= k < |views| :: IsSane(cfg, f, views[k])
  }

  ghost predicate IsHistory(cfg: Config, f: Samplers, events: seq<Event>, history: seq<seq<Slot>>) {
    && |history| == |events| + 1 && (forall i | 0 <= i < |history| :: InOrder(cfg, f, history[i]))
    && forall i: nat | i < |events| :: RespondsAt(cfg, events, history, i)
  }

  ghost predicate RespondsAt(cfg: Config, events: seq<Event>, history: seq<seq<Slot>>, i: nat)
    requires i < |events| && |history| == |events| + 1
  {
    var next := i + 1;
    Responds(cfg, events[i], history[i], history[next])
  }

  lemma HistoryGoesOn(cfg: Config, f: Samplers, events: seq<Event>, history: seq<seq<Slot>>, e: Event, views: seq<Slot>)
    requires IsHistory(cfg, f, events, history) && Responds(cfg, e, history[|events|], views) && InOrder(cfg, f, views)
    ensures IsHistory(cfg, f, events + [e], history + [views])
  {
    var more, longer := events + [e], history + [views];
    forall i: nat | i < |more|
      ensures RespondsAt(cfg, more, longer, i)
    {
      if i < |events| {
        assert RespondsAt(cfg, events, history, i);
      }
    }
  }

  // ----- what a run of updates achieves -----

  predicate AllUpdates(events: seq<Event>) {
    forall i | 0 <= i < |events| :: events[i].Update?
  }

  /** All slots that generate can be batched with the first of them. */
  predicate Uniform(views: seq<Slot>) {
    forall j | 0 <= j < |views| && views[j].state == Generating :: Joins(views, j)
  }

  /** No generation starves: n updates take it at least n steps of token-by-token decoding further, unless it has ended. */
  lemma {:induction false} GenerationsAdvance(cfg: Config, f: Samplers, events: seq<Event>, history: seq<seq<Slot>>, k: nat, n: nat)
    requires IsHistory(cfg, f, events, history) && AllUpdates(events) && n <= |events|
    requires forall i: nat | i < |history| :: Uniform(history[i])
    requires k < |history[0]| && history[0][k].state == Generating
    ensures |history[n]| == |history[0]|
    ensures var o, s := history[0][k], history[n][k];
      s.state == Idle || (s.state == Generating && s.task == o.task && s.steps >= o.steps + n && IsSane(cfg, f, s))
    decreases n
  {
    assert InOrder(cfg, f, history[n]) && InOrder(cfg, f, history[0]);
    if n > 0 {
      var before := n - 1;
      GenerationsAdvance(cfg, f, events, history, k, before);
      assert RespondsAt(cfg, events, history, before);
      assert Uniform(history[before]) && Proceeds(history[before][k], history[n][k]);
      if history[before][k].state == Generating {
        assert Joins(history[before], k);
      }
    }
  }

  /** Only slot k is not idle. */
  predicate OnlyBusy(views: seq<Slot>, k: nat) {
    k < |views| && forall j | 0 <= j < |views| && j != k :: views[j].state == Idle
  }

  predicate PromptIsDone(o: Slot, s: Slot) {
    s.state == Idle || (s.state == Generating && s.task == o.task)
  }

  /** n updates have brought at least n tokens of the prompt. */
  predicate PromptHas(o: Slot, s: Slot, n: nat) {
    IsPrompt(s) && s.task == o.task && (n > 0 ==> s.state == ProcessingPrompt && |s.tokens| >= n)
  }

  lemma {:induction false} PromptGoesOn(cfg: Config, f: Samplers, events: seq<Event>, history: seq<seq<Slot>>, k: nat, n: nat)
    requires IsHistory(cfg, f, events, history) && AllUpdates(events) && n <= |events| && cfg.nUbatch <= cfg.nBatch
    requires forall i: nat | i < |events| :: events[i].truncates(k)
    requires OnlyBusy(history[0], k) && IsPrompt(history[0][k])
    ensures OnlyBusy(history[n], k)
    ensures PromptIsDone(history[0][k], history[n][k]) || PromptHas(history[0][k], history[n][k], n)
    decreases n
  {
    if n > 0 {
      var before := n - 1;
      PromptGoesOn(cfg, f, events, history, k, before);
      assert RespondsAt(cfg, events, history, before);
      PromptStep(cfg, events[before].truncates, history[0][k], history[before], history[n], k, n);
    }
  }

  lemma PromptStep(cfg: Config, truncates: nat -> bool, o: Slot, a: seq<Slot>, b: seq<Slot>, k: nat, n: nat)
    requires AllProceed(a, b) && (AllIdle(b) || Progress(cfg, truncates, a, b)) && truncates(k) && cfg.nUbatch <= cfg.nBatch
    requires n > 0 && OnlyBusy(a, k) && (PromptIsDone(o, a[k]) || PromptHas(o, a[k], n - 1))
    ensures OnlyBusy(b, k) && (PromptIsDone(o, b[k]) || PromptHas(o, b[k], n))
  {
    forall j | 0 <= j < |b|
      ensures Proceeds(a[j], b[j])
    {
    }
    if !PromptIsDone(o, a[k]) {
      assert FirstBusy(a) == k && Lead(a) == |a| && PromptIsNext(cfg, a);
    }
  }

  /** A prompt that has the server for itself is done after as many updates as it has tokens. */
  lemma PromptCompletes(cfg: Config, f: Samplers, events: seq<Event>, history: seq<seq<Slot>>, k: nat)
    requires IsHistory(cfg, f, events, history) && AllUpdates(events) && cfg.nUbatch <= cfg.nBatch
    requires forall i: nat | i < |events| :: events[i].truncates(k)
    requires OnlyBusy(history[0], k) && IsPrompt(history[0][k]) && |events| >= |history[0][k].task.tokens| > 0
    ensures OnlyBusy(history[|events|], k) && PromptIsDone(history[0][k], history[|events|][k])
  {
    PromptGoesOn(cfg, f, events, history, k, |events|);
    assert InOrder(cfg, f, history[|events|]) && IsSane(cfg, f, history[|events|][k]);
  }
}
