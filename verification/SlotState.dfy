/**
 What is known of a slot between the steps of the server: how its tokens, its part of the
 memory and the batch that waits to be decoded belong together.
 */
module SlotState {
  import opened Tokens
  import opened Memory
  import opened Decoding
  import opened Reuse

  /** The sampler of a task, what ends its generation, and what drafts for it. */
  type Samplers = Task -> Sampler
  type Stops = Task -> ((seq<Token>, Token) -> bool)
  type Drafters = Task -> ((seq<Token>, Token) -> seq<Token>)

  datatype Kind = Completion | Infill | Embedding | Rerank

  /** What a task asks for, as far as it matters to the tokens of its slot. */
  datatype Task = Task(
    id: int, kind: Kind, tokens: seq<Token>, lora: int, cachePrompt: bool, nCacheReuse: int,
    nKeep: int, nDiscard: int, nPredict: int, nDraftMax: int, nDraftMin: int)
  {
    predicate NeedsEmbd() { kind == Embedding || kind == Rerank }
    predicate NeedsSampling() { kind == Completion || kind == Infill }
  }

  /** The parameters of the server and of its model. */
  datatype Config = Config(
    ctxShift: bool, addBos: bool, canShift: bool, poolingLast: bool, contBatching: bool, kvUnified: bool,
    nBatch: nat, nUbatch: nat, nPredict: int, useCache: bool, simNum: nat, simDen: nat)

  datatype State = Idle | Started | ProcessingPrompt | DonePrompt | Generating

  function Min(a: int, b: int): int { if a <= b then a else b }

  /** How many tokens a shift keeps at the beginning. */
  function Keeps(cfg: Config, task: Task, nCtx: int): int {
    Min(nCtx - 4, (if task.nKeep < 0 then |task.tokens| else task.nKeep) + if cfg.addBos then 1 else 0)
  }

  /** How many tokens behind those a shift of n tokens drops. */
  function Discards(cfg: Config, task: Task, nCtx: int, n: int): int {
    if task.nDiscard != 0 then task.nDiscard else (n - Keeps(cfg, task, nCtx)) / 2
  }

  /** A request that says how many tokens a shift drops asks for no more than there will be. */
  predicate DiscardsInRange(cfg: Config, task: Task, nCtx: int) {
    1 <= Discards(cfg, task, nCtx, nCtx - 1) < nCtx - Keeps(cfg, task, nCtx)
  }

  /**
   What a shift leaves of the tokens. As many tokens at the beginning stay as the request says, or as
   its prompt has if it says a negative number, and one more for the token that begins every
   sequence, but never the last four places of the context; of the others the first ones are dropped,
   as many as the request says, or half of them if it says nothing; all that follow move up.
   */
  predicate IsShifted(cfg: Config, task: Task, nCtx: int, before: seq<Token>, after: seq<Token>) {
    var asked := if task.nKeep >= 0 then task.nKeep else |task.tokens|;
    var first := if cfg.addBos then asked + 1 else asked;
    var dropped := |before| - |after|;
    && dropped > 0
    && (forall i | 0 <= i < |before| && i < first && i < nCtx - 4 :: i < |after| && after[i] == before[i])
    && (forall i | 0 <= i < |after| && !(i < first && i < nCtx - 4) :: after[i] == before[i + dropped])
    && (task.nDiscard != 0 ==> dropped == task.nDiscard)
    && (task.nDiscard == 0 && first < nCtx - 4 ==> 2 * dropped <= |before| - first <= 2 * dropped + 1)
    && (task.nDiscard == 0 && first >= nCtx - 4 ==> 2 * dropped <= |before| - (nCtx - 4) <= 2 * dropped + 1)
  }

  /** Requests are in range exactly if they say nothing, or no more than there is behind what is kept. */
  lemma DiscardsInRangeIff(cfg: Config, task: Task, nCtx: int)
    requires nCtx >= 4
    ensures DiscardsInRange(cfg, task, nCtx) <==>
      var asked := if task.nKeep >= 0 then task.nKeep else |task.tokens|;
      var first := if cfg.addBos then asked + 1 else asked;
      task.nDiscard == 0 || (1 <= task.nDiscard && (task.nDiscard < nCtx - first || task.nDiscard < 4))
  {
  }

  /** The shift of a slot, and of token-by-token decoding, is what the request asks for. */
  lemma ShiftIsAsAsked(cfg: Config, task: Task, nCtx: int, tokens: seq<Token>)
    requires nCtx >= 4 && |tokens| + 1 == nCtx && DiscardsInRange(cfg, task, nCtx)
    ensures 0 <= Keeps(cfg, task, nCtx) && Keeps(cfg, task, nCtx) + Discards(cfg, task, nCtx, nCtx - 1) <= |tokens|
    ensures IsShifted(cfg, task, nCtx, tokens, Shifted(tokens, Keeps(cfg, task, nCtx), Discards(cfg, task, nCtx, nCtx - 1)))
  {
  }

  /** Token-by-token decoding shifts a full context in this way, if contexts are shifted, and else never. */
  lemma WindowShifts(cfg: Config, s: Slot, tokens: seq<Token>)
    requires s.Wf(cfg) && s.Processing() && |tokens| < s.nCtx
    ensures var left := MakeRoom(WindowOf(cfg, s), tokens);
      if cfg.ctxShift && |tokens| + 1 == s.nCtx then IsShifted(cfg, s.task, s.nCtx, tokens, left) else left == tokens
  {
    if cfg.ctxShift && |tokens| + 1 == s.nCtx {
      ShiftIsAsAsked(cfg, s.task, s.nCtx, tokens);
    }
  }

  /** How many tokens may be generated; -1 if any number. */
  function Budget(cfg: Config, task: Task): int { if task.nPredict != -1 then task.nPredict else cfg.nPredict }

  /** After n generated tokens another one may be generated. */
  predicate InBudget(cfg: Config, task: Task, n: nat) {
    Budget(cfg, task) == -1 || n < Budget(cfg, task)
  }

  /** The budget of a task comes first, and that of the server counts for tasks without one. */
  lemma InBudgetIff(cfg: Config, task: Task, n: nat)
    ensures task.nPredict != -1 ==> (InBudget(cfg, task, n) <==> n < task.nPredict)
    ensures task.nPredict == -1 && cfg.nPredict != -1 ==> (InBudget(cfg, task, n) <==> n < cfg.nPredict)
    ensures task.nPredict == -1 && cfg.nPredict == -1 ==> InBudget(cfg, task, n)
  {
  }

  const NO_TASK := Task(-1, Completion, [], 0, false, 0, 0, 0, 0, 0, 0)

  /** A slot, with the number of steps since its generation began. */
  datatype Slot = Slot(
    id: nat, nCtx: nat, canSpeculate: bool, state: State, task: Task, tokens: seq<Token>, sampled: Token, drafted: seq<Token>,
    iBatch: int, iBatchDft: seq<nat>, lora: int, steps: nat, nDecoded: nat)
  {
    function Processing(): bool { state != Idle }

    /** No draft is under way. */
    predicate Undrafted() { drafted == [] && iBatchDft == [] }

    predicate Wf(cfg: Config) {
      nCtx >= 4 && (Processing() && cfg.ctxShift ==> DiscardsInRange(cfg, task, nCtx))
    }

    /** Either there is room for a token and one more, or the context will be shifted. */
    predicate HasRoom(cfg: Config) {
      |tokens| < nCtx && (!cfg.ctxShift ==> |tokens| + 1 < nCtx)
    }
  }

  function WindowOf(cfg: Config, s: Slot): (w: Window)
    requires s.Wf(cfg) && s.Processing()
    ensures w.Valid()
  {
    if cfg.ctxShift then Window(true, s.nCtx, Keeps(cfg, s.task, s.nCtx), Discards(cfg, s.task, s.nCtx, s.nCtx - 1))
    else Window(false, s.nCtx, 0, 1)
  }

  /** Where a generation begins: behind the prompt, with the first token sampled. */
  function Begin(cfg: Config, f: Samplers, s: Slot): Gen
    requires s.Wf(cfg) && s.Processing()
  {
    Gen(MakeRoom(WindowOf(cfg, s), s.task.tokens), f(s.task)(s.task.tokens))
  }

  /** The tokens, and the sampled one to come, are what token-by-token decoding of the prompt has reached. */
  ghost predicate Follows(cfg: Config, f: Samplers, s: Slot, tokens: seq<Token>, sampled: Token)
    requires s.Wf(cfg) && s.Processing()
  {
    Reached(WindowOf(cfg, s), f(s.task), Begin(cfg, f, s), s.steps, tokens, sampled)
  }

  /** The prompt is not complete, and a prompt to generate from leaves room in the context. */
  predicate InPrompt(cfg: Config, s: Slot) {
    && s.tokens < s.task.tokens && (s.task.NeedsSampling() ==> |s.task.tokens| < s.nCtx)
    && (!CanSplit(cfg, s.task) ==> |s.task.tokens| <= cfg.nUbatch)
  }

  /** What holds of a generating slot whose sampled token is not in the batch. */
  ghost predicate Ready(cfg: Config, f: Samplers, s: Slot, kv: Kv)
    requires s.Wf(cfg) && s.Processing()
  {
    && Exact(kv, s.tokens) && s.HasRoom(cfg) && s.task.NeedsSampling()
    && s.iBatch == -1 && s.Undrafted() && Follows(cfg, f, s, s.tokens, s.sampled)
    && s.nDecoded == s.steps + 1 && InBudget(cfg, s.task, s.nDecoded)
  }

  /** What holds when a token has just been sampled: whether there is room for it is not known. */
  ghost predicate Sampled(cfg: Config, f: Samplers, s: Slot, kv: Kv, token: Token)
    requires s.Wf(cfg) && s.Processing()
  {
    && Exact(kv, s.tokens) && |s.tokens| < s.nCtx && s.task.NeedsSampling()
    && s.iBatch == -1 && s.Undrafted() && Follows(cfg, f, s, s.tokens, token) && s.nDecoded == s.steps + 1
  }

  /** What holds of a slot and its memory between two updates of the server. */
  ghost predicate AtRest(cfg: Config, f: Samplers, s: Slot, kv: Kv) {
    && s.Wf(cfg) && s.Undrafted()
    && match s.state
       case Idle => Mirrors(kv, s.tokens)
       case Started => Mirrors(kv, s.tokens)
       case ProcessingPrompt => Mirrors(kv, s.tokens) && InPrompt(cfg, s)
       case DonePrompt => false
       case Generating => Ready(cfg, f, s, kv)
  }

  /** The token at index i of the batch is the last of the slot, and not decoded before lo. */
  ghost predicate LastInBatch(s: Slot, batch: seq<BatchToken>, lo: nat) {
    && s.tokens != [] && lo <= s.iBatch < |batch|
    && batch[s.iBatch].pos == |s.tokens| - 1 && batch[s.iBatch].slot == s.id
    && Absent(batch[s.iBatch + 1..], s.id)
  }

  /** The sampled token has been added to the batch. */
  ghost predicate Plain(cfg: Config, f: Samplers, s: Slot, batch: seq<BatchToken>, lo: nat)
    requires s.Wf(cfg) && s.Processing()
  {
    && s.Undrafted() && LastInBatch(s, batch, lo)
    && s.tokens[|s.tokens| - 1] == s.sampled
    && Follows(cfg, f, s, s.tokens[..|s.tokens| - 1], s.sampled) && |s.tokens| < s.nCtx && s.nDecoded == s.steps + 1
  }

  /** The sampled token and a draft have been added to the batch. */
  ghost predicate Drafting(cfg: Config, f: Samplers, s: Slot, batch: seq<BatchToken>)
    requires s.Wf(cfg) && s.Processing()
  {
    && s.canSpeculate && s.nDecoded == s.steps + 1 && s.iBatch == -1 && |s.iBatchDft| == |s.drafted| + 1 && |s.drafted| < |s.tokens| < s.nCtx
    && var n := |s.tokens| - |s.drafted| - 1;
       && s.tokens[n] == s.sampled && s.tokens[n + 1..] == s.drafted
       && Follows(cfg, f, s, s.tokens[..n], s.sampled)
       && forall j | 0 <= j <= |s.drafted| :: s.iBatchDft[j] < |batch| && batch[s.iBatchDft[j]].pos == n + j
  }

  /**
   What holds while the batch waits: what is decoded of it, up to `from`, and what is not,
   make up the tokens; no slot is due at an index before `lo`.
   */
  ghost predicate Queued(cfg: Config, f: Samplers, s: Slot, kv: Kv, batch: seq<BatchToken>, lo: nat, from: nat)
    requires from <= |batch|
  {
    && s.Wf(cfg)
    && match s.state
       case Idle => Mirrors(kv, s.tokens) && s.Undrafted() && Absent(batch[from..], s.id)
       case Started => Mirrors(kv, s.tokens) && s.Undrafted() && Absent(batch[from..], s.id)
       case ProcessingPrompt =>
         && InPrompt(cfg, s) && s.Undrafted()
         && (Aligned(kv, s.tokens, batch[from..], s.id) || (Mirrors(kv, s.tokens) && Absent(batch[from..], s.id)))
       case DonePrompt =>
         && s.tokens == s.task.tokens && (s.task.NeedsSampling() ==> |s.tokens| < s.nCtx) && s.Undrafted() && s.nDecoded == 0
         && Aligned(kv, s.tokens, batch[from..], s.id) && LastInBatch(s, batch, lo)
       case Generating =>
         && s.task.NeedsSampling() && Aligned(kv, s.tokens, batch[from..], s.id)
         && (|| (Ready(cfg, f, s, kv) && Absent(batch[from..], s.id))
             || Plain(cfg, f, s, batch, lo)
             || Drafting(cfg, f, s, batch))
  }

  // ----- the beginning of a prompt -----

  /** Every task is for a text or for an embedding. */
  lemma SamplesOrEmbeds(task: Task)
    ensures task.NeedsSampling() <==> !task.NeedsEmbd()
    ensures task.NeedsEmbd() <==> task.kind in {Embedding, Rerank}
  {
  }

  /** The prompt can be decoded in several batches. */
  predicate CanSplit(cfg: Config, task: Task) { !task.NeedsEmbd() || cfg.poolingLast }

  /** The prompt is not empty and not too large. */
  predicate Admitted(cfg: Config, s: Slot) {
    && s.task.tokens != []
    && if CanSplit(cfg, s.task) then |s.task.tokens| < s.nCtx
       else |s.task.tokens| <= cfg.nUbatch && |s.task.tokens| <= s.nCtx
  }

  /** How many tokens of the prompt are in the memory, perhaps elsewhere. */
  function Reusable(cfg: Config, s: Slot): nat {
    var input := s.task.tokens;
    var common := CommonPrefix(s.tokens, input);
    CommonPrefixIs(s.tokens, input);
    if !CanSplit(cfg, s.task) || !s.task.cachePrompt then 0
    else if cfg.canShift && s.task.nCacheReuse > 0 then ReusedFrom(s.tokens, input, common, common, s.task.nCacheReuse)
    else common
  }

  /** How many tokens of the prompt need not be decoded; one always has to be. */
  function Past(cfg: Config, s: Slot): nat
    requires s.task.tokens != []
  {
    var n := Reusable(cfg, s);
    if n == |s.task.tokens| then n - 1 else n
  }

  /** A prompt is admitted if it is not empty and fits: all of it into a batch and the context, or else with room for a token. */
  lemma AdmittedIff(cfg: Config, s: Slot)
    ensures Admitted(cfg, s) <==>
      && s.task.tokens != []
      && if (s.task.kind == Embedding || s.task.kind == Rerank) && !cfg.poolingLast then |s.task.tokens| <= Min(cfg.nUbatch, s.nCtx)
         else |s.task.tokens| < s.nCtx
  {
  }

  /**
   Nothing of the old prompt stays if the task does not want it, or if the new one cannot be split. Else at
   least the common prefix stays, and no more without chunks to move, but one token has to be left to decode.
   */
  lemma PastIs(cfg: Config, s: Slot)
    requires s.task.tokens != []
    ensures var n, common, all := Past(cfg, s), CommonPrefix(s.tokens, s.task.tokens), |s.task.tokens|;
      if !s.task.cachePrompt || ((s.task.kind == Embedding || s.task.kind == Rerank) && !cfg.poolingLast) then n == 0
      else Min(common, all - 1) <= n < all && (!cfg.canShift || s.task.nCacheReuse <= 0 ==> n == Min(common, all - 1))
  {
    CommonPrefixIs(s.tokens, s.task.tokens);
    var common := CommonPrefix(s.tokens, s.task.tokens);
    if s.task.nCacheReuse > 0 {
      ReusedBounds(s.tokens, s.task.tokens, common, common, s.task.nCacheReuse);
    }
  }

  /** The lowest position that the memory holds; -1 if it holds none. */
  ghost predicate IsPosMin(kv: Kv, p: int) {
    if p == -1 then kv == map[] else p >= 0 && p in kv && forall q :: q in kv ==> p <= q
  }

  /** `llama_memory_seq_pos_min` */
  method SeqPosMin(kv: Kv) returns (p: int)
    ensures IsPosMin(kv, p)
  {
    p := -1;
    var left := kv.Keys;
    while left != {}
      invariant left <= kv.Keys && (p == -1 ==> left == kv.Keys)
      invariant p != -1 ==> p >= 0 && p in kv && forall q | q in kv && q !in left :: p <= q
      decreases |left|
    {
      NonEmpty(left);
      var q :| q in left;
      if p == -1 || q < p {
        p := q;
      }
      left := left - {q};
    }
  }

  lemma NonEmpty(s: set<nat>)
    requires s != {}
    ensures exists q :: q in s
  {
  }

  /**
   Without a sliding window, what is reused starts at position 0: the check for that never
   fails, and never asks for a checkpoint.
   */
  lemma NoCheckpointNeeded(kv: Kv, tokens: seq<Token>, nPast: nat, posMin: int)
    requires 0 < nPast <= |tokens| && Mirrors(kv, tokens[..nPast]) && IsPosMin(kv, posMin)
    ensures posMin == 0 <= nPast - 1
  {
    assert 0 in kv;
  }

  // ----- what may become of a slot -----

  /** A generation goes on from where it was, or ends; an idle slot stays idle. */
  predicate Proceeds(o: Slot, s: Slot) {
    && (o.state == Idle ==> s.state == Idle)
    && (o.state == Generating ==>
          s.state == Idle || (s.state == Generating && s.task == o.task && s.steps >= o.steps))
  }

  /** Nothing ends a generation with its next token, the n-th. */
  predicate GoesOn(cfg: Config, f: Samplers, stops: Stops, s: Slot, n: nat) {
    !stops(s.task)(s.tokens, f(s.task)(s.tokens)) && (cfg.ctxShift || |s.tokens| + 1 < s.nCtx) && InBudget(cfg, s.task, n)
  }

  /** The tokens in front of a draft, with the sampled one; and what is accepted of the draft behind them. */
  function InFrontOfDraft(s: Slot): seq<Token> {
    s.tokens[..if |s.drafted| <= |s.tokens| then |s.tokens| - |s.drafted| else 0]
  }

  function AcceptedOf(f: Samplers, s: Slot): (ids: seq<Token>)
    ensures ids != []
  {
    Accepted(f(s.task), InFrontOfDraft(s), s.drafted)
  }

  /** None of the first n of some tokens behind others ends a generation. */
  predicate NoneStops(stop: (seq<Token>, Token) -> bool, base: seq<Token>, ids: seq<Token>, n: nat)
    requires n <= |ids|
  {
    forall i | 0 <= i < n :: !stop(base + ids[..i], ids[i])
  }

  /** Nothing ends a generation with what is accepted of its draft. */
  predicate RoundGoesOn(cfg: Config, f: Samplers, stops: Stops, s: Slot) {
    var base, ids := InFrontOfDraft(s), AcceptedOf(f, s);
    && NoneStops(stops(s.task), base, ids, |ids|)
    && (cfg.ctxShift || |base| + |ids| < s.nCtx) && InBudget(cfg, s.task, s.nDecoded + |ids|)
  }

  /**
   How many of the accepted tokens are processed: up to the first one that ends the generation. Room and
   budget are those behind all of them, so that without these it is the first one.
   */
  predicate IsShown(cfg: Config, f: Samplers, stops: Stops, o: Slot, shown: nat) {
    var base, ids := InFrontOfDraft(o), AcceptedOf(f, o);
    var room := (cfg.ctxShift || |base| + |ids| < o.nCtx) && InBudget(cfg, o.task, o.nDecoded + |ids|);
    && 1 <= shown <= |ids|
    && (if !room then shown == 1
        else
          && NoneStops(stops(o.task), base, ids, shown - 1)
          && (shown < |ids| ==> stops(o.task)(base + ids[..shown - 1], ids[shown - 1])))
  }

  /** The tokens stay, unless the slot has become idle and has given them up. */
  predicate KeepsTokens(o: Slot, s: Slot) {
    s.tokens == o.tokens || (s.state == Idle && s.tokens == [])
  }

  /** The slot is released, or it generates and waits for its next turn. */
  predicate Settled(o: Slot, s: Slot) {
    s.state == Idle || (s.state == Generating && s.iBatch == -1 && s.Undrafted() && s.task == o.task)
  }

  /** What decoding the whole batch makes of a slot: each slot that is due is sampled from once. */
  predicate Handled(cfg: Config, f: Samplers, stops: Stops, o: Slot, s: Slot) {
    match o.state
    case Idle => s == o || s == o.(tokens := [])
    case Started => s == o
    case ProcessingPrompt => s == o
    case DonePrompt =>
      && Settled(o, s) && KeepsTokens(o, s)
      && (s.state == Generating ==> s.sampled == f(o.task)(s.tokens) && s.steps == 0)
      && (s.state == Generating <==> !o.task.NeedsEmbd() && GoesOn(cfg, f, stops, o, 1))
    case Generating =>
      if o.iBatchDft != [] then
        && Settled(o, s)
        && (s.state == Generating <==> RoundGoesOn(cfg, f, stops, o))
        && (s.state == Generating ==>
              var ids := AcceptedOf(f, o);
              && s.tokens == InFrontOfDraft(o) + ids[..|ids| - 1] && s.sampled == ids[|ids| - 1] && s.steps == o.steps + |ids|)
      else if o.iBatch == -1 then s == o
      else
        && Settled(o, s) && KeepsTokens(o, s)
        && (s.state == Generating ==> s.sampled == f(o.task)(s.tokens) && s.steps == o.steps + 1)
        && (s.state == Generating <==> GoesOn(cfg, f, stops, o, o.nDecoded + 1))
  }

  /** All accepted tokens are processed exactly if there is one, or if budget and room are left behind them and none but the last stops. */
  lemma ShowsAllIff(cfg: Config, f: Samplers, stops: Stops, o: Slot, shown: nat)
    requires IsShown(cfg, f, stops, o, shown)
    ensures var base, ids := InFrontOfDraft(o), AcceptedOf(f, o);
      shown == |ids| <==>
      |ids| == 1 ||
      ((cfg.ctxShift || |base| + |ids| < o.nCtx) && InBudget(cfg, o.task, o.nDecoded + |ids|) && NoneStops(stops(o.task), base, ids, |ids| - 1))
  {
    var base, ids := InFrontOfDraft(o), AcceptedOf(f, o);
    if shown < |ids| && NoneStops(stops(o.task), base, ids, |ids| - 1) {
      var last := shown - 1;
      assert !stops(o.task)(base + ids[..last], ids[last]);
    }
  }

  /** A task that may generate four tokens, two of which are left when a draft of one token is accepted with another one. */
  function LastRound(): Slot {
    Slot(0, 100, true, Generating, NO_TASK.(nPredict := 4), [1, 7, 7], 7, [7], -1, [0, 1], 0, 1, 2)
  }

  /**
   The last tokens of a budget are lost if a draft brings them: plain decoding processes both tokens, and the
   round only the first of them.
   */
  lemma BudgetCutsRound(cfg: Config, shown: nat)
    requires cfg.ctxShift && IsShown(cfg, _ => _ => 7, _ => (_, _) => false, LastRound(), shown)
    ensures AcceptedOf(_ => _ => 7, LastRound()) == [7, 7] && shown == 1
    ensures GoesOn(cfg, _ => _ => 7, _ => (_, _) => false, LastRound(), LastRound().nDecoded + 1)
  {
    var f: Samplers, o := _ => _ => 7, LastRound();
    assert InFrontOfDraft(o) == [1, 7] && o.drafted[1..] == [];
    assert Accepted(f(o.task), [1, 7] + [7], []) == [7];
    assert Accepted(f(o.task), [1, 7], [7]) == [7] + Accepted(f(o.task), [1, 7] + [7], o.drafted[1..]);
    assert AcceptedOf(f, o) == [7, 7];
  }

  /** What a round of speculative decoding makes of a slot. */
  lemma RoundIsHandled(cfg: Config, f: Samplers, stops: Stops, o: Slot, s: Slot, base: seq<Token>, ids: seq<Token>, shown: nat, left: bool)
    requires o.state == Generating && o.iBatchDft != [] && base == InFrontOfDraft(o) && ids == AcceptedOf(f, o)
    requires left == ((cfg.ctxShift || |base| + |ids| < o.nCtx) && InBudget(cfg, o.task, o.nDecoded + |ids|))
    requires 1 <= shown <= |ids| && NoneStops(stops(o.task), base, ids, shown - 1) && (shown > 1 ==> left)
    requires s.state == Idle <==> stops(o.task)(base + ids[..shown - 1], ids[shown - 1]) || !left
    requires s.state == Idle || (s.state == Generating && shown == |ids| && s.iBatch == -1 && s.Undrafted() && s.task == o.task)
    requires s.tokens == base + ids[..|ids| - 1] && s.steps == o.steps + |ids| && (s.state == Generating ==> s.sampled == ids[|ids| - 1])
    ensures Handled(cfg, f, stops, o, s) && IsShown(cfg, f, stops, o, shown)
  {
    if s.state == Idle && left {
      assert !NoneStops(stops(o.task), base, ids, |ids|) by {
        var last := shown - 1;
        assert stops(o.task)(base + ids[..last], ids[last]);
      }
    }
  }

  lemma HandledOn(cfg: Config, f: Samplers, stops: Stops, o: Slot, m: Slot, s: Slot)
    requires m == o || Handled(cfg, f, stops, o, m)
    requires s == m || Handled(cfg, f, stops, m, s)
    ensures s == o || Handled(cfg, f, stops, o, s)
  {
  }

  /** Every generation goes on from where it was, or has ended. */
  predicate AllProceed(a: seq<Slot>, b: seq<Slot>) {
    |a| == |b| && forall k | 0 <= k < |a| :: Proceeds(a[k], b[k])
  }

  /** Every slot is as it was, or has been handled by the decoding of the batch. */
  predicate AllHandled(cfg: Config, f: Samplers, stops: Stops, a: seq<Slot>, b: seq<Slot>) {
    |a| == |b| && forall k | 0 <= k < |a| :: b[k] == a[k] || Handled(cfg, f, stops, a[k], b[k])
  }

  lemma AllProceedOn(a: seq<Slot>, b: seq<Slot>, c: seq<Slot>)
    requires AllProceed(a, b) && AllProceed(b, c)
    ensures AllProceed(a, c)
  {
    forall k | 0 <= k < |a|
      ensures Proceeds(a[k], c[k])
    {
      assert Proceeds(a[k], b[k]) && Proceeds(b[k], c[k]);
    }
  }

  lemma AllHandledOn(cfg: Config, f: Samplers, stops: Stops, a: seq<Slot>, b: seq<Slot>, c: seq<Slot>)
    requires AllHandled(cfg, f, stops, a, b) && AllHandled(cfg, f, stops, b, c)
    ensures AllHandled(cfg, f, stops, a, c)
  {
    forall k | 0 <= k < |a|
      ensures c[k] == a[k] || Handled(cfg, f, stops, a[k], c[k])
    {
      HandledOn(cfg, f, stops, a[k], b[k], c[k]);
    }
  }

  lemma AllHandledProceed(cfg: Config, f: Samplers, stops: Stops, a: seq<Slot>, b: seq<Slot>)
    requires AllHandled(cfg, f, stops, a, b)
    ensures AllProceed(a, b)
  {
    forall k | 0 <= k < |a|
      ensures Proceeds(a[k], b[k])
    {
      if b[k] != a[k] {
        HandledProceeds(cfg, f, stops, a[k], b[k]);
      }
    }
  }

  lemma HandledProceeds(cfg: Config, f: Samplers, stops: Stops, o: Slot, s: Slot)
    requires Handled(cfg, f, stops, o, s)
    ensures Proceeds(o, s)
  {
  }

  /** A slot that is as it was, and at rest, was not due. */
  lemma KeptIsHandled(cfg: Config, f: Samplers, stops: Stops, s: Slot, kv: Kv)
    requires AtRest(cfg, f, s, kv)
    ensures Handled(cfg, f, stops, s, s)
  {
  }

  // ----- what has to become of some slots -----

  /** `can_batch_with` */
  predicate BatchesWith(a: Slot, b: Slot) { a.task.kind == b.task.kind && a.lora == b.lora }

  /** The first slot that generates. */
  function Lead(views: seq<Slot>): (k: nat)
    ensures k <= |views|
    ensures k < |views| ==> views[k].state == Generating
    ensures forall j | 0 <= j < k :: views[j].state != Generating
  {
    if views == [] then 0
    else if views[0].state == Generating then 0
    else
      assert forall j | 1 <= j < |views| :: views[j] == views[1..][j - 1];
      1 + Lead(views[1..])
  }

  /** The first slot that is not idle. */
  function FirstBusy(views: seq<Slot>): (k: nat)
    ensures k <= |views|
    ensures k < |views| ==> views[k].state != Idle
    ensures forall j | 0 <= j < k :: views[j].state == Idle
  {
    if views == [] then 0
    else if views[0].state != Idle then 0
    else
      assert forall j | 1 <= j < |views| :: views[j] == views[1..][j - 1];
      1 + FirstBusy(views[1..])
  }

  /** The slot generates and can be batched with the first one that does. */
  predicate Joins(views: seq<Slot>, j: nat)
    requires j < |views|
  {
    && views[j].state == Generating && Lead(views) < |views|
    && views[j].task.kind == views[Lead(views)].task.kind && views[j].lora == views[Lead(views)].lora
  }

  /** The slot has a token in the batch that will be sampled from. */
  predicate InBatch(s: Slot) { s.iBatch != -1 || s.iBatchDft != [] }

  /** How much of the prompt was there before. */
  function HadOfPrompt(cfg: Config, o: Slot): nat {
    if o.state == Started && o.task.tokens != [] then Past(cfg, o) else |o.tokens|
  }

  predicate IsPrompt(s: Slot) { s.state == Started || s.state == ProcessingPrompt }

  /** More of the prompt is in the batch, unless the slot has been released. */
  predicate PromptQueued(cfg: Config, truncates: bool, o: Slot, s: Slot) {
    || s.state == Idle
    || (s.task == o.task && s.state == DonePrompt)
    || (s.task == o.task && s.state == ProcessingPrompt && (truncates ==> |s.tokens| > HadOfPrompt(cfg, o)))
  }

  /** More of the prompt has been decoded, or the slot generates, or it has been released. */
  predicate PromptAdvances(cfg: Config, truncates: bool, o: Slot, s: Slot) {
    || s.state == Idle
    || (s.task == o.task && s.state == Generating)
    || (s.task == o.task && s.state == ProcessingPrompt && (truncates ==> |s.tokens| > HadOfPrompt(cfg, o)))
  }

  /** At least one more token has been sampled, unless the slot has been released. */
  predicate Advances(o: Slot, s: Slot) {
    s.state == Idle || (s.state == Generating && s.task == o.task && s.steps > o.steps)
  }

  /**
   What an update makes of its slots at least: those that generate and can be batched with the
   first that does advance; if none generates, the first prompt does.
   */
  predicate Progress(cfg: Config, truncates: nat -> bool, a: seq<Slot>, b: seq<Slot>) {
    && |a| == |b|
    && (forall j | 0 <= j < |a| && Joins(a, j) :: Advances(a[j], b[j]))
    && (PromptIsNext(cfg, a) ==> PromptAdvances(cfg, truncates(FirstBusy(a)), a[FirstBusy(a)], b[FirstBusy(a)]))
  }

  /** No slot generates, and the first that is not idle has a prompt; what cannot be split fits into a batch. */
  predicate PromptIsNext(cfg: Config, views: seq<Slot>) {
    && Lead(views) == |views| && FirstBusy(views) < |views| && IsPrompt(views[FirstBusy(views)])
    && cfg.nUbatch <= cfg.nBatch
  }

  /**
   Slot p has a prompt of which some goes into the batch, if that has `size` tokens so far, the first of
   them of slot `batched`: all slots in front of p are idle, generate, or have another kind of task or
   another adapter.
   */
  predicate IsNextPrompt(cfg: Config, views: seq<Slot>, batched: int, size: nat, p: nat)
    requires -1 <= batched < |views|
  {
    && p < |views| && IsPrompt(views[p]) && (cfg.contBatching || size == 0) && size < cfg.nBatch
    && (batched != -1 ==> views[p].task.kind == views[batched].task.kind && views[p].lora == views[batched].lora)
    && (CanSplit(cfg, views[p].task) || (size == 0 && cfg.nUbatch <= cfg.nBatch))
    && forall j | 0 <= j < p && views[j].state != Idle ::
         batched != -1 && (views[j].state == Generating || views[j].task.kind != views[batched].task.kind || views[j].lora != views[batched].lora)
  }

  /** The first prompt is the next one if nothing generates. */
  lemma FirstPromptIsNext(cfg: Config, views: seq<Slot>)
    requires PromptIsNext(cfg, views) && cfg.nBatch > 0
    ensures IsNextPrompt(cfg, views, -1, 0, FirstBusy(views))
  {
  }

  /** Some of the generating slots have had their contexts shifted. */
  predicate AllShifted(cfg: Config, a: seq<Slot>, b: seq<Slot>) {
    |a| == |b| && forall j | 0 <= j < |a| :: ShiftedSlot(cfg, a[j], b[j])
  }

  /** A generating slot whose context is full is shifted as its task asks for; others are as they were. */
  predicate ShiftedSlot(cfg: Config, o: Slot, s: Slot) {
    if o.state == Generating && |o.tokens| + 1 >= o.nCtx then
      s == o.(tokens := s.tokens) && IsShifted(cfg, o.task, o.nCtx, o.tokens, s.tokens)
    else s == o
  }

  /** The sampled tokens have gone into the batch. */
  predicate AllSampled(a: seq<Slot>, b: seq<Slot>) {
    |a| == |b| && forall j | 0 <= j < |a| :: if Joins(a, j) then SampledSlot(a[j], b[j]) else b[j] == a[j]
  }

  /** What has become of slot j, if `batched` is the first that generates of those that have been asked. */
  predicate SampledWith(views: seq<Slot>, batched: int, j: nat, s: Slot)
    requires j < |views| && -1 <= batched < |views|
  {
    if views[j].state == Generating && batched != -1 && BatchesWith(views[batched], views[j]) then SampledSlot(views[j], s)
    else s == views[j]
  }

  /** `batched` is the first of the slots before k that generates. */
  predicate IsLead(views: seq<Slot>, batched: int, k: nat)
    requires k <= |views|
  {
    if batched == -1 then forall j | 0 <= j < k :: views[j].state != Generating
    else 0 <= batched < k && views[batched].state == Generating && forall j | 0 <= j < batched :: views[j].state != Generating
  }

  lemma NextLead(views: seq<Slot>, batched: int, k: nat, next: int)
    requires k < |views| && IsLead(views, batched, k)
    requires next == if batched == -1 && views[k].state == Generating then k else batched
    ensures IsLead(views, next, k + 1)
    ensures forall j: nat, s: Slot | j < k :: SampledWith(views, next, j, s) <==> SampledWith(views, batched, j, s)
  {
  }

  lemma LeadIs(views: seq<Slot>, batched: int, b: seq<Slot>)
    requires IsLead(views, batched, |views|) && |b| == |views| && forall j | 0 <= j < |b| :: SampledWith(views, batched, j, b[j])
    ensures AllSampled(views, b) && Lead(views) == if batched == -1 then |views| else batched
  {
  }

  predicate SampledSlot(o: Slot, s: Slot) {
    InBatch(s) && s.state == Generating && s.task == o.task && s.lora == o.lora && s.steps == o.steps
  }

  /** Prompts have gone into the batch. */
  predicate AllFilled(cfg: Config, truncates: nat -> bool, a: seq<Slot>, b: seq<Slot>) {
    && |a| == |b|
    && (forall j | 0 <= j < |a| && a[j].state == Generating :: b[j] == a[j])
    && (PromptIsNext(cfg, a) ==> PromptQueued(cfg, truncates(FirstBusy(a)), a[FirstBusy(a)], b[FirstBusy(a)]))
  }

  lemma SameLead(cfg: Config, a: seq<Slot>, b: seq<Slot>)
    requires AllShifted(cfg, a, b)
    ensures Lead(a) == Lead(b)
  {
    forall j | 0 <= j < |a|
      ensures a[j].state == Generating <==> b[j].state == Generating
    {
      assert ShiftedSlot(cfg, a[j], b[j]);
    }
  }

  lemma NothingShifted(cfg: Config, a: seq<Slot>, b: seq<Slot>)
    requires AllShifted(cfg, a, b) && Lead(a) == |a|
    ensures a == b
  {
    forall j | 0 <= j < |a|
      ensures a[j] == b[j]
    {
      assert ShiftedSlot(cfg, a[j], b[j]);
    }
  }

  lemma LeadersAdvance(cfg: Config, f: Samplers, stops: Stops, truncates: nat -> bool,
                       a: seq<Slot>, shifted: seq<Slot>, sampled: seq<Slot>, filled: seq<Slot>, b: seq<Slot>, j: nat)
    requires AllShifted(cfg, a, shifted) && AllSampled(shifted, sampled) && AllFilled(cfg, truncates, sampled, filled)
    requires |filled| == |b| && j < |b| && Handled(cfg, f, stops, filled[j], b[j])
    requires Joins(a, j)
    ensures Advances(a[j], b[j])
  {
    SameLead(cfg, a, shifted);
    assert ShiftedSlot(cfg, a[j], shifted[j]) && ShiftedSlot(cfg, a[Lead(a)], shifted[Lead(a)]);
    assert Joins(shifted, j);
    assert filled[j] == sampled[j];
  }

  lemma PromptHandled(cfg: Config, f: Samplers, stops: Stops, truncates: bool, o: Slot, q: Slot, s: Slot)
    requires PromptQueued(cfg, truncates, o, q) && Handled(cfg, f, stops, q, s)
    ensures PromptAdvances(cfg, truncates, o, s)
  {
  }

  /** The four parts of an update together. */
  lemma ProgressMade(cfg: Config, f: Samplers, stops: Stops, truncates: nat -> bool,
                     a: seq<Slot>, shifted: seq<Slot>, sampled: seq<Slot>, filled: seq<Slot>, b: seq<Slot>)
    requires AllShifted(cfg, a, shifted) && AllSampled(shifted, sampled) && AllFilled(cfg, truncates, sampled, filled)
    requires |filled| == |b| && forall j | 0 <= j < |b| :: Handled(cfg, f, stops, filled[j], b[j])
    ensures Progress(cfg, truncates, a, b)
  {
    forall j | 0 <= j < |a| && Joins(a, j)
      ensures Advances(a[j], b[j])
    {
      LeadersAdvance(cfg, f, stops, truncates, a, shifted, sampled, filled, b, j);
    }
    if PromptIsNext(cfg, a) {
      NothingShifted(cfg, a, shifted);
      NothingSampled(a, sampled);
      var p := FirstBusy(a);
      PromptHandled(cfg, f, stops, truncates(p), a[p], filled[p], b[p]);
    }
  }

  /** If a prompt is next, nothing has been sampled. */
  lemma NextIsNotSampled(cfg: Config, a: seq<Slot>, shifted: seq<Slot>, sampled: seq<Slot>)
    requires AllShifted(cfg, a, shifted) && AllSampled(shifted, sampled)
    ensures PromptIsNext(cfg, sampled) ==> Lead(shifted) == |shifted|
  {
    var l := Lead(shifted);
    if l < |shifted| {
      assert Joins(shifted, l);
    }
  }

  lemma NothingSampled(a: seq<Slot>, b: seq<Slot>)
    requires AllSampled(a, b) && Lead(a) == |a|
    ensures a == b
  {
  }

  // ----- what other slots and the decoder do -----

  lemma RestingIsQueued(cfg: Config, f: Samplers, s: Slot, kv: Kv, batch: seq<BatchToken>, lo: nat, from: nat)
    requires from <= |batch| && AtRest(cfg, f, s, kv) && Absent(batch[from..], s.id)
    ensures Queued(cfg, f, s, kv, batch, lo, from)
  {
    if s.state == Generating {
      AlignedAbsent(kv, s.tokens, batch[from..], s.id);
    }
  }

  lemma {:induction false} AlignedOthers(kv: Kv, tokens: seq<Token>, batch: seq<BatchToken>, slot: nat, more: seq<BatchToken>)
    requires Aligned(kv, tokens, batch, slot) && Absent(more, slot)
    ensures Aligned(kv, tokens, batch + more, slot)
    decreases |more|
  {
    if more == [] {
      assert batch + more == batch;
    } else {
      AlignedOther(kv, tokens, batch, slot, more[0]);
      AlignedOthers(kv, tokens, batch + [more[0]], slot, more[1..]);
      assert batch + [more[0]] + more[1..] == batch + more;
    }
  }

  lemma AbsentAppend(a: seq<BatchToken>, b: seq<BatchToken>, slot: nat)
    ensures Absent(a + b, slot) <==> Absent(a, slot) && Absent(b, slot)
  {
    assert forall x | x in a :: x in a + b;
    assert forall x | x in b :: x in a + b;
  }

  lemma LastInLonger(s: Slot, batch: seq<BatchToken>, lo: nat, more: seq<BatchToken>)
    requires LastInBatch(s, batch, lo) && Absent(more, s.id)
    ensures LastInBatch(s, batch + more, lo)
  {
    assert (batch + more)[s.iBatch + 1..] == batch[s.iBatch + 1..] + more;
    AbsentAppend(batch[s.iBatch + 1..], more, s.id);
  }

  /** Tokens of other slots at the end of the batch do not matter. */
  lemma QueuedOthers(cfg: Config, f: Samplers, s: Slot, kv: Kv, batch: seq<BatchToken>, more: seq<BatchToken>)
    requires Queued(cfg, f, s, kv, batch, 0, 0) && Absent(more, s.id)
    ensures Queued(cfg, f, s, kv, batch + more, 0, 0)
  {
    assert batch[0..] == batch && (batch + more)[0..] == batch + more;
    AbsentAppend(batch, more, s.id);
    if Aligned(kv, s.tokens, batch, s.id) {
      AlignedOthers(kv, s.tokens, batch, s.id, more);
    }
    if s.state == DonePrompt {
      LastInLonger(s, batch, 0, more);
    } else if s.state == Generating && Plain(cfg, f, s, batch, 0) {
      LastInLonger(s, batch, 0, more);
    }
  }

  lemma ViewOf(batch: seq<BatchToken>, i: nat, n: nat)
    requires i + n <= |batch|
    ensures batch[i..] == batch[i..i + n] + batch[i + n..]
  {
  }

  /** A part of the batch is decoded. */
  lemma QueuedDecoded(cfg: Config, f: Samplers, s: Slot, kv: Kv, batch: seq<BatchToken>, i: nat, n: nat)
    requires i + n <= |batch| && Queued(cfg, f, s, kv, batch, i, i)
    ensures Queued(cfg, f, s, Decoded(kv, batch[i..i + n], s.id), batch, i, i + n)
  {
    var view, rest := batch[i..i + n], batch[i + n..];
    ViewOf(batch, i, n);
    if Aligned(kv, s.tokens, view + rest, s.id) {
      AlignedSplit(kv, s.tokens, view, rest, s.id);
    }
    AbsentAppend(view, rest, s.id);
    if Absent(view, s.id) {
      AlignedAbsent(kv, s.tokens, view, s.id);
    }
  }

  /** A slot that is not due in a part of the batch is due later. */
  lemma NotDue(cfg: Config, f: Samplers, s: Slot, kv: Kv, batch: seq<BatchToken>, i: nat, to: nat)
    requires i <= to <= |batch| && Queued(cfg, f, s, kv, batch, i, to)
    requires s.state == DonePrompt || (s.state == Generating && s.iBatchDft == []) ==> !(i <= s.iBatch < to)
    ensures Queued(cfg, f, s, kv, batch, to, to)
  {
  }

  /** Once the last token of a slot is decoded, its memory is exact. */
  lemma DueIsExact(cfg: Config, f: Samplers, s: Slot, kv: Kv, batch: seq<BatchToken>, lo: nat, to: nat)
    requires to <= |batch| && LastInBatch(s, batch, lo) && s.iBatch < to
    requires Aligned(kv, s.tokens, batch[to..], s.id)
    ensures Exact(kv, s.tokens) && Absent(batch[to..], s.id)
  {
    ViewOf(batch, s.iBatch + 1, to - (s.iBatch + 1));
    AbsentAppend(batch[s.iBatch + 1..to], batch[to..], s.id);
    AlignedAbsent(kv, s.tokens, batch[to..], s.id);
  }

  /** After the whole batch, what waited is at rest. */
  lemma AllDecoded(cfg: Config, f: Samplers, s: Slot, kv: Kv, batch: seq<BatchToken>)
    requires Queued(cfg, f, s, kv, batch, |batch|, |batch|) && s.Undrafted()
    ensures AtRest(cfg, f, s, kv)
  {
    assert batch[|batch|..] == [];
  }

  // ----- sampling -----

  /**
   A draft of n tokens is allowed: behind it and the sampled token there is room for one more,
   it does not use up what is left to be generated, and it is neither too long nor too short.
   */
  predicate DraftFits(s: Slot, nRemaining: int, n: int) {
    && s.canSpeculate && n <= s.nCtx - |s.tokens| - 2 && (nRemaining > 0 ==> n < nRemaining)
    && s.task.nDraftMin <= n <= s.task.nDraftMax
  }

  /** With the sampled token and the draft there is still a place left, and a draft and one more token are no more than may be generated. */
  lemma DraftFitsIff(s: Slot, nRemaining: int, n: nat)
    ensures DraftFits(s, nRemaining, n) <==>
      && s.canSpeculate && |s.tokens| + 1 + n + 1 <= s.nCtx && (nRemaining > 0 ==> n + 1 <= nRemaining)
      && s.task.nDraftMin <= n && n <= s.task.nDraftMax
  {
  }

  /** Two states of one generation. */
  predicate SameGeneration(s: Slot, t: Slot) {
    s.nCtx == t.nCtx && s.task == t.task && s.Processing() && t.Processing()
  }

  lemma FollowsStill(cfg: Config, f: Samplers, s: Slot, t: Slot, tokens: seq<Token>, sampled: Token)
    requires s.Wf(cfg) && t.Wf(cfg) && SameGeneration(s, t) && t.steps == s.steps
    requires Follows(cfg, f, s, tokens, sampled)
    ensures Follows(cfg, f, t, tokens, sampled)
  {
  }

  /** The next token is sampled. */
  lemma FollowsOn(cfg: Config, f: Samplers, s: Slot, t: Slot, base: seq<Token>, sampled: Token)
    requires s.Wf(cfg) && t.Wf(cfg) && SameGeneration(s, t) && t.steps == s.steps + 1
    requires Follows(cfg, f, s, base, sampled) && |base| + 1 < s.nCtx
    ensures Follows(cfg, f, t, base + [sampled], f(s.task)(base + [sampled]))
  {
    ReachedStep(WindowOf(cfg, s), f(s.task), Begin(cfg, f, s), s.steps, base, sampled);
  }

  /** A round of speculative decoding is done. */
  lemma FollowsRound(cfg: Config, f: Samplers, s: Slot, t: Slot, g: Gen, ids: seq<Token>)
    requires s.Wf(cfg) && t.Wf(cfg) && SameGeneration(s, t)
    requires Follows(cfg, f, s, g.tokens, g.sampled) && |g.tokens| + 1 < s.nCtx
    requires ids != [] && Take(WindowOf(cfg, s), g, ids) == Steps(WindowOf(cfg, s), f(s.task), g, |ids|)
    requires t.steps == s.steps + |ids|
    ensures Follows(cfg, f, t, g.tokens + [g.sampled] + ids[..|ids| - 1], ids[|ids| - 1])
  {
    assert WindowOf(cfg, t) == WindowOf(cfg, s) && Begin(cfg, f, t) == Begin(cfg, f, s);
    ReachedTake(WindowOf(cfg, s), f(s.task), Begin(cfg, f, s), s.steps, g, ids);
  }

  /** What is accepted of a draft is a number of steps. */
  lemma FollowsAccepted(cfg: Config, f: Samplers, s: Slot, t: Slot, g: Gen, draft: seq<Token>, ids: seq<Token>)
    requires s.Wf(cfg) && t.Wf(cfg) && SameGeneration(s, t)
    requires Follows(cfg, f, s, g.tokens, g.sampled) && |g.tokens| + |draft| + 1 < s.nCtx
    requires ids == Accepted(f(s.task), g.tokens + [g.sampled], draft) && t.steps == s.steps + |ids|
    ensures Follows(cfg, f, t, g.tokens + [g.sampled] + ids[..|ids| - 1], ids[|ids| - 1])
  {
    RoundIsTaken(WindowOf(cfg, s), f(s.task), g, draft, ids);
    FollowsRound(cfg, f, s, t, g, ids);
  }

  /** A shift that makes room keeps a slot where token-by-token decoding is. */
  lemma FollowsShifted(cfg: Config, f: Samplers, s: Slot, t: Slot)
    requires s.Wf(cfg) && t.Wf(cfg) && SameGeneration(s, t) && t.steps == s.steps && cfg.ctxShift
    requires Follows(cfg, f, s, s.tokens, s.sampled) && |s.tokens| + 1 == s.nCtx
    requires t.tokens == MakeRoom(WindowOf(cfg, s), s.tokens) && t.sampled == s.sampled
    ensures Follows(cfg, f, t, t.tokens, t.sampled) && |t.tokens| + 1 < t.nCtx
  {
    ReachedShift(WindowOf(cfg, s), f(s.task), Begin(cfg, f, s), s.steps, s.tokens, s.sampled);
    MakeRoomTwice(WindowOf(cfg, s), s.tokens);
  }

  /**
   The tokens that are accepted of a draft, each sampled from what the memory holds up to its
   position: sampling stops at the first token with which the draft does not agree.
   */
  method SampleAndAccept(f: Sampler, kv: Kv, positions: seq<nat>, draft: seq<Token>, ghost base: seq<Token>) returns (ids: seq<Token>)
    requires |positions| == |draft| + 1 && Mirrors(kv, base + draft)
    requires forall j | 0 <= j <= |draft| :: positions[j] + 1 == |base| + j
    ensures ids == Accepted(f, base, draft)
  {
    ids := [];
    var i := 0;
    StartsAccepting(f, base, draft);
    while true
      invariant 0 <= i <= |draft| && ids == draft[..i]
      invariant Accepted(f, base, draft) == ids + Accepted(f, base + draft[..i], draft[i..])
      decreases |draft| - i
    {
      ContextIsPrefix(kv, base + draft, positions[i] + 1);
      PrefixOfBoth(base, draft, i);
      var id := f(Context(kv, positions[i] + 1));
      ids := ids + [id];
      if i == |draft| || draft[i] != id {
        return;
      }
      GoesOnAccepting(f, base, draft, i);
      i := i + 1;
    }
  }

  lemma StartsAccepting(f: Sampler, base: seq<Token>, draft: seq<Token>)
    ensures Accepted(f, base, draft) == [] + Accepted(f, base + draft[..0], draft[0..])
  {
    assert base + draft[..0] == base && draft[0..] == draft;
  }

  lemma PrefixOfBoth(base: seq<Token>, draft: seq<Token>, i: nat)
    requires i <= |draft|
    ensures (base + draft)[..|base| + i] == base + draft[..i]
  {
  }

  lemma GoesOnAccepting(f: Sampler, base: seq<Token>, draft: seq<Token>, i: nat)
    requires i < |draft| && draft[i] == f(base + draft[..i])
    requires Accepted(f, base, draft) == draft[..i] + Accepted(f, base + draft[..i], draft[i..])
    ensures Accepted(f, base, draft) == draft[..i + 1] + Accepted(f, base + draft[..i + 1], draft[i + 1..])
  {
    assert draft[i..][0] == draft[i] && draft[i..][1..] == draft[i + 1..];
    assert draft[..i + 1] == draft[..i] + [draft[i]];
    assert base + draft[..i] + [draft[i]] == base + draft[..i + 1];
  }

  // ----- what waits in the batch -----

  /** A generating slot has added its sampled token to the batch. */
  lemma PlainQueued(cfg: Config, f: Samplers, s: Slot, t: Slot, kv: Kv, batch0: seq<BatchToken>, batch: seq<BatchToken>)
    requires s.Wf(cfg) && s.state == Generating && Ready(cfg, f, s, kv) && |s.tokens| + 1 < s.nCtx
    requires batch == batch0 + [BatchToken(s.sampled, |s.tokens|, s.id)]
    requires t == s.(tokens := s.tokens + [s.sampled], iBatch := |batch0|)
    requires Aligned(kv, t.tokens, batch, s.id)
    ensures Queued(cfg, f, t, kv, batch, 0, 0)
  {
    assert batch[0..] == batch;
    assert batch[t.iBatch + 1..] == [];
    assert t.tokens[..|s.tokens|] == s.tokens;
    FollowsStill(cfg, f, s, t, s.tokens, s.sampled);
    assert Plain(cfg, f, t, batch, 0);
  }

  /** A generating slot has added its sampled token and a draft to the batch. */
  lemma DraftQueued(cfg: Config, f: Samplers, s: Slot, t: Slot, kv: Kv, batch0: seq<BatchToken>, batch: seq<BatchToken>)
    requires s.Wf(cfg) && s.state == Generating && Ready(cfg, f, s, kv) && |s.tokens| + |t.drafted| + 1 < s.nCtx && s.canSpeculate
    requires t == s.(tokens := s.tokens + ([s.sampled] + t.drafted), drafted := t.drafted, iBatchDft := t.iBatchDft)
    requires |t.iBatchDft| == |t.drafted| + 1
    requires forall j | 0 <= j <= |t.drafted| :: t.iBatchDft[j] < |batch| && batch[t.iBatchDft[j]].pos == |s.tokens| + j
    requires Aligned(kv, t.tokens, batch, s.id)
    ensures Queued(cfg, f, t, kv, batch, 0, 0)
  {
    assert batch[0..] == batch;
    var n := |t.tokens| - |t.drafted| - 1;
    assert n == |s.tokens| && t.tokens[..n] == s.tokens && t.tokens[n] == s.sampled && t.tokens[n + 1..] == t.drafted;
    FollowsStill(cfg, f, s, t, s.tokens, s.sampled);
    assert Drafting(cfg, f, t, batch);
  }

  /** A part of the prompt waits in the batch. */
  lemma PromptWaits(cfg: Config, f: Samplers, s: Slot, kv: Kv, batch: seq<BatchToken>)
    requires s.Wf(cfg) && s.Undrafted() && s.state == ProcessingPrompt && InPrompt(cfg, s)
    requires Aligned(kv, s.tokens, batch, s.id)
    ensures Queued(cfg, f, s, kv, batch, 0, 0)
  {
    assert batch[0..] == batch;
  }

  /** The end of the prompt is the end of the batch. */
  lemma PromptEnds(cfg: Config, f: Samplers, s: Slot, kv: Kv, batch: seq<BatchToken>)
    requires s.Wf(cfg) && s.Undrafted() && s.state == DonePrompt && s.tokens == s.task.tokens != [] && s.nDecoded == 0
    requires s.task.NeedsSampling() ==> |s.tokens| < s.nCtx
    requires batch != [] && s.iBatch == |batch| - 1 && batch[|batch| - 1].pos == |s.tokens| - 1 && batch[|batch| - 1].slot == s.id
    requires Aligned(kv, s.tokens, batch, s.id)
    ensures Queued(cfg, f, s, kv, batch, 0, 0)
  {
    assert batch[0..] == batch && batch[s.iBatch + 1..] == [];
  }

  /** The tokens, behind which the draft is rolled back, are those that were accepted. */
  lemma RolledBack(kv: Kv, base: seq<Token>, draft: seq<Token>, ids: seq<Token>, f: Sampler)
    requires Exact(kv, base + draft) && ids == Accepted(f, base, draft)
    ensures var kept := base + ids[..|ids| - 1];
      Exact(Rm(kv, |kept|, -1), kept)
  {
    AcceptedIsDrafted(f, base, draft);
    var kept := base + ids[..|ids| - 1];
    assert kept == (base + draft)[..|kept|];
    Truncated(kv, base + draft, |kept|);
  }

  // ----- filling the batch -----

  /** Tokens of a prompt are added to the batch until it is full. */
  method FillBatch(tokens0: seq<Token>, input: seq<Token>, batch0: seq<BatchToken>, nBatch: nat, slot: nat, ghost kv: Kv)
    returns (tokens: seq<Token>, batch: seq<BatchToken>, ghost more: seq<BatchToken>)
    requires tokens0 <= input && Aligned(kv, tokens0, batch0, slot)
    ensures tokens0 <= tokens <= input && Aligned(kv, tokens, batch, slot)
    ensures batch == batch0 + more && forall b | b in more :: b.slot == slot
    ensures |tokens| == |input| || |batch| >= nBatch
    ensures |batch| <= nBatch || more == []
    ensures |tokens| == |tokens0| + |more|
    ensures |tokens| > |tokens0| ==> batch != [] && batch[|batch| - 1] == BatchToken(tokens[|tokens| - 1], |tokens| - 1, slot)
  {
    tokens, batch, more := tokens0, batch0, [];
    assert batch0 + [] == batch0;
    while |tokens| < |input| && |batch| < nBatch
      invariant tokens0 <= tokens <= input && Aligned(kv, tokens, batch, slot)
      invariant batch == batch0 + more && forall b | b in more :: b.slot == slot
      invariant |batch| <= nBatch || more == []
      invariant |tokens| == |tokens0| + |more|
      invariant |tokens| > |tokens0| ==> batch != [] && batch[|batch| - 1] == BatchToken(tokens[|tokens| - 1], |tokens| - 1, slot)
      decreases |input| - |tokens|
    {
      var curTok := input[|tokens|];
      var entry := BatchToken(curTok, |tokens|, slot);
      AlignedPush(kv, tokens, batch, slot, curTok);
      assert batch0 + more + [entry] == batch0 + (more + [entry]);
      tokens, batch, more := tokens + [curTok], batch + [entry], more + [entry];
    }
  }

  /** With nothing in the batch there is no draft. */
  lemma NothingDrafted(cfg: Config, f: Samplers, s: Slot, kv: Kv)
    requires Queued(cfg, f, s, kv, [], 0, 0)
    ensures s.Undrafted()
  {
    assert s.iBatchDft != [] ==> s.iBatchDft[0] >= 0;
  }

  // ----- the parts of a batch -----

  /** Parts of a batch, from an index to the next one, follow each other from `from` to `to`. */
  predicate Follow(parts: seq<(nat, nat)>, from: nat, to: nat) {
    if parts == [] then from == to
    else parts[0].0 == from && from < parts[0].1 <= to && Follow(parts[1..], parts[0].1, to)
  }

  lemma {:induction false} FollowAppend(parts: seq<(nat, nat)>, from: nat, mid: nat, to: nat)
    requires Follow(parts, from, mid) && mid < to
    ensures Follow(parts + [(mid, to)], from, to)
    decreases |parts|
  {
    if parts == [] {
      assert [] + [(mid, to)] == [(mid, to)] && [(mid, to)][1..] == [];
    } else {
      FollowAppend(parts[1..], parts[0].1, mid, to);
      assert (parts + [(mid, to)])[1..] == parts[1..] + [(mid, to)];
    }
  }

  /** Every index of the batch lies in exactly one part. */
  lemma {:induction false} InOnePart(parts: seq<(nat, nat)>, from: nat, to: nat, b: nat) returns (p: nat)
    requires Follow(parts, from, to) && from <= b < to
    ensures p < |parts| && parts[p].0 <= b < parts[p].1
    ensures forall q | 0 <= q < |parts| && q != p :: !(parts[q].0 <= b < parts[q].1)
    decreases |parts|
  {
    var rest := parts[1..];
    if b < parts[0].1 {
      p := 0;
      forall q | 1 <= q < |parts|
        ensures !(parts[q].0 <= b < parts[q].1)
      {
        StartsLater(rest, parts[0].1, to, q - 1);
      }
    } else {
      p := InOnePart(rest, parts[0].1, to, b);
      forall q | 0 <= q < |parts| && q != p + 1
        ensures !(parts[q].0 <= b < parts[q].1)
      {
        assert q > 0 ==> parts[q] == rest[q - 1];
      }
      p := p + 1;
    }
  }

  lemma {:induction false} StartsLater(parts: seq<(nat, nat)>, from: nat, to: nat, q: nat)
    requires Follow(parts, from, to) && q < |parts|
    ensures from <= parts[q].0
    decreases |parts|
  {
    if q > 0 {
      StartsLater(parts[1..], parts[0].1, to, q - 1);
    }
  }
}
