# A verified model of the inference server, its parsers and its file formats

This project models, in Dafny, the parts of the repository that keep two descriptions of the same thing in
step, and proves that they stay in step:

- **The inference slots** (`core/src/server`). A slot believes that certain tokens sit in its sequence of the
  key-value memory. Prompts are reused by prefix and by moved chunks, contexts are shifted, drafts are tried and
  rolled back, prompts are saved to a cache and restored, idle slots are purged, and a batch is decoded in as many
  parts as it takes. The main result: after every update the memory holds exactly what the slot believes, and
  whatever a slot generates is what plain token-by-token decoding of its prompt would have generated.
- **Stop words.** Generated text is streamed while only a window of it is searched. What is sent is what searches
  of the whole text would allow to be sent.
- **Tasks and results** (`server-queue.cpp` and the scheduling in `server-context.cpp`). Every task is in exactly
  one place; deferred tasks are woken up; a result reaches the reader that owns its task and nobody else.
- **Streaming parsers** (`model/harmony`, `model/thinking`, `model/parsers`). However a text is cut into pieces,
  the parser ends in the same state with the same buffer and has announced the same things.
- **Modelfiles and GGUF files.** What is printed is read back; what is written is found again, in whatever order
  the routines that write the tensors run.

## How it is organised

| file | what it holds |
|---|---|
| `Text.dfy` | searching, splitting, trimming, and the longest overlap of the end of a text with the beginning of a tag |
| `Thinking.dfy`, `Harmony.dfy`, `HarmonyHandler.dfy`, `FunctionNames.dfy`, `Qwen.dfy` | the streaming parsers |
| `HarmonyHeaders.dfy`, `HarmonyMeaning.dfy`, `QwenMeaning.dfy` | what printed conversations become |
| `StopWords.dfy`, `Streaming.dfy`, `Utf8.dfy` | streaming with stop words, whole generations from any tokens, and where characters end |
| `Tokens.dfy`, `Memory.dfy`, `Decoding.dfy` | token lists, the key-value memory, and plain decoding as the reference |
| `Reuse.dfy`, `SlotState.dfy`, `Slot.dfy`, `Engine.dfy` | what slots do to tokens and memory, what is known of them, and the server that drives them |
| `PromptCache.dfy` | the cache of saved prompts |
| `TaskQueue.dfy`, `Placement.dfy`, `Scheduling.dfy`, `Waking.dfy` | the queues and slots, where tasks go, what every run keeps, and when deferred tasks are woken up |
| `Results.dfy`, `Routing.dfy` | the response queue and its readers, and what every run keeps |
| `Modelfile.dfy`, `ModelfileSource.dfy` | the Modelfile printer and the machine that reads it, and what it makes of files that people write |
| `Gguf.dfy`, `GgufFormat.dfy`, `GgufFile.dfy`, `GgufData.dfy`, `GgufWriter.dfy`, `GgufReader.dfy`, `Seeker.dfy` | the GGUF format, its writer and its reader |

Code that updates fields step by step is a class whose methods are proved against functions on values; the lemmas
are about those functions. What the program finds outside of itself is a parameter: the next token is a function
of the tokens in the memory and of the task (`Samplers`), a draft is any function, decoding returns any code,
whether a snapshot can be restored or memory can be allocated is a choice, and so on.

An invariant of a slot (`SlotState.AtRest`, `SlotState.Queued`) is the heart of the engine. Between two updates the
memory of a generating slot is *exact*: it holds the tokens of the slot and nothing else, there is room for one more
token, and tokens and sampled token together are what a number of plain decoding steps makes of the prompt. While
a batch waits, memory and batch together are the tokens.

## Where code and description differ

- A stop word is missed, and sent, if a token ends in the middle of a character: it is not searched then, and the window
  of the next search does not reach back far enough (`StopWords.StopWordMissed`). `StopWords.CutsAtFirstStopIff` says,
  whatever is held back, exactly when the text is cut at its first stop word, and `Streaming.GenerateAny` says it for whole
  runs.
- A context shift that is asked to drop more tokens than there are behind the kept ones leaves memory and tokens
  different (`Reuse.ShiftIsExactIff`).
- A round of speculative decoding counts all tokens it accepts before it processes the first of them. If they use up the
  budget or the context, only the first one is processed, and fewer tokens are delivered than plain decoding delivers
  (`SlotState.BudgetCutsRound`); `SlotState.ShowsAllIff` says exactly when.
- A deferred task can be stranded by a cancellation of the task that was woken up instead of it, by a task that cannot
  be launched or tokenized, by a family whose first child cannot be launched, and by a slot action that is woken up
  instead of it (`Waking.CancelStrands`, `FailureStrands`, `TokenizingStrands`, `FamilyStrands`, `SlotActionStrands`).
  `Waking.StepAwakeIff` says exactly when, for every kind of step.
- With a byte limit, the token limit of the prompt cache evicts something only if a token takes less than a byte on
  average (`PromptCache.TokenLimitMatters`).
- A built-in tool name can take over the name that was made for another tool (`FunctionNames.BuiltInTakesOver`);
  `FunctionNames.WayBackExactly` says exactly when all names lead back.
- For the Qwen parser a cut behind a tool call can decide whether white space is kept;
  `Qwen.ChunkingDependsExactlyOn` and `Qwen.PiecesDependExactlyOn` say exactly when cuts matter, and `Qwen.RaggedCut` shows
  one that does.
- An alignment that is stored as a file type is ignored by the GGUF writer but not by the reader: `GgufFile.WrongPlaces`
  shows a file that is decoded to wrong places, and `GgufFile.RoundTripIff` says exactly when that happens.

## Model

| member | source | states |
|---|---|---|
| Tokens.CommonPrefixIsTheOne | core/src/server/server-common.cpp:382-430 | a length is that of the longest common prefix exactly if the lists agree up to it and not at it: there is only one such length |
| Tokens.CommonPrefixIsLongest | core/src/server/server-common.cpp:382-430 | no common prefix is longer |
| Tokens.PrefixIffAllCommon | core/src/server/server-task.cpp:1861-1886 | one list is a prefix of another if and only if all of it is in the common prefix, which is how the cache decides about containment |
| Tokens.GetCommonPrefix | core/src/server/server-common.cpp:382-430 | the index loop finds the longest common prefix |
| Decoding.RoundIsSteps | core/src/server/server-context.cpp:2796-2827 | whatever was drafted, a speculative round leaves the tokens and the sampled token that as many plain steps leave as it accepts tokens |
| Decoding.RoundsAreSteps | core/src/server/server-context.cpp:2796-2846 | speculative decoding refines plain decoding over a whole run of rounds, with any drafts that fit into the context |
| Decoding.AcceptedIsDrafted | core/src/server/server-context.cpp:2802-2821 | all accepted tokens but the last are those of the draft, so they are in the memory already |
| Memory.AddIs | core/src/server/server-context.cpp:2001-2002 | where each token is after a range of positions has been moved to where nothing is in the way |
| Memory.AlignedSplit | core/src/server/server-context.cpp:2614-2628 | decoding a first part of the batch leaves memory and rest of the batch aligned with the tokens |
| Memory.ContextIsPrefix | core/src/server/server-context.cpp:2749-2753 | what the sampler sees through the memory is the prefix of the token list |
| Reuse.ShiftedMemory | core/src/server/server-context.cpp:1998-2020 | removing and moving positions does to the memory what dropping tokens does to the list |
| Reuse.ShiftIsExactIff | core/src/server/server-context.cpp:1986-2020 | memory and tokens agree after a shift if and only if there are as many tokens behind the kept ones as are to be dropped |
| Reuse.DropTokens | core/src/server/server-context.cpp:2006-2018 | the copy loop keeps the first tokens, drops the next ones and preserves the order of the rest |
| Reuse.ChunkMoves | core/src/server/server-context.cpp:2255-2264 | moving a chunk that agrees with the new prompt puts it in place and leaves what is behind it |
| Reuse.CopyChunk | core/src/server/server-context.cpp:2261-2264 | the in-place copy, whose ranges may overlap, moves the chunk as if they did not |
| Reuse.ReuseChunks | core/src/server/server-context.cpp:2234-2282 | the loop terminates; what it counts as past is in place in tokens and memory, and is what a plain walk over both prompts finds |
| Reuse.ReusedInChunks | core/src/server/server-context.cpp:2242-2278 | every position that is reused behind the common prefix lies in a chunk of the old prompt of at least the demanded length that is not in front of it |
| Reuse.NothingMissed | core/src/server/server-context.cpp:2242-2278 | unless all of the new prompt is in place, no chunk of the demanded length behind the last one that was reused agrees with what comes next |
| Reuse.ReusesIff | core/src/server/server-context.cpp:2242-2278 | something is reused behind the common prefix if and only if some chunk of exactly the demanded length agrees with what comes next, and then at least that much |
| Reuse.ReusedBounds | core/src/server/server-context.cpp:2242-2278 | no more is reused than either prompt has |
| SlotState.NoCheckpointNeeded | core/src/server/server-context.cpp:2288-2345 | without a sliding window the lowest position of what is reused is 0, so that the check on it, which `Slots.ServerSlot.KeepPast` makes, never aborts and never asks for a checkpoint |
| SlotState.ShiftIsAsAsked | core/src/server/server-context.cpp:1991-2018 | a shift keeps as many tokens as the request or its prompt says, and one more for the one that begins sequences, but not the last four places; it drops as many of the others as asked for, or half of them; what follows is in order |
| SlotState.WindowShifts | core/src/server/server-context.cpp:1966-2018 | the reference that generations are compared with shifts in exactly this way, and only full contexts |
| SlotState.DiscardsInRangeIff | core/src/server/server-context.cpp:1991-2000 | which requests are in range, in terms of the request and the context |
| SlotState.AdmittedIff | core/src/server/server-context.cpp:2164-2212 | a prompt is admitted if and only if it is not empty and is small enough: for an embedding that is not pooled at its last token all of it has to fit into a batch and the context, else there has to be room for a token |
| SlotState.SamplesOrEmbeds | core/src/server/server-task.h:176-204 | embedding and reranking need embeddings, and all other tasks are sampled for |
| SlotState.PastIs | core/src/server/server-context.cpp:2214-2404 | what stays of the old prompt: nothing if the task does not want it, else the common prefix, less one token if that is all, and more only with chunks |
| SlotState.InBudgetIff | core/src/server/server-context.cpp:236-252 | the budget of the task comes before that of the server, and -1 is none |
| SlotState.DraftFitsIff | core/src/server/server-context.cpp:271-297 | how long a draft may be, in terms of the room, the budget and the bounds of the task |
| SlotState.QueuedDecoded | core/src/server/server-context.cpp:2614-2628 | decoding a part of the batch keeps what is known of a slot while the batch waits |
| SlotState.DueIsExact | core/src/server/server-context.cpp:2718-2747 | when the last token of a slot has been decoded its memory is exact |
| SlotState.SampleAndAccept | core/src/server/server-context.cpp:2802-2805 | sampling along a decoded draft, each token from the memory up to its position, gives the accepted tokens of the reference definition |
| SlotState.RolledBack | core/src/server/server-context.cpp:2816-2824 | cutting the memory behind the accepted tokens makes it exact again |
| SlotState.FillBatch | core/src/server/server-context.cpp:2493-2520 | tokens of a prompt go to the batch and to the slot together until the prompt or the batch ends; memory and batch stay aligned with the tokens |
| SlotState.InOnePart | core/src/server/server-context.cpp:2718-2720 | each index of the batch lies in exactly one of the decoded parts |
| SlotState.ProgressMade | core/src/server/server-context.cpp:1966-2850 | the four parts of an update together advance every slot that can be batched with the first generating one, or else the first prompt |
| SlotState.ShowsAllIff | core/src/server/server-context.cpp:2809-2845 | of the tokens that are accepted of a draft all are processed if and only if there is one only, or room and budget are left behind all of them and none but the last stops |
| SlotState.BudgetCutsRound | core/src/server/server-context.cpp:2809-2845 | a round that brings the last two tokens of a budget and processes only the first, where plain decoding processes both |
| Slots.ServerSlot.PromptClear | core/src/server/server-context.cpp:128-137 | tokens and memory of the slot are gone, other sequences are untouched |
| Slots.ServerSlot.Release | core/src/server/server-context.cpp:299-319 | the slot is idle, what is known of the tokens stays, a draft is forgotten |
| Slots.ServerSlot.ShiftContext | core/src/server/server-context.cpp:1986-2020 | the tokens that the request wants kept are kept, with the one that begins the sequence, as many of the others are dropped as it asks for, or half of them, the rest is in order, and the memory stays exact |
| Slots.ServerSlot.ShiftIfFull | core/src/server/server-context.cpp:1966-2025 | a full generating slot is shifted in that way, and no other; then there is room for a token and the slot is still where plain decoding is; the error branch without context shift cannot be reached |
| Slots.ServerSlot.StartPrompt | core/src/server/server-context.cpp:2146-2414 | a prompt goes on if and only if it is not empty and not too large; what is kept is a proper prefix of it that the memory mirrors |
| Slots.ServerSlot.KeepPast | core/src/server/server-context.cpp:2212-2414 | how much is reused, with at least one token left to be evaluated; the branches that abort or look for a checkpoint are not reached |
| Slots.ServerSlot.AddPrompt | core/src/server/server-context.cpp:2420-2543 | memory and batch are aligned with the tokens; the prompt is done or the batch is full; a prompt that cannot be split waits if and only if it does not fit |
| Slots.ServerSlot.CutMemory | core/src/server/server-context.cpp:2427-2439 | the memory is exact, whether or not it can be truncated |
| Slots.ServerSlot.ProcessToken | core/src/server/server-context.cpp:1244-1260 | another token is wanted if and only if nothing has stopped the generation, there is room or contexts are shifted, and the budget is not used up |
| Slots.ServerSlot.HasBudget | core/src/server/server-context.cpp:236-252 | another token may be generated if and only if there is no budget or fewer tokens than that have been decoded; the budget is that of the task, or else of the server |
| Slots.ServerSlot.Continue | core/src/server/server-context.cpp:2784-2791 | after a token has been sampled the slot generates if and only if another one is wanted, and is at rest either way |
| Slots.ServerSlot.Sample | core/src/server/server-context.cpp:2722-2753 | the token is sampled from exactly the tokens of the slot, and the slot has followed plain decoding for one more step, or begins it behind its prompt |
| Slots.ServerSlot.GetNDraftMax | core/src/server/server-context.cpp:271-297 | the result is the largest draft length that fits the context, the budget and both bounds of the task |
| Slots.ServerSlot.AddSampled | core/src/server/server-context.cpp:2038-2107 | the sampled token and the longest allowed part of the draft are added to slot and batch, which stay aligned |
| Slots.ServerSlot.Accept | core/src/server/server-context.cpp:2802-2805 | the accepted tokens are those of the reference definition, for the tokens before the draft |
| Slots.ServerSlot.KeepAccepted | core/src/server/server-context.cpp:2816-2824 | after the rollback the tokens are those before the draft and the accepted ones, and the memory is exact |
| Slots.ServerSlot.SpeculativeRound | core/src/server/server-context.cpp:2796-2846 | the slot generates if and only if nothing ends the generation with any of the accepted tokens, and then has all of them, exact memory, and is where plain decoding is after as many steps; how many of them are processed |
| Slots.ServerSlot.ContinueAll | core/src/server/server-context.cpp:2826-2845 | the accepted tokens are processed in order up to the first that ends the generation; without room or budget behind all of them that is the first one |
| Engine.Server.ShiftContexts | core/src/server/server-context.cpp:1966-2025 | every generating slot has room, and nothing but the tokens of generating slots has changed |
| Engine.Server.MostSimilar | core/src/server/server-context.cpp:931-957 | the first idle slot with the longest common prefix, if it passes the threshold; none if and only if none passes it |
| Engine.Server.LeastRecentlyUsed | core/src/server/server-context.cpp:974-996 | the last of the idle slots that were used longest ago, if any is idle |
| Engine.Server.GetAvailableSlot | core/src/server/server-context.cpp:926-1028 | the slot with most in common with the prompt, if that is enough, or else the one that was used longest ago; if its prompt, or most of it, is about to be lost it is saved first: whatever it and the cache held is then still held by one of them, but for what the limits evict, and nothing that is left is better for the new prompt; else cache, slots and memory are unchanged |
| Engine.Server.PromptSave | core/src/server/server-context.cpp:102-117 | if memory can be allocated the cache covers what it covered and all beginnings of the prompt, with a snapshot that mirrors it |
| Engine.Server.PromptLoad | core/src/server/server-context.cpp:119-126 | tokens and memory are exchanged together, for something with at least as much in common with the new prompt; what leaves the cache is in the slot, and nothing better is left |
| Engine.Server.LaunchSlotWithTask | core/src/server/server-context.cpp:1075-1190 | the slot has the task or stays idle, has the adapter of the task, and has forgotten its tokens if and only if another adapter asks for that; all slots are at rest |
| Engine.Server.AddSampledTokens | core/src/server/server-context.cpp:2036-2107 | exactly the generating slots that can be batched with the first one have their sampled token in the batch |
| Engine.Server.AddPrompts | core/src/server/server-context.cpp:2110-2600 | memory and batch are aligned with the tokens of every slot; generating slots are untouched; the next prompt that may join the batch goes on, also beside generating slots if batching is continuous; all slots in the batch have one kind of task and one adapter |
| Engine.Server.DecodePart | core/src/server/server-context.cpp:2614-2628 | a decoded part moves from the batch to the memories of its slots |
| Engine.Server.SampleDue | core/src/server/server-context.cpp:2718-2792 | a slot whose last token has been decoded is sampled from once, or has its embedding sent and is released |
| Engine.Server.SpeculateAll | core/src/server/server-context.cpp:2795-2846 | no draft is left, and every slot that had one is handled |
| Engine.Server.TryClearIdleSlots | core/src/server/server-context.cpp:1035-1060 | a slot is purged if and only if the memory is unified and some idle slot has tokens; then fewer slots can be purged, else slots and memory are as they were |
| Engine.Server.ReleaseAll | core/src/server/server-context.cpp:2653-2664 | all slots are idle; those that processed something have given up their tokens, the others have kept them |
| Engine.Server.DecodeBatch | core/src/server/server-context.cpp:2612-2850 | whatever decoding returns the loop terminates; without a failure the decoded parts follow each other from the beginning to the end of the batch, and each slot that is due is handled exactly once |
| Engine.Server.UpdateSlots | core/src/server/server-context.cpp:1939-2853 | afterwards tokens and memory of all slots agree again, generations have ended or gone on from where they were, and, unless decoding fails, the leading slots have advanced |
| Engine.Server.Serve | core/src/server/server-context.cpp:1660-2853 | in every run of arriving tasks, cancellations and updates, tokens and memory agree after each event, snapshots in the prompt cache mirror their tokens and none is a prefix of another, every generation is where plain decoding is, and the slots have become what the event makes of them |
| Engine.Server.CancelTask | core/src/server/server-context.cpp:1718-1727 | the first slot that works on the task is released with what it knows, and nothing else changes |
| Engine.GenerationsAdvance | core/src/server/server-context.cpp:1939-2853 | in every run of updates whose generating slots can be batched no generation starves: n updates take it at least n steps of plain decoding further, unless it has ended |
| Engine.PromptCompletes | core/src/server/server-context.cpp:2110-2600 | a prompt that has the server for itself generates or has ended after as many updates as it has tokens |
| PromptCache.SavingCovers | core/src/server/server-task.cpp:1861-1911 | the prefixes of cached prompts after saving are exactly the old ones and those of the saved prompt |
| PromptCache.SavingIsAntichain | core/src/server/server-task.cpp:1861-1911 | cached prompts are never prefixes of each other |
| PromptCache.EvictIsShortest | core/src/server/server-task.cpp:1965-1996 | the oldest prompts are evicted, and the shortest run of them after which one is left or both limits hold |
| PromptCache.TokenLimitMatters | core/src/server/server-task.cpp:1976-1994 | the token limit evicts something, beyond the byte limit, if and only if more tokens are left than both the token limit and the byte limit allow |
| PromptCache.BetterHasMoreInCommon | core/src/server/server-task.cpp:1913-1941 | a prompt that keeps and covers a larger part has a strictly longer common prefix with the new one |
| PromptCache.WorthLoadingIff | core/src/server/server-task.cpp:1913-1941 | a cached prompt is considered and better if and only if at least a quarter of it would be kept and it has more in common with the new prompt than the current one, also relative to its length |
| PromptCache.ServerPromptCache.Alloc | core/src/server/server-task.cpp:1861-1911 | a prompt is added if and only if it is not covered and memory can be allocated; what the cache then covers, and what it does to limit and entries if memory cannot be allocated |
| PromptCache.ServerPromptCache.Update | core/src/server/server-task.cpp:1965-1996 | both loops together leave what the reference eviction leaves |
| PromptCache.ServerPromptCache.FindBest | core/src/server/server-task.cpp:1913-1941 | the chosen prompt is better than the current one and no considered prompt is better than it; if none is chosen no considered one is better than the current one |
| PromptCache.ServerPromptCache.Load | core/src/server/server-task.cpp:1913-1963 | what is loaded leaves the cache, has a strictly longer common prefix with the new tokens, and is not dominated by any considered entry |
| StopWords.ValidateUtf8 | core/src/server/server-common.cpp:597-622 | the whole length is returned if and only if no character is cut off at the end, else the text up to the one that is |
| Utf8.CompleteIff | core/src/server/server-common.cpp:597-622 | a text of characters as UTF-8 encodes them, with a part of another one behind it, is complete if and only if the part is empty |
| StopWords.WindowFindsExactly | core/src/server/server-context.cpp:352-357 | the windowed search finds what the full search finds if and only if the first occurrence does not end before the last token |
| StopWords.CutsAtFirstStopIff | core/src/server/server-context.cpp:1204-1220 | whatever is held back, searched or not, the text is cut at its first stop word if and only if a stop word that starts there does not end before the last token; without a stop word it is not cut |
| StopWords.MayStopInUnsent | core/src/server/server-context.cpp:1217-1219 | the unsent text ends with the beginning of a stop word if and only if the whole text does |
| StopWords.StepDelivers | core/src/server/server-context.cpp:1208-1236 | two windowed searches of the unsent text decide what full searches of the whole text would decide |
| StopWords.StopWordMissed | core/src/server/server-context.cpp:1201-1236 | two tokens, the first ending in the middle of a character, after which the slot has sent a stop word and goes on |
| StopWords.Slot.FindStoppingStrings | core/src/server/server-context.cpp:344-373 | the least position of all words, and the first word of the list that is found there |
| StopWords.Slot.ProcessToken | core/src/server/server-context.cpp:1192-1321 | what is sent is what full searches deliver; another token is wanted if and only if no stop word was found and no limit has been reached; which of them is given as the reason |
| StopWords.Generate | core/src/server/server-context.cpp:1192-1321 | over a whole generation with any limits: what has been sent is a prefix of the text without a stop word; on a stop it is exactly the text before the first stop word; otherwise all of the text has been sent, unless it may end with the beginning of a stop word and has not ended by itself; and it goes on until a stop word or a limit |
| Streaming.GenerateAny | core/src/server/server-context.cpp:1192-1321 | the same for any tokens, also those that end in the middle of a character: in every run, at the first search of a text with a stop word, the run ends with the text before that stop word sent if and only if a stop word that starts there does not end before the last token; until then what is sent has no stop word |
| Streaming.CompleteTokensAreInTime | core/src/server/server-context.cpp:1201-1216 | if no token ends in the middle of a character the condition always holds |
| TaskQueue.ServerQueue.PostTask | core/src/server/server-queue.cpp:22-39 | the new state of the queues; a cancellation first removes the task it is about |
| TaskQueue.ServerQueue.PostTasks | core/src/server/server-queue.cpp:41-61 | tasks without an id get new ones in order, and all are posted in order |
| TaskQueue.ServerQueue.GetNewId | core/src/server/server-queue.cpp:71-75 | the id that is returned was the next one, and the counter has moved on |
| TaskQueue.ServerQueue.PopDeferredTask | core/src/server/server-queue.cpp:77-100 | the first deferred task for the slot, or, if there is none, the first of all, moves to the front of the main queue, and the others stay in order |
| TaskQueue.ServerQueue.CleanupPendingTask | core/src/server/server-queue.cpp:211-222 | exactly the tasks with the id are gone from both queues |
| TaskQueue.Scheduler.GetFreeSlots | core/src/server/server-context.cpp:1602-1613 | the first idle slots but one, as many as are needed |
| TaskQueue.Scheduler.LaunchSlotsWithParentTask | core/src/server/server-context.cpp:1616-1658 | all children and the parent run, or every slot of the family is released |
| TaskQueue.Scheduler.ProcessSingleTask | core/src/server/server-context.cpp:1660-1730 | the task in flight is launched, deferred, executed or dropped, as the reference step says |
| TaskQueue.FreeAreSlots | core/src/server/server-context.cpp:1602-1613 | free slots are idle, are not the excluded one, and are no more than needed |
| Placement.SlotByIdIs | core/src/server/server-context.cpp:913-924 | a slot is found by its number, and a number beyond the end stands for the one that is smaller by a multiple of the number of slots |
| Placement.RunsWhereAsked | core/src/server/server-context.cpp:1660-1716 | an inference task runs in the slot it asks for, or in the offered one, its children in the first other idle ones, in order, and nothing else changes; it is deferred if and only if that slot is busy or there are too few others; if something cannot be launched the slots are as they were |
| Placement.OthersAreHandled | core/src/server/server-context.cpp:1660-1790 | a slot action is deferred if and only if its slot is busy; inference without a slot is deferred; what cannot be tokenized is dropped; other tasks change nothing |
| Placement.CancelReleases | core/src/server/server-context.cpp:1717-1727 | a cancellation releases the first slot that runs its target, or changes nothing |
| Placement.ReleasedIs | core/src/server/server-queue.cpp:77-100 | a released slot moves the first deferred task for it, or else the first of all, to the front of the main queue |
| Placement.PostedInOrder | core/src/server/server-queue.cpp:22-61 | tasks are posted behind the others in order, or in front of them one before the other |
| Scheduling.FamilyConserves | core/src/server/server-context.cpp:1616-1658 | a task with children is deferred, is launched as a whole, or ends as a whole |
| Scheduling.StepConserves | core/src/server/server-context.cpp:1660-1730 | each step adds exactly what arrives and removes exactly what it ends |
| Scheduling.StepKeepsSound | core/src/server/server-queue.cpp:22-100 | each step keeps every task id in at most one of main queue, deferred queue, flight and slots |
| Scheduling.TasksAreConserved | core/src/server/server-queue.cpp:22-100 | in every run a task is in as many places as it has arrived and not been ended, and in one at most |
| Scheduling.HandedOutIsFresh | core/src/server/server-queue.cpp:41-75 | ids that the counter hands out, before posting or while posting, are new when they arrive, and remain so |
| Scheduling.EveryRunConserves | core/src/server/server-queue.cpp:139-158 | the same for every run from the start of the server, with all ids from the counter |
| Scheduling.Perform | core/src/server/server-queue.cpp:22-158 | what the queues and the scheduler do in each kind of step is the step of the model |
| Scheduling.RunFromTheStart | core/src/server/server-queue.cpp:139-158 | the program, through any run whose ids come from its counter, is in the state of the model, in which no task is lost or doubled |
| Waking.ReleaseWakes | core/src/server/server-context.cpp:299-319 | a finishing slot leaves deferred tasks with nothing to wake them exactly if nothing else goes on and it woke up no inference task |
| Waking.ArrivalLeaves | core/src/server/server-queue.cpp:41-61 | what tasks that arrive, cancellations among them, leave of both queues, and whether an inference task is left |
| Waking.FamilyAwakeIff | core/src/server/server-context.cpp:1616-1658 | a family that is to be launched leaves something that goes on exactly if it is launched, something else goes on, or one of its children that give back their slots wakes up an inference task |
| Waking.FamilyFailureStrandsIff | core/src/server/server-context.cpp:1616-1658 | when only inference tasks are deferred, a family that fails strands them exactly if its first child fails and nothing else goes on |
| Waking.StepAwakeIff | core/src/server/server-context.cpp:1660-1730 | for every step of every kind: deferred tasks still have something that will wake them up if and only if a condition holds that can be seen before the step |
| Waking.DeferredTasksAreWoken | core/src/server/server-queue.cpp:77-100 | in every run in which launches succeed, no cancellation hits a queued task, only inference tasks are deferred and no task has more children than there are other slots (core/src/server/server-task.cpp:504-506), a deferred task always has something that will wake it up |
| Waking.CancelStrands | core/src/server/server-queue.cpp:211-222 | a run from the start in which cancelling the task that was woken up strands another one |
| Waking.FailureStrands | core/src/server/server-context.cpp:1712-1715 | a run in which the task that was woken up cannot be launched |
| Waking.TokenizingStrands | core/src/server/server-context.cpp:1667-1673 | a run in which the task that was woken up cannot be tokenized |
| Waking.SlotActionStrands | core/src/server/server-context.cpp:1780-1800 | a run in which a slot action is woken up and occupies no slot |
| Waking.FamilyStrands | core/src/server/server-context.cpp:1616-1658 | a run from the start in which a family is woken up whose first child cannot be launched, and a task behind it is stranded |
| Results.ServerResponse.TryRecv | core/src/server/server-queue.cpp:266-287 | the first result for one of the tasks is taken out, or nothing changes |
| Results.ServerResponse.Send | core/src/server/server-queue.cpp:319-332 | sending is the step of the system that queues a result if and only if its task is waited for |
| Results.ServerResponse.RemoveWaitingTaskId | core/src/server/server-queue.cpp:244-255 | the task is not waited for and exactly its results are deleted |
| Results.ServerResponseReader.PostTasks | core/src/server/server-queue.cpp:353-370 | tasks and their children get indices in order, and exactly their ids are waited for: the step that registers a reader |
| Results.ListIdsAre | core/src/server/server-queue.cpp:353-370 | the index of a task is behind those of the tasks in front of it and of their children, and its children have the next ones, in order |
| Results.ServerResponseReader.TryNext | core/src/server/server-queue.cpp:378-407 | one round is the step that gives the reader its first result, followed after an error by those that stop it |
| Results.ServerResponseReader.Stop | core/src/server/server-queue.cpp:431-450 | stopping is the step that ends the waiting followed by those that delete the results of each task, if not all have been received |
| Routing.StepKeepsSound | core/src/server/server-queue.cpp:228-450 | every step under the lock keeps, for each task, what was queued equal to what was delivered, deleted and is still queued |
| Routing.ResultsReachTheirReader | core/src/server/server-queue.cpp:266-332 | in every run a reader is given a beginning of what was sent for its tasks, in order and once, and no other reader is given any of it |
| Routing.NothingAfterStop | core/src/server/server-queue.cpp:431-450 | after a reader has stopped no result for its tasks is queued, and none ever will be |
| Routing.AllDelivered | core/src/server/server-queue.cpp:372-407 | a reader that has received all final results has been given all that was sent, and no task has failed |
| Routing.EveryIndexIsFilled | core/src/server/server-queue.cpp:409-429 | a reader that has received everything holds, at each index, the one result of the task with that index, which is no error |
| Routing.EveryRunFills | core/src/server/server-queue.cpp:353-429 | in every run in which tasks send nothing but their final results, each index is filled once, with the one result of its task |
| Routing.WaitForAll | core/src/server/server-queue.cpp:409-429 | whatever senders and other readers do meanwhile, no index is out of range or filled twice, and without an error and without giving up each index has the result of its task |
| Text.ComputeOverlap | model/harmony/harmonyparser.go:243-251 | the longest end of a text that is a proper or whole beginning of the tag |
| Text.ScanExtension | model/harmony/harmonyparser.go:112-183 | searching a text in two pieces is searching it in one, if the second search starts with what was held back |
| Text.SearchIsScan | model/harmony/harmonyparser.go:112-183 | looking for a tag with contains, split and overlap, as all parsers do it, is one scan: what is before and behind the tag, or, without it, what is given away and what is held |
| Text.OverlapIs | model/harmony/harmonyparser.go:243-251 | the overlap is the one length at which the text ends with a beginning of the tag and no longer beginning will do |
| Text.JoinTailOfSplit | model/thinking/parser.go:79-106 | joining all parts of a split but the first restores what follows the first tag |
| Thinking.Parser.Eat | model/thinking/parser.go:77-163 | one state's worth of parsing, and that a continuing step reaches a later state |
| Thinking.Parser.AddContent | model/thinking/parser.go:57-75 | a piece of text takes the parser where the reference parse of buffer and piece ends |
| Thinking.ParseComposes | model/thinking/parser.go:57-163 | parsing a text in two pieces is parsing it in one |
| Thinking.ChunkingIndependence | model/thinking/parser.go:57-173 | any way of cutting a text gives the same thinking, content, state and buffer |
| Thinking.ThinkingBlock | model/thinking/parser.go:77-163 | tags around a thinking block and an answer yield exactly these, however the text is cut |
| Thinking.PassThrough | model/thinking/parser.go:79-106 | a text is passed through unchanged if and only if its first non-space characters neither are nor could become an opening tag |
| Harmony.HarmonyParser.Eat | model/harmony/harmonyparser.go:112-183 | one state's worth of parsing against the reference parse, with a buffer that shrinks in each continuing step |
| Harmony.HarmonyParser.AddContent | model/harmony/harmonyparser.go:92-110 | a piece of text gives the state, buffer and events of the reference parse |
| Harmony.ChunkingIndependence | model/harmony/harmonyparser.go:92-183 | any way of cutting a text gives the same state and buffer and, once adjacent contents are merged, the same events |
| Harmony.MessagesRoundTrip | model/harmony/harmonyparser.go:112-241 | messages that are printed, cut anywhere and parsed come back one by one and complete |
| Harmony.HarmonyParser.AddImplicitStartOrPrefill | model/harmony/harmonyparser.go:74-90 | which beginning of a message is put in front of the generated text |
| Harmony.Continues | model/harmony/harmonyparser.go:78-241 | behind a prefilled answer, or prefilled thoughts, the parser announces a header of the assistant with the right channel and reads all that follows as the content of that message |
| HarmonyHeaders.HeaderIsReadBack | model/harmony/harmonyparser.go:185-241 | role, channel and recipient that are printed into a header are read from it, with the recipient in front of the channel, behind it, or in place of the role, and with or without a constraint |
| HarmonyHandler.HarmonyMessageHandler.AddContent | model/harmony/harmonyparser.go:288-333 | events are sorted as the reference sorts them, of which `HarmonyMeaning.ConversationIsSorted` says what it does; a state other than Normal means that the parser is in a content |
| HarmonyHandler.HarmonyMessageHandler.Add | model/harmony/harmonyparser.go:429-452 | the tool call that is put together at the end is that of all tool text and the last tool name |
| HarmonyHandler.StaysConsistent | model/harmony/harmonyparser.go:288-333 | every parse keeps handler and parser consistent |
| HarmonyHandler.ChunkingIndependence | model/harmony/harmonyparser.go:288-333 | answer, thinking, tool text, tool name and state do not depend on how the text is cut |
| HarmonyMeaning.ConversationIsSorted | model/harmony/harmonyparser.go:288-333 | however a printed conversation is cut: analysis without a recipient are the thoughts, analysis or comments with one are the text of the call, and all else is the answer, each in order; the tool is the last recipient |
| HarmonyMeaning.Listen | model/harmony/harmonyparser.go:288-333 | parser and handler, over all pieces of a conversation, give back exactly these |
| HarmonyMeaning.CallIsReported | model/harmony/harmonyparser.go:429-452 | a call is reported when the text is done, and only then, under the user's name of the function |
| HarmonyMeaning.ImplicitStartIsContinued | model/harmony/harmonyparser.go:74-110 | behind the implicit start the rest of a header of the assistant is read as that header, and what follows as its content |
| FunctionNames.DecimalIsInjective | model/harmony/harmonyparser.go:526-543 | different numbers are printed differently, so that numbered variants of a name differ |
| FunctionNames.DecimalIsRead | model/harmony/harmonyparser.go:540-541 | numbers are printed with decimal digits and read back |
| FunctionNames.ValidCharsAre | model/harmony/harmonyparser.go:497-511 | blanks, hyphens and dots become underscores, allowed characters stay, all others are dropped |
| FunctionNames.CandidateIsAllowed | model/harmony/harmonyparser.go:497-524 | the candidate for a name is not empty, has allowed characters only, starts with no decimal digit, and is the name itself if that is so already |
| FunctionNames.SecondIsNumberedTwo | model/harmony/harmonyparser.go:526-543 | a candidate that is taken is numbered from 2 on |
| FunctionNames.FunctionNameMap.DeriveName | model/harmony/harmonyparser.go:526-543 | the search terminates with the first of candidate and numbered variants that is not taken |
| FunctionNames.FunctionNameMap.ConvertAndAdd | model/harmony/harmonyparser.go:463-475 | a conversion of the runs below: the name is a free one, or that of a built-in tool, and both maps have the pair |
| FunctionNames.StepKeepsWayBack | model/harmony/harmonyparser.go:463-484 | a conversion takes the way back from no name, exactly unless a built-in name takes over an entry |
| FunctionNames.WayBackExactly | model/harmony/harmonyparser.go:463-484 | in every run all names lead back at all later times if and only if no built-in name takes one over |
| FunctionNames.NamesAreDistinctAndInvertible | model/harmony/harmonyparser.go:463-484 | without built-in names all returned names are distinct and lead back at all later times |
| FunctionNames.BuiltInTakesOver | model/harmony/harmonyparser.go:463-475 | a run of two conversions after which a name leads back to the wrong function |
| Qwen.TrailingWhitespaceLen | model/parsers/qwen3coder.go:205-221 | the length of the white space at the end of a text |
| Qwen.Qwen3CoderParser.Eat | model/parsers/qwen3coder.go:121-193 | one state's worth of parsing against the reference parse; each continuing step consumes a tag |
| Qwen.Qwen3CoderParser.Add | model/parsers/qwen3coder.go:49-74 | contents and decoded calls of a piece of text are those of the reference parse |
| Qwen.ChunkingDependsExactlyOn | model/parsers/qwen3coder.go:121-193 | a cut changes state, buffer or events if and only if white space follows a tool call that ends the first piece and no other call follows at once |
| Qwen.PiecesDependExactlyOn | model/parsers/qwen3coder.go:49-193 | for any number of pieces: state, buffer and events are those of the uncut text if and only if no cut is of that kind; several such cuts never make up for each other |
| Qwen.RaggedCut | model/parsers/qwen3coder.go:141-180 | a tool call and a content behind a blank: cut in front of the blank they give another outcome than in one piece |
| Qwen.ChunkingIndependence | model/parsers/qwen3coder.go:49-193 | any way of cutting a text gives the same state, the same tool calls and, white space aside, the same contents in the same order |
| QwenMeaning.ReplyIsParsed | model/parsers/qwen3coder.go:121-193 | a printed reply of contents and tool calls is parsed into these, in order |
| QwenMeaning.ReplyIsCollected | model/parsers/qwen3coder.go:49-74 | its contents one behind the other and its decoded calls in order, or the first call that cannot be decoded |
| QwenMeaning.CollectsInOrder | model/parsers/qwen3coder.go:54-71 | the same for any events |
| QwenMeaning.ReplyInPieces | model/parsers/qwen3coder.go:49-193 | however the reply is cut all its calls are announced, in order, and its contents, white space aside |
| Modelfile.ParseFile | model/parser/parser.go:274-403 | the character loop does what the reference machine does, including all errors |
| Modelfile.ReadsBackIff | model/parser/parser.go:464-494 | a readable value reads back if and only if it is well quoted, in all three ways of quoting |
| Modelfile.RoundTrip | model/parser/parser.go:31-38 | well-formed commands read back as they were printed if there is a model command, and fail with the right error if there is none |
| Modelfile.ModelfileRoundTrip | model/parser/parser.go:31-38 | the same for the words of Modelfiles |
| Modelfile.NoTripleIsWellQuoted | model/parser/parser.go:464-494 | values without three quotes in a row that are quoted, or are trimmed and start with no quote, are well quoted |
| ModelfileSource.SourceIsRead | model/parser/parser.go:274-403 | comments, blank lines, indentation, the case of keywords and a missing newline at the end change nothing: a source reads as its commands, or lacks a model |
| ModelfileSource.ModelfileSourceIsRead | model/parser/parser.go:274-403 | the same for the words of Modelfiles |
| ModelfileSource.HashStaysInValue | model/parser/parser.go:416-440 | what looks like a comment inside of a value is part of the value |
| ModelfileSource.UnknownWordFails | model/parser/parser.go:309-317 | a word that is no command is refused, with the number of its line |
| ModelfileSource.UnknownRoleFails | model/parser/parser.go:336-346 | so is a message with an unknown role |
| ModelfileSource.OpenQuoteFails | model/parser/parser.go:375-388 | a quote that is not closed is an unexpected end |
| ModelfileSource.LinesAreCounted | model/parser/parser.go:292-294 | the line number counts the newlines that have been read |
| ModelfileSource.QuoteIs | model/parser/parser.go:464-474 | only values with newlines or with blanks around them are quoted, in three quotes if they contain one |
| ModelfileSource.PrintedFrom | model/parser/parser.go:228-243 | a model command is printed as FROM with the model |
| ModelfileSource.PrintedSingle | model/parser/parser.go:228-243 | other commands are printed as their names in upper case with their values |
| ModelfileSource.PrintedParameter | model/parser/parser.go:228-243 | a parameter is printed as PARAMETER with its name and its value |
| ModelfileSource.PrintedMessage | model/parser/parser.go:228-243 | a message is printed as MESSAGE with its role and its text |
| Seeker.BufferedSeeker.Read | model/fs/util/bufioutil/buffer_seeker.go:20-22 | what is read, and where the reader stands, is what it would be without a buffer |
| Seeker.BufferedSeeker.ReadFull | model/fs/ggml/gguf.go:333-357 | as many bytes as asked for or an error, however little each read gives |
| Seeker.BufferedSeeker.Seek | model/fs/util/bufioutil/buffer_seeker.go:24-34 | a move from start, current position or end goes where it would go without a buffer |
| Gguf.ReadsValue | model/fs/ggml/gguf.go:577-624 | each value that can be written is read back as its normal form, whatever follows it |
| Gguf.ReadsEntries | model/fs/ggml/gguf.go:141-194 | all key-values are read back |
| Gguf.ReadsInfos | model/fs/ggml/gguf.go:196-238 | all tensors are read back, in order |
| Gguf.CountElements | model/fs/ggml/ggml.go:456-462 | the product of the dimensions modulo 2^64, although the loop wraps around in every step |
| GgufFormat.ByteOf | model/fs/ggml/gguf.go:577-651 | byte i of a number counts 256 to the power of i |
| GgufFormat.TypeNumbers | model/fs/ggml/gguf.go:73-87 | the numbers of the types of values, and the widths of those of numbers |
| GgufFormat.TensorTypes | model/fs/ggml/ggml.go:356-454 | the elements and bytes of a block of each type of tensors |
| GgufFormat.SmallEntry | model/fs/ggml/gguf.go:577-624 | the bytes of a key-value with a number |
| GgufFormat.SmallList | model/fs/ggml/gguf.go:480-509 | the bytes of a list of numbers |
| GgufFormat.SmallStrings | model/fs/ggml/gguf.go:480-509 | the bytes of a string and of a list of strings |
| GgufFormat.SmallInfo | model/fs/ggml/gguf.go:626-651 | the bytes of a tensor's description |
| GgufFormat.SmallHeader | model/fs/ggml/gguf.go:511-558 | the bytes of a header with one key-value and one tensor |
| GgufFile.SortedStably | model/fs/ggml/gguf.go:534-542 | the tensors are sorted by block and name, and those of one name keep their order |
| GgufFile.InOrder | model/fs/ggml/gguf.go:534-542 | of two tensors the first has the smaller number of a block, or the same and a name that does not come later by its first differing byte |
| GgufFile.ParametersAre | model/fs/ggml/gguf.go:196-238 | the number of parameters is the sum of the products of all dimensions modulo 2^64 |
| GgufFile.PlacedApart | model/fs/ggml/gguf.go:544-552 | offsets are aligned and each tensor ends before the next one starts |
| GgufFile.ApartIsDisjoint | model/fs/ggml/gguf.go:544-575 | the places of two tensors do not overlap |
| GgufFile.WalkLands | model/fs/ggml/gguf.go:240-262 | the reader's walk by sizes and paddings stands exactly where the writer has put each tensor |
| GgufFile.AlignmentsAgree | model/fs/ggml/gguf.go:240-247 | which alignment the reader finds, and that it is the writer's if and only if no file type stands for it |
| GgufFile.RoundTrip | model/fs/ggml/gguf.go:511-575 | unless a file type stands for the alignment, header and any data decode to the key-values with the parameter count, the sorted tensors, and the place of the data |
| GgufFile.RoundTripIff | model/fs/ggml/gguf.go:240-262 | for every alignment: what was written is read back, with each tensor in its place, if and only if the alignment that the reader finds is not 0 and gives the same paddings behind the header and between the tensors |
| GgufFile.WrongPlaces | model/fs/ggml/gguf.go:240-262 | a file with the alignment stored as a file type that is written with its data at 96 and decoded with its data at 89 |
| GgufData.WritesCommute | model/fs/ggml/gguf.go:560-575 | whatever the order in which the routines write their bytes, the file is the same |
| GgufData.WhatIsWrittenIsRead | model/fs/ggml/gguf.go:511-575 | in every such file the reader stands in front of the bytes of each tensor |
| GgufData.WriteThenDecode | model/fs/ggml/gguf.go:511-575 | with the keys of the format: the writer and the reader, one after the other, give back what was written |
| GgufWriter.Writer.WriteKV | model/fs/ggml/gguf.go:577-624 | the bytes of a key-value, or of its key alone if and only if the value has an improper type |
| GgufWriter.Writer.WriteTensorInfo | model/fs/ggml/gguf.go:626-651 | the bytes of a tensor's description |
| GgufWriter.Writer.WriteInfos | model/fs/ggml/gguf.go:544-552 | the loop gives each tensor its offset and writes all of them |
| GgufWriter.Writer.WriteGguf | model/fs/ggml/gguf.go:511-558 | the file is the reference header; it fails if and only if some value has an improper type |
| GgufReader.Reader.ReadText | model/fs/ggml/gguf.go:333-357 | a string or an error, and where the reader stands |
| GgufReader.Reader.ReadList | model/fs/ggml/gguf.go:409-464 | an array with all its values, or an error |
| GgufReader.Reader.ReadKeyValues | model/fs/ggml/gguf.go:142-194 | the loop over the key-values does what the reference reader does |
| GgufReader.Reader.ReadTensors | model/fs/ggml/gguf.go:196-238 | the loop over the tensors does what the reference reader does, and counts the parameters |
| GgufReader.Reader.Walk | model/fs/ggml/gguf.go:249-262 | where the reader stands before each tensor, and at the end |
| GgufReader.Reader.DecodeFile | model/fs/ggml/ggml.go:514-548 | any file is decoded, or refused, as the reference decoder says, however the file is buffered |

## Left out

- Engine.Server.UpdateSlots: ends with `split` when a draft would be tried before all of its batch has been decoded, because the code then looks at memory that has not been computed; without speculation, or when the batch is decoded in one view, it does not end that way.
- Engine.Server.LaunchSlotWithTask: requires that an explicit number of tokens to drop is in range when contexts are shifted, because a negative number or one beyond the end is undefined behaviour in the original; `Reuse.ShiftIsExactIff` says what happens at the edge.
- Engine.Server.GetAvailableSlot: takes the times of last use as a function and compares the ratios of common prefixes exactly instead of in floating point.
- Engine.Server.DecodeBatch: takes from the decoder that a part without tokens, which only unknown codes can lead to, is refused as an invalid batch.
- Engine.Server.AddPrompts: the progress of the first prompt is stated for physical batches that are no larger than logical ones, because a prompt that cannot be split and is larger than a batch waits for ever.
- Slots.ServerSlot.ProcessToken: has the stop decided by a function of tokens and token, for each task; stop words and text are in `StopWords.Slot`.
- Slots.ServerSlot.Release: is about tasks that are nobody's children; the slot of a child also gives up its tokens. What a release sets off in the queues is in `TaskQueue.Scheduler.ReleaseSlot`.
- Engine.Server.Serve: ends with `split` where `UpdateSlots` does; a run of the queues in front of it is in `Scheduling`.
- StopWords.Slot.ProcessToken: leaves out the minimal indentation (`n_indent` is 0) and has the time limit, the end-of-generation token, the token budget and the full context as inputs.
- StopWords.Generate: is about tokens whose text is complete UTF-8; `Streaming.GenerateAny` is about all others, and `StopWords.StopWordMissed` shows why they differ.
- Waking.DeferredTasksAreWoken: is about runs without failed launches, without cancellations of queued tasks and without deferred slot actions; `Waking.StepAwakeIff` gives the exact condition for every step, and other lemmas runs that fail it.
- Routing.EveryRunFills: is about clients that wait for all results at once, whose tasks send one final result or an error; `Routing.ResultsReachTheirReader` is about all others.
- Routing.WaitForAll: ends when the client gives up after a given number of rounds, because the original may wait for ever.
- GgufFile.RoundTrip: is about lengths and offsets below 2^63, and, other than `GgufFile.RoundTripIff`, about an alignment that is no file type.
- Engine.GenerationsAdvance: assumes that all generating slots can be batched with the first one, because the others have to wait as long as it generates.
- GgufFile.SortedStably: is about an insertion sort in place of the library's stable sort; the number of a tensor's block is a function of its name.
- GgufReader.Reader.DecodeFile: refuses files of version 1, whose strings and counts are stored differently, and big-endian files; it refuses an alignment of 0 and lengths of 2^63 and more, where the original panics.
- GgufReader.Reader.ReadList: keeps all values, as the original does for a negative limit on array sizes.
- Qwen.Qwen3CoderParser.Add: takes the decoding of a raw tool call (XML and its repair) as a function that may fail; a failure spoils the whole piece, as in the original.
- HarmonyHandler.HarmonyMessageHandler.Add: takes the decoding of tool arguments as a predicate.
- Modelfile.ParseFile: works on characters after decoding, without a byte order mark; `IsPrint` and lower case beyond ASCII are left open or left unchanged.
- Media in token lists, checkpoints for sliding-window and recurrent models, activated adapters, and the copies of the memory that a parent slot makes for its children; slots in the engine run tasks without children.
- What a language model, a sampler, a tokenizer and a drafting model compute; the sampler of a task is a function of the tokens it sees.
- Logging, metrics, timings, token probabilities, progress messages, JSON, HTTP, the Go handlers and clients.
- Sleeping, condition variables and timeouts of the queues; each body under a lock is one step, and `process_single_task` is one step of its own.
- The subprocess router, the command line, templates, and the lazy GGUF reader in `model/fs/gguf`.
- Splits inside a multi-byte character and invalid UTF-8 in the parsers.
- Which tools the Harmony handler is initialised with.
