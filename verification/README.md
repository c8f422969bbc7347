# The serving engine's bookkeeping, verified

This project models the hand-written bookkeeping of the MLC-LLM serving engine (`mlc-llm/cpp`) in
Dafny and proves it against much simpler specifications.  `dafny verify dfyconfig.toml` checks it all.

| file | component |
|---|---|
| `RadixForest`, `RadixEdits`, `PagePool`, `PagedRadixTree`, `RadixReach` | the paged radix tree: pages, left-child/right-sibling links, splits, merges, the page pool |
| `PrefixCacheSpec`, `PrefixCacheQueue`, `PrefixCache`, `PrefixCacheRuns`, `PrefixCacheCalls` | the prefix cache over the tree, its queue of extensions, and whole runs of it |
| `EngineCache`, `PrefillInputs` | the client of the cache: KV caches, ids and prompts kept in step |
| `Kmp`, `TokenText`, `StopStrHandler` | the stop-string handler |
| `Retokenize` | jump-forward and retokenising decode, rollback, streamed text, KV length |
| `ThreadedEngine`, `ThreadedProgress` | the lock and condition-variable protocol of the threaded engine, as a step system; what it can always still do |
| `PrefillChunks`, `PrefillAdmission`, `Preemption`, `DraftSlots` | chunking, admission, preemption, draft-token slots |
| `PrefixTokenMask`, `Utf8` | the prefix-token mask; UTF-8 printing and parsing |

Code that updates state in place is modelled by classes and methods with loops.  A method is proved
against a function or relation on values; the properties are lemmas about those.  A failed `CHECK` of
the tree or the cache is a result (`ok == false`) with the state unchanged.

Main results:

* **The radix tree is a map.**  Add, Fork, Extend, RollBack and Remove do to `Contents()` exactly what a map
  from id to token sequence would, on every tree, whatever pages they split or merge; every other id keeps
  its tokens.  `MatchPrefix` returns the longest common prefix and exactly the ids that start with it.
  The pool's used pages are exactly those that the pointers reach from the root, each by one walk
  (`UsedPagesAreReachable`, stated over the pointers alone).
* **Deferred extension is invisible**, over every run and in both directions, as long as no caller changes a
  vector that the queue refers to.  The queue holds references, so this is an obligation of the callers: a
  write shows if and only if it changes the vector and some queued entry of a stored sequence names it
  (`WriteUnseenIff`).
* **Matching a prompt keeps tree, KV caches, ids and inputs in step** (`MatchPrefixCache`), and matches as well
  as can be: a recycling sequence is reused if and only if one loses less than a tenth (nothing, under a sliding
  window), and a sequence is forked if and only if none does and one can be.
* **The stop handler triggers at the first character that ends a stop string** and never hands out a token
  that reaches past the start of the longest stop string ending there.
* **Retokenisation preserves text** and replaces exactly the last ten tokens by the new encoding; the KV cache
  keeps exactly what old and new tokens share, even when streamed tokens are rolled back.
* **The threaded engine loses, duplicates and reorders nothing**, loses no wake-up, and a Reload or Unload call
  returns only after its instruction was processed, over all interleavings.  It also makes progress: from every
  reachable state every enqueued instruction can be processed, every waiting call return and every exit request
  be met, by steps of the loop and notifications alone once no client holds the lock, and the exceptions are
  known exactly (`CanBeProcessedIff`, `CallCanReturnIff`).
* **Prefill admission** hands out the first candidates in queue order, within all limits, only the last one
  cut; and the next candidate really could not join.  Pages are those that the tokens fill one after the other.
* **Preemption** requeues prompt and committed tokens; the decode loop terminates, conserves the pages, preempts
  only when nothing is left to evict and no request more than needed.

Where the code does not do what one would expect, the exact condition is proved:

* Writing to a vector between extension and commit changes what is committed: `ChangedVectorIsCommitted` is
  such a run, `WriteIsInvisibleIffLegal` says exactly which writes change nothing that will be committed, and
  `CommitAgreesWithImmediateIff` exactly when a commit is right in spite of whatever was written before.
* A decode fails its check that there is something to decode if and only if `num_tokens_for_next_decode` is 0.
  A decode leaves it at 0 if and only if it retokenises, the sampled token is not a stop token and re-encoding
  the recent text with it yields nothing beyond the recent tokens (`Decode`); a jump forward leaves it at 0 if
  and only if it was 0 and the jump adds nothing (`JumpForward`).  It takes a token without text, and
  `StalledGeneration` is a generation that gets there.
* Preemption loses the old id for good if and only if the prefix cache does not hold the sequence: over the
  real cache, its tree and its remove callback in `Preempt`, and over the queues in
  `PreemptLastRunningRequestStateEntry` (`LostId` loses one).  `RemoveRequestStateEntry` returns the id there,
  preemption does not.  Every operation keeps lost ids in use and owned by nobody.
* Making room to decode leaves nothing to decode, on which the decode fails its check, if and only if nothing was
  ready, or the first ready request is starved: no page is free, and neither the recycling sequences nor the
  requests running behind it hold one (`MakeRoomToDecode`).  `StarvedRequest` is one that is preempted to make
  room for itself.
* An instruction that is enqueued can still be processed, and a waiting call still return, if and only if the loop
  has not ended and will not before it takes it: an exit request is read before the queue.  `CallAfterExit` is a
  run whose Reload call waits for ever.
* Eviction for a prefill stops before the sequences of the entry itself are counted, so an entry can be refused
  for want of its one page or eight tokens although sequences could be evicted: `RefusedWithSpaceIff` says exactly
  when, `RefusedThoughEvictable` is an input.
* A drafting round leaves slots and users in agreement if and only if each slot is counted once per model
  state that gets a token in it (`Draft`).  A slot counted for more keeps its excess over every run and is
  never free again (`Run`); `LeakedSlot` is one whose sample yields no token, as with a `spec_tree_width` of 0,
  which the configuration does not reject.
* The prefix mask is "is a proper prefix of another token" if and only if, of any two equal token strings, the
  earlier one is a proper prefix of some token (`MaskIsProperPrefixIff`), in particular with distinct strings.
* Printing what was parsed gives the string back, under `kReturnByte`, if and only if it is made of shortest
  forms without a zero byte, a condition on its bytes (`PrintOfParsed`): the parser accepts overlong and
  out-of-range forms and passes bytes through.  Under `kReturnInvalid` the string of the one byte 0xF6 comes
  back as well, because the error value -10 is printed as that byte (`PrintOfParsedOrInvalid`).
  Parsing what was printed gives the list back if and only if no code point is zero (`RoundTrip`).

`TryFreeMemory` is documented as taking the oldest sequence but takes whichever an unordered map yields first
(`mlc-llm/cpp/serve/prefix_cache.cc:222-240`); the model lets the victim be any recycling sequence.

## Model

| member | source | states |
|---|---|---|
| `RadixForest.FullIsInjective` | mlc-llm/cpp/serve/radix_tree.cc:456-476 | the tokens on the path from the root determine the page: no two pages spell the same string |
| `RadixForest.Toward` | mlc-llm/cpp/serve/radix_tree.cc:284-291 | if a page's path is a prefix of another's, the other page lies below it through one of its children |
| `RadixForest.MatchIsMaximal` | mlc-llm/cpp/serve/radix_tree.cc:776-795 | no path of the tree follows the query beyond where the greedy descent stops |
| `RadixForest.SomeSequenceBelow` | mlc-llm/cpp/serve/radix_tree.cc:669-683 | below every page but the root some sequence ends |
| `RadixForest.ListsVisit` | mlc-llm/cpp/serve/radix_tree.cc:243-264 | visiting a page, its subtree and its later siblings lists the ids below them, each once |
| `RadixReach.LinkedIffReachable` | mlc-llm/cpp/serve/radix_tree.cc:134-148 | the pages of the invariant are exactly those reached from the root through first-child and next-sibling pointers |
| `RadixReach.OneWalk` | mlc-llm/cpp/serve/radix_tree.cc:294-311 | the links form one tree: two walks from the root to the same page are the same walk |
| `RadixReach.UsedPagesAreReachable` | mlc-llm/cpp/serve/radix_tree.cc:366-391 | on every valid tree the pool's used pages are the reachable ones: no leak, no dangling page |
| `RadixEdits.SplitOk` | mlc-llm/cpp/serve/radix_tree.cc:740-768 | splitting a page keeps the whole shape invariant and the tokens of every sequence |
| `RadixEdits.MergeOk` | mlc-llm/cpp/serve/radix_tree.cc:714-730 | merging a page with its only child keeps the shape and the tokens of every sequence |
| `RadixEdits.AttachOk` | mlc-llm/cpp/serve/radix_tree.cc:294-299 | adding a leaf whose first token no sibling has keeps the shape and all sequences |
| `RadixEdits.DetachOk` | mlc-llm/cpp/serve/radix_tree.cc:302-311 | removing a leaf that ends no sequence keeps the shape and all sequences |
| `RadixEdits.RefillOk` | mlc-llm/cpp/serve/radix_tree.cc:582-614 | rewriting the tokens of a leaf that ends no sequence keeps the shape and all sequences |
| `RadixEdits.SplitAtSplit` | mlc-llm/cpp/serve/radix_tree.cc:740-768 | after a split the returned page ends exactly at the requested offset |
| `RadixEdits.SplitAtMergeBelow` | mlc-llm/cpp/serve/radix_tree.cc:740-768 | merging the lower half after a split leaves the returned page ending at the offset |
| `RadixEdits.SplitAtMergeAbove` | mlc-llm/cpp/serve/radix_tree.cc:740-768 | so does merging the upper half into its parent, with the parent returned instead |
| `PagePools.RadixPagePool.NewPageBlock` | mlc-llm/cpp/serve/radix_tree.cc:439-449 | a block of new indices joins the free list; free and used indices still partition the pool |
| `PagePools.RadixPagePool.Allocate` | mlc-llm/cpp/serve/radix_tree.cc:366-380 | hands out an index that was not in use and marks only it used |
| `PagePools.RadixPagePool.Free` | mlc-llm/cpp/serve/radix_tree.cc:386-391 | a used index becomes free again, and no other |
| `PagePools.RadixPagePool.FreeCapacity` | mlc-llm/cpp/serve/radix_tree.cc:393-397 | the token capacity of exactly those pages of the pool that are not in use |
| `PagedRadixTrees.PagedRadixTree.Mergeable` | mlc-llm/cpp/serve/radix_tree.cc:322-328 | true exactly when the page may be merged with its only child |
| `PagedRadixTrees.PagedRadixTree.MergePage` | mlc-llm/cpp/serve/radix_tree.cc:714-730 | the pointer updates are the value-level merge; contents unchanged; the freed page goes back to the pool |
| `PagedRadixTrees.PagedRadixTree.SplitPage` | mlc-llm/cpp/serve/radix_tree.cc:740-768 | the returned page ends where asked, on every combination of the two follow-up merges; contents unchanged |
| `PagedRadixTrees.PagedRadixTree.FindChild` | mlc-llm/cpp/serve/radix_tree.cc:284-291 | the child that starts with the token, or a guarantee that none does |
| `PagedRadixTrees.PagedRadixTree.MatchInPage` | mlc-llm/cpp/serve/radix_tree.cc:338-344 | the longest common prefix of the page and the tokens |
| `PagedRadixTrees.PagedRadixTree.MatchSequence` | mlc-llm/cpp/serve/radix_tree.cc:776-795 | the descent stops at a page and offset that no page continues |
| `PagedRadixTrees.PagedRadixTree.FindAllChildSequence` | mlc-llm/cpp/serve/radix_tree.cc:243-264 | exactly the ids at or below the page, each once |
| `PagedRadixTrees.PagedRadixTree.PopSequence` | mlc-llm/cpp/serve/radix_tree.cc:190-213 | removes one id from its page's list and nothing else |
| `PagedRadixTrees.PagedRadixTree.GetLastSibling` | mlc-llm/cpp/serve/radix_tree.cc:271-278 | the sibling just before the page, or null for the root and for a first child |
| `PagedRadixTrees.PagedRadixTree.InsertChild` | mlc-llm/cpp/serve/radix_tree.cc:294-299 | the pointer updates are the value-level attachment of a leaf |
| `PagedRadixTrees.PagedRadixTree.RemoveChild` | mlc-llm/cpp/serve/radix_tree.cc:302-311 | closes the links around any child, wherever it stands among its siblings |
| `PagedRadixTrees.PagedRadixTree.HasSequence` | mlc-llm/cpp/serve/radix_tree.cc:484-484 | true exactly for stored ids |
| `PagedRadixTrees.PagedRadixTree.GetSequence` | mlc-llm/cpp/serve/radix_tree.cc:492-504 | collecting pages from the end backwards yields the stored tokens; fails exactly for unknown ids |
| `PagedRadixTrees.PagedRadixTree.GetSequenceLength` | mlc-llm/cpp/serve/radix_tree.cc:525-532 | the number of stored tokens |
| `PagedRadixTrees.PagedRadixTree.MatchPrefix` | mlc-llm/cpp/serve/radix_tree.cc:511-517 | the offset is the longest prefix of the query any stored sequence starts with; if positive, the ids are exactly those that start with it, each once and at least one |
| `PagedRadixTrees.PagedRadixTree.AddSequence` | mlc-llm/cpp/serve/radix_tree.cc:569-574 | contents gain the id with no tokens; fails exactly for a known id |
| `PagedRadixTrees.PagedRadixTree.ForkSequence` | mlc-llm/cpp/serve/radix_tree.cc:544-562 | the new id holds the parent's first tokens, all else unchanged; fails exactly on the checked conditions |
| `PagedRadixTrees.PagedRadixTree.ExtendSequence` | mlc-llm/cpp/serve/radix_tree.cc:582-614 | the id's tokens are extended, all other ids keep theirs, and the tree stays well formed |
| `PagedRadixTrees.PagedRadixTree.RollBackSequence` | mlc-llm/cpp/serve/radix_tree.cc:622-662 | the last tokens of the id are dropped, all other ids keep theirs; fails exactly on the checked conditions |
| `PagedRadixTrees.PagedRadixTree.RemoveSequence` | mlc-llm/cpp/serve/radix_tree.cc:669-683 | the id disappears, all others keep their tokens, and no page is left without a sequence below it |
| `PrefixCacheSpec.InsertContract` | mlc-llm/cpp/serve/prefix_cache.cc:46-139 | whichever of add, fork or reuse is chosen, the final id holds exactly the prompt up to prefilled_offset, which is less than the prompt, all other sequences are unchanged, and the cache stays consistent |
| `PrefixCacheSpec.InsertLosesLittle` | mlc-llm/cpp/serve/prefix_cache.cc:67-109 | on reuse the pop count is the dropped tail, the smallest that any recycling sequence with the match allows and, without a sliding window, under a tenth of the old length; a sliding-window insert neither pops nor forks |
| `PrefixCacheSpec.InsertUsesLongestMatch` | mlc-llm/cpp/serve/prefix_cache.cc:46-139 | at the longest match of all but the last prompt token: a sequence is reused if and only if some recycling one with the same window loses less than a tenth (nothing, under a sliding window); one is forked if and only if none is reused and one without a window matches; otherwise nothing is matched |
| `PrefixCacheSpec.InsertFindsBest` | mlc-llm/cpp/serve/prefix_cache.cc:46-139 | every insertion delivers that best match |
| `PrefixCacheSpec.WorthReusingIff` | mlc-llm/cpp/serve/prefix_cache.cc:99-99 | the floating threshold of 0.9 in integers: less than a tenth of the length is dropped |
| `PrefixCacheSpec.RecycleKeeps` | mlc-llm/cpp/serve/prefix_cache.cc:188-213 | a lazily recycled sequence stays, with its tokens, as recycling unless the maximum is 0; at most one recycling sequence goes, and only at the maximum |
| `PrefixCacheSpec.ReuseThenRollBack` | mlc-llm/cpp/serve/prefix_cache.cc:99-109 | reusing and then rolling back is reusing with the shorter contents |
| `PrefixCacheSpec.EvictConsistent` | mlc-llm/cpp/serve/prefix_cache.cc:222-240 | eviction takes a recycling id only, keeps the two recycling maps inverse to each other, and leaves one less |
| `PrefixCacheSpec.RecycleConsistent` | mlc-llm/cpp/serve/prefix_cache.cc:188-213 | recycling below the maximum keeps the maps inverse over exactly the recycling ids and the maximum |
| `PrefixCacheSpec.ReuseConsistent` | mlc-llm/cpp/serve/prefix_cache.cc:266-273 | so does making a recycling sequence active again |
| `PrefixCacheSpec.LongestMatchIsUnique` | mlc-llm/cpp/serve/prefix_cache.cc:46-56 | the longest match is determined by contents and query |
| `PrefixCacheQueue.WriteUnseenIff` | mlc-llm/cpp/serve/prefix_cache.cc:328-336 | a write to a vector leaves what will be committed unchanged if and only if it leaves the vector unchanged or no queued entry of a stored sequence names it |
| `PrefixCacheQueue.CommitAgreesIff` | mlc-llm/cpp/serve/prefix_cache.cc:151-166 | a commit yields what was meant when the entries were queued if and only if, for every stored id, the tokens queued now are those |
| `PrefixCacheQueue.ExtendThroughQueue` | mlc-llm/cpp/serve/prefix_cache.cc:147-149 | queueing a reference extends what will be committed by the vector as it is now |
| `PrefixCacheQueue.EvictThroughQueue` | mlc-llm/cpp/serve/prefix_cache.cc:222-240 | evicting past the queue is evicting from what will be committed: the victim has nothing queued |
| `PrefixCaches.PrefixCache.InsertSequence` | mlc-llm/cpp/serve/prefix_cache.cc:46-139 | over the real tree, with pending extensions committed first, behaves as the specified choice of reuse, fork or add; fails exactly on the checked conditions |
| `PrefixCaches.PrefixCache.FindShortest` | mlc-llm/cpp/serve/prefix_cache.cc:85-98 | the shortest recycling match with the same window |
| `PrefixCaches.PrefixCache.ExtendSequence` | mlc-llm/cpp/serve/prefix_cache.cc:147-149 | queues a reference to the caller's vector; from now on the sequence counts as extended by what the vector holds |
| `PrefixCaches.PrefixCache.WriteVector` | mlc-llm/cpp/serve/engine_actions/action_commons.cc:276-298 | a caller rewrites a vector: the abstract cache is unchanged if and only if the write goes unseen by the queue |
| `PrefixCaches.PrefixCache.CommitSequenceExtention` | mlc-llm/cpp/serve/prefix_cache.cc:151-166 | applies the queued references with the vectors as they are at the commit, changes nothing in the abstract cache and empties the queue |
| `PrefixCaches.PrefixCache.RollBackSequence` | mlc-llm/cpp/serve/prefix_cache.cc:174-178 | drops the last tokens of the extended sequence |
| `PrefixCaches.PrefixCache.RecycleSequence` | mlc-llm/cpp/serve/prefix_cache.cc:188-213 | lazily marks the id recycling, after evicting one if the maximum is reached, or removes it at once; fails exactly unless the id is active |
| `PrefixCaches.PrefixCache.TryFreeMemory` | mlc-llm/cpp/serve/prefix_cache.cc:222-240 | removes one recycling sequence and reports it, or reports that there is none |
| `PrefixCaches.PrefixCache.ReuseRecyclingSequence` | mlc-llm/cpp/serve/prefix_cache.cc:266-273 | makes a recycling sequence active and drops its two time stamps |
| `PrefixCacheRuns.EagerKeepsConsistent` | mlc-llm/cpp/serve/prefix_cache.cc:46-240 | every operation keeps the recycling maps mutual inverses over exactly the recycling ids, within the maximum |
| `PrefixCacheRuns.LazyToEager` | mlc-llm/cpp/serve/prefix_cache.cc:147-240 | one legal step with deferred extensions, vector writes included, is one step, with the same result, of the cache that extends at once |
| `PrefixCacheRuns.DeferredExtensionIsInvisible` | mlc-llm/cpp/serve/prefix_cache.cc:147-240 | every run of the lazy cache along which extended ids are active or absent and writes go unseen by the queue gives the results and committed contents of the immediate one |
| `PrefixCacheRuns.ImmediateRunsCanBeDeferred` | mlc-llm/cpp/serve/prefix_cache.cc:147-240 | and every run of the immediate cache under the same obligations is such a lazy run with the same results |
| `PrefixCacheRuns.EagerToLazy` | mlc-llm/cpp/serve/prefix_cache.cc:147-240 | one legal step of the immediate cache can be taken by the lazy one, with the same result |
| `PrefixCacheRuns.WriteIsInvisibleIffLegal` | mlc-llm/cpp/serve/prefix_cache.cc:333-336 | a write keeps what will be committed if and only if it meets the callers' obligation |
| `PrefixCacheRuns.CommitAgreesWithImmediateIff` | mlc-llm/cpp/serve/prefix_cache.cc:151-166 | from one commit to the next, whatever is written, the lazy cache commits what the immediate one holds if and only if the tokens then queued for every stored id are those meant at the calls |
| `PrefixCacheRuns.ChangedVectorIsCommitted` | mlc-llm/cpp/serve/prefix_cache.cc:333-336 | a run that extends, changes the vector and commits, and that no immediate run with the same calls matches |
| `PrefixCacheCalls.Perform` | mlc-llm/cpp/serve/prefix_cache.cc:46-248 | every call of the class, on its tree, queue and vectors, is a step of the lazy cache with the result returned |
| `EngineCache.KvStaysInStep` | mlc-llm/cpp/serve/engine_actions/disagg_prepare_recv.cc:365-408 | adding, forking or trimming a KV cache is within bounds, leaves it equal to the cache contents, and touches one sequence only |
| `EngineCache.AccountedAfterMatch` | mlc-llm/cpp/serve/engine_actions/disagg_prepare_recv.cc:365-408 | after matching, every id in use is owned by one entry or recycling; a reused id was nobody's |
| `EngineCache.IdManager.GetNewId` | mlc-llm/cpp/serve/engine_state.h:30-39 | never hands out an id in use |
| `EngineCache.IdManager.RecycleId` | mlc-llm/cpp/serve/engine_state.h:41-42 | returns an id that was in use |
| `EngineCache.Engine.MatchPrefixCache` | mlc-llm/cpp/serve/engine_actions/disagg_prepare_recv.cc:352-421 | the cached tokens of the entry's final id followed by its remaining inputs are the prompt; something remains; an id is reused, and how much is matched, exactly as the longest match and the recycling sequences allow; all KV caches hold what the tree holds and nothing else in them changes; on reuse the fresh id is free again and the reused one belongs to this entry alone |
| `EngineCache.Engine.Advance` | mlc-llm/cpp/serve/engine_actions/action_commons.cc:275-301 | new tokens of an entry enter every KV cache and, through its vector, the prefix cache, and all stay in step |
| `EngineCache.Engine.Step` | mlc-llm/cpp/serve/engine_actions/action_commons.cc:248-302 | after the commit of an action, any number of entries with vectors of their own advance, and the cache is extended by exactly their tokens |
| `EngineCache.Engine.OnRemove` | mlc-llm/cpp/serve/engine.cc:433-438 | removing sequences keeps KV caches and tree in step and returns exactly their ids |
| `EngineCache.Engine.Evict` | mlc-llm/cpp/serve/prefix_cache.cc:222-240 | eviction keeps everything in step and touches no owned id |
| `EngineCache.Engine.Finish` | mlc-llm/cpp/serve/engine_actions/action_commons.cc:148-170 | a finished entry gives up its id: a cached sequence stays in the cache as recycling with its tokens unless the cache keeps none, any other is removed from the models and its id returned |
| `EngineCache.Engine.LetGoCached` | mlc-llm/cpp/serve/engine_actions/action_commons.cc:401-402 | a cached sequence is removed from tree and KV caches at once and the callback returns its id |
| `EngineCache.Engine.LetGoUncached` | mlc-llm/cpp/serve/engine_actions/action_commons.cc:403-405 | any other is removed from the KV caches only, and its id is lost |
| `EngineCache.Engine.Preempt` | mlc-llm/cpp/serve/engine_actions/action_commons.cc:401-410 | the entry gets a new id, everything stays in step, and the old id is lost if and only if the prefix cache did not hold it |
| `PrefillInputs.GetConcatPrefillInputData` | mlc-llm/cpp/serve/engine_actions/batch_prefill_base.cc:496-508 | the tokens of the inputs, or nothing if some input is not token data |
| `PrefillInputs.PopPrefillInputData` | mlc-llm/cpp/serve/engine_actions/batch_prefill_base.cc:510-525 | drops exactly the first n tokens, across any pieces, and never runs off the end |
| `Kmp.CreatePartialMatchTable` | mlc-llm/cpp/tokenizers/streamer.cc:159-171 | every entry is the length of the longest proper border of that prefix |
| `Kmp.Step` | mlc-llm/cpp/tokenizers/streamer.cc:212-218 | following the table yields the longest prefix of the pattern that ends the extended text |
| `Kmp.EndsWithBorder` | mlc-llm/cpp/tokenizers/streamer.cc:159-171 | shorter matches at the end of a text are exactly the borders of a longer one |
| `StopStrHandlers.StopStrHandler.MatchAll` | mlc-llm/cpp/tokenizers/streamer.cc:204-240 | some stop string ends here if and only if the flag says so; the cut lies before the longest one, or before the longest live partial match |
| `StopStrHandlers.StopStrHandler.Release` | mlc-llm/cpp/tokenizers/streamer.cc:237-250 | releases the most whole tokens that fit before the cut, in order |
| `StopStrHandlers.StopStrHandler.Put` | mlc-llm/cpp/tokenizers/streamer.cc:187-259 | triggers at exactly the first character where a stop string ends; nothing handed out reaches past the start of the longest one; tokens put are those returned followed by those pending; every token before the longest live match is released |
| `StopStrHandlers.StopStrHandler.StopIffTriggered` | mlc-llm/cpp/tokenizers/streamer.cc:187-259 | over every run the handler has triggered if and only if the text read ends with a stop string |
| `StopStrHandlers.StopStrHandler.constructor` | mlc-llm/cpp/tokenizers/streamer.cc:173-185 | starts with correct tables and nothing matched |
| `Retokenize.SpliceExtends` | mlc-llm/cpp/serve/engine_actions/batch_jumpforward.cc:167-178 | replacing the differing tail by the new tokens extends the text by exactly the delta |
| `Retokenize.NewTokensNeeded` | mlc-llm/cpp/serve/engine_actions/batch_jumpforward.cc:167-178 | a non-empty delta forces at least one new token |
| `Retokenize.RetokenizeWithNewString` | mlc-llm/cpp/serve/engine_actions/batch_jumpforward.cc:133-178 | how much of the string is taken, exactly: all of it, nothing, or all but a last token that is a prefix of another; the recent tokens become the new encoding; at most ten are rolled back |
| `Retokenize.RetokenizeWithNewToken` | mlc-llm/cpp/serve/engine_actions/batch_decode.cc:215-246 | the last ten tokens become the new encoding, which extends the text by exactly the sampled token's string; exactly when no new token is needed; the rollback starts at the first token that differs |
| `Retokenize.TextlessTokenStalls` | mlc-llm/cpp/serve/engine_actions/batch_decode.cc:268-291 | a faithful tokenizer and a sampled token without text that re-encodes to nothing new |
| `Retokenize.StalledGeneration` | mlc-llm/cpp/serve/engine_actions/batch_decode.cc:102-106 | a generation that jumps forward, decodes that token, has nothing left to decode and fails the check of the next decode |
| `Retokenize.Generation.StreamInvariant` | mlc-llm/cpp/serve/request_state.cc:182-210 | streamed text, pending prefix string and unstreamed tokens always spell all committed tokens |
| `Retokenize.Generation.CommitToken` | mlc-llm/cpp/serve/request_state.cc:50-62 | appends the token and keeps the occurrence counts |
| `Retokenize.Generation.RollbackTokens` | mlc-llm/cpp/serve/request_state.cc:64-77 | drops the last tokens and keeps the occurrence counts |
| `Retokenize.Generation.Stream` | mlc-llm/cpp/serve/request_state.cc:182-210 | what is delivered completes the streamed text to all committed text |
| `Retokenize.Generation.RollbackStream` | mlc-llm/cpp/serve/engine_actions/batch_jumpforward.cc:188-201 | rolling back streamed tokens moves the missing text into the prefix string and the position to the end; otherwise neither changes |
| `Retokenize.Generation.RollbackKv` | mlc-llm/cpp/serve/engine_actions/batch_jumpforward.cc:208-216 | KV length plus tokens to decode shrinks by exactly the rollback |
| `Retokenize.Generation.JumpForward` | mlc-llm/cpp/serve/engine_actions/batch_jumpforward.cc:62-92 | the committed text grows by exactly the taken part of the string, and the last ten tokens become its encoding; the KV cache keeps what it held of the tokens shared; retokenisation is requested; nothing is left to decode if and only if nothing was and nothing is taken |
| `Retokenize.Generation.CommitTokenMayRetokenize` | mlc-llm/cpp/serve/engine_actions/batch_decode.cc:254-295 | a stop token is appended; any other replaces the last ten tokens by the encoding of their text and its own; the KV cache keeps exactly the longest common prefix of old and new tokens; exactly when nothing is left to decode |
| `Retokenize.Generation.Decode` | mlc-llm/cpp/serve/engine_actions/batch_decode.cc:102-187 | fails exactly when nothing is left to decode; otherwise feeds exactly the committed tokens not in the KV cache, and appends the token or, after a jump forward, retokenises with it; the KV cache then holds the prompt and the longest common prefix of old and new tokens; leaves nothing to decode if and only if it retokenised a token that re-encodes to nothing new |
| `ThreadedEngine.StepKeepsInv` | mlc-llm/cpp/serve/threaded_engine.cc:50-187 | every step of any client or of the loop keeps lock ownership, counts, order, wake-ups and the handshake consistent: a waiting call's flag is set if and only if its instruction was processed, and the loop ends only on request |
| `ThreadedEngine.RunKeepsInv` | mlc-llm/cpp/serve/threaded_engine.cc:50-187 | so does every interleaving of any length |
| `ThreadedEngine.InstructionsInOrder` | mlc-llm/cpp/serve/threaded_engine.cc:95-187 | processed, local batch and queue together are all instructions in lock order, each once; the pending count is the queue length whenever the lock is free |
| `ThreadedEngine.NoLostWakeup` | mlc-llm/cpp/serve/threaded_engine.cc:95-167 | a sleeping loop with work or an exit request always has a client about to notify it |
| `ThreadedEngine.CallReturnsAfterProcessing` | mlc-llm/cpp/serve/threaded_engine.cc:50-93 | Reload and Unload return only after their instruction and all earlier ones were processed |
| `ThreadedEngine.LogsGrow` | mlc-llm/cpp/serve/threaded_engine.cc:134-187 | what was enqueued or processed stays so |
| `ThreadedProgress.Progress` | mlc-llm/cpp/serve/threaded_engine.cc:134-187 | from every state of the invariant that is not stuck, steps of the loop, notifications and the client in its critical section lead to the instruction at a given position being processed |
| `ThreadedProgress.OnlyLoopAndNotify` | mlc-llm/cpp/serve/threaded_engine.cc:134-187 | if no client holds the lock, those are steps of the loop and notifications alone, without spurious wake-ups |
| `ThreadedProgress.CanBeProcessedIff` | mlc-llm/cpp/serve/threaded_engine.cc:134-187 | in every reachable state some run processes an enqueued instruction if and only if the loop has not ended and will not, by an exit request it reads first, before taking it |
| `ThreadedProgress.CallReturns` | mlc-llm/cpp/serve/threaded_engine.cc:50-93 | a waiting Reload or Unload call that is not stuck can return |
| `ThreadedProgress.CallCanReturnIff` | mlc-llm/cpp/serve/threaded_engine.cc:50-93 | in every reachable state a waiting call can return if and only if its instruction is not stuck |
| `ThreadedProgress.CallAfterExit` | mlc-llm/cpp/serve/threaded_engine.cc:134-145 | a run whose exit request comes first and whose Reload call waits for ever |
| `ThreadedProgress.ExitsOnRequest` | mlc-llm/cpp/serve/threaded_engine.cc:138-227 | the loop ends only after an exit request, and after one it can always end |
| `PrefillChunks.ModelState.ChunkPrefillInputData` | mlc-llm/cpp/serve/engine_actions/batch_prefill_base.cc:314-386 | returned and remaining inputs are a partition of the old ones, cut between two pieces or inside token data of which some remains; the length is the limit unless an image straddles it; a decode entry yields its pending tokens; when the final check is reached |
| `PrefillChunks.ModelState.PrefillByChunks` | mlc-llm/cpp/serve/engine_actions/batch_prefill_base.cc:314-386 | repeated calls with any positive limits replay a token prompt in order and end after at most one call per token |
| `PrefillChunks.CutWithin` | mlc-llm/cpp/serve/engine_actions/batch_prefill_base.cc:369-383 | cutting inside token data loses and reorders nothing |
| `PrefillChunks.DoneIff` | mlc-llm/cpp/serve/engine_actions/batch_prefill_base.cc:341-350 | nothing remains if and only if the chunk is all of the inputs |
| `PrefillChunks.TokensOfPartition` | mlc-llm/cpp/serve/engine_actions/batch_prefill_base.cc:314-386 | for token prompts the pieces concatenate to the prompt and the length is exactly the limit |
| `PrefillAdmission.CanPrefillIsAdmissible` | mlc-llm/cpp/serve/engine_actions/batch_prefill_base.cc:268-302 | the admission test is the bounds on tokens, sequences, pages and watermark |
| `PrefillAdmission.WindowPages` | mlc-llm/cpp/serve/engine_actions/batch_prefill_base.cc:116-137 | under a sliding window an entry always needs a positive number of pages, so the check on it never fails |
| `PrefillAdmission.PagesForBounds` | mlc-llm/cpp/serve/engine_actions/batch_prefill_base.cc:114-115 | the pages that tokens fill one after the other hold them, and one less would not |
| `PrefillAdmission.CeilDivIsPages` | mlc-llm/cpp/serve/engine_actions/batch_prefill_base.cc:114-115 | the rounded-up quotient is that number of pages |
| `PrefillAdmission.CountWindowPages` | mlc-llm/cpp/serve/engine_actions/batch_prefill_base.cc:118-135 | following the parents yields the pages that the window still allows after the tokens of all ancestors |
| `PrefillAdmission.CountRequiredPages` | mlc-llm/cpp/serve/engine_actions/batch_prefill_base.cc:114-138 | the pages of the tokens, at most those the window allows |
| `PrefillAdmission.Admission.MakeSpace` | mlc-llm/cpp/serve/engine_actions/batch_prefill_base.cc:147-156 | sequences are evicted in order, just as long as there is no space and any is left |
| `PrefillAdmission.RefusedWithSpaceIff` | mlc-llm/cpp/serve/engine_actions/batch_prefill_base.cc:147-160 | an entry for which eviction stops with space is refused if and only if its own sequence lacks its page or its eight tokens |
| `PrefillAdmission.RefusedThoughEvictable` | mlc-llm/cpp/serve/engine_actions/batch_prefill_base.cc:147-160 | an entry refused for one page although an eviction would admit it |
| `PrefillAdmission.Admission.MostChildren` | mlc-llm/cpp/serve/engine_actions/batch_prefill_base.cc:142-168 | the largest number of children that can be activated with the memory at hand after eviction, or none at all |
| `PrefillAdmission.Admission.TryWhole` | mlc-llm/cpp/serve/engine_actions/batch_prefill_base.cc:140-173 | admits the whole entry or restores the accumulators, and then it does not fit even without children, whatever else could be evicted; exactly what is evicted |
| `PrefillAdmission.Admission.TryCut` | mlc-llm/cpp/serve/engine_actions/batch_prefill_base.cc:175-210 | the accumulated length is within the chunk; the entry is cut to fill it or refused |
| `PrefillAdmission.SeenIsPrefix` | mlc-llm/cpp/serve/engine_actions/batch_prefill_base.cc:95-113 | the entries looked at are the first candidates in queue order |
| `PrefillAdmission.CandidatesAre` | mlc-llm/cpp/serve/engine_actions/batch_prefill_base.cc:95-110 | the candidates are exactly the entries with inputs, of requests not disaggregated, whose parent, if any, is alive without inputs, in queue order, each once |
| `PrefillAdmission.CanStartIff` | mlc-llm/cpp/serve/engine_actions/batch_prefill_base.cc:104-110 | the test on an entry, on its fields and its parent's |
| `PrefillAdmission.StoppedAt` | mlc-llm/cpp/serve/engine_actions/batch_prefill_base.cc:172-217 | stopping at an entry leaves an outcome in which that entry is the cut one or could not join |
| `PrefillAdmission.GetRequestStateEntriesToPrefill` | mlc-llm/cpp/serve/engine_actions/batch_prefill_base.cc:48-258 | the batch is the first candidates in order, whole but for the last, within the chunk, the sequence limit times the speculative factor, the pages and the watermark; the next candidate could not join, as far as eviction helps; in hybrid mode every running entry follows with its pending tokens |
| `PrefillAdmission.PagesHoldTokens` | mlc-llm/cpp/serve/engine_actions/batch_prefill_base.cc:114-141 | the pages counted for a batch hold its tokens with less than a page per entry to spare |
| `PrefillAdmission.AdmittedTokensFit` | mlc-llm/cpp/serve/engine_actions/batch_prefill_base.cc:294-301 | the admitted tokens fit into the pages left when every running entry takes one and every sequence has one to spare |
| `Preemption.InputsForPrefill` | mlc-llm/cpp/serve/engine_actions/action_commons.cc:374-396 | the new inputs flatten to the prompt followed by the committed tokens |
| `Preemption.CatchUp` | mlc-llm/cpp/serve/engine_actions/action_commons.cc:366-372 | a lagging model ends with all tokens of the main model |
| `Preemption.Requeue` | mlc-llm/cpp/serve/engine_actions/action_commons.cc:358-410 | every model is to prefill prompt and all tokens committed on the main model, under the new id |
| `Preemption.RequeuedIsQueued` | mlc-llm/cpp/serve/engine_actions/action_commons.cc:412-419 | alive requests are running, requests with inputs wait, each once, also after moving the last one |
| `Preemption.IdsAfter` | mlc-llm/cpp/serve/engine_actions/action_commons.cc:401-410 | ids stay unique after preemption; the old id is lost exactly if it was not returned |
| `Preemption.EngineState.PreemptLastRunningRequestStateEntry` | mlc-llm/cpp/serve/engine_actions/action_commons.cc:328-422 | the last running request leaves the running queue and waits with its prompt and committed tokens; exactly its pages become free; the old id is lost if and only if the cache did not hold it; lost ids stay lost |
| `Preemption.LostId` | mlc-llm/cpp/serve/engine_actions/action_commons.cc:401-410 | a request that is added, prefilled and preempted without being cached, after which its id is lost |
| `Preemption.EngineState.AddRequest` | mlc-llm/cpp/serve/engine.cc:692-693 | a new request waits, pending, with an id of its own |
| `Preemption.EngineState.FinishPrefill` | mlc-llm/cpp/serve/engine_actions/batch_prefill_base.cc:403-455 | a prefilled request runs, once, and no longer waits; every model commits the token; its pages are no longer free |
| `Preemption.EngineState.MakeRoomToDecode` | mlc-llm/cpp/serve/engine_actions/batch_decode.cc:52-60 | the loop ends, never pops an empty list, leaves a page for each request to decode, conserves the pages, preempts only from the end, only when nothing is left to evict, and no more than needed; exactly when nothing is left to decode |
| `Preemption.ReadyIff` | mlc-llm/cpp/serve/engine_state.cc:33-49 | the requests to decode are the running ones that are alive with nothing left to prefill |
| `Preemption.ReadyConcat` | mlc-llm/cpp/serve/engine_state.cc:33-49 | in the order in which they run |
| `Preemption.PagesUpdated` | mlc-llm/cpp/serve/engine_actions/action_commons.cc:401-405 | the pages of all requests after one of them changed |
| `Preemption.EngineState.TryFreeMemory` | mlc-llm/cpp/serve/prefix_cache.cc:222-240 | an eviction makes exactly the pages of the evicted sequence free |
| `Preemption.NothingLeftIff` | mlc-llm/cpp/serve/engine_actions/batch_decode.cc:52-75 | nothing is left to decode if and only if nothing was ready or the first ready request is starved |
| `Preemption.StarvedRequest` | mlc-llm/cpp/serve/engine_actions/batch_decode.cc:52-75 | a request that holds the only page is preempted to make room for itself |
| `Preemption.EngineState.SelectForDecode` | mlc-llm/cpp/serve/engine_actions/batch_decode.cc:48-66 | at most the limit of ready requests, the first ones |
| `Preemption.LastReady` | mlc-llm/cpp/serve/engine_actions/batch_decode.cc:55-59 | comparing the preempted entry with the last ready one keeps the list equal to the ready requests |
| `DraftSlots.DraftTokenWorkspaceManager.AllocSlots` | mlc-llm/cpp/serve/draft_token_workspace_manager.cc:29-50 | distinct slots that nobody uses, the last of the free list, last one first, with the given counts |
| `DraftSlots.DraftTokenWorkspaceManager.FreeSlots` | mlc-llm/cpp/serve/draft_token_workspace_manager.cc:52-59 | drops one reference per listing; free and counted slots stay a partition of all slots |
| `DraftSlots.Moved` | mlc-llm/cpp/serve/draft_token_workspace_manager.cc:38-50 | moving distinct free slots to positive counts keeps the partition |
| `DraftSlots.RemovedSlots` | mlc-llm/cpp/serve/request_state.cc:92-107 | every slot of the draft tokens is reported once |
| `DraftSlots.DraftingSystem.AttachAll` | mlc-llm/cpp/serve/request_state.cc:79-90 | each new slot is held by exactly the model states that got a token in it |
| `DraftSlots.DraftingSystem.Draft` | mlc-llm/cpp/serve/engine_actions/batch_draft.cc:273-288 | for any positive counts, the excess of references over users of each new slot is its count less its users, and of every other slot unchanged; so slots and users agree if and only if they did and each new slot is counted once per user |
| `DraftSlots.LeakedSlot` | mlc-llm/cpp/serve/engine_actions/batch_draft.cc:283-286 | a slot allocated for a sample without tokens is, after any further rounds and removals, still counted and not free |
| `DraftSlots.DraftingSystem.Run` | mlc-llm/cpp/serve/draft_token_workspace_manager.cc:25-59 | over every run of rounds and removals a slot with an excess keeps it and is never free |
| `DraftSlots.DraftingSystem.RemoveAllDraftTokens` | mlc-llm/cpp/serve/engine_actions/action_commons.cc:152-157 | dropping a model state's tokens frees each of its slots once, never one without references, and changes no excess |
| `DraftSlots.FreeIffUnused` | mlc-llm/cpp/serve/draft_token_workspace_manager.cc:25-59 | after any run a slot is free, and listed once, if and only if no draft token names it |
| `PrefixTokenMask.PrefixReachesBetween` | mlc-llm/cpp/tokenizers/tokenizers.cc:115-125 | whatever sorts between a string and an extension of it extends it too |
| `PrefixTokenMask.NextPairDecides` | mlc-llm/cpp/tokenizers/tokenizers.cc:115-125 | a token prefixes some later pair if and only if it prefixes the next one |
| `PrefixTokenMask.MarkNeighbours` | mlc-llm/cpp/tokenizers/tokenizers.cc:115-125 | the linear scan computes the quadratic definition |
| `PrefixTokenMask.Tokenizer.GetPrefixTokenMask` | mlc-llm/cpp/tokenizers/tokenizers.cc:101-128 | the mask is exact, and the cached one is returned when there is one |
| `PrefixTokenMask.MarkedIff` | mlc-llm/cpp/tokenizers/tokenizers.cc:115-125 | a token is marked if and only if it is a proper prefix of another or has an equal one with a larger id |
| `PrefixTokenMask.MaskIsProperPrefixIff` | mlc-llm/cpp/tokenizers/tokenizers.cc:115-125 | the mask is "proper prefix of another token" if and only if of any two equal strings the earlier one is a proper prefix of some token |
| `PrefixTokenMask.MaskOfDistinctTokens` | mlc-llm/cpp/tokenizers/tokenizers.cc:115-125 | with distinct token strings it marks exactly the proper prefixes of other tokens |
| `PrefixTokenMask.DuplicateIsMarked` | mlc-llm/cpp/tokenizers/tokenizers.cc:115-125 | a table of two equal strings on which it is not, and one with equal strings on which it is |
| `Utf8.ParseNextUTF8` | mlc-llm/cpp/support/encoding.cc:79-131 | reads one whole sequence, or handles the first byte by the error policy |
| `Utf8.ParseUTF8` | mlc-llm/cpp/support/encoding.cc:133-144 | terminates on every string under both policies, with the specified code points |
| `Utf8.NextOfPrinted` | mlc-llm/cpp/support/encoding.cc:14-37 | a printed code point is read back whole, whatever follows |
| `Utf8.ParseOfPrinted` | mlc-llm/cpp/support/encoding.cc:133-144 | parsing a printed list gives it back up to the first zero |
| `Utf8.RoundTrip` | mlc-llm/cpp/support/encoding.cc:14-37 | parsing a printed list of code points in range gives it back if and only if none is zero |
| `Utf8.PrintOfNext` | mlc-llm/cpp/support/encoding.cc:79-131 | under either policy, printing what is parsed first gives its bytes back if and only if the string starts with a shortest form; bytes that start no sequence never come back |
| `Utf8.ShortestIff` | mlc-llm/cpp/support/encoding.cc:79-131 | the shortest forms of code points in range, told by their first two bytes |
| `Utf8.OverlongIsShortened` | mlc-llm/cpp/support/encoding.cc:108-131 | an overlong form is accepted and printed back shorter |
| `Utf8.PrintOfParsed` | mlc-llm/cpp/support/encoding.cc:133-144 | under kReturnByte, printing what was parsed from any string gives it back if and only if it is made of shortest forms without a zero |
| `Utf8.PrintOfParsedOrInvalid` | mlc-llm/cpp/support/encoding.cc:133-144 | under kReturnInvalid, if and only if it is made of shortest forms without a zero or is the single byte 0xF6 |
| `Utf8.PoliciesAgree` | mlc-llm/cpp/support/encoding.cc:121-128 | the policies give the same code points unless parsing fails as a whole, which shortest forms never do |
| `Utf8.InvalidIff` | mlc-llm/cpp/support/encoding.cc:108-144 | under kReturnInvalid parsing fails as a whole if and only if the bytes before the first zero are not made of whole sequences |
| `Utf8.ErrorValueComesBack` | mlc-llm/cpp/support/encoding.cc:14-20 | the byte 0xF6: rejected under kReturnInvalid and printed back as itself, passed through under kReturnByte and printed as two bytes |
| `Utf8.ConsumesAll` | mlc-llm/cpp/support/encoding.cc:133-144 | under kReturnByte a string without zeros is consumed entirely, one chunk per code point: a whole sequence wherever one starts, otherwise a single byte |
| `Utf8.NeverInvalid` | mlc-llm/cpp/support/encoding.cc:108-131 | under kReturnByte no code point is the error value |

## Left out

- The token ring buffer of a page is a sequence (its offset never leaves 0), and the linked lists of sequence-id nodes with their pool are sequences; what is not captured is the reuse of list nodes.
- `Reset` of the pools, the tree, the cache and the id manager; the pools reserve but do not resize, so pool properties are stated over runs of Allocate and Free.
- Machine integer widths: ids, lengths and counters are unbounded, and `seq2page` is keyed by any integer.
- PagedRadixTrees.PagedRadixTree.RemoveSequence: requires a known id, because the source dereferences a null page for any other.
- PrefixCaches.PrefixCache.ExtendSequence: requires the id to be active or unknown, which its callers ensure; extending a recycling id is not described.
- The vectors that the queue refers to are assumed to exist until the commit; a vector destroyed before is not described.
- EngineCache.IdManager.RecycleId: requires an id in use, which holds at every call modelled here; the source accepts any id, and aborting a request with several branches can return one twice.
- PrefixCaches.PrefixCache.InsertSequence: the id must differ from -1, which the result type uses for "none".
- The prefix cache's remove callback is modelled by the list of removed ids, applied by the caller right after the call; a callback that calls back into the cache is not captured. The 0.9 threshold of reuse is a real number.
- The disabled prefix cache (`NoPrefixCache`), pinned prompts, and `EnableSlidingWindow` on the KV cache, whose contents are a map from id to tokens.
- StopStrHandlers.StopStrHandler.constructor: the list of stop strings is not empty and no stop string is; an empty list makes the handler pass tokens through.
- Retokenisation is for one model and no stop strings, with the prefix cache off; the grammar matcher only supplies the jump-forward string, and stop by length or stop token in GetDeltaRequestReturn is not modelled. The tree and the KV cache are not claimed to agree under jump-forward rollback.
- Retokenize.Generation.Decode: says nothing about the sampler; the sampled token is arbitrary.
- The threaded engine has one client that makes control calls; the stream-back loop and its exit, and what the engine does when it steps, are not modelled.
- Admission is for one model: the reduction over several models is not described. Pages freed by evictions are given numbers; preconditions are the engine's own checks that running entries do not exceed the sequence limit and pending decode tokens fit the chunk.
- Preemption.EngineState.PreemptLastRunningRequestStateEntry: the prefix cache is a set of ids here and recycling sequences a list; the cache itself, with its callback, is in EngineCache.Engine.Preempt.
- Preemption and the decode loop are for requests with a single entry and without disaggregation; draft slots are treated separately, and pages given back are given numbers.
- PrintAsUTF8 rejects code points above 0x10FFFF by a precondition, its own check; bit operations are written as quotients and remainders.
- Sorting the token table is an insertion sort in place of the library's; the one-argument AllocSlots is the other with counts of 1.
- Tensors, samplers, models, images, grammars, JSON, configuration, metrics, tracing, escaped strings, the text streamer, and the Python and build code.
