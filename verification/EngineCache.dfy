/**
  The engine around the prefix cache: the KV caches of the models (a map from id to tokens
  each), the manager of internal ids, and MatchPrefixCache, which keeps them in step.
  */
module EngineCache {
  import opened Sequences
  import opened PagedRadixTrees
  import opened PrefixCacheSpec
  import opened PrefixCacheQueue
  import opened PrefixCaches
  import opened PrefillInputs

  type KvCache = map<int, seq<int>>

  /** The shape of an InsertSequence result; the client CHECKs parts of it. */
  ghost predicate ShapeOk(c: Cache, tokens: seq<int>, r: MatchedResult) {
    && r.prefilledOffset < |tokens|
    && (r.prefilledOffset == 0 ==> r == NO_MATCH)
    && (r.forkedSeqId != -1 ==>
          && r.reusedSeqId == -1 && r.popLastTokens == 0 && 0 < r.prefilledOffset
          && r.forkedSeqId in c.contents && tokens[..r.prefilledOffset] <= c.contents[r.forkedSeqId])
    && (r.prefilledOffset > 0 && r.forkedSeqId == -1 ==>
          && r.reusedSeqId != -1 && r.reusedSeqId in c.contents
          && tokens[..r.prefilledOffset] <= c.contents[r.reusedSeqId]
          && r.popLastTokens == |c.contents[r.reusedSeqId]| - r.prefilledOffset)
  }

  lemma ResultShape(c: Cache, id: int, tokens: seq<int>, w: Window, r: MatchedResult, d: Cache)
    requires tokens != [] && InsertStep(c, id, tokens, w, r, d) && -1 !in c.contents
    ensures ShapeOk(c, tokens, r)
  {
    var t := tokens[..|tokens| - 1];
    var offset: nat :| IsLongestMatch(c.contents, t, offset) && InsertAt(c, id, t[..offset], w, r, d);
    assert t[..offset] == tokens[..offset];
  }

  /** A KV cache holds the cached tokens of every cached id. */
  ghost predicate Holds(kv: KvCache, contents: map<int, seq<int>>) {
    forall id :: id in contents ==> id in kv && kv[id] == contents[id]
  }

  /** What MatchPrefixCache does to one KV cache. */
  function KvAfterMatch(kv: KvCache, id: int, r: MatchedResult): KvCache
    requires r.forkedSeqId != -1 ==> r.forkedSeqId in kv && r.prefilledOffset <= |kv[r.forkedSeqId]|
    requires r.reusedSeqId != -1 ==> r.reusedSeqId in kv && r.popLastTokens <= |kv[r.reusedSeqId]|
  {
    if r.prefilledOffset == 0 then kv[id := []]
    else if r.forkedSeqId != -1 then kv[id := kv[r.forkedSeqId][..r.prefilledOffset]]
    else if r.reusedSeqId != -1 then kv[r.reusedSeqId := kv[r.reusedSeqId][..|kv[r.reusedSeqId]| - r.popLastTokens]]
    else kv
  }

  /** Add, fork and reuse keep a KV cache in step with the prefix cache. */
  lemma KvStaysInStep(kv: KvCache, c: Cache, id: int, tokens: seq<int>, w: Window, r: MatchedResult, d: Cache)
    requires Holds(kv, c.contents) && ShapeOk(c, tokens, r) && Delivers(c, id, tokens, w, r, d)
    ensures r.forkedSeqId != -1 ==> r.forkedSeqId in kv && r.prefilledOffset <= |kv[r.forkedSeqId]|
    ensures r.reusedSeqId != -1 ==> r.reusedSeqId in kv && r.popLastTokens <= |kv[r.reusedSeqId]|
    ensures Holds(KvAfterMatch(kv, id, r), d.contents)
    ensures KvAfterMatch(kv, id, r) - {FinalId(id, r)} == kv - {FinalId(id, r)}
  {
    var x := FinalId(id, r);
    var kv' := KvAfterMatch(kv, id, r);
    forall y | y in d.contents ensures y in kv' && kv'[y] == d.contents[y] {
      if y != x {
        assert y in d.contents - {x} && (d.contents - {x})[y] == (c.contents - {x})[y];
      }
    }
  }

  ghost function Elems(s: seq<int>): set<int> {
    set x | x in s
  }

  /** An id in use belongs to an unfinished entry or is a recycling sequence, never both,
      and an active sequence belongs to an entry. */
  ghost predicate IdAccount(used: set<int>, owned: set<int>, c: Cache, id: int) {
    && (id in used <==> id in owned || IsRecycling(c, id))
    && (id in owned ==> id >= 0 && !IsRecycling(c, id))
    && (id in c.contents && !IsRecycling(c, id) ==> id in owned)
    && (id in used ==> id >= 0)
  }

  ghost predicate Accounted(used: set<int>, owned: set<int>, c: Cache) {
    forall id {:trigger IdAccount(used, owned, c, id)} :: IdAccount(used, owned, c, id)
  }

  /** A match trades the fresh id of the entry for the delivered one. */
  lemma AccountedAfterMatch(used: set<int>, owned: set<int>, c: Cache, id: int, tokens: seq<int>, w: Window, r: MatchedResult, d: Cache)
    requires Accounted(used, owned, c) && Delivers(c, id, tokens, w, r, d)
    requires id in owned && id !in c.contents
    ensures var x := FinalId(id, r);
            && Accounted(if x == id then used else used - {id}, owned - {id} + {x}, d)
            && (x != id ==> x !in owned && IsRecycling(c, x))
  {
    var x := FinalId(id, r);
    var used' := if x == id then used else used - {id};
    assert IdAccount(used, owned, c, x) && IdAccount(used, owned, c, id);
    forall y ensures IdAccount(used', owned - {id} + {x}, d, y) {
      assert IdAccount(used, owned, c, y);
      if y != x {
        assert y in d.states <==> y in d.states - {x};
        assert y in c.states <==> y in c.states - {x};
        assert y in d.contents <==> y in d.contents - {x};
        assert y in c.contents <==> y in c.contents - {x};
        assert y in c.states ==> (c.states - {x})[y] == (d.states - {x})[y];
      }
    }
  }

  function Appended(kv: KvCache, id: int, tokens: seq<int>): KvCache {
    kv[id := (if id in kv then kv[id] else []) + tokens]
  }

  /** An id nobody has any more and nobody returned leaves the account. */
  lemma AccountedWithout(used: set<int>, owned: set<int>, c: Cache, id: int)
    requires Accounted(used, owned, c) && id in owned && id !in c.contents && !IsRecycling(c, id)
    ensures Accounted(used - {id}, owned - {id}, c)
  {
    forall y ensures IdAccount(used - {id}, owned - {id}, c, y) { assert IdAccount(used, owned, c, y); }
  }

  lemma AccountedWith(used: set<int>, owned: set<int>, c: Cache, id: int)
    requires Accounted(used, owned, c) && id !in used && id >= 0
    ensures Accounted(used + {id}, owned + {id}, c) && id !in owned
    ensures id !in c.contents
  {
    assert IdAccount(used, owned, c, id);
    forall y ensures IdAccount(used + {id}, owned + {id}, c, y) { assert IdAccount(used, owned, c, y); }
  }

  /** The first n extensions, one after the other. */
  ghost function ExtendAll(c: Cache, work: seq<(int, VectorId, seq<int>)>, n: nat): Cache
    requires n <= |work|
  {
    if n == 0 then c else Extend(ExtendAll(c, work, n - 1), work[n - 1].0, work[n - 1].2)
  }

  /** Each piece of work has a vector of its own. */
  ghost predicate OwnVectors(work: seq<(int, VectorId, seq<int>)>) {
    forall j, k :: 0 <= j < k < |work| ==> work[j].1 != work[k].1
  }

  /** The queue holds the first i pieces of work. */
  ghost predicate QueuedSoFar(pending: Pending, work: seq<(int, VectorId, seq<int>)>, i: nat) {
    |pending| == i <= |work| && forall j :: 0 <= j < i ==> pending[j] == (work[j].0, work[j].1)
  }

  /** The next piece of work, on values. */
  lemma WorkStep(c: Cache, contents: map<int, seq<int>>, pending: Pending, vectors: Vectors, work: seq<(int, VectorId, seq<int>)>, i: nat)
    requires QueuedSoFar(pending, work, i) && i < |work| && OwnVectors(work)
    ensures Unseen(contents, pending, vectors, work[i].1, work[i].2)
    ensures QueuedSoFar(pending + [(work[i].0, work[i].1)], work, i + 1)
    ensures ExtendAll(c, work, i + 1) == Extend(ExtendAll(c, work, i), work[i].0, work[i].2)
  {}

  lemma HoldsAppended(kv: KvCache, c: Cache, id: int, tokens: seq<int>)
    requires Holds(kv, c.contents)
    ensures Holds(Appended(kv, id, tokens), Extend(c, id, tokens).contents)
  {}

  lemma AccountedAfterExtend(used: set<int>, owned: set<int>, c: Cache, id: int, tokens: seq<int>)
    requires Accounted(used, owned, c)
    ensures Accounted(used, owned, Extend(c, id, tokens))
  {
    var d := Extend(c, id, tokens);
    forall y ensures IdAccount(used, owned, d, y) { assert IdAccount(used, owned, c, y); }
  }

  lemma AccountedAfterEvict(used: set<int>, owned: set<int>, c: Cache, id: int)
    requires Accounted(used, owned, c) && id in c.lrus && IsRecycling(c, id)
    ensures id in used && Accounted(used - {id}, owned, Evict(c, id))
  {
    assert IdAccount(used, owned, c, id);
    forall y ensures IdAccount(used - {id}, owned, Evict(c, id), y) {
      assert IdAccount(used, owned, c, y);
    }
  }

  lemma AccountedAfterRecycle(used: set<int>, owned: set<int>, c: Cache, id: int)
    requires Accounted(used, owned, c) && id in c.states && c.states[id] == Active && id in owned
    ensures Accounted(used, owned - {id}, Recycle(c, id))
  {
    forall y ensures IdAccount(used, owned - {id}, Recycle(c, id), y) {
      assert IdAccount(used, owned, c, y);
    }
  }

  lemma AccountedAfterRemove(used: set<int>, owned: set<int>, c: Cache, id: int)
    requires Accounted(used, owned, c) && id in c.states && c.states[id] == Active && id in owned
    ensures id in used
    ensures Accounted(used - {id}, owned - {id}, Remove(c, id))
  {
    assert IdAccount(used, owned, c, id);
    forall y ensures IdAccount(used - {id}, owned - {id}, Remove(c, id), y) {
      assert IdAccount(used, owned, c, y);
    }
  }

  /** What an operation that removes the listed sequences leaves to the remove callback:
      those ids are in use, and without them the accounts and the KV caches are right. */
  ghost predicate LeftToRemove(used: set<int>, owned: set<int>, c: Cache, removed: seq<int>, d: Cache) {
    && Distinct(removed) && Elems(removed) <= used
    && Accounted(used - Elems(removed), owned, d)
    && (forall y :: y in d.contents ==> y in c.contents && y !in removed && d.contents[y] == c.contents[y])
  }

  lemma NothingRemoved(used: set<int>, owned: set<int>, c: Cache, d: Cache)
    requires Accounted(used, owned, d) && d.contents == c.contents
    ensures LeftToRemove(used, owned, c, [], d)
  {
    assert used - Elems([]) == used;
  }

  lemma OneRemoved(used: set<int>, owned: set<int>, c: Cache, id: int, d: Cache)
    requires id in used && Accounted(used - {id}, owned, d) && d.contents == c.contents - {id}
    ensures LeftToRemove(used, owned, c, [id], d)
  {
    assert Elems([id]) == {id};
  }

  /** Recycling, whichever way it goes: the owner lets go of the id. */
  lemma AccountedAfterRecycleStep(used: set<int>, owned: set<int>, c: Cache, maxRecycling: int, id: int, isLazy: bool,
                                  removed: seq<int>, d: Cache)
    requires Accounted(used, owned, c) && Consistent(c, maxRecycling)
    requires id in c.states && c.states[id] == Active && id in owned
    requires RecycleStep(c, maxRecycling, id, isLazy, removed, d)
    ensures LeftToRemove(used, owned - {id}, c, removed, d)
  {
    if !isLazy || maxRecycling == 0 {
      AccountedAfterRemove(used, owned, c, id);
      OneRemoved(used, owned - {id}, c, id, d);
    } else if |c.lrus| != maxRecycling {
      AccountedAfterRecycle(used, owned, c, id);
      NothingRemoved(used, owned - {id}, c, d);
    } else {
      var v := removed[0];
      assert removed == [v] && IdStampOk(c, v) && IdStampOk(c, id);
      AccountedAfterEvict(used, owned, c, v);
      AccountedAfterRecycle(used - {v}, owned, Evict(c, v), id);
      OneRemoved(used, owned - {id}, c, v, d);
    }
  }

  lemma AccountedAfterFreeStep(used: set<int>, owned: set<int>, c: Cache, maxRecycling: int, freed: bool, removed: seq<int>, d: Cache)
    requires Accounted(used, owned, c) && Consistent(c, maxRecycling) && FreeStep(c, freed, removed, d)
    ensures LeftToRemove(used, owned, c, removed, d)
    ensures freed ==> |d.lrus| < |c.lrus|
  {
    if freed {
      var v := removed[0];
      assert removed == [v] && IdStampOk(c, v);
      AccountedAfterEvict(used, owned, c, v);
      EvictConsistent(c, maxRecycling, v);
      OneRemoved(used, owned, c, v, d);
    } else {
      NothingRemoved(used, owned, c, d);
    }
  }

  /** EngineInternalIDManager */
  class IdManager {
    var availableIds: seq<int>
    var idCnt: nat

    ghost predicate Valid()
      reads this
    {
      Distinct(availableIds) && forall id :: id in availableIds ==> 0 <= id < idCnt
    }

    /** The ids handed out and not yet returned. */
    ghost function Used(): set<int>
      reads this
    {
      set id | 0 <= id < idCnt && id !in availableIds
    }

    constructor ()
      ensures Valid() && Used() == {}
    {
      availableIds, idCnt := [], 0;
    }

    /** Never hands out an id that is in use. */
    method GetNewId() returns (id: int)
      requires Valid()
      modifies this
      ensures Valid() && 0 <= id && id !in old(Used())
      ensures Used() == old(Used()) + {id}
    {
      if availableIds != [] {
        var n := |availableIds| - 1;
        id := availableIds[n];
        assert id in availableIds && id !in availableIds[..n];
        assert availableIds == availableIds[..n] + [id];
        assert forall x :: x in availableIds[..n] ==> x in availableIds;
        availableIds := availableIds[..n];
      } else {
        id := idCnt;
        idCnt := idCnt + 1;
      }
    }

    /** An id is returned once: the precondition is met at every call modelled here. */
    method RecycleId(id: int)
      requires Valid() && id in Used()
      modifies this`availableIds
      ensures Valid() && Used() == old(Used()) - {id}
    {
      availableIds := availableIds + [id];
    }
  }

  /** The parts of a request state entry that MatchPrefixCache reads and writes,
      one id and one input list for every model. */
  class RequestEntry {
    const parentIdx: int
    var pending: bool
    var internalIds: seq<int>
    var inputs: seq<seq<Data>>

    constructor (parentIdx: int, id: int, inputs: seq<Data>, numModels: nat)
      ensures this.parentIdx == parentIdx && pending
      ensures internalIds == seq(numModels, _ => id)
      ensures this.inputs == seq(numModels, _ => inputs)
    {
      this.parentIdx, pending := parentIdx, true;
      internalIds, this.inputs := seq(numModels, _ => id), seq(numModels, _ => inputs);
    }

    /** All models share one id, and all of them still have to prefill the same prompt. */
    ghost predicate Uniform(id: int)
      reads this
    {
      && |internalIds| == |inputs| > 0
      && (forall m :: 0 <= m < |inputs| ==> internalIds[m] == id)
      && (forall m :: 0 <= m < |inputs| && AllTokens(inputs[0]) ==>
            AllTokens(inputs[m]) && Tokens(inputs[m]) == Tokens(inputs[0]))
    }
  }

  class Engine {
    const cache: PrefixCache
    const ids: IdManager
    var kv: seq<KvCache>
    /** The ids held by request entries that have not finished. */
    ghost var owned: set<int>
    /** The ids that no entry and no recycling sequence has although they were never returned. */
    ghost var lost: set<int>

    /** The ids in use that somebody has. */
    ghost function Live(): set<int>
      reads this, ids
    {
      ids.Used() - lost
    }

    ghost function Model(): Cache
      reads cache, cache.tree, cache.tree.pool
      requires cache.tree.Valid()
    {
      cache.Model()
    }

    /** The KV cache of every model holds the cached tokens of every cached id. */
    ghost predicate InStep()
      reads this, cache, cache.tree, cache.tree.pool
      requires cache.tree.Valid()
    {
      forall m :: 0 <= m < |kv| ==> Holds(kv[m], Model().contents)
    }

    ghost predicate Valid()
      reads this, ids, cache, cache.tree, cache.tree.pool
    {
      cache.Valid() && ids.Valid() && lost <= ids.Used() && Accounted(Live(), owned, Model()) && InStep()
    }

    constructor (maxRecycling: int, numModels: nat)
      ensures Valid() && owned == {} && lost == {} && |kv| == numModels
      ensures fresh(cache) && fresh(cache.tree)
      ensures fresh(cache.tree.pool) && fresh(ids)
    {
      cache := new PrefixCache(maxRecycling);
      ids := new IdManager();
      kv := seq(numModels, _ => map[]);
      owned, lost := {}, {};
    }

    // ----- MatchPrefixCache -----------------------------------------------------------------

    /** The condition under which an entry is looked up at all. */
    ghost predicate Eligible(entry: RequestEntry)
      reads entry, cache, cache.tree, cache.tree.pool
      requires cache.tree.Valid()
    {
      && entry.parentIdx == -1 && entry.pending
      && |entry.inputs| > 0 && |entry.internalIds| > 0 && entry.internalIds[0] !in Model().contents
      && AllTokens(entry.inputs[0]) && Tokens(entry.inputs[0]) != []
    }

    /** Adds, forks or trims the sequence in the KV cache of every model. */
    method UpdateKv(id: int, r: MatchedResult, ghost c: Cache, ghost tokens: seq<int>, ghost w: Window, ghost d: Cache)
      requires forall m :: 0 <= m < |kv| ==> Holds(kv[m], c.contents)
      requires ShapeOk(c, tokens, r) && Delivers(c, id, tokens, w, r, d)
      modifies this`kv
      ensures |kv| == |old(kv)| && forall m :: 0 <= m < |kv| ==> Holds(kv[m], d.contents)
      ensures forall m :: 0 <= m < |kv| ==> kv[m] - {FinalId(id, r)} == old(kv)[m] - {FinalId(id, r)}
    {
      var n := |kv|;
      for m := 0 to n
        invariant |kv| == n
        invariant forall j :: 0 <= j < n ==> kv[j] - {FinalId(id, r)} == old(kv)[j] - {FinalId(id, r)}
        invariant forall j :: 0 <= j < n ==> Holds(kv[j], if j < m then d.contents else c.contents)
      {
        KvStaysInStep(kv[m], c, id, tokens, w, r, d);
        kv := kv[m := KvAfterMatch(kv[m], id, r)];
      }
    }

    /** On reuse the fresh id goes back to the manager and the entry takes over the reused one. */
    method UpdateId(entry: RequestEntry, r: MatchedResult, ghost id: int)
      requires ids.Valid() && id in ids.Used() && entry.Uniform(id) && id != -1
      requires r.reusedSeqId != id
      modifies this`owned, ids`availableIds, entry`internalIds
      ensures ids.Valid() && entry.Uniform(FinalId(id, r))
      ensures owned == old(owned) - {id} + {FinalId(id, r)}
      ensures ids.Used() == if FinalId(id, r) == id then old(ids.Used()) else old(ids.Used()) - {id}
    {
      if r.reusedSeqId != -1 {
        ids.RecycleId(entry.internalIds[0]);
        entry.internalIds := seq(|entry.internalIds|, _ => r.reusedSeqId);
      }
      owned := owned - {id} + {FinalId(id, r)};
    }

    /** Pops the same prefix from the inputs of every model. */
    method PopInputs(entry: RequestEntry, offset: nat, ghost id: int)
      requires entry.Uniform(id) && AllTokens(entry.inputs[0]) && 0 < offset < |Tokens(entry.inputs[0])|
      modifies entry`inputs
      ensures entry.Uniform(id)
      ensures |entry.inputs| == |old(entry.inputs)|
      ensures AllTokens(entry.inputs[0])
      ensures Tokens(entry.inputs[0]) == Tokens(old(entry.inputs)[0])[offset..]
    {
      var n := |entry.inputs|;
      ghost var tokens := Tokens(entry.inputs[0]);
      for m := 0 to n
        invariant |entry.inputs| == n
        invariant forall j :: 0 <= j < n ==> AllTokens(entry.inputs[j])
        invariant forall j :: 0 <= j < n ==>
                    Tokens(entry.inputs[j]) == if j < m then tokens[offset..] else tokens
      {
        var rest := PopPrefillInputData(entry.inputs[m], offset);
        entry.inputs := entry.inputs[m := rest];
      }
    }

    /** InsertSequence, seen through what it delivers to its client. */
    method InsertPrompt(id: int, tokens: seq<int>, windowSize: int, sinkSize: nat) returns (r: MatchedResult)
      requires cache.Valid() && id != -1 && id !in Model().contents && tokens != [] && windowSize != 0
      modifies cache, cache.tree, cache.tree.pool
      ensures cache.Valid()
      ensures ShapeOk(old(Model()), tokens, r)
      ensures Delivers(old(Model()), id, tokens, Window(windowSize, sinkSize), r, Model())
      ensures BestMatch(old(Model()), tokens, Window(windowSize, sinkSize), r.prefilledOffset, r.reusedSeqId != -1)
    {
      ghost var c := Model();
      var ok;
      ok, r := cache.InsertSequence(id, tokens, windowSize, sinkSize);
      InsertContract(c, cache.maxRecycling, id, tokens, Window(windowSize, sinkSize), r, Model());
      ResultShape(c, id, tokens, Window(windowSize, sinkSize), r, Model());
      InsertFindsBest(c, id, tokens, Window(windowSize, sinkSize), r, Model());
    }

    /** The cache and the KV caches. */
    method InsertInStep(id: int, tokens: seq<int>, windowSize: int, sinkSize: nat) returns (r: MatchedResult)
      requires cache.Valid() && id != -1 && id !in Model().contents && tokens != [] && windowSize != 0
      requires forall m :: 0 <= m < |kv| ==> Holds(kv[m], Model().contents)
      modifies this`kv, cache, cache.tree, cache.tree.pool
      ensures cache.Valid() && |kv| == |old(kv)| && forall m :: 0 <= m < |kv| ==> Holds(kv[m], Model().contents)
      ensures forall m :: 0 <= m < |kv| ==> kv[m] - {FinalId(id, r)} == old(kv)[m] - {FinalId(id, r)}
      ensures ShapeOk(old(Model()), tokens, r)
      ensures Delivers(old(Model()), id, tokens, Window(windowSize, sinkSize), r, Model())
      ensures BestMatch(old(Model()), tokens, Window(windowSize, sinkSize), r.prefilledOffset, r.reusedSeqId != -1)
    {
      ghost var c := Model();
      r := InsertPrompt(id, tokens, windowSize, sinkSize);
      ghost var d := Model();
      UpdateKv(id, r, c, tokens, Window(windowSize, sinkSize), d);
      assert Model() == d;
    }

    /** The cache, the KV caches and the ids, for an entry that is looked up. */
    method MatchTokens(entry: RequestEntry, tokens: seq<int>, windowSize: int, sinkSize: nat, ghost id: int)
        returns (r: MatchedResult)
      requires Valid() && tokens != [] && windowSize != 0
      requires entry.Uniform(id) && id in owned && id !in Model().contents
      modifies this`kv, this`owned, ids, cache, cache.tree, cache.tree.pool, entry`internalIds
      ensures Valid() && |kv| == |old(kv)|
      ensures forall m :: 0 <= m < |kv| ==> kv[m] - {FinalId(id, r)} == old(kv)[m] - {FinalId(id, r)}
      ensures r.prefilledOffset < |tokens|
      ensures BestMatch(old(Model()), tokens, Window(windowSize, sinkSize), r.prefilledOffset, FinalId(id, r) != id)
      ensures var x := FinalId(id, r);
              && entry.Uniform(x) && x in Model().contents && Model().contents[x] == tokens[..r.prefilledOffset]
              && owned == old(owned) - {id} + {x}
              && (x != id ==> x !in old(owned) && IsRecycling(old(Model()), x) && id !in ids.Used())
    {
      ghost var c := Model();
      ghost var w := Window(windowSize, sinkSize);
      assert IdAccount(Live(), owned, c, id);
      r := InsertInStep(entry.internalIds[0], tokens, windowSize, sinkSize);
      TakeOver(entry, r, id, c, tokens, w);
    }

    /** The entry goes on with the id that the cache delivered. */
    method TakeOver(entry: RequestEntry, r: MatchedResult, ghost id: int, ghost c: Cache, ghost tokens: seq<int>, ghost w: Window)
      requires cache.Valid() && ids.Valid() && lost <= ids.Used() && InStep() && Accounted(Live(), owned, c)
      requires Delivers(c, id, tokens, w, r, Model()) && id in owned && id !in c.contents && id != -1 && r.reusedSeqId != id
      requires entry.Uniform(id)
      modifies this`owned, ids`availableIds, entry`internalIds
      ensures Valid() && Model() == old(Model())
      ensures entry.Uniform(FinalId(id, r))
      ensures owned == old(owned) - {id} + {FinalId(id, r)}
      ensures FinalId(id, r) != id ==> FinalId(id, r) !in old(owned) && IsRecycling(c, FinalId(id, r)) && id !in ids.Used()
    {
      ghost var d, live := Model(), Live();
      assert IdAccount(live, owned, c, id);
      AccountedAfterMatch(live, owned, c, id, tokens, w, r, d);
      UpdateId(entry, r, id);
      assert Live() == if FinalId(id, r) == id then live else live - {id};
      assert Model() == d;
    }

    /** The tokens cached for the id of the entry, followed by what remains, are the prompt. */
    ghost predicate Covers(entry: RequestEntry, prompt: seq<int>, matched: nat)
      reads this, entry, cache, cache.tree, cache.tree.pool
      requires cache.tree.Valid()
    {
      && |entry.internalIds| > 0 && entry.Uniform(entry.internalIds[0])
      && AllTokens(entry.inputs[0]) && Tokens(entry.inputs[0]) != []
      && var x := entry.internalIds[0];
      && x in Model().contents && |Model().contents[x]| == matched
      && Model().contents[x] + Tokens(entry.inputs[0]) == prompt
    }

    /** Pops the matched prefix from the inputs. */
    method PopMatched(entry: RequestEntry, offset: nat, ghost x: int, ghost prompt: seq<int>)
      requires Valid() && entry.Uniform(x) && AllTokens(entry.inputs[0]) && Tokens(entry.inputs[0]) == prompt
      requires offset < |prompt| && x in Model().contents && Model().contents[x] == prompt[..offset]
      modifies entry`inputs
      ensures Valid() && Covers(entry, prompt, offset)
    {
      assert prompt[..offset] + prompt[offset..] == prompt;
      if offset > 0 {
        PopInputs(entry, offset, x);
      }
    }

    /** Matches a waiting entry against the prefix cache.  Afterwards the tokens cached for its
        id, followed by the inputs that remain, are its prompt; something remains to prefill;
        the KV caches are in step; and a reused id belongs to this entry alone. */
    method MatchPrefixCache(entry: RequestEntry, windowSize: int, sinkSize: nat) returns (ok: bool, matched: nat)
      requires Valid() && windowSize != 0
      requires |entry.internalIds| > 0 && entry.Uniform(entry.internalIds[0]) && entry.internalIds[0] in owned
      modifies this`kv, this`owned, ids, cache, cache.tree, cache.tree.pool, entry`internalIds, entry`inputs
      ensures Valid() && |kv| == |old(kv)|
      ensures ok <==> old(Eligible(entry))
      ensures !ok ==> matched == 0 && unchanged(this) && unchanged(ids) && unchanged(cache) &&
                      unchanged(cache.tree) && unchanged(cache.tree.pool) && unchanged(entry)
      ensures ok ==> Covers(entry, old(Tokens(entry.inputs[0])), matched)
      ensures ok ==> forall m :: 0 <= m < |kv| ==> kv[m] - {entry.internalIds[0]} == old(kv)[m] - {entry.internalIds[0]}
      ensures ok ==> BestMatch(old(Model()), old(Tokens(entry.inputs[0])), Window(windowSize, sinkSize), matched,
                           entry.internalIds[0] != old(entry.internalIds[0]))
      ensures ok ==>
                && owned == old(owned) - {old(entry.internalIds[0])} + {entry.internalIds[0]}
                && (entry.internalIds[0] != old(entry.internalIds[0]) ==>
                      && entry.internalIds[0] !in old(owned)
                      && IsRecycling(old(Model()), entry.internalIds[0])
                      && old(entry.internalIds[0]) !in ids.Used())
    {
      var has := cache.HasSequence(entry.internalIds[0]);
      if entry.parentIdx != -1 || !entry.pending || has {
        return false, 0;
      }
      var tokens := GetConcatPrefillInputData(entry.inputs[0]);
      if tokens == [] {
        return false, 0;
      }
      ghost var id := entry.internalIds[0];
      var r := MatchTokens(entry, tokens, windowSize, sinkSize, id);
      PopMatched(entry, r.prefilledOffset, FinalId(id, r), tokens);
      return true, r.prefilledOffset;
    }

    // ----- the rest of the life of an entry ---------------------------------------------------

    /** A new entry takes a fresh id. */
    method NewId() returns (id: int)
      requires Valid()
      modifies this`owned, ids
      ensures Valid() && id !in old(owned) && owned == old(owned) + {id}
      ensures id !in Model().contents
    {
      ghost var live, c := Live(), Model();
      id := ids.GetNewId();
      AccountedWith(live, owned, c, id);
      owned := owned + {id};
      assert Live() == live + {id};
      assert Model() == c;
    }

    /** Prefill or decode appends tokens to the sequence in the KV cache of every model. */
    method AppendToModels(id: int, tokens: seq<int>)
      modifies this`kv
      ensures |kv| == |old(kv)| && forall m :: 0 <= m < |kv| ==> kv[m] == Appended(old(kv)[m], id, tokens)
    {
      var n := |kv|;
      for m := 0 to n
        invariant |kv| == n
        invariant forall j :: 0 <= j < n ==> kv[j] == if j < m then Appended(old(kv)[j], id, tokens) else old(kv)[j]
      {
        kv := kv[m := Appended(kv[m], id, tokens)];
      }
    }

    /** Rewrites a vector and tells the prefix cache to extend by it. */
    method ExtendCached(id: int, v: VectorId, tokens: seq<int>)
      requires cache.Valid() && NotRecycling(cache.Stored(), id)
      requires Unseen(cache.tree.Contents(), cache.uncommitted, cache.vectors, v, tokens)
      modifies cache`vectors, cache`uncommitted
      ensures cache.Valid()
      ensures Model() == Extend(old(Model()), id, tokens)
      ensures cache.uncommitted == old(cache.uncommitted) + [(id, v)]
    {
      cache.WriteVector(v, tokens);
      cache.ExtendSequence(id, v);
    }

    /** New tokens of one entry: they enter the KV caches, the entry's vector is rewritten with
        them, and the prefix cache is told to extend by the vector. */
    method Advance(id: int, v: VectorId, tokens: seq<int>)
      requires Valid() && id in owned && Unseen(cache.tree.Contents(), cache.uncommitted, cache.vectors, v, tokens)
      modifies this`kv, cache`vectors, cache`uncommitted
      ensures Valid() && Model() == Extend(old(Model()), id, tokens)
      ensures |kv| == |old(kv)| && forall m :: 0 <= m < |kv| ==> kv[m] == Appended(old(kv)[m], id, tokens)
      ensures cache.uncommitted == old(cache.uncommitted) + [(id, v)]
    {
      ghost var c := Model();
      assert IdAccount(Live(), owned, c, id);
      AccountedAfterExtend(Live(), owned, c, id, tokens);
      forall m | 0 <= m < |kv| ensures Holds(Appended(kv[m], id, tokens), Extend(c, id, tokens).contents) {
        HoldsAppended(kv[m], c, id, tokens);
      }
      ExtendCached(id, v, tokens);
      AppendToModels(id, tokens);
      ghost var d := Model();
      assert d == Extend(c, id, tokens);
    }

    method AdvanceAll(work: seq<(int, VectorId, seq<int>)>)
      requires Valid() && cache.uncommitted == [] && forall i :: 0 <= i < |work| ==> work[i].0 in owned
      requires OwnVectors(work)
      modifies this`kv, cache`vectors, cache`uncommitted
      ensures Valid() && |kv| == |old(kv)|
      ensures Model() == ExtendAll(old(Model()), work, |work|)
    {
      ghost var c := Model();
      for i := 0 to |work|
        invariant Valid() && |kv| == |old(kv)| && Model() == ExtendAll(c, work, i)
        invariant QueuedSoFar(cache.uncommitted, work, i)
      {
        var (id, v, tokens) := work[i];
        WorkStep(c, cache.tree.Contents(), cache.uncommitted, cache.vectors, work, i);
        Advance(id, v, tokens);
      }
    }

    /** One action: the queue is committed while the models run, then every entry with new
        tokens advances, each with a vector of its own. */
    method Step(work: seq<(int, VectorId, seq<int>)>)
      requires Valid() && forall i :: 0 <= i < |work| ==> work[i].0 in owned
      requires OwnVectors(work)
      modifies this`kv, cache`vectors, cache`uncommitted, cache.tree, cache.tree.pool
      ensures Valid() && |kv| == |old(kv)|
      ensures Model() == ExtendAll(old(Model()), work, |work|)
    {
      cache.CommitSequenceExtention();
      AdvanceAll(work);
    }

    /** Removes the sequence from the KV cache of every model. */
    method RemoveFromModels(id: int, ghost contents: map<int, seq<int>>)
      requires id !in contents && forall m :: 0 <= m < |kv| ==> Holds(kv[m], contents)
      modifies this`kv
      ensures |kv| == |old(kv)|
      ensures forall m :: 0 <= m < |kv| ==> kv[m] == old(kv)[m] - {id} && Holds(kv[m], contents)
    {
      var n := |kv|;
      for m := 0 to n
        invariant |kv| == n
        invariant forall j :: 0 <= j < n ==> kv[j] == if j < m then old(kv)[j] - {id} else old(kv)[j]
      {
        kv := kv[m := kv[m] - {id}];
      }
    }

    /** One call of the remove callback per id: RemoveRequestFromModel and RecycleId. */
    method OnRemove(removed: seq<int>, ghost contents: map<int, seq<int>>)
      requires ids.Valid() && Distinct(removed) && Elems(removed) <= ids.Used()
      requires forall y :: y in contents ==> y !in removed
      requires forall m :: 0 <= m < |kv| ==> Holds(kv[m], contents)
      modifies this`kv, ids`availableIds
      ensures ids.Valid()
      ensures ids.Used() == old(ids.Used()) - Elems(removed)
      ensures |kv| == |old(kv)| && forall m :: 0 <= m < |kv| ==> Holds(kv[m], contents)
    {
      for i := 0 to |removed|
        invariant ids.Valid() && ids.Used() == old(ids.Used()) - Elems(removed[..i])
        invariant |kv| == |old(kv)| && forall m :: 0 <= m < |kv| ==> Holds(kv[m], contents)
      {
        assert removed[i] in Elems(removed) && removed[i] !in removed[..i];
        assert removed[..i + 1] == removed[..i] + [removed[i]];
        assert Elems(removed[..i + 1]) == Elems(removed[..i]) + {removed[i]};
        RemoveFromModels(removed[i], contents);
        ids.RecycleId(removed[i]);
      }
      assert removed[..|removed|] == removed;
    }

    /** What a cache operation leaves to the remove callback, in terms of the state before it. */
    ghost predicate ToRemove(removed: seq<int>, nowOwned: set<int>, c: Cache)
      reads this, ids, cache, cache.tree, cache.tree.pool
    {
      && cache.Valid() && ids.Valid() && lost <= ids.Used() && LeftToRemove(Live(), nowOwned, c, removed, Model())
      && (forall m :: 0 <= m < |kv| ==> Holds(kv[m], c.contents))
    }

    /** The remove callback completes the operation. */
    method CompleteRemoval(removed: seq<int>, ghost nowOwned: set<int>, ghost c: Cache)
      requires ToRemove(removed, nowOwned, c)
      modifies this`kv, this`owned, ids`availableIds
      ensures Valid() && owned == nowOwned
      ensures ids.Used() == old(ids.Used()) - Elems(removed)
    {
      ghost var d, live := Model(), Live();
      OnRemove(removed, d.contents);
      owned := nowOwned;
      assert Live() == live - Elems(removed);
      assert Model() == d;
    }

    method EvictFromCache() returns (freed: bool, removed: seq<int>)
      requires Valid()
      modifies cache, cache.tree, cache.tree.pool
      ensures ToRemove(removed, owned, old(Model()))
      ensures (freed <==> old(cache.lrus) != map[])
      ensures freed ==> |cache.lrus| < |old(cache.lrus)|
    {
      ghost var c := Model();
      freed, removed := cache.TryFreeMemory();
      AccountedAfterFreeStep(Live(), owned, c, cache.maxRecycling, freed, removed, Model());
    }

    /** TryFreeMemory with its callback: frees a recycling sequence everywhere, and no other. */
    method Evict() returns (freed: bool)
      requires Valid()
      modifies this`kv, this`owned, ids`availableIds, cache, cache.tree, cache.tree.pool
      ensures Valid() && owned == old(owned)
      ensures (freed <==> old(cache.lrus) != map[])
      ensures freed ==> |cache.lrus| < |old(cache.lrus)|
    {
      ghost var c := Model();
      var removed;
      freed, removed := EvictFromCache();
      CompleteRemoval(removed, owned, c);
    }

    method RecycleInCache(id: int, isLazy: bool) returns (removed: seq<int>)
      requires Valid() && id in owned && id in Model().contents
      modifies cache, cache.tree, cache.tree.pool
      ensures ToRemove(removed, owned - {id}, old(Model()))
      ensures !isLazy || cache.maxRecycling == 0 ==> removed == [id]
      ensures isLazy && cache.maxRecycling != 0 ==> KeptForReuse(old(Model()), id)
    {
      ghost var c := Model();
      assert IdAccount(Live(), owned, c, id);
      var ok;
      ok, removed := cache.RecycleSequence(id, isLazy);
      AccountedAfterRecycleStep(Live(), owned, c, cache.maxRecycling, id, isLazy, removed, Model());
      if isLazy && cache.maxRecycling != 0 {
        RecycleKeeps(c, cache.maxRecycling, id, removed, Model());
      }
    }

    /** The sequence is recycling now, with the tokens it had. */
    ghost predicate KeptForReuse(c: Cache, id: int)
      reads cache, cache.tree, cache.tree.pool
      requires cache.tree.Valid()
    {
      id in c.contents && id in Model().contents && Model().contents[id] == c.contents[id] && IsRecycling(Model(), id)
    }

    method FinishCached(id: int)
      requires Valid() && id in owned && id in Model().contents
      modifies this`kv, this`owned, ids`availableIds, cache, cache.tree, cache.tree.pool
      ensures Valid() && owned == old(owned) - {id}
      ensures if cache.maxRecycling != 0 then KeptForReuse(old(Model()), id) else id !in ids.Used()
    {
      ghost var c := Model();
      var removed := RecycleInCache(id, true);
      ghost var d := Model();
      CompleteRemoval(removed, owned - {id}, c);
      assert Model() == d;
    }

    method FinishUncached(id: int)
      requires Valid() && id in owned && id !in Model().contents
      modifies this`kv, this`owned, ids`availableIds
      ensures Valid() && owned == old(owned) - {id}
      ensures id !in ids.Used()
    {
      ghost var c := Model();
      assert IdAccount(Live(), owned, c, id);
      AccountedWithout(Live(), owned, c, id);
      OneRemoved(Live(), owned - {id}, c, id, c);
      CompleteRemoval([id], owned - {id}, c);
    }

    /** RemoveRequestStateEntry: a cached sequence is kept for reuse unless the cache keeps none;
        any other id is given back. */
    method Finish(id: int)
      requires Valid() && id in owned
      modifies this`kv, this`owned, ids`availableIds, cache, cache.tree, cache.tree.pool
      ensures Valid() && owned == old(owned) - {id}
      ensures if old(id in Model().contents) && cache.maxRecycling != 0 then KeptForReuse(old(Model()), id)
              else id !in ids.Used()
    {
      var has := cache.HasSequence(id);
      if has {
        FinishCached(id);
      } else {
        FinishUncached(id);
      }
    }

    /** A cached sequence is removed at once, and the remove callback returns its id. */
    method LetGoCached(id: int)
      requires Valid() && id in owned && id in Model().contents
      modifies this`kv, this`owned, ids`availableIds, cache, cache.tree, cache.tree.pool
      ensures Valid() && owned == old(owned) - {id} && id !in ids.Used()
    {
      ghost var c := Model();
      var removed := RecycleInCache(id, false);
      CompleteRemoval(removed, owned - {id}, c);
    }

    /** Any other sequence is removed from the models only: its id is lost. */
    method LetGoUncached(id: int)
      requires Valid() && id in owned && id !in Model().contents
      modifies this`kv, this`owned, this`lost
      ensures Valid() && owned == old(owned) - {id}
      ensures lost == old(lost) + {id}
    {
      ghost var c, live := Model(), Live();
      assert IdAccount(live, owned, c, id);
      AccountedWithout(live, owned, c, id);
      RemoveFromModels(id, c.contents);
      owned, lost := owned - {id}, lost + {id};
      assert Live() == live - {id};
      assert Model() == c;
    }

    /** Preemption: the entry goes on with a new id.  Lost ids stay in use for ever, since every
        method keeps `lost` among the used ids and only used ids are never handed out; an id is
        lost here if and only if the prefix cache did not hold it. */
    method Preempt(id: int) returns (newId: int)
      requires Valid() && id in owned
      modifies this`kv, this`owned, this`lost, ids, cache, cache.tree, cache.tree.pool
      ensures Valid() && newId !in old(owned) - {id}
      ensures owned == old(owned) - {id} + {newId}
      ensures newId !in Model().contents
      ensures lost == if old(id in Model().contents) then old(lost) else old(lost) + {id}
    {
      var has := cache.HasSequence(id);
      if has {
        LetGoCached(id);
      } else {
        LetGoUncached(id);
      }
      newId := NewId();
    }
  }
}
