/** The calls of the prefix cache class are the steps of the queueing cache. */
module PrefixCacheCalls {
  import opened PrefixCacheSpec
  import opened PrefixCacheQueue
  import opened PrefixCaches
  import opened PrefixCacheRuns

  ghost function Lazy(cache: PrefixCache): LazyCache
    reads cache, cache.tree, cache.tree.pool
    requires cache.tree.Valid()
  {
    LazyCache(cache.Stored(), cache.uncommitted, cache.vectors)
  }

  /** The call with this result leads from s to t. */
  ghost predicate Took(s: LazyCache, maxRecycling: int, call: Call, o: Outcome, t: LazyCache) {
    exists e: Event :: e.0 == call && e.1 == o && LazyStep(s, maxRecycling, e, t)
  }

  lemma LazyInsert(s: LazyCache, maxRecycling: int, id: int, tokens: seq<int>, w: Window, ok: bool, r: MatchedResult, t: LazyCache)
    requires t.vectors == s.vectors && (ok <==> InsertAllowed(s.stored, id, tokens, w))
    requires !ok ==> r == NO_MATCH && t == s
    requires ok ==> t.pending == [] && InsertStep(View(s), id, tokens, w, r, View(t))
    ensures Took(s, maxRecycling, InsertCall(id, tokens, w), Inserted(ok, r), t)
  {
    assert LazyStep(s, maxRecycling, (InsertCall(id, tokens, w), Inserted(ok, r)), t);
  }

  lemma LazyRecycle(s: LazyCache, c: Cache, maxRecycling: int, id: int, isLazy: bool, ok: bool, removed: seq<int>, t: LazyCache, d: Cache)
    requires t.pending == [] && t.vectors == s.vectors && (ok <==> id in s.stored.states && s.stored.states[id] == Active)
    requires c == View(s) && d == View(t) && RecycleStep(c, maxRecycling, id, isLazy, removed, d)
    ensures Took(s, maxRecycling, RecycleCall(id, isLazy), Recycled(ok, removed), t)
  {
    assert LazyStep(s, maxRecycling, (RecycleCall(id, isLazy), Recycled(ok, removed)), t);
  }

  lemma LazyFree(s: LazyCache, maxRecycling: int, freed: bool, removed: seq<int>, t: LazyCache)
    requires t.pending == s.pending && t.vectors == s.vectors && FreeStep(s.stored, freed, removed, t.stored)
    ensures Took(s, maxRecycling, FreeCall, Freed(freed, removed), t)
  {
    assert LazyStep(s, maxRecycling, (FreeCall, Freed(freed, removed)), t);
  }

  method DoInsert(cache: PrefixCache, id: int, tokens: seq<int>, w: Window) returns (o: Outcome)
    requires cache.Valid() && id != -1
    modifies cache, cache.tree, cache.tree.pool
    ensures cache.Valid()
    ensures Took(old(Lazy(cache)), cache.maxRecycling, InsertCall(id, tokens, w), o, Lazy(cache))
  {
    ghost var s := Lazy(cache);
    var ok, r := cache.InsertSequence(id, tokens, w.size, w.sink);
    o := Inserted(ok, r);
    ghost var t := Lazy(cache);
    LazyInsert(s, cache.maxRecycling, id, tokens, w, ok, r, t);
  }

  method DoWrite(cache: PrefixCache, v: VectorId, tokens: seq<int>) returns (o: Outcome)
    requires cache.Valid()
    modifies cache
    ensures cache.Valid()
    ensures Took(old(Lazy(cache)), cache.maxRecycling, WriteCall(v, tokens), o, Lazy(cache))
  {
    ghost var s := Lazy(cache);
    cache.WriteVector(v, tokens);
    o := Done;
    ghost var t := Lazy(cache);
    assert t.stored == s.stored && t.pending == s.pending;
    assert LazyStep(s, cache.maxRecycling, (WriteCall(v, tokens), o), t);
  }

  method DoExtend(cache: PrefixCache, id: int, v: VectorId) returns (o: Outcome)
    requires cache.Valid() && NotRecycling(cache.Stored(), id)
    modifies cache
    ensures cache.Valid()
    ensures Took(old(Lazy(cache)), cache.maxRecycling, ExtendCall(id, v), o, Lazy(cache))
  {
    ghost var s := Lazy(cache);
    cache.ExtendSequence(id, v);
    o := Done;
    ghost var t := Lazy(cache);
    assert LazyStep(s, cache.maxRecycling, (ExtendCall(id, v), o), t);
  }

  method DoRollBack(cache: PrefixCache, id: int, n: nat) returns (o: Outcome)
    requires cache.Valid()
    modifies cache, cache.tree, cache.tree.pool
    ensures cache.Valid()
    ensures Took(old(Lazy(cache)), cache.maxRecycling, RollBackCall(id, n), o, Lazy(cache))
  {
    ghost var s := Lazy(cache);
    var ok := cache.RollBackSequence(id, n);
    o := RolledBack(ok);
    ghost var t := Lazy(cache);
    assert LazyStep(s, cache.maxRecycling, (RollBackCall(id, n), o), t);
  }

  method DoRecycle(cache: PrefixCache, id: int, isLazy: bool) returns (o: Outcome)
    requires cache.Valid()
    modifies cache, cache.tree, cache.tree.pool
    ensures cache.Valid()
    ensures Took(old(Lazy(cache)), cache.maxRecycling, RecycleCall(id, isLazy), o, Lazy(cache))
  {
    ghost var s, c := Lazy(cache), cache.Model();
    var ok, removed := cache.RecycleSequence(id, isLazy);
    o := Recycled(ok, removed);
    ghost var t, d := Lazy(cache), cache.Model();
    LazyRecycle(s, c, cache.maxRecycling, id, isLazy, ok, removed, t, d);
  }

  method DoFree(cache: PrefixCache) returns (o: Outcome)
    requires cache.Valid()
    modifies cache, cache.tree, cache.tree.pool
    ensures cache.Valid()
    ensures Took(old(Lazy(cache)), cache.maxRecycling, FreeCall, o, Lazy(cache))
  {
    ghost var s := Lazy(cache);
    var freed, removed := cache.TryFreeMemory();
    o := Freed(freed, removed);
    ghost var t := Lazy(cache);
    assert t.pending == s.pending && t.vectors == s.vectors;
    LazyFree(s, cache.maxRecycling, freed, removed, t);
  }

  method DoCommit(cache: PrefixCache) returns (o: Outcome)
    requires cache.Valid()
    modifies cache, cache.tree, cache.tree.pool
    ensures cache.Valid()
    ensures Took(old(Lazy(cache)), cache.maxRecycling, CommitCall, o, Lazy(cache))
  {
    ghost var s := Lazy(cache);
    cache.CommitSequenceExtention();
    o := Done;
    ghost var t := Lazy(cache);
    assert LazyStep(s, cache.maxRecycling, (CommitCall, o), t);
  }

  /** Each call of the class is a step of the queueing cache. */
  method Perform(cache: PrefixCache, call: Call) returns (o: Outcome)
    requires cache.Valid()
    requires call.ExtendCall? ==> NotRecycling(cache.Stored(), call.id)
    requires call.InsertCall? ==> call.id != -1
    modifies cache, cache.tree, cache.tree.pool
    ensures cache.Valid()
    ensures Took(old(Lazy(cache)), cache.maxRecycling, call, o, Lazy(cache))
  {
    match call {
      case InsertCall(id, tokens, w) => o := DoInsert(cache, id, tokens, w);
      case WriteCall(v, tokens) => o := DoWrite(cache, v, tokens);
      case ExtendCall(id, v) => o := DoExtend(cache, id, v);
      case RollBackCall(id, n) => o := DoRollBack(cache, id, n);
      case RecycleCall(id, isLazy) => o := DoRecycle(cache, id, isLazy);
      case FreeCall => o := DoFree(cache);
      case HasCall(id) =>
        var b := cache.HasSequence(id);
        o := Has(b);
        assert LazyStep(Lazy(cache), cache.maxRecycling, (call, o), Lazy(cache));
      case CommitCall => o := DoCommit(cache);
    }
  }
}
