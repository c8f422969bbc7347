/**
  The radix prefix cache.  Extensions are queued and applied to the tree when a later
  operation needs them; Model() is the cache as if they were applied at once, and every
  method is specified by what it does to Model().
  */
module PrefixCaches {
  import opened PagedRadixTrees
  import opened PrefixCacheSpec
  import opened PrefixCacheQueue


  /** A recycling sequence of exactly the given length and window. */
  ghost predicate ExactMatch(c: Cache, id: int, length: nat, w: Window) {
    IsRecycling(c, id) && id in c.windows && c.windows[id] == w && id in c.contents && |c.contents[id]| == length
  }

  class PrefixCache {
    const tree: PagedRadixTree
    const maxRecycling: int
    var states: map<int, SeqState>
    var windows: map<int, Window>
    var lrus: map<int, nat>
    var reversedLrus: map<nat, int>
    var lruCounter: nat
    var uncommitted: Pending
    // The callers' vectors, to which queue entries refer; only the callers write them.
    var vectors: Vectors

    /** The cache as it is stored, without the queued extensions. */
    ghost function Stored(): Cache
      reads this, tree, tree.pool
      requires tree.Valid()
    {
      Cache(tree.Contents(), states, windows, lrus, reversedLrus, lruCounter)
    }

    ghost function Model(): Cache
      reads this, tree, tree.pool
      requires tree.Valid()
    {
      Cache(Applied(tree.Contents(), uncommitted, vectors), states, windows, lrus, reversedLrus, lruCounter)
    }

    ghost predicate Valid()
      reads this, tree, tree.pool
    {
      tree.Valid() && Consistent(Model(), maxRecycling) && PendingOk(Stored(), uncommitted)
    }

    constructor (maxRecycling: int)
      ensures Valid() && fresh(tree) && fresh(tree.pool)
      ensures this.maxRecycling == maxRecycling
      ensures Model() == Cache(map[], map[], map[], map[], map[], 0)
    {
      tree := new PagedRadixTree();
      this.maxRecycling := maxRecycling;
      states, windows, lrus, reversedLrus := map[], map[], map[], map[];
      lruCounter, uncommitted, vectors := 0, [], map[];
    }

    method HasSequence(id: int) returns (b: bool)
      requires Valid()
      ensures b <==> id in Model().contents
    {
      b := tree.HasSequence(id);
    }

    /** A caller writes one of its vectors.  What will be committed changes with it, unless the
        write goes unseen. */
    method WriteVector(v: VectorId, tokens: seq<int>)
      requires Valid()
      modifies this`vectors
      ensures Valid() && vectors == old(vectors)[v := tokens]
      ensures Stored() == old(Stored())
      ensures Model() == old(Model()) <==> Unseen(tree.Contents(), uncommitted, old(vectors), v, tokens)
    {
      WriteThroughQueue(Stored(), uncommitted, vectors, maxRecycling, v, tokens);
      vectors := vectors[v := tokens];
    }

    /** Only queues a reference to the vector; its tokens count from now on. */
    method ExtendSequence(id: int, v: VectorId)
      requires Valid() && NotRecycling(Stored(), id)
      modifies this`uncommitted
      ensures Valid()
      ensures Model() == Extend(old(Model()), id, At(vectors, v))
      ensures uncommitted == old(uncommitted) + [(id, v)]
      ensures Stored() == old(Stored())
    {
      ExtendThroughQueue(Stored(), uncommitted, vectors, maxRecycling, id, v);
      uncommitted := uncommitted + [(id, v)];
    }

    /** Applies the queued extensions with the vectors as they are now; nobody can tell. */
    method CommitSequenceExtention()
      requires Valid()
      modifies this`uncommitted, tree, tree.pool
      ensures Valid() && Model() == old(Model()) && uncommitted == []
    {
      ghost var c := Model();
      var i := 0;
      while i < |uncommitted|
        invariant 0 <= i <= |uncommitted| && tree.Valid() && uncommitted == old(uncommitted)
        invariant Applied(tree.Contents(), uncommitted[i..], vectors) == c.contents
      {
        var (id, v) := uncommitted[i];
        assert uncommitted[i..][1..] == uncommitted[i + 1..];
        var has := tree.HasSequence(id);
        if has {
          assert NotRecycling(Stored(), uncommitted[i].0);
          assert id in states && states[id] == Active;
          var ok := tree.ExtendSequence(id, At(vectors, v));
        }
        i := i + 1;
      }
      uncommitted := [];
    }

    method RollBackCommitted(id: int, numTokens: nat) returns (ok: bool)
      requires Valid() && uncommitted == [] && id in states
      modifies tree, tree.pool
      ensures Valid()
      ensures ok <==> 0 < numTokens <= |old(Model()).contents[id]|
      ensures Model() == if ok then RollBack(old(Model()), id, numTokens) else old(Model())
    {
      ghost var c := Model();
      ok := tree.RollBackSequence(id, numTokens);
      if ok {
        SameKeysConsistent(c, maxRecycling, c.contents[id := c.contents[id][..|c.contents[id]| - numTokens]]);
      }
    }

    method RollBackSequence(id: int, numTokens: nat) returns (ok: bool)
      requires Valid()
      modifies this`uncommitted, tree, tree.pool
      ensures Valid() && uncommitted == []
      ensures RollBackStep(old(Model()), id, numTokens, ok, Model())
    {
      CommitSequenceExtention();
      if id !in states || states[id] != Active {
        return false;
      }
      ok := RollBackCommitted(id, numTokens);
    }

    /** Evicts some recycling sequence, if there is one.  `removed` lists the ids that are
        passed to the remove callback.  Queued extensions stay queued. */
    method TryFreeMemory() returns (freed: bool, removed: seq<int>)
      requires Valid()
      modifies this`states, this`windows, this`lrus, this`reversedLrus, tree, tree.pool
      ensures Valid()
      ensures FreeStep(old(Model()), freed, removed, Model())
      ensures FreeStep(old(Stored()), freed, removed, Stored())
    {
      ghost var c := Stored();
      if reversedLrus == map[] {
        NoStampsLeft(Model(), maxRecycling);
        return false, [];
      }
      var lru :| lru in reversedLrus;
      var id := reversedLrus[lru];
      assert StampIdOk(Model(), lru);
      EvictThroughQueue(c, uncommitted, vectors, maxRecycling, id);
      RemoveRecycling(id, lru);
      ghost var d := Stored();
      assert d == Evict(c, id);
      return true, [id];
    }

    method RemoveRecycling(id: int, lru: nat)
      requires tree.Valid() && id in tree.Contents() && id in lrus && lrus[id] == lru
      modifies this`states, this`windows, this`lrus, this`reversedLrus, tree, tree.pool
      ensures tree.Valid() && Stored() == Evict(old(Stored()), id)
    {
      tree.RemoveSequence(id);
      states, windows := states - {id}, windows - {id};
      lrus, reversedLrus := lrus - {id}, reversedLrus - {lru};
    }

    /** The sequence is kept for reuse under a fresh time stamp. */
    method MarkRecycling(id: int)
      requires Valid() && uncommitted == [] && id in states && states[id] == Active
      requires maxRecycling >= 0 ==> |lrus| < maxRecycling
      modifies this`states, this`lruCounter, this`lrus, this`reversedLrus
      ensures Valid() && Model() == Recycle(old(Model()), id)
    {
      ghost var c := Model();
      RecycleConsistent(c, maxRecycling, id);
      states := states[id := Recycling];
      lruCounter := lruCounter + 1;
      lrus := lrus[id := lruCounter];
      reversedLrus := reversedLrus[lruCounter := id];
      ghost var d := Model();
      assert d == Recycle(c, id);
    }

    method RemoveNow(id: int)
      requires Valid() && uncommitted == [] && id in states && states[id] == Active
      modifies this`states, this`windows, tree, tree.pool
      ensures Valid() && Model() == Remove(old(Model()), id)
    {
      ghost var c := Model();
      RemoveConsistent(c, maxRecycling, id);
      tree.RemoveSequence(id);
      states, windows := states - {id}, windows - {id};
      ghost var d := Model();
      assert d == Remove(c, id);
    }

    /** Recycles an active sequence: lazily, keeping it for reuse and evicting another one when
        the limit is reached, or by removing it at once. */
    method RecycleSequence(id: int, isLazy: bool) returns (ok: bool, removed: seq<int>)
      requires Valid()
      modifies this`states, this`windows, this`lrus, this`reversedLrus, this`lruCounter, this`uncommitted, tree, tree.pool
      ensures Valid() && uncommitted == []
      ensures ok <==> id in old(states) && old(states)[id] == Active
      ensures RecycleStep(old(Model()), maxRecycling, id, isLazy, removed, Model())
    {
      CommitSequenceExtention();
      if id !in states || states[id] != Active {
        return false, [];
      }
      removed := RecycleActive(id, isLazy);
      ok := true;
    }

    method RecycleActive(id: int, isLazy: bool) returns (removed: seq<int>)
      requires Valid() && uncommitted == [] && id in states && states[id] == Active
      modifies this`states, this`windows, this`lrus, this`reversedLrus, this`lruCounter, tree, tree.pool
      ensures Valid()
      ensures RecycleStep(old(Model()), maxRecycling, id, isLazy, removed, Model())
    {
      ghost var c := Model();
      removed := [];
      if isLazy && maxRecycling != 0 {
        if |lrus| == maxRecycling {
          var freed;
          freed, removed := TryFreeMemory();
          assert IdStampOk(c, id);
          EvictConsistent(c, maxRecycling, removed[0]);
        }
        MarkRecycling(id);
      } else {
        RemoveNow(id);
        removed := [id];
      }
    }

    // ----- InsertSequence -----------------------------------------------------------------

    method ReuseRecyclingSequence(id: int)
      requires Valid() && id in lrus
      modifies this`states, this`lrus, this`reversedLrus
      ensures Valid() && id in old(Model()).contents
      ensures Model() == Reuse(old(Model()), id, old(Model()).contents[id])
    {
      ghost var c := Model();
      assert IdStampOk(c, id);
      ReuseConsistent(c, maxRecycling, id, c.contents[id]);
      var lru := lrus[id];
      states := states[id := Active];
      lrus := lrus - {id};
      reversedLrus := reversedLrus - {lru};
      assert c.contents[id := c.contents[id]] == c.contents;
      ghost var d := Model();
      assert d == Reuse(c, id, c.contents[id]);
    }

    /** The first recycling sequence of exactly the matched length, or -1. */
    method FindExact(matched: seq<int>, offset: nat, w: Window) returns (id: int)
      requires Valid() && uncommitted == [] && forall x :: x in matched ==> x in Model().contents
      ensures id != -1 ==> id in matched && ExactMatch(Model(), id, offset, w)
      ensures id == -1 ==> forall x :: x in matched ==> !ExactMatch(Model(), x, offset, w)
    {
      ghost var c := Model();
      for i := 0 to |matched|
        invariant forall j :: 0 <= j < i ==> !ExactMatch(c, matched[j], offset, w)
      {
        var x := matched[i];
        if states[x] == Recycling && windows[x] == w {
          var _, length := tree.GetSequenceLength(x);
          assert Model() == c;
          if length == offset {
            return x;
          }
        }
      }
      id := -1;
    }

    /** The first shortest recycling sequence, or -1. */
    method FindShortest(matched: seq<int>, w: Window) returns (id: int, length: nat)
      requires Valid() && uncommitted == [] && forall x :: x in matched ==> x in Model().contents
      ensures id != -1 ==>
                id in matched && IsRecycling(Model(), id) && windows[id] == w && |Model().contents[id]| == length
      ensures forall x :: x in matched && IsRecycling(Model(), x) && windows[x] == w ==>
                id != -1 && length <= |Model().contents[x]|
    {
      ghost var c := Model();
      id, length := -1, 0;
      for i := 0 to |matched|
        invariant id != -1 ==>
                    id in matched && IsRecycling(c, id) && windows[id] == w && |c.contents[id]| == length
        invariant forall x :: x in matched[..i] && IsRecycling(c, x) && windows[x] == w ==>
                    id != -1 && length <= |c.contents[x]|
      {
        var x := matched[i];
        assert matched[..i + 1] == matched[..i] + [x];
        if states[x] == Recycling && windows[x] == w {
          var _, n := tree.GetSequenceLength(x);
          if id == -1 || n < length {
            id, length := x, n;
          }
        }
      }
      assert matched[..|matched|] == matched;
    }

    /** The first sequence without a sliding window, or -1. */
    method FindForkable(matched: seq<int>) returns (id: int)
      requires Valid() && forall x :: x in matched ==> x in Model().contents
      ensures id != -1 ==> id in matched && windows[id].size == -1
      ensures id == -1 ==> forall x :: x in matched ==> windows[x].size != -1
    {
      id := -1;
      for i := 0 to |matched|
        invariant id != -1 ==> id in matched && windows[id].size == -1
        invariant id == -1 ==> forall x :: x in matched[..i] ==> windows[x].size != -1
      {
        var x := matched[i];
        assert matched[..i + 1] == matched[..i] + [x];
        if windows[x].size == -1 && id == -1 {
          id := x;
        }
      }
      assert matched[..|matched|] == matched;
    }

    method AddNew(id: int, w: Window)
      requires Valid() && uncommitted == [] && id !in states && id != -1
      modifies this`states, this`windows, tree, tree.pool
      ensures Valid() && Model() == Insert(old(Model()), id, [], w)
    {
      InsertConsistent(Model(), maxRecycling, id, [], w);
      var _ := tree.AddSequence(id);
      states, windows := states[id := Active], windows[id := w];
    }

    method ForkNew(id: int, parentId: int, offset: nat, w: Window)
      requires Valid() && uncommitted == [] && id !in states && id != -1
      requires parentId in Model().contents && 0 < offset <= |Model().contents[parentId]|
      modifies this`states, this`windows, tree, tree.pool
      ensures Valid()
      ensures Model() == Insert(old(Model()), id, old(Model()).contents[parentId][..offset], w)
    {
      InsertConsistent(Model(), maxRecycling, id, Model().contents[parentId][..offset], w);
      var _ := tree.ForkSequence(id, parentId, offset);
      states, windows := states[id := Active], windows[id := w];
    }

    /** Reactivates a recycling sequence and drops what the new prompt does not share. */
    method ReuseAndTrim(id: int, length: nat, offset: nat)
      requires Valid() && uncommitted == [] && id in lrus && id in Model().contents
      requires length == |Model().contents[id]| && offset <= length
      modifies this`states, this`lrus, this`reversedLrus, tree, tree.pool
      ensures Valid()
      ensures Model() == Reuse(old(Model()), id, old(Model()).contents[id][..offset])
    {
      ghost var c := Model();
      ReuseThenRollBack(c, id, offset);
      ReuseRecyclingSequence(id);
      if length > offset {
        var _ := RollBackCommitted(id, length - offset);
      } else {
        assert c.contents[id][..offset] == c.contents[id];
      }
    }

    /** With a sliding window only an exactly matching recycling sequence is reused. */
    method TryReuseExact(ghost t: seq<int>, w: Window, offset: nat, matched: seq<int>)
        returns (found: bool, r: MatchedResult)
      requires w.size != -1
      requires Valid() && uncommitted == [] && 0 < offset <= |t|
      requires forall x :: x in matched <==> Matching(Model(), t[..offset], x)
      modifies this`states, this`lrus, this`reversedLrus, tree, tree.pool
      ensures Valid() && uncommitted == []
      ensures found ==> ReuseStep(old(Model()), t[..offset], w, r, Model())
      ensures !found ==> Model() == old(Model()) && NothingToReuse(Model(), t[..offset], w)
    {
      ghost var c := Model();
      ghost var prefix := t[..offset];
      var x := FindExact(matched, offset, w);
      assert Model() == c;
      if x == -1 {
        return false, NO_MATCH;
      }
      assert Matching(c, prefix, x) && IdStampOk(c, x) && c.contents[x] == prefix == prefix[..offset];
      ReuseAndTrim(x, offset, offset);
      return true, MatchedResult(offset, -1, x, 0);
    }

    /** Without one the shortest recycling sequence is reused, if it loses little. */
    method TryReuseShortest(ghost t: seq<int>, w: Window, offset: nat, matched: seq<int>)
        returns (found: bool, r: MatchedResult)
      requires w.size == -1
      requires Valid() && uncommitted == [] && 0 < offset <= |t|
      requires forall x :: x in matched <==> Matching(Model(), t[..offset], x)
      modifies this`states, this`lrus, this`reversedLrus, tree, tree.pool
      ensures Valid() && uncommitted == []
      ensures found ==> ReuseStep(old(Model()), t[..offset], w, r, Model())
      ensures !found ==> Model() == old(Model()) && NothingToReuse(Model(), t[..offset], w)
    {
      ghost var c := Model();
      ghost var prefix := t[..offset];
      var x, length := FindShortest(matched, w);
      assert Model() == c;
      if x == -1 || !(offset as real > length as real * 0.9) {
        return false, NO_MATCH;
      }
      assert Matching(c, prefix, x) && IdStampOk(c, x) && c.contents[x][..offset] == prefix;
      ReuseAndTrim(x, length, offset);
      ghost var d := Model();
      assert d == Reuse(c, x, prefix);
      return true, MatchedResult(offset, -1, x, length - offset);
    }

    /** The part of InsertSequence after a match of `offset > 0` tokens. */
    method InsertMatched(id: int, ghost t: seq<int>, w: Window, offset: nat, matched: seq<int>)
        returns (r: MatchedResult)
      requires Valid() && uncommitted == [] && id !in states && id != -1
      requires 0 < offset <= |t|
      requires forall x :: x in matched <==> Matching(Model(), t[..offset], x)
      modifies this`states, this`windows, this`lrus, this`reversedLrus, tree, tree.pool
      ensures Valid()
      ensures InsertAt(old(Model()), id, t[..offset], w, r, Model())
    {
      ghost var c := Model();
      var found;
      if w.size != -1 {
        found, r := TryReuseExact(t, w, offset, matched);
      } else {
        found, r := TryReuseShortest(t, w, offset, matched);
        if !found {
          found, r := TryFork(id, t, w, offset, matched);
        }
      }
      if !found {
        AddNew(id, w);
        r := NO_MATCH;
        assert AddStep(c, id, t[..offset], w, r, Model());
      }
    }

    /** Forks from a matched sequence that has no sliding window. */
    method TryFork(id: int, ghost t: seq<int>, w: Window, offset: nat, matched: seq<int>) returns (found: bool, r: MatchedResult)
      requires w.size == -1 && Valid() && uncommitted == [] && 0 < offset <= |t| && id !in states && id != -1
      requires forall x :: x in matched <==> Matching(Model(), t[..offset], x)
      requires NothingToReuse(Model(), t[..offset], w)
      modifies this`states, this`windows, tree, tree.pool
      ensures Valid()
      ensures found ==> ForkStep(old(Model()), id, t[..offset], w, r, Model())
      ensures !found ==> Model() == old(Model()) && forall y :: !Forkable(Model(), t[..offset], y)
    {
      ghost var c, prefix := Model(), t[..offset];
      var y := FindForkable(matched);
      assert Model() == c;
      if y == -1 {
        return false, NO_MATCH;
      }
      assert Matching(c, prefix, y) && c.contents[y][..offset] == prefix;
      ForkNew(id, y, offset, w);
      return true, MatchedResult(offset, y, -1, 0);
    }

    method InsertSequence(id: int, tokens: seq<int>, windowSize: int, sinkSize: int)
        returns (ok: bool, r: MatchedResult)
      requires Valid() && id != -1
      modifies this`states, this`windows, this`lrus, this`reversedLrus, this`uncommitted, tree, tree.pool
      ensures Valid()
      ensures ok <==> windowSize != 0 && sinkSize >= 0 && id !in old(Model()).contents && tokens != []
      ensures !ok ==> r == NO_MATCH && unchanged(this) && Stored() == old(Stored())
      ensures ok ==> uncommitted == []
      ensures ok ==> InsertStep(old(Model()), id, tokens, Window(windowSize, sinkSize), r, Model())
    {
      r := NO_MATCH;
      if windowSize == 0 || sinkSize < 0 || id in states || id in windows || tokens == [] {
        return false, r;
      }
      CommitSequenceExtention();
      r := InsertAccepted(id, tokens, Window(windowSize, sinkSize));
      ok := true;
    }

    method InsertAccepted(id: int, tokens: seq<int>, w: Window) returns (r: MatchedResult)
      requires Valid() && uncommitted == [] && id !in states && id != -1 && tokens != []
      modifies this`states, this`windows, this`lrus, this`reversedLrus, tree, tree.pool
      ensures Valid()
      ensures InsertStep(old(Model()), id, tokens, w, r, Model())
    {
      ghost var c := Model();
      var t := tokens[..|tokens| - 1];
      var offset, matched := tree.MatchPrefix(t);
      if offset == 0 {
        AddNew(id, w);
        r := NO_MATCH;
        assert t[..0] == [];
        assert InsertAt(c, id, t[..offset], w, r, Model());
      } else {
        r := InsertMatched(id, t, w, offset, matched);
      }
    }
  }
}
