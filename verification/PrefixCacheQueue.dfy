/**
  The queue of extensions.  An entry names a sequence and one of the callers' vectors; the
  tokens are read from the vector when the queue is committed, not when the entry is made.
  */
module PrefixCacheQueue {
  import opened PrefixCacheSpec

  type VectorId = int

  /** The callers' vectors of token ids. */
  type Vectors = map<VectorId, seq<int>>

  type Pending = seq<(int, VectorId)>

  function At(vectors: Vectors, v: VectorId): seq<int> {
    if v in vectors then vectors[v] else []
  }

  ghost function Extended(contents: map<int, seq<int>>, id: int, tokens: seq<int>): map<int, seq<int>> {
    if id in contents then contents[id := contents[id] + tokens] else contents
  }

  /** The contents once all queued extensions are applied; those of absent ids are dropped. */
  ghost function Applied(contents: map<int, seq<int>>, pending: Pending, vectors: Vectors): (r: map<int, seq<int>>)
    ensures r.Keys == contents.Keys
    decreases |pending|
  {
    if pending == [] then contents
    else Applied(Extended(contents, pending[0].0, At(vectors, pending[0].1)), pending[1..], vectors)
  }

  lemma {:induction false} AppliedAppend(contents: map<int, seq<int>>, pending: Pending, vectors: Vectors, id: int, v: VectorId)
    ensures Applied(contents, pending + [(id, v)], vectors) == Extended(Applied(contents, pending, vectors), id, At(vectors, v))
    decreases |pending|
  {
    var all := pending + [(id, v)];
    if pending == [] {
      assert all[1..] == [];
    } else {
      assert all[1..] == pending[1..] + [(id, v)];
      AppliedAppend(Extended(contents, pending[0].0, At(vectors, pending[0].1)), pending[1..], vectors, id, v);
    }
  }

  /** An id without queued extensions can be removed before or after they are applied. */
  lemma {:induction false} AppliedRemove(contents: map<int, seq<int>>, pending: Pending, vectors: Vectors, id: int)
    requires forall i :: 0 <= i < |pending| ==> pending[i].0 != id
    ensures Applied(contents - {id}, pending, vectors) == Applied(contents, pending, vectors) - {id}
    decreases |pending|
  {
    if pending != [] {
      var tokens := At(vectors, pending[0].1);
      var c := Extended(contents, pending[0].0, tokens);
      assert Extended(contents - {id}, pending[0].0, tokens) == c - {id};
      AppliedRemove(c, pending[1..], vectors, id);
    }
  }

  // ----- writing to a vector while entries name it --------------------------------------------

  /** All tokens queued for one id. */
  ghost function QueuedFor(pending: Pending, vectors: Vectors, id: int): seq<int>
    decreases |pending|
  {
    if pending == [] then []
    else (if pending[0].0 == id then At(vectors, pending[0].1) else []) + QueuedFor(pending[1..], vectors, id)
  }

  lemma {:induction false} AppliedIs(contents: map<int, seq<int>>, pending: Pending, vectors: Vectors, id: int)
    requires id in contents
    ensures Applied(contents, pending, vectors)[id] == contents[id] + QueuedFor(pending, vectors, id)
    decreases |pending|
  {
    if pending != [] {
      var tokens := At(vectors, pending[0].1);
      AppliedIs(Extended(contents, pending[0].0, tokens), pending[1..], vectors, id);
      assert contents[id] + tokens + QueuedFor(pending[1..], vectors, id) ==
             contents[id] + (tokens + QueuedFor(pending[1..], vectors, id));
    }
  }

  ghost predicate Names(pending: Pending, id: int, v: VectorId) {
    exists i :: 0 <= i < |pending| && pending[i] == (id, v)
  }

  /** A write goes unseen: it leaves the vector as it was, or no entry of a stored id names it. */
  ghost predicate Unseen(contents: map<int, seq<int>>, pending: Pending, vectors: Vectors, v: VectorId, tokens: seq<int>) {
    tokens == At(vectors, v) || forall i :: 0 <= i < |pending| && pending[i].1 == v ==> pending[i].0 !in contents
  }

  lemma {:induction false} LongerVector(pending: Pending, vectors: Vectors, v: VectorId, tokens: seq<int>, id: int)
    requires |At(vectors, v)| < |tokens|
    ensures |QueuedFor(pending, vectors, id)| <= |QueuedFor(pending, vectors[v := tokens], id)|
    ensures Names(pending, id, v) ==> |QueuedFor(pending, vectors, id)| < |QueuedFor(pending, vectors[v := tokens], id)|
    decreases |pending|
  {
    if pending != [] {
      LongerVector(pending[1..], vectors, v, tokens, id);
      NamesStep(pending, id, v);
    }
  }

  lemma NamesStep(pending: Pending, id: int, v: VectorId)
    requires pending != []
    ensures Names(pending, id, v) <==> pending[0] == (id, v) || Names(pending[1..], id, v)
  {
    if i :| 0 <= i < |pending| && pending[i] == (id, v) {
      assert i > 0 ==> pending[1..][i - 1] == (id, v);
    }
    if i :| 0 <= i < |pending[1..]| && pending[1..][i] == (id, v) {
      assert pending[i + 1] == (id, v);
    }
  }

  lemma {:induction false} SameLengthVector(pending: Pending, vectors: Vectors, v: VectorId, tokens: seq<int>, id: int)
    requires |At(vectors, v)| == |tokens| && At(vectors, v) != tokens && Names(pending, id, v)
    ensures QueuedFor(pending, vectors, id) != QueuedFor(pending, vectors[v := tokens], id)
    decreases |pending|
  {
    NamesStep(pending, id, v);
    var now := vectors[v := tokens];
    var a := if pending[0].0 == id then At(vectors, pending[0].1) else [];
    var b := if pending[0].0 == id then At(now, pending[0].1) else [];
    var p, q := QueuedFor(pending[1..], vectors, id), QueuedFor(pending[1..], now, id);
    if a + p == b + q {
      assert a == (a + p)[..|a|] == b;
      assert p == (a + p)[|a|..] == q;
      SameLengthVector(pending[1..], vectors, v, tokens, id);
    }
  }

  /** A changed vector shows in the tokens of every id it is queued for. */
  lemma ChangedVectorShows(pending: Pending, vectors: Vectors, v: VectorId, tokens: seq<int>, id: int)
    requires At(vectors, v) != tokens && Names(pending, id, v)
    ensures QueuedFor(pending, vectors, id) != QueuedFor(pending, vectors[v := tokens], id)
  {
    var now := vectors[v := tokens];
    if |At(vectors, v)| < |tokens| {
      LongerVector(pending, vectors, v, tokens, id);
    } else if |tokens| < |At(vectors, v)| {
      LongerVector(pending, now, v, At(vectors, v), id);
      SameVectors(pending, now[v := At(vectors, v)], vectors, id);
    } else {
      SameLengthVector(pending, vectors, v, tokens, id);
    }
  }

  lemma {:induction false} SameVectors(pending: Pending, a: Vectors, b: Vectors, id: int)
    requires forall i :: 0 <= i < |pending| && pending[i].0 == id ==> At(a, pending[i].1) == At(b, pending[i].1)
    ensures QueuedFor(pending, a, id) == QueuedFor(pending, b, id)
    decreases |pending|
  {
    if pending != [] {
      SameVectors(pending[1..], a, b, id);
    }
  }

  /** A write to a vector changes the contents to be committed if and only if it changes the
      vector and some entry of a stored id names it. */
  lemma WriteUnseenIff(contents: map<int, seq<int>>, pending: Pending, vectors: Vectors, v: VectorId, tokens: seq<int>)
    ensures Applied(contents, pending, vectors[v := tokens]) == Applied(contents, pending, vectors) <==>
            Unseen(contents, pending, vectors, v, tokens)
  {
    var now := vectors[v := tokens];
    var a, b := Applied(contents, pending, vectors), Applied(contents, pending, now);
    forall id | id in contents
      ensures a[id] == contents[id] + QueuedFor(pending, vectors, id)
      ensures b[id] == contents[id] + QueuedFor(pending, now, id)
    {
      AppliedIs(contents, pending, vectors, id);
      AppliedIs(contents, pending, now, id);
    }
    if Unseen(contents, pending, vectors, v, tokens) {
      forall id | id in contents ensures a[id] == b[id] {
        SameVectors(pending, vectors, now, id);
      }
    } else {
      var i :| 0 <= i < |pending| && pending[i].1 == v && pending[i].0 in contents;
      var id := pending[i].0;
      assert Names(pending, id, v);
      ChangedVectorShows(pending, vectors, v, tokens, id);
      assert a[id][|contents[id]|..] == QueuedFor(pending, vectors, id);
      assert b[id][|contents[id]|..] == QueuedFor(pending, now, id);
    }
  }

  // ----- what was meant when the entries were queued ------------------------------------------

  /** The contents once given tokens are appended, in order. */
  ghost function AppliedTokens(contents: map<int, seq<int>>, meant: seq<(int, seq<int>)>): (r: map<int, seq<int>>)
    ensures r.Keys == contents.Keys
    decreases |meant|
  {
    if meant == [] then contents else AppliedTokens(Extended(contents, meant[0].0, meant[0].1), meant[1..])
  }

  ghost function MeantFor(meant: seq<(int, seq<int>)>, id: int): seq<int>
    decreases |meant|
  {
    if meant == [] then [] else (if meant[0].0 == id then meant[0].1 else []) + MeantFor(meant[1..], id)
  }

  lemma {:induction false} AppliedTokensIs(contents: map<int, seq<int>>, meant: seq<(int, seq<int>)>, id: int)
    requires id in contents
    ensures AppliedTokens(contents, meant)[id] == contents[id] + MeantFor(meant, id)
    decreases |meant|
  {
    if meant != [] {
      var tokens := meant[0].1;
      AppliedTokensIs(Extended(contents, meant[0].0, tokens), meant[1..], id);
      assert contents[id] + tokens + MeantFor(meant[1..], id) == contents[id] + (tokens + MeantFor(meant[1..], id));
    }
  }

  /** Whatever was written in between, the commit yields what was meant if and only if, for every
      stored id, the tokens queued now are those that were meant. */
  lemma CommitAgreesIff(contents: map<int, seq<int>>, pending: Pending, vectors: Vectors, meant: seq<(int, seq<int>)>)
    ensures Applied(contents, pending, vectors) == AppliedTokens(contents, meant) <==>
            forall id :: id in contents ==> QueuedFor(pending, vectors, id) == MeantFor(meant, id)
  {
    var a, b := Applied(contents, pending, vectors), AppliedTokens(contents, meant);
    forall id | id in contents ensures a[id] == b[id] <==> QueuedFor(pending, vectors, id) == MeantFor(meant, id) {
      CommitAgreesAt(contents, pending, vectors, meant, id);
    }
    if forall id :: id in contents ==> QueuedFor(pending, vectors, id) == MeantFor(meant, id) {
      assert forall id :: id in contents ==> a[id] == b[id];
    }
  }

  lemma CommitAgreesAt(contents: map<int, seq<int>>, pending: Pending, vectors: Vectors, meant: seq<(int, seq<int>)>, id: int)
    requires id in contents
    ensures Applied(contents, pending, vectors)[id] == AppliedTokens(contents, meant)[id] <==>
            QueuedFor(pending, vectors, id) == MeantFor(meant, id)
  {
    AppliedIs(contents, pending, vectors, id);
    AppliedTokensIs(contents, meant, id);
    var p, q, r := contents[id], QueuedFor(pending, vectors, id), MeantFor(meant, id);
    assert (p + q)[|p|..] == q && (p + r)[|p|..] == r;
  }

  // ----- the cache seen through the queue -----------------------------------------------------

  /** The cache as if all queued extensions were applied. */
  ghost function Through(c: Cache, pending: Pending, vectors: Vectors): Cache {
    c.(contents := Applied(c.contents, pending, vectors))
  }

  ghost predicate NotRecycling(c: Cache, id: int) {
    id in c.states ==> c.states[id] == Active
  }

  /** A sequence with queued extensions is active or absent, and stays so until the commit. */
  ghost predicate PendingOk(c: Cache, pending: Pending) {
    forall i :: 0 <= i < |pending| ==> NotRecycling(c, pending[i].0)
  }

  ghost predicate QueueInv(c: Cache, pending: Pending, vectors: Vectors, maxRecycling: int) {
    Consistent(Through(c, pending, vectors), maxRecycling) && PendingOk(c, pending)
  }

  /** Queueing an extension extends what is seen. */
  lemma ExtendThroughQueue(c: Cache, pending: Pending, vectors: Vectors, maxRecycling: int, id: int, v: VectorId)
    requires QueueInv(c, pending, vectors, maxRecycling) && NotRecycling(c, id)
    ensures Through(c, pending + [(id, v)], vectors) == Extend(Through(c, pending, vectors), id, At(vectors, v))
    ensures QueueInv(c, pending + [(id, v)], vectors, maxRecycling)
  {
    AppliedAppend(c.contents, pending, vectors, id, v);
    ExtendConsistent(Through(c, pending, vectors), maxRecycling, id, At(vectors, v));
    forall i | 0 <= i < |pending| + 1 ensures NotRecycling(c, (pending + [(id, v)])[i].0) {
      assert i < |pending| ==> NotRecycling(c, pending[i].0);
    }
  }

  /** Writing a vector changes what is seen unless it goes unseen. */
  lemma WriteThroughQueue(c: Cache, pending: Pending, vectors: Vectors, maxRecycling: int, v: VectorId, tokens: seq<int>)
    requires QueueInv(c, pending, vectors, maxRecycling)
    ensures QueueInv(c, pending, vectors[v := tokens], maxRecycling)
    ensures Through(c, pending, vectors[v := tokens]) == Through(c, pending, vectors) <==>
            Unseen(c.contents, pending, vectors, v, tokens)
  {
    WriteUnseenIff(c.contents, pending, vectors, v, tokens);
    SameKeysConsistent(Through(c, pending, vectors), maxRecycling, Applied(c.contents, pending, vectors[v := tokens]));
  }

  /** Evicting from the tree and evicting from what is seen agree: the victim has nothing queued. */
  lemma EvictThroughQueue(c: Cache, pending: Pending, vectors: Vectors, maxRecycling: int, id: int)
    requires QueueInv(c, pending, vectors, maxRecycling) && id in c.lrus
    ensures IsRecycling(c, id)
    ensures Through(Evict(c, id), pending, vectors) == Evict(Through(c, pending, vectors), id)
    ensures QueueInv(Evict(c, id), pending, vectors, maxRecycling)
  {
    var s := Through(c, pending, vectors);
    EvictConsistent(s, maxRecycling, id);
    assert IdStampOk(s, id);
    forall i | 0 <= i < |pending| ensures pending[i].0 != id && NotRecycling(Evict(c, id), pending[i].0) {
      assert NotRecycling(c, pending[i].0);
    }
    AppliedRemove(c.contents, pending, vectors, id);
  }
}
