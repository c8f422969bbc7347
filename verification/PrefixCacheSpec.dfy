/**
  What the prefix cache promises, as relations between abstract states.  The token
  sequences are the ones a caller believes to be cached: extensions count from the
  moment ExtendSequence is called.
  */
module PrefixCacheSpec {
  import opened PagedRadixTrees

  datatype SeqState = Active | Recycling

  /** Sliding window size (-1 when disabled) and attention sink size. */
  datatype Window = Window(size: int, sink: nat)

  datatype Cache = Cache(
    contents: map<int, seq<int>>,
    states: map<int, SeqState>,
    windows: map<int, Window>,
    lrus: map<int, nat>,
    reversedLrus: map<nat, int>,
    lruCounter: nat)

  /** PrefixCacheMatchedResult; -1 stands for "none". */
  datatype MatchedResult = MatchedResult(
    prefilledOffset: nat, forkedSeqId: int, reusedSeqId: int, popLastTokens: nat)

  const NO_MATCH := MatchedResult(0, -1, -1, 0)

  // ----- the invariant ----------------------------------------------------------------

  ghost predicate IsRecycling(c: Cache, id: int) {
    id in c.states && c.states[id] == Recycling
  }

  /** Exactly the recycling ids carry a time stamp, which leads back to the id. */
  ghost predicate IdStampOk(c: Cache, id: int) {
    && (id in c.lrus <==> IsRecycling(c, id))
    && (id in c.lrus ==>
          c.lrus[id] <= c.lruCounter && c.lrus[id] in c.reversedLrus && c.reversedLrus[c.lrus[id]] == id)
  }

  ghost predicate StampIdOk(c: Cache, t: nat) {
    t in c.reversedLrus ==> c.reversedLrus[t] in c.lrus && c.lrus[c.reversedLrus[t]] == t
  }

  /** The two recycling maps are mutual inverses over exactly the recycling ids,
      and a non-negative maximum bounds their number. */
  ghost predicate Consistent(c: Cache, maxRecycling: int) {
    && c.states.Keys == c.windows.Keys == c.contents.Keys && -1 !in c.states
    && (forall id {:trigger IdStampOk(c, id)} :: IdStampOk(c, id))
    && (forall t {:trigger StampIdOk(c, t)} :: StampIdOk(c, t))
    && (maxRecycling >= 0 ==> |c.lrus| <= maxRecycling)
  }

  // ----- the operations ------------------------------------------------------------------

  ghost function Insert(c: Cache, id: int, tokens: seq<int>, w: Window): Cache {
    c.(contents := c.contents[id := tokens], states := c.states[id := Active], windows := c.windows[id := w])
  }

  /** ReuseRecyclingSequence, then the roll back to `tokens`. */
  ghost function Reuse(c: Cache, id: int, tokens: seq<int>): Cache
    requires id in c.lrus
  {
    c.(contents := c.contents[id := tokens], states := c.states[id := Active],
       lrus := c.lrus - {id}, reversedLrus := c.reversedLrus - {c.lrus[id]})
  }

  ghost function Extend(c: Cache, id: int, tokens: seq<int>): Cache {
    if id in c.contents then c.(contents := c.contents[id := c.contents[id] + tokens]) else c
  }

  ghost function RollBack(c: Cache, id: int, n: nat): Cache
    requires id in c.contents && n <= |c.contents[id]|
  {
    c.(contents := c.contents[id := c.contents[id][..|c.contents[id]| - n]])
  }

  ghost function Recycle(c: Cache, id: int): Cache {
    c.(states := c.states[id := Recycling],
       lrus := c.lrus[id := c.lruCounter + 1],
       reversedLrus := c.reversedLrus[c.lruCounter + 1 := id],
       lruCounter := c.lruCounter + 1)
  }

  ghost function Remove(c: Cache, id: int): Cache {
    c.(contents := c.contents - {id}, states := c.states - {id}, windows := c.windows - {id})
  }

  /** Eviction of the recycling sequence `id`. */
  ghost function Evict(c: Cache, id: int): Cache
    requires id in c.lrus
  {
    Remove(c, id).(lrus := c.lrus - {id}, reversedLrus := c.reversedLrus - {c.lrus[id]})
  }

  /** RollBackSequence drops between one and all tokens of an active sequence, or fails. */
  ghost predicate RollBackStep(c: Cache, id: int, n: nat, ok: bool, d: Cache) {
    && (ok <==> id in c.states && c.states[id] == Active && id in c.contents && 0 < n <= |c.contents[id]|)
    && d == if ok then RollBack(c, id, n) else c
  }

  /** TryFreeMemory evicts some recycling sequence, if there is one; `removed` goes to the
      remove callback. */
  ghost predicate FreeStep(c: Cache, freed: bool, removed: seq<int>, d: Cache) {
    if c.lrus == map[] then !freed && removed == [] && d == c
    else freed && |removed| == 1 && removed[0] in c.lrus && d == Evict(c, removed[0])
  }

  /** RecycleSequence keeps an active sequence for reuse, evicting another one at the limit,
      or removes it at once; for any other id it fails. */
  ghost predicate RecycleStep(c: Cache, maxRecycling: int, id: int, isLazy: bool, removed: seq<int>, d: Cache) {
    if id !in c.states || c.states[id] != Active then removed == [] && d == c
    else if !isLazy || maxRecycling == 0 then removed == [id] && d == Remove(c, id)
    else if |c.lrus| != maxRecycling then removed == [] && d == Recycle(c, id)
    else |removed| == 1 && removed[0] in c.lrus && d == Recycle(Evict(c, removed[0]), id)
  }

  // ----- InsertSequence -------------------------------------------------------------------

  ghost predicate Matching(c: Cache, prefix: seq<int>, id: int) {
    id in c.contents && prefix <= c.contents[id]
  }

  ghost predicate Reusable(c: Cache, prefix: seq<int>, w: Window, id: int) {
    Matching(c, prefix, id) && IsRecycling(c, id) && id in c.windows && c.windows[id] == w
  }

  /** Reuse must not lose a tenth of a sequence, and under a sliding window nothing at all. */
  predicate WorthReusing(offset: nat, length: nat, w: Window) {
    if w.size != -1 then length == offset else offset as real > length as real * 0.9
  }

  ghost predicate NothingToReuse(c: Cache, prefix: seq<int>, w: Window) {
    forall id :: Reusable(c, prefix, w, id) ==> !WorthReusing(|prefix|, |c.contents[id]|, w)
  }

  ghost predicate Forkable(c: Cache, prefix: seq<int>, id: int) {
    Matching(c, prefix, id) && id in c.windows && c.windows[id].size == -1
  }

  ghost predicate ReuseStep(c: Cache, prefix: seq<int>, w: Window, r: MatchedResult, d: Cache) {
    var x := r.reusedSeqId;
    && prefix != [] && Reusable(c, prefix, w, x) && x in c.lrus
    && WorthReusing(|prefix|, |c.contents[x]|, w)
    && (w.size == -1 ==> forall y :: Reusable(c, prefix, w, y) ==> |c.contents[x]| <= |c.contents[y]|)
    && r == MatchedResult(|prefix|, -1, x, |c.contents[x]| - |prefix|)
    && d == Reuse(c, x, prefix)
  }

  ghost predicate ForkStep(c: Cache, id: int, prefix: seq<int>, w: Window, r: MatchedResult, d: Cache) {
    && prefix != [] && w.size == -1 && NothingToReuse(c, prefix, w)
    && Forkable(c, prefix, r.forkedSeqId)
    && r == MatchedResult(|prefix|, r.forkedSeqId, -1, 0)
    && d == Insert(c, id, prefix, w)
  }

  ghost predicate AddStep(c: Cache, id: int, prefix: seq<int>, w: Window, r: MatchedResult, d: Cache) {
    && (prefix != [] ==>
          NothingToReuse(c, prefix, w) && (w.size == -1 ==> forall y :: !Forkable(c, prefix, y)))
    && r == NO_MATCH && d == Insert(c, id, [], w)
  }

  ghost predicate InsertAt(c: Cache, id: int, prefix: seq<int>, w: Window, r: MatchedResult, d: Cache) {
    ReuseStep(c, prefix, w, r, d) || ForkStep(c, id, prefix, w, r, d) || AddStep(c, id, prefix, w, r, d)
  }

  /** InsertSequence: which of the matching sequences is reused or forked depends on the
      order in which the tree lists them, and is left open. */
  ghost predicate InsertStep(c: Cache, id: int, tokens: seq<int>, w: Window, r: MatchedResult, d: Cache)
  {
    && tokens != []
    && var t := tokens[..|tokens| - 1];
    exists offset: nat :: IsLongestMatch(c.contents, t, offset) && InsertAt(c, id, t[..offset], w, r, d)
  }

  /** The id that the caller continues with. */
  function FinalId(id: int, r: MatchedResult): int {
    if r.reusedSeqId != -1 then r.reusedSeqId else id
  }

  // ----- every operation keeps the invariant ---------------------------------------------------

  lemma ReuseConsistent(c: Cache, maxRecycling: int, id: int, tokens: seq<int>)
    requires Consistent(c, maxRecycling) && id in c.lrus
    ensures Consistent(Reuse(c, id, tokens), maxRecycling)
  {
    var d := Reuse(c, id, tokens);
    assert IdStampOk(c, id) && StampIdOk(c, c.lrus[id]);
    assert c.lrus.Keys == d.lrus.Keys + {id};
    forall x ensures IdStampOk(d, x) { assert IdStampOk(c, x); }
    forall t ensures StampIdOk(d, t) { assert StampIdOk(c, t); }
  }

  lemma ReuseThenRollBack(c: Cache, id: int, n: nat)
    requires id in c.lrus && id in c.contents && n <= |c.contents[id]|
    ensures RollBack(Reuse(c, id, c.contents[id]), id, |c.contents[id]| - n) == Reuse(c, id, c.contents[id][..n])
  {
  }

  lemma InsertConsistent(c: Cache, maxRecycling: int, id: int, tokens: seq<int>, w: Window)
    requires Consistent(c, maxRecycling) && id !in c.contents && id != -1
    ensures Consistent(Insert(c, id, tokens, w), maxRecycling)
  {
    var d := Insert(c, id, tokens, w);
    forall x ensures IdStampOk(d, x) { assert IdStampOk(c, x); }
    forall t ensures StampIdOk(d, t) { assert StampIdOk(c, t); }
  }

  lemma EvictConsistent(c: Cache, maxRecycling: int, id: int)
    requires Consistent(c, maxRecycling) && id in c.lrus
    ensures IsRecycling(c, id) && Consistent(Evict(c, id), maxRecycling)
    ensures |Evict(c, id).lrus| == |c.lrus| - 1
  {
    var d := Evict(c, id);
    assert IdStampOk(c, id) && StampIdOk(c, c.lrus[id]);
    assert c.lrus.Keys == d.lrus.Keys + {id};
    forall x ensures IdStampOk(d, x) { assert IdStampOk(c, x); }
    forall t ensures StampIdOk(d, t) { assert StampIdOk(c, t); }
  }

  lemma NoStampsLeft(c: Cache, maxRecycling: int)
    requires Consistent(c, maxRecycling) && c.reversedLrus == map[]
    ensures c.lrus == map[]
  {
    forall x ensures x !in c.lrus { assert IdStampOk(c, x); }
  }

  lemma NextStampIsNew(c: Cache, maxRecycling: int)
    requires Consistent(c, maxRecycling)
    ensures c.lruCounter + 1 !in c.reversedLrus
  {
    forall x ensures x in c.lrus ==> c.lrus[x] <= c.lruCounter { assert IdStampOk(c, x); }
    assert StampIdOk(c, c.lruCounter + 1);
  }

  lemma RecycleStamps(c: Cache, id: int)
    requires forall x {:trigger IdStampOk(c, x)} :: IdStampOk(c, x)
    requires forall t {:trigger StampIdOk(c, t)} :: StampIdOk(c, t)
    requires id in c.states && c.states[id] == Active && c.lruCounter + 1 !in c.reversedLrus
    ensures forall x {:trigger IdStampOk(Recycle(c, id), x)} :: IdStampOk(Recycle(c, id), x)
    ensures forall t {:trigger StampIdOk(Recycle(c, id), t)} :: StampIdOk(Recycle(c, id), t)
  {
    var d := Recycle(c, id);
    assert IdStampOk(c, id);
    forall x ensures IdStampOk(d, x) { assert IdStampOk(c, x); }
    forall t ensures StampIdOk(d, t) { assert StampIdOk(c, t); }
  }

  lemma RecycleConsistent(c: Cache, maxRecycling: int, id: int)
    requires Consistent(c, maxRecycling) && id in c.states && c.states[id] == Active
    requires maxRecycling >= 0 ==> |c.lrus| < maxRecycling
    ensures Consistent(Recycle(c, id), maxRecycling)
  {
    var d := Recycle(c, id);
    assert d.lrus.Keys == c.lrus.Keys + {id};
    NextStampIsNew(c, maxRecycling);
    RecycleStamps(c, id);
  }

  lemma RemoveConsistent(c: Cache, maxRecycling: int, id: int)
    requires Consistent(c, maxRecycling) && id in c.states && c.states[id] == Active
    ensures Consistent(Remove(c, id), maxRecycling)
  {
    var d := Remove(c, id);
    assert IdStampOk(c, id);
    forall x ensures IdStampOk(d, x) { assert IdStampOk(c, x); }
    forall t ensures StampIdOk(d, t) { assert StampIdOk(c, t); }
  }

  ghost predicate SameStatesBut(c: Cache, d: Cache, id: int) {
    forall y :: y in d.states && y != id ==> y in c.states && d.states[y] == c.states[y]
  }

  lemma RecycleMoreKeeps(c: Cache, victim: int, id: int)
    requires victim in c.lrus && victim != id && id in c.contents
    ensures var d := Recycle(Evict(c, victim), id);
      && id in d.contents && d.contents[id] == c.contents[id] && IsRecycling(d, id)
      && d.contents == c.contents - {victim} && SameStatesBut(c, d, id)
  {}

  /** A lazily recycled sequence is kept with its tokens unless nothing may be kept at all; at most
      one recycling sequence makes room for it, and only at the maximum; all others stay. */
  lemma RecycleKeeps(c: Cache, maxRecycling: int, id: int, removed: seq<int>, d: Cache)
    requires Consistent(c, maxRecycling) && id in c.states && c.states[id] == Active && maxRecycling != 0
    requires RecycleStep(c, maxRecycling, id, true, removed, d)
    ensures id in d.contents && d.contents[id] == c.contents[id] && IsRecycling(d, id)
    ensures removed == [] || (|removed| == 1 && IsRecycling(c, removed[0]) && |c.lrus| == maxRecycling)
    ensures d.contents == if removed == [] then c.contents else c.contents - {removed[0]}
    ensures SameStatesBut(c, d, id)
  {
    if |c.lrus| == maxRecycling {
      assert IdStampOk(c, removed[0]);
      RecycleMoreKeeps(c, removed[0], id);
    }
  }

  /** The invariant does not depend on the tokens. */
  lemma SameKeysConsistent(c: Cache, maxRecycling: int, contents: map<int, seq<int>>)
    requires Consistent(c, maxRecycling) && contents.Keys == c.contents.Keys
    ensures Consistent(c.(contents := contents), maxRecycling)
  {
    var d := c.(contents := contents);
    forall x ensures IdStampOk(d, x) { assert IdStampOk(c, x); }
    forall t ensures StampIdOk(d, t) { assert StampIdOk(c, t); }
  }

  lemma ExtendConsistent(c: Cache, maxRecycling: int, id: int, tokens: seq<int>)
    requires Consistent(c, maxRecycling)
    ensures Consistent(Extend(c, id, tokens), maxRecycling)
  {
    SameKeysConsistent(c, maxRecycling, Extend(c, id, tokens).contents);
  }

  // ----- what InsertSequence means for its caller --------------------------------------------

  /** All that a caller may conclude about the id it continues with. */
  ghost predicate Delivers(c: Cache, id: int, tokens: seq<int>, w: Window, r: MatchedResult, d: Cache) {
    var x := FinalId(id, r);
    && r.prefilledOffset < |tokens|
    && x in d.contents && d.contents[x] == tokens[..r.prefilledOffset]
    && x in d.states && d.states[x] == Active && x in d.windows && d.windows[x] == w
    && (x == id || IsRecycling(c, x))
    && d.contents - {x} == c.contents - {x}
    && d.states - {x} == c.states - {x}
    && d.windows - {x} == c.windows - {x}
  }

  lemma ReuseDelivers(c: Cache, id: int, tokens: seq<int>, offset: nat, w: Window, r: MatchedResult, d: Cache)
    requires -1 !in c.states && offset < |tokens|
    requires ReuseStep(c, tokens[..offset], w, r, d)
    ensures Delivers(c, id, tokens, w, r, d)
  {
  }

  lemma InsertDelivers(c: Cache, id: int, tokens: seq<int>, offset: nat, w: Window, r: MatchedResult, d: Cache)
    requires id !in c.contents && id !in c.states && id !in c.windows && offset < |tokens|
    requires ForkStep(c, id, tokens[..offset], w, r, d) || AddStep(c, id, tokens[..offset], w, r, d)
    ensures Delivers(c, id, tokens, w, r, d)
  {
  }

  /** The id the caller ends up with is active and holds exactly the tokens it need not prefill;
      at least one token is left; nothing else changes, and the invariant is kept. */
  lemma InsertContract(c: Cache, maxRecycling: int, id: int, tokens: seq<int>, w: Window, r: MatchedResult, d: Cache)
    requires Consistent(c, maxRecycling) && tokens != [] && id !in c.contents && id != -1
    requires InsertStep(c, id, tokens, w, r, d)
    ensures Delivers(c, id, tokens, w, r, d)
    ensures Consistent(d, maxRecycling)
  {
    var t := tokens[..|tokens| - 1];
    var offset: nat :| IsLongestMatch(c.contents, t, offset) && InsertAt(c, id, t[..offset], w, r, d);
    assert t[..offset] == tokens[..offset];
    if ReuseStep(c, t[..offset], w, r, d) {
      ReuseDelivers(c, id, tokens, offset, w, r, d);
      ReuseConsistent(c, maxRecycling, r.reusedSeqId, t[..offset]);
    } else {
      InsertDelivers(c, id, tokens, offset, w, r, d);
      InsertConsistent(c, maxRecycling, id, d.contents[id], w);
    }
  }

  /** On reuse the pop count is the dropped tail, under a tenth of the old length and as small as
      any recycling sequence with the match allows; under a sliding window nothing is rolled back and nothing is forked. */
  lemma InsertLosesLittle(c: Cache, id: int, tokens: seq<int>, w: Window, r: MatchedResult, d: Cache)
    requires tokens != [] && InsertStep(c, id, tokens, w, r, d) && -1 !in c.contents
    ensures r.prefilledOffset < |tokens|
    ensures r.reusedSeqId != -1 ==>
              && r.reusedSeqId in c.contents && r.forkedSeqId == -1
              && r.popLastTokens == |c.contents[r.reusedSeqId]| - r.prefilledOffset
              && (w.size == -1 ==> 10 * r.popLastTokens < |c.contents[r.reusedSeqId]|)
    ensures r.reusedSeqId != -1 && w.size == -1 ==>
              forall y :: y in c.contents && tokens[..r.prefilledOffset] <= c.contents[y] && IsRecycling(c, y) &&
                          y in c.windows && c.windows[y] == w ==>
                r.popLastTokens <= |c.contents[y]| - r.prefilledOffset
    ensures w.size != -1 ==> r.popLastTokens == 0 && r.forkedSeqId == -1
  {
    var t := tokens[..|tokens| - 1];
    var offset: nat :| IsLongestMatch(c.contents, t, offset) && InsertAt(c, id, t[..offset], w, r, d);
  }

  lemma LongestMatchIsUnique(contents: map<int, seq<int>>, tokens: seq<int>, a: nat, b: nat)
    requires IsLongestMatch(contents, tokens, a) && IsLongestMatch(contents, tokens, b)
    ensures a == b
  {
  }

  /** Reusing `id` for a prompt that starts with `prefix` drops nothing under a sliding window,
      and less than a tenth of the sequence without one. */
  ghost predicate Keeps(c: Cache, prefix: seq<int>, w: Window, id: int) {
    && id in c.contents && prefix <= c.contents[id]
    && id in c.states && c.states[id] == Recycling && id in c.windows && c.windows[id] == w
    && if w.size == -1 then 10 * (|c.contents[id]| - |prefix|) < |c.contents[id]| else |c.contents[id]| == |prefix|
  }

  lemma WorthReusingIff(offset: nat, length: nat, w: Window)
    requires offset <= length
    ensures WorthReusing(offset, length, w) <==> if w.size == -1 then 10 * (length - offset) < length else length == offset
  {
    assert (10 * offset) as real == offset as real * 10.0 && (9 * length) as real == length as real * 9.0;
  }

  lemma NothingKept(c: Cache, prefix: seq<int>, w: Window)
    ensures NothingToReuse(c, prefix, w) <==> forall x :: !Keeps(c, prefix, w, x)
  {
    forall x ensures Keeps(c, prefix, w, x) <==> Reusable(c, prefix, w, x) && WorthReusing(|prefix|, |c.contents[x]|, w) {
      if Reusable(c, prefix, w, x) {
        WorthReusingIff(|prefix|, |c.contents[x]|, w);
      }
    }
  }

  /** The whole longest match is used whenever that is possible at all, by reuse whenever some
      recycling sequence loses little, by a fork only if none does. */
  lemma InsertUsesLongestMatch(c: Cache, id: int, tokens: seq<int>, w: Window, r: MatchedResult, d: Cache, offset: nat)
    requires tokens != [] && InsertStep(c, id, tokens, w, r, d) && -1 !in c.contents
    requires IsLongestMatch(c.contents, tokens[..|tokens| - 1], offset)
    ensures r.reusedSeqId != -1 <==> offset > 0 && exists x :: Keeps(c, tokens[..offset], w, x)
    ensures r.reusedSeqId != -1 ==> Keeps(c, tokens[..offset], w, r.reusedSeqId)
    ensures r.forkedSeqId != -1 <==>
              r.reusedSeqId == -1 && offset > 0 && w.size == -1 && exists y :: Forkable(c, tokens[..offset], y)
    ensures r.prefilledOffset == if r.reusedSeqId != -1 || r.forkedSeqId != -1 then offset else 0
  {
    var t := tokens[..|tokens| - 1];
    var n: nat :| IsLongestMatch(c.contents, t, n) && InsertAt(c, id, t[..n], w, r, d);
    LongestMatchIsUnique(c.contents, t, n, offset);
    assert t[..offset] == tokens[..offset];
    NothingKept(c, tokens[..offset], w);
    if r.reusedSeqId != -1 {
      WorthReusingIff(offset, |c.contents[r.reusedSeqId]|, w);
    }
  }

  /** A prompt is matched as well as can be: with the longest match of all but its last token if
      some recycling sequence can be reused with little loss, or else some sequence be forked,
      and not at all otherwise. */
  ghost predicate BestMatch(c: Cache, tokens: seq<int>, w: Window, n: nat, reused: bool) {
    exists offset: nat :: BestAt(c, tokens, w, n, reused, offset)
  }

  ghost predicate BestAt(c: Cache, tokens: seq<int>, w: Window, n: nat, reused: bool, offset: nat) {
    && tokens != [] && IsLongestMatch(c.contents, tokens[..|tokens| - 1], offset)
    && (reused <==> offset > 0 && exists x :: Keeps(c, tokens[..offset], w, x))
    && n == if reused || (offset > 0 && w.size == -1 && exists y :: Forkable(c, tokens[..offset], y)) then offset else 0
  }

  lemma InsertFindsBest(c: Cache, id: int, tokens: seq<int>, w: Window, r: MatchedResult, d: Cache)
    requires tokens != [] && InsertStep(c, id, tokens, w, r, d) && -1 !in c.contents
    ensures BestMatch(c, tokens, w, r.prefilledOffset, r.reusedSeqId != -1)
  {
    var t := tokens[..|tokens| - 1];
    var offset: nat :| IsLongestMatch(c.contents, t, offset) && InsertAt(c, id, t[..offset], w, r, d);
    InsertUsesLongestMatch(c, id, tokens, w, r, d, offset);
    assert BestAt(c, tokens, w, r.prefilledOffset, r.reusedSeqId != -1, offset);
  }
}
