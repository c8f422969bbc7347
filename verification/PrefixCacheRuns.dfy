/**
  Deferred extension is invisible.  A run of the cache that queues its extensions and one
  that applies them at once offer the same results, call for call, and the same contents,
  as long as no caller changes a vector while the queue refers to it.
  */
module PrefixCacheRuns {
  import opened PrefixCacheSpec
  import opened PrefixCacheQueue

  datatype Call =
    | InsertCall(id: int, tokens: seq<int>, w: Window)
    | WriteCall(v: VectorId, tokens: seq<int>)
    | ExtendCall(id: int, v: VectorId)
    | RollBackCall(id: int, n: nat)
    | RecycleCall(id: int, isLazy: bool)
    | FreeCall
    | HasCall(id: int)
    | CommitCall

  datatype Outcome =
    | Inserted(ok: bool, r: MatchedResult)
    | RolledBack(ok: bool)
    | Recycled(ok: bool, removed: seq<int>)
    | Freed(freed: bool, removed: seq<int>)
    | Has(b: bool)
    | Done

  /** One call and its result. */
  type Event = (Call, Outcome)

  /** The callers' vectors after an event: only their own writes change them. */
  function Written(vectors: Vectors, e: Event): Vectors {
    if e.0.WriteCall? then vectors[e.0.v := e.0.tokens] else vectors
  }

  // ----- the cache that applies extensions at once -------------------------------------

  /** The argument checks of InsertSequence. */
  ghost predicate InsertAllowed(c: Cache, id: int, tokens: seq<int>, w: Window) {
    w.size != 0 && id !in c.contents && tokens != []
  }

  ghost predicate InsertCallStep(c: Cache, id: int, tokens: seq<int>, w: Window, o: Outcome, d: Cache) {
    && o.Inserted? && (o.ok <==> InsertAllowed(c, id, tokens, w))
    && if o.ok then InsertStep(c, id, tokens, w, o.r, d) else o.r == NO_MATCH && d == c
  }

  ghost predicate RecycleCallStep(c: Cache, maxRecycling: int, id: int, isLazy: bool, o: Outcome, d: Cache) {
    && o.Recycled? && (o.ok <==> id in c.states && c.states[id] == Active)
    && RecycleStep(c, maxRecycling, id, isLazy, o.removed, d)
  }

  /** Extensions read their vector at the call; later writes mean nothing to this cache. */
  ghost predicate EagerStep(c: Cache, vectors: Vectors, maxRecycling: int, e: Event, d: Cache) {
    match e.0
    case InsertCall(id, tokens, w) => InsertCallStep(c, id, tokens, w, e.1, d)
    case WriteCall(v, tokens) => e.1 == Done && d == c
    case ExtendCall(id, v) => e.1 == Done && d == Extend(c, id, At(vectors, v))
    case RollBackCall(id, n) => e.1.RolledBack? && RollBackStep(c, id, n, e.1.ok, d)
    case RecycleCall(id, isLazy) => RecycleCallStep(c, maxRecycling, id, isLazy, e.1, d)
    case FreeCall => e.1.Freed? && FreeStep(c, e.1.freed, e.1.removed, d)
    case HasCall(id) => e.1 == Has(id in c.contents) && d == c
    case CommitCall => e.1 == Done && d == c
  }

  // ----- the cache that queues them -----------------------------------------------------

  datatype LazyCache = LazyCache(stored: Cache, pending: Pending, vectors: Vectors)

  ghost function View(s: LazyCache): Cache {
    Through(s.stored, s.pending, s.vectors)
  }

  /** CommitSequenceExtention reads the vectors as they are now. */
  ghost function Commit(s: LazyCache): LazyCache {
    s.(stored := View(s), pending := [])
  }

  /** The queue after an event: most calls commit it, eviction and lookup do not, nor does an
      insertion whose arguments are refused. */
  function QueueAfter(pending: Pending, e: Event): Pending {
    match e.0
    case InsertCall(_, _, _) => if e.1.Inserted? && !e.1.ok then pending else []
    case WriteCall(_, _) => pending
    case ExtendCall(id, v) => pending + [(id, v)]
    case RollBackCall(_, _) => []
    case RecycleCall(_, _) => []
    case FreeCall => pending
    case HasCall(_) => pending
    case CommitCall => []
  }

  /** Eviction, lookup and argument checks go to the tree as it is; the other calls commit
      first. */
  ghost predicate LazyStep(s: LazyCache, maxRecycling: int, e: Event, t: LazyCache) {
    && t.vectors == Written(s.vectors, e) && t.pending == QueueAfter(s.pending, e)
    && match e.0
       case InsertCall(id, tokens, w) =>
         && e.1.Inserted? && (e.1.ok <==> InsertAllowed(s.stored, id, tokens, w))
         && if e.1.ok then InsertStep(View(s), id, tokens, w, e.1.r, t.stored) else e.1.r == NO_MATCH && t.stored == s.stored
       case WriteCall(_, _) => e.1 == Done && t.stored == s.stored
       case ExtendCall(_, _) => e.1 == Done && t.stored == s.stored
       case RollBackCall(_, _) => EagerStep(View(s), s.vectors, maxRecycling, e, t.stored)
       case RecycleCall(_, _) => EagerStep(View(s), s.vectors, maxRecycling, e, t.stored)
       case FreeCall => EagerStep(s.stored, s.vectors, maxRecycling, e, t.stored)
       case HasCall(_) => EagerStep(s.stored, s.vectors, maxRecycling, e, t.stored)
       case CommitCall => e.1 == Done && t == Commit(s)
  }

  ghost predicate LazyInv(s: LazyCache, maxRecycling: int) {
    QueueInv(s.stored, s.pending, s.vectors, maxRecycling)
  }

  /** What is asked of the callers: a sequence is extended only while active (or absent); a
      write goes unseen by the queue; and -1 names no sequence. */
  ghost predicate Legal(c: Cache, pending: Pending, vectors: Vectors, e: Event) {
    && (e.0.ExtendCall? ==> NotRecycling(c, e.0.id))
    && (e.0.WriteCall? ==> Unseen(c.contents, pending, vectors, e.0.v, e.0.tokens))
    && (e.0.InsertCall? ==> e.0.id != -1)
  }

  // ----- one step ------------------------------------------------------------------------

  lemma EagerKeepsConsistent(c: Cache, vectors: Vectors, maxRecycling: int, e: Event, d: Cache)
    requires Consistent(c, maxRecycling) && EagerStep(c, vectors, maxRecycling, e, d)
    requires e.0.InsertCall? ==> e.0.id != -1
    ensures Consistent(d, maxRecycling)
  {
    match e.0
    case InsertCall(id, tokens, w) =>
      if e.1.ok {
        InsertContract(c, maxRecycling, id, tokens, w, e.1.r, d);
      }
    case WriteCall(_, _) =>
    case ExtendCall(id, v) =>
      ExtendConsistent(c, maxRecycling, id, At(vectors, v));
    case RollBackCall(id, n) =>
      RollBackStepConsistent(c, maxRecycling, id, n, e.1.ok, d);
    case RecycleCall(id, isLazy) =>
      RecycleStepConsistent(c, maxRecycling, id, isLazy, e.1.removed, d);
    case FreeCall =>
      FreeStepConsistent(c, maxRecycling, e.1.freed, e.1.removed, d);
    case HasCall(_) =>
    case CommitCall =>
  }

  lemma RollBackStepConsistent(c: Cache, maxRecycling: int, id: int, n: nat, ok: bool, d: Cache)
    requires Consistent(c, maxRecycling) && RollBackStep(c, id, n, ok, d)
    ensures Consistent(d, maxRecycling)
  {
    if ok {
      SameKeysConsistent(c, maxRecycling, d.contents);
    }
  }

  lemma FreeStepConsistent(c: Cache, maxRecycling: int, freed: bool, removed: seq<int>, d: Cache)
    requires Consistent(c, maxRecycling) && FreeStep(c, freed, removed, d)
    ensures Consistent(d, maxRecycling)
  {
    if c.lrus != map[] {
      EvictConsistent(c, maxRecycling, removed[0]);
    }
  }

  lemma RecycleStepConsistent(c: Cache, maxRecycling: int, id: int, isLazy: bool, removed: seq<int>, d: Cache)
    requires Consistent(c, maxRecycling) && RecycleStep(c, maxRecycling, id, isLazy, removed, d)
    ensures Consistent(d, maxRecycling)
  {
    assert IdStampOk(c, id);
    if id in c.states && c.states[id] == Active {
      if !isLazy || maxRecycling == 0 {
        RemoveConsistent(c, maxRecycling, id);
      } else if |c.lrus| != maxRecycling {
        RecycleConsistent(c, maxRecycling, id);
      } else {
        EvictConsistent(c, maxRecycling, removed[0]);
        RecycleConsistent(Evict(c, removed[0]), maxRecycling, id);
      }
    }
  }

  /** Every legal step of the queueing cache is a step of the immediate one, with the same
      result. */
  lemma LazyToEager(s: LazyCache, maxRecycling: int, e: Event, t: LazyCache)
    requires LazyInv(s, maxRecycling) && Legal(View(s), s.pending, s.vectors, e) && LazyStep(s, maxRecycling, e, t)
    ensures EagerStep(View(s), s.vectors, maxRecycling, e, View(t))
    ensures LazyInv(t, maxRecycling)
  {
    match e.0 {
      case InsertCall(_, _, _) =>
      case WriteCall(v, tokens) =>
        WriteThroughQueue(s.stored, s.pending, s.vectors, maxRecycling, v, tokens);
      case ExtendCall(id, v) =>
        ExtendThroughQueue(s.stored, s.pending, s.vectors, maxRecycling, id, v);
      case RollBackCall(_, _) =>
      case RecycleCall(_, _) =>
      case FreeCall =>
        if s.stored.lrus != map[] {
          EvictThroughQueue(s.stored, s.pending, s.vectors, maxRecycling, e.1.removed[0]);
          assert t == s.(stored := Evict(s.stored, e.1.removed[0]));
        } else {
          assert t == s;
        }
      case HasCall(_) =>
      case CommitCall =>
    }
    EagerKeepsConsistent(View(s), s.vectors, maxRecycling, e, View(t));
  }

  lemma EagerToLazyFree(s: LazyCache, maxRecycling: int, e: Event, d: Cache) returns (t: LazyCache)
    requires LazyInv(s, maxRecycling) && e.0 == FreeCall && EagerStep(View(s), s.vectors, maxRecycling, e, d)
    ensures LazyStep(s, maxRecycling, e, t) && View(t) == d
  {
    t := s;
    if s.stored.lrus != map[] {
      EvictThroughQueue(s.stored, s.pending, s.vectors, maxRecycling, e.1.removed[0]);
      t := s.(stored := Evict(s.stored, e.1.removed[0]));
    }
  }

  lemma EagerToLazyExtend(s: LazyCache, maxRecycling: int, e: Event, d: Cache) returns (t: LazyCache)
    requires LazyInv(s, maxRecycling) && e.0.ExtendCall? && NotRecycling(s.stored, e.0.id)
    requires EagerStep(View(s), s.vectors, maxRecycling, e, d)
    ensures LazyStep(s, maxRecycling, e, t) && View(t) == d
  {
    ExtendThroughQueue(s.stored, s.pending, s.vectors, maxRecycling, e.0.id, e.0.v);
    t := s.(pending := s.pending + [(e.0.id, e.0.v)]);
  }

  lemma EagerToLazyCommitted(s: LazyCache, maxRecycling: int, e: Event, d: Cache) returns (t: LazyCache)
    requires (e.0.RollBackCall? || e.0.RecycleCall? || e.0.InsertCall?) && EagerStep(View(s), s.vectors, maxRecycling, e, d)
    ensures LazyStep(s, maxRecycling, e, t) && View(t) == d
  {
    t := if e.0.InsertCall? && !e.1.ok then s else LazyCache(d, [], s.vectors);
  }

  /** And every legal step of the immediate cache can be taken by the queueing one. */
  lemma EagerToLazy(s: LazyCache, maxRecycling: int, e: Event, d: Cache) returns (t: LazyCache)
    requires LazyInv(s, maxRecycling) && Legal(View(s), s.pending, s.vectors, e)
    requires EagerStep(View(s), s.vectors, maxRecycling, e, d)
    ensures LazyStep(s, maxRecycling, e, t) && View(t) == d
  {
    match e.0 {
      case InsertCall(_, _, _) => t := EagerToLazyCommitted(s, maxRecycling, e, d);
      case WriteCall(v, tokens) =>
        WriteThroughQueue(s.stored, s.pending, s.vectors, maxRecycling, v, tokens);
        t := s.(vectors := s.vectors[v := tokens]);
      case ExtendCall(_, _) => t := EagerToLazyExtend(s, maxRecycling, e, d);
      case RollBackCall(_, _) => t := EagerToLazyCommitted(s, maxRecycling, e, d);
      case RecycleCall(_, _) => t := EagerToLazyCommitted(s, maxRecycling, e, d);
      case FreeCall => t := EagerToLazyFree(s, maxRecycling, e, d);
      case HasCall(_) => t := s;
      case CommitCall => t := Commit(s);
    }
  }

  // ----- whole runs -------------------------------------------------------------------------

  ghost predicate EagerRun(c: Cache, vectors: Vectors, maxRecycling: int, run: seq<Event>, d: Cache)
    decreases |run|
  {
    if run == [] then d == c
    else exists m :: EagerStep(c, vectors, maxRecycling, run[0], m) &&
                     EagerRun(m, Written(vectors, run[0]), maxRecycling, run[1..], d)
  }

  ghost predicate LazyRun(s: LazyCache, maxRecycling: int, run: seq<Event>, t: LazyCache)
    decreases |run|
  {
    if run == [] then t == s
    else exists m :: LazyStep(s, maxRecycling, run[0], m) && LazyRun(m, maxRecycling, run[1..], t)
  }

  /** A run of the queueing cache along which the callers keep their obligations. */
  ghost predicate LegalLazyRun(s: LazyCache, maxRecycling: int, run: seq<Event>, t: LazyCache)
    decreases |run|
  {
    if run == [] then t == s
    else Legal(View(s), s.pending, s.vectors, run[0]) &&
         exists m :: LazyStep(s, maxRecycling, run[0], m) && LegalLazyRun(m, maxRecycling, run[1..], t)
  }

  /** The same obligations along a run of the immediate cache; the queue is what the callers
      know they have extended since the last commit. */
  ghost predicate LegalEagerRun(c: Cache, pending: Pending, vectors: Vectors, maxRecycling: int, run: seq<Event>, d: Cache)
    decreases |run|
  {
    if run == [] then d == c
    else Legal(c, pending, vectors, run[0]) &&
         exists m :: EagerStep(c, vectors, maxRecycling, run[0], m) &&
                     LegalEagerRun(m, QueueAfter(pending, run[0]), Written(vectors, run[0]), maxRecycling, run[1..], d)
  }

  /** Whatever results a legal run of the queueing cache shows, the immediate cache can show the
      same ones, and committing at the end leaves the same contents. */
  lemma {:induction false} DeferredExtensionIsInvisible(s: LazyCache, maxRecycling: int, run: seq<Event>, t: LazyCache)
    requires LazyInv(s, maxRecycling) && LegalLazyRun(s, maxRecycling, run, t)
    ensures EagerRun(View(s), s.vectors, maxRecycling, run, Commit(t).stored)
    ensures LazyInv(t, maxRecycling)
    decreases |run|
  {
    if run != [] {
      var m :| LazyStep(s, maxRecycling, run[0], m) && LegalLazyRun(m, maxRecycling, run[1..], t);
      LazyToEager(s, maxRecycling, run[0], m);
      DeferredExtensionIsInvisible(m, maxRecycling, run[1..], t);
    }
  }

  /** Conversely, every legal run of the immediate cache is a legal run of the queueing one. */
  lemma {:induction false} ImmediateRunsCanBeDeferred(s: LazyCache, maxRecycling: int, run: seq<Event>, d: Cache) returns (t: LazyCache)
    requires LazyInv(s, maxRecycling) && LegalEagerRun(View(s), s.pending, s.vectors, maxRecycling, run, d)
    ensures LegalLazyRun(s, maxRecycling, run, t)
    ensures Commit(t).stored == d
    decreases |run|
  {
    t := s;
    if run != [] {
      var m :| EagerStep(View(s), s.vectors, maxRecycling, run[0], m) &&
               LegalEagerRun(m, QueueAfter(s.pending, run[0]), Written(s.vectors, run[0]), maxRecycling, run[1..], d);
      var u := EagerToLazy(s, maxRecycling, run[0], m);
      LazyToEager(s, maxRecycling, run[0], u);
      t := ImmediateRunsCanBeDeferred(u, maxRecycling, run[1..], d);
    }
  }

  /** A step that writes a vector keeps what will be committed if and only if it is legal. */
  lemma WriteIsInvisibleIffLegal(s: LazyCache, maxRecycling: int, e: Event, t: LazyCache)
    requires e.0.WriteCall? && LazyStep(s, maxRecycling, e, t)
    ensures View(t) == View(s) <==> Legal(View(s), s.pending, s.vectors, e)
  {
    WriteUnseenIff(s.stored.contents, s.pending, s.vectors, e.0.v, e.0.tokens);
  }

  // ----- from one commit to the next ----------------------------------------------------------

  /** Only extensions, writes and lookups: nothing is committed or evicted. */
  predicate Queueing(run: seq<Event>) {
    forall i :: 0 <= i < |run| ==> run[i].0.ExtendCall? || run[i].0.WriteCall? || run[i].0.HasCall?
  }

  /** The extensions of a run with the tokens that their vectors held at the call. */
  ghost function MeantBy(run: seq<Event>, vectors: Vectors): seq<(int, seq<int>)>
    decreases |run|
  {
    if run == [] then [] else MeantByOne(run[0], vectors) + MeantBy(run[1..], Written(vectors, run[0]))
  }

  function MeantByOne(e: Event, vectors: Vectors): seq<(int, seq<int>)> {
    if e.0.ExtendCall? then [(e.0.id, At(vectors, e.0.v))] else []
  }

  lemma MeantFirst(c: Cache, vectors: Vectors, maxRecycling: int, e: Event, m: Cache, rest: seq<(int, seq<int>)>)
    requires e.0.ExtendCall? || e.0.WriteCall? || e.0.HasCall?
    requires EagerStep(c, vectors, maxRecycling, e, m)
    ensures m.(contents := AppliedTokens(m.contents, rest)) ==
            c.(contents := AppliedTokens(c.contents, MeantByOne(e, vectors) + rest))
  {
    var all := MeantByOne(e, vectors) + rest;
    if e.0.ExtendCall? {
      assert all[1..] == rest;
    } else {
      assert all == rest;
    }
  }

  lemma {:induction false} ImmediateHoldsWhatWasMeant(c: Cache, vectors: Vectors, maxRecycling: int, run: seq<Event>, d: Cache)
    requires Queueing(run) && EagerRun(c, vectors, maxRecycling, run, d)
    ensures d == c.(contents := AppliedTokens(c.contents, MeantBy(run, vectors)))
    decreases |run|
  {
    if run != [] {
      var m :| EagerStep(c, vectors, maxRecycling, run[0], m) &&
               EagerRun(m, Written(vectors, run[0]), maxRecycling, run[1..], d);
      ImmediateHoldsWhatWasMeant(m, Written(vectors, run[0]), maxRecycling, run[1..], d);
      MeantFirst(c, vectors, maxRecycling, run[0], m, MeantBy(run[1..], Written(vectors, run[0])));
    }
  }

  lemma {:induction false} QueueingStoresNothing(s: LazyCache, maxRecycling: int, run: seq<Event>, t: LazyCache)
    requires Queueing(run) && LazyRun(s, maxRecycling, run, t)
    ensures t.stored == s.stored
    decreases |run|
  {
    if run != [] {
      var m :| LazyStep(s, maxRecycling, run[0], m) && LazyRun(m, maxRecycling, run[1..], t);
      QueueingStoresNothing(m, maxRecycling, run[1..], t);
    }
  }

  /** Whatever the callers write, legal or not, the next commit gives what the immediate cache
      holds if and only if the tokens then queued for every stored id are those that were meant:
      a write that is undone in time does no harm. */
  lemma CommitAgreesWithImmediateIff(s: LazyCache, maxRecycling: int, run: seq<Event>, t: LazyCache, d: Cache)
    requires s.pending == [] && Queueing(run) && LazyRun(s, maxRecycling, run, t)
    requires EagerRun(View(s), s.vectors, maxRecycling, run, d)
    ensures Commit(t).stored == d <==>
            forall id :: id in s.stored.contents ==>
              QueuedFor(t.pending, t.vectors, id) == MeantFor(MeantBy(run, s.vectors), id)
  {
    QueueingStoresNothing(s, maxRecycling, run, t);
    ImmediateHoldsWhatWasMeant(View(s), s.vectors, maxRecycling, run, d);
    CommitAgreesIff(s.stored.contents, t.pending, t.vectors, MeantBy(run, s.vectors));
  }

  // ----- a run that breaks the obligation -----------------------------------------------------

  /** Extending with a vector, changing the vector and committing: the cache then holds the
      changed tokens, which no run of the immediate cache with these calls gives. */
  lemma ChangedVectorIsCommitted() returns (s: LazyCache, run: seq<Event>, t: LazyCache)
    ensures LazyInv(s, -1) && LazyRun(s, -1, run, t)
    ensures run == [(ExtendCall(1, 7), Done), (WriteCall(7, [6]), Done), (CommitCall, Done)]
    ensures s.stored.contents == map[1 := []]
    ensures At(s.vectors, 7) == [5]
    ensures t.stored.contents == map[1 := [6]]
    ensures !EagerRun(View(s), s.vectors, -1, run, Commit(t).stored)
  {
    var c := Cache(map[1 := []], map[1 := Active], map[1 := Window(-1, 0)], map[], map[], 0);
    s := LazyCache(c, [], map[7 := [5]]);
    forall x ensures IdStampOk(c, x) {}
    forall n ensures StampIdOk(c, n) {}
    run := [(ExtendCall(1, 7), Done), (WriteCall(7, [6]), Done), (CommitCall, Done)];
    var s1 := s.(pending := [(1, 7)]);
    var s2 := s1.(vectors := s.vectors[7 := [6]]);
    AppliedIs(c.contents, [(1, 7)], s2.vectors, 1);
    assert [(1, 7)][1..] == [];
    assert QueuedFor([(1, 7)], s2.vectors, 1) == [6] + QueuedFor([], s2.vectors, 1) == [6];
    assert View(s2).contents[1] == [6];
    t := Commit(s2);
    assert run[1..] == [(WriteCall(7, [6]), Done), (CommitCall, Done)] && run[1..][1..] == [(CommitCall, Done)];
    assert run[1..][1..][1..] == [] && LazyRun(t, -1, [], t);
    assert LazyRun(s2, -1, run[1..][1..], t);
    assert LazyRun(s1, -1, run[1..], t);
    if EagerRun(View(s), s.vectors, -1, run, Commit(t).stored) {
      EagerRunIs(View(s), s.vectors, Commit(t).stored);
    }
  }

  lemma EagerRunIs(c: Cache, vectors: Vectors, d: Cache)
    requires c.contents == map[1 := []] && At(vectors, 7) == [5]
    requires EagerRun(c, vectors, -1, [(ExtendCall(1, 7), Done), (WriteCall(7, [6]), Done), (CommitCall, Done)], d)
    ensures d.contents == map[1 := [5]]
  {
    var run := [(ExtendCall(1, 7), Done), (WriteCall(7, [6]), Done), (CommitCall, Done)];
    assert run[1..] == [(WriteCall(7, [6]), Done), (CommitCall, Done)] && run[1..][1..] == [(CommitCall, Done)];
    assert run[1..][1..][1..] == [];
    var now := vectors[7 := [6]];
    var c1 :| EagerStep(c, vectors, -1, run[0], c1) && EagerRun(c1, Written(vectors, run[0]), -1, run[1..], d);
    var c2 :| EagerStep(c1, vectors, -1, run[1], c2) && EagerRun(c2, now, -1, run[1..][1..], d);
    var c3 :| EagerStep(c2, now, -1, run[2], c3) && EagerRun(c3, Written(now, run[2]), -1, [], d);
    assert c1.contents[1] == [] + [5] == [5];
  }
}
