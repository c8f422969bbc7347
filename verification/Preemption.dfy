/** Preemption of the last running request, and the loop that makes room for decoding.
    Requests have a single entry; disaggregation is off. */
module Preemption {
  import opened PrefillInputs
  import opened Sequences
  import opened EngineCache

  /** A request's part in one model. */
  datatype ModelState = ModelState(internalId: int, inputs: seq<Data>, committed: seq<int>, prefilledInputs: seq<Data>,
                                   numPrefilledTokens: nat, cachedCommittedTokens: nat, numTokensForNextDecode: nat)

  datatype RequestState = RequestState(prompt: seq<Data>, alive: bool, models: seq<ModelState>, pages: nat) {
    /** Models other than the main one, models[0], may lag behind in committed tokens. */
    ghost predicate Valid() {
      && prompt != [] && models != []
      && (forall m :: 0 <= m < |models| ==> models[m].committed <= models[0].committed)
      && (forall m :: 0 <= m < |models| ==> models[m].internalId == models[0].internalId)
    }

    ghost function Id(): int
      requires Valid()
    {
      models[0].internalId
    }

    /** Alive with its prompt prefilled. */
    predicate Ready() {
      alive && models != [] && models[0].inputs == []
    }
  }

  // ----- the inputs of a preempted request --------------------------------------------------

  /** Commits the tokens that the main model has ahead of this one. */
  method CatchUp(m: ModelState, main: seq<int>) returns (r: ModelState)
    requires m.committed <= main
    ensures r.committed == main && r.internalId == m.internalId
    ensures r.inputs == m.inputs
    ensures r.numTokensForNextDecode == m.numTokensForNextDecode + |main| - |m.committed|
  {
    r := m;
    for i := |m.committed| to |main|
      invariant r.committed == main[..i] && r.internalId == m.internalId && r.inputs == m.inputs
      invariant r.numTokensForNextDecode == m.numTokensForNextDecode + i - |m.committed|
    {
      r := r.(committed := r.committed + [main[i]], numTokensForNextDecode := r.numTokensForNextDecode + 1);
    }
  }

  /** The prompt followed by the committed tokens, which join a final piece of token data. */
  method InputsForPrefill(prompt: seq<Data>, committed: seq<int>) returns (inputs: seq<Data>)
    requires prompt != []
    ensures inputs != []
    ensures Units(inputs) == Units(prompt) + TokenUnits(committed)
    ensures |inputs| == |prompt| || (|inputs| == |prompt| + 1 && prompt[|prompt| - 1].ImageData? && committed != [])
  {
    var n := |prompt| - 1;
    ghost var front := prompt[..n];
    var last := prompt[n];
    assert prompt == front + [last];
    UnitsConcat(front, [last]);
    UnitsOfOne(last);
    if last.TokenData? {
      var merged := TokenData(last.tokens + committed);
      inputs := prompt[n := merged];
      assert inputs == front + [merged];
      UnitsConcat(front, [merged]);
      UnitsOfOne(merged);
      assert TokenUnits(last.tokens + committed) == TokenUnits(last.tokens) + TokenUnits(committed);
    } else if committed != [] {
      inputs := prompt + [TokenData(committed)];
      UnitsConcat(prompt, [TokenData(committed)]);
      UnitsOfOne(TokenData(committed));
    } else {
      inputs := prompt;
      assert TokenUnits(committed) == [];
    }
  }

  /** Preempted: pending under id `newId`, and every model is to prefill the prompt and all
      tokens committed on the main model. */
  ghost predicate Requeued(before: RequestState, after: RequestState, newId: int)
    requires before.Valid()
  {
    && after.prompt == before.prompt && !after.alive && |after.models| == |before.models|
    && forall m :: 0 <= m < |after.models| ==> ToPrefill(before.prompt, before.models[0].committed, after.models[m], newId)
  }

  ghost predicate ToPrefill(prompt: seq<Data>, main: seq<int>, m: ModelState, newId: int) {
    && m.internalId == newId && m.committed == main
    && m.inputs != [] && Units(m.inputs) == Units(prompt) + TokenUnits(main)
    && m.prefilledInputs == [] && m.numPrefilledTokens == 0 && m.cachedCommittedTokens == 0
    && m.numTokensForNextDecode == 0
  }

  method Requeue(s: RequestState, newId: int) returns (t: RequestState)
    requires s.Valid()
    ensures Requeued(s, t, newId) && t.Valid() && t.pages == 0
  {
    var models := [];
    for i := 0 to |s.models|
      invariant |models| == i
      invariant forall m :: 0 <= m < i ==> ToPrefill(s.prompt, s.models[0].committed, models[m], newId)
    {
      var m := CatchUp(s.models[i], s.models[0].committed);
      var inputs := InputsForPrefill(s.prompt, m.committed);
      models := models + [m.(internalId := newId, inputs := inputs, prefilledInputs := [], numPrefilledTokens := 0,
                             cachedCommittedTokens := 0, numTokensForNextDecode := 0)];
    }
    t := RequestState(s.prompt, false, models, 0);
  }

  // ----- the queues -------------------------------------------------------------------------

  /** A request is in the running queue exactly when it is alive, and in the waiting queue
      exactly when it still has inputs to prefill; both while its prompt is partly prefilled. */
  ghost predicate Placed(states: map<int, RequestState>, running: seq<int>, waiting: seq<int>, k: int) {
    k in states ==>
      && states[k].Valid()
      && (k in running <==> states[k].alive)
      && (k in waiting <==> !states[k].alive || states[k].models[0].inputs != [])
  }

  ghost predicate Queued(states: map<int, RequestState>, running: seq<int>, waiting: seq<int>) {
    && Distinct(running) && Distinct(waiting)
    && (forall k :: k in running || k in waiting ==> k in states)
    && (forall k {:trigger Placed(states, running, waiting, k)} :: Placed(states, running, waiting, k))
  }

  /** The running requests that can decode, in order. */
  function ReadyOnes(states: map<int, RequestState>, running: seq<int>): (r: seq<int>)
    ensures forall k :: k in r ==> k in running
  {
    if running == [] then []
    else
      var n := |running| - 1;
      ReadyOnes(states, running[..n]) + if running[n] in states && states[running[n]].Ready() then [running[n]] else []
  }

  /** On the fields: the running requests that are alive with nothing left to prefill... */
  lemma {:induction false} ReadyIff(states: map<int, RequestState>, running: seq<int>)
    ensures forall k :: k in ReadyOnes(states, running) <==>
              && k in running && k in states && states[k].alive && states[k].models != [] && states[k].models[0].inputs == []
  {
    if running != [] {
      var n := |running| - 1;
      ReadyIff(states, running[..n]);
      assert running == running[..n] + [running[n]];
    }
  }

  /** ...in the order in which they run. */
  lemma {:induction false} ReadyConcat(states: map<int, RequestState>, a: seq<int>, b: seq<int>)
    ensures ReadyOnes(states, a + b) == ReadyOnes(states, a) + ReadyOnes(states, b)
    decreases |b|
  {
    if b == [] {
      assert a + b == a;
    } else {
      var n := |b| - 1;
      assert (a + b)[..|a| + n] == a + b[..n] && (a + b)[|a| + n] == b[n];
      ReadyConcat(states, a, b[..n]);
    }
  }

  lemma {:induction false} ReadySame(a: map<int, RequestState>, b: map<int, RequestState>, running: seq<int>)
    requires forall k :: k in running ==> k in a && k in b && a[k] == b[k]
    ensures ReadyOnes(a, running) == ReadyOnes(b, running)
  {
    if running != [] {
      var n := |running| - 1;
      var last := running[n];
      assert last in running && a[last] == b[last];
      ReadySame(a, b, running[..n]);
      assert ReadyOnes(a, running) == ReadyOnes(a, running[..n]) + if a[last].Ready() then [last] else [];
      assert ReadyOnes(b, running) == ReadyOnes(b, running[..n]) + if b[last].Ready() then [last] else [];
    }
  }

  /** Moving the last running request to the waiting queue. */
  lemma RequeuedIsQueued(states: map<int, RequestState>, front: seq<int>, key: int, waiting: seq<int>, after: RequestState, newId: int)
    requires Queued(states, front + [key], waiting) && key in states && states[key].Valid()
    requires after.Valid() && Requeued(states[key], after, newId)
    ensures var partly := states[key].models[0].inputs != [];
      Queued(states[key := after], front, if partly then waiting else [key] + waiting)
  {
    var running := front + [key];
    assert Placed(states, running, waiting, key);
    var partly := states[key].models[0].inputs != [];
    var queue := if partly then waiting else [key] + waiting;
    assert running[|front|] == key;
    forall k | 0 <= k < |front| ensures front[k] != key { assert running[k] != running[|front|]; }
    forall i, j | 0 <= i < j < |front| ensures front[i] != front[j] {
      assert running[i] != running[j];
    }
    var now := states[key := after];
    forall k {:trigger Placed(now, front, queue, k)} ensures Placed(now, front, queue, k) {
      assert Placed(states, running, waiting, k);
      assert k in running <==> k in front || k == key;
    }
    forall k | k in front ensures k in running {}
  }

  /** Live requests have ids of their own; recycling sequences have others. */
  ghost predicate IdsOk(states: map<int, RequestState>, recycling: seq<(int, nat)>, used: set<int>) {
    && (forall k :: k in states ==> states[k].Valid() && states[k].Id() in used)
    && (forall k, l :: k in states && l in states && k != l ==> states[k].Id() != states[l].Id())
    && (forall i :: 0 <= i < |recycling| ==> recycling[i].0 in used)
    && (forall i, k :: 0 <= i < |recycling| && k in states ==> states[k].Id() != recycling[i].0)
    && (forall i, j :: 0 <= i < j < |recycling| ==> recycling[i].0 != recycling[j].0)
  }

  /** An id that is not available although nothing has it. */
  ghost predicate Lost(states: map<int, RequestState>, recycling: seq<(int, nat)>, used: set<int>, id: int) {
    && id in used
    && (forall k :: k in states ==> states[k].Valid() && states[k].Id() != id)
    && (forall i :: 0 <= i < |recycling| ==> recycling[i].0 != id)
  }

  lemma IdsAfter(states: map<int, RequestState>, recycling: seq<(int, nat)>, used: set<int>, key: int,
                 after: RequestState, rest: set<int>, newId: int)
    requires IdsOk(states, recycling, used) && key in states && states[key].Valid()
    requires after.Valid() && after.Id() == newId && newId !in rest
    requires rest == used || rest == used - {states[key].Id()}
    ensures IdsOk(states[key := after], recycling, rest + {newId})
    ensures Lost(states[key := after], recycling, rest + {newId}, states[key].Id()) <==> rest == used
    ensures forall x :: Lost(states, recycling, used, x) ==> Lost(states[key := after], recycling, rest + {newId}, x)
  {
    var now := states[key := after];
    assert key in now && now[key].Id() == newId;
  }

  /** The ids in use after a sequence is given up: its own is returned if it was cached. */
  ghost function Rest(used: set<int>, id: int, wasCached: bool): set<int> {
    if wasCached then used - {id} else used
  }

  /** Everything preemption has to establish, on values. */
  lemma AllAfter(states: map<int, RequestState>, front: seq<int>, key: int, waiting: seq<int>, recycling: seq<(int, nat)>,
                 used: set<int>, wasCached: bool, after: RequestState, newId: int)
    requires Queued(states, front + [key], waiting) && IdsOk(states, recycling, used) && key in states && states[key].Valid()
    requires after.Valid() && Requeued(states[key], after, newId) && newId !in Rest(used, states[key].Id(), wasCached)
    ensures var queue := if states[key].models[0].inputs != [] then waiting else [key] + waiting;
      Queued(states[key := after], front, queue) && key !in front && key in queue
    ensures IdsOk(states[key := after], recycling, Rest(used, states[key].Id(), wasCached) + {newId})
    ensures Lost(states[key := after], recycling, Rest(used, states[key].Id(), wasCached) + {newId}, states[key].Id()) <==> !wasCached
    ensures forall x :: Lost(states, recycling, used, x) ==>
      Lost(states[key := after], recycling, Rest(used, states[key].Id(), wasCached) + {newId}, x)
  {
    RequeuedIsQueued(states, front, key, waiting, after, newId);
    IdsAfter(states, recycling, used, key, after, Rest(used, states[key].Id(), wasCached), newId);
    var queue := if states[key].models[0].inputs != [] then waiting else [key] + waiting;
    assert Placed(states[key := after], front, queue, key);
  }

  lemma AddedIsQueued(states: map<int, RequestState>, running: seq<int>, waiting: seq<int>, key: int, s: RequestState)
    requires Queued(states, running, waiting) && key !in states && s.Valid() && !s.alive
    ensures Queued(states[key := s], running, waiting + [key])
  {
    var now, queue := states[key := s], waiting + [key];
    forall k {:trigger Placed(now, running, queue, k)} ensures Placed(now, running, queue, k) {
      assert Placed(states, running, waiting, k);
    }
  }

  function Prefilled(m: ModelState, token: int): ModelState {
    m.(inputs := [], committed := m.committed + [token], numTokensForNextDecode := m.numTokensForNextDecode + 1)
  }

  /** Erases the first occurrence. */
  method Erase(s: seq<int>, key: int) returns (rest: seq<int>, ghost before: seq<int>, ghost after: seq<int>)
    requires key in s
    ensures s == before + [key] + after && rest == before + after
    ensures multiset(s) == multiset(rest) + multiset{key}
  {
    var n := 0;
    while s[n] != key
      invariant n < |s| && forall i :: 0 <= i < n ==> s[i] != key
      decreases |s| - n
    {
      n := n + 1;
    }
    before, after := s[..n], s[n + 1..];
    rest := s[..n] + s[n + 1..];
  }

  method PrefillAll(s: RequestState, token: int, pages: nat) returns (t: RequestState)
    requires s.Valid() && forall m :: 0 <= m < |s.models| ==> s.models[m].committed == s.models[0].committed
    ensures t.Valid() && t.Ready() && t.Id() == s.Id()
    ensures t.pages == s.pages + pages
    ensures t.prompt == s.prompt
    ensures |t.models| == |s.models| && forall m :: 0 <= m < |t.models| ==>
      && t.models[m].inputs == [] && t.models[m].committed == s.models[m].committed + [token]
      && t.models[m].numTokensForNextDecode == s.models[m].numTokensForNextDecode + 1
  {
    var models := seq(|s.models|, m requires 0 <= m < |s.models| => Prefilled(s.models[m], token));
    t := RequestState(s.prompt, true, models, s.pages + pages);
  }

  lemma PrefilledIdsOk(states: map<int, RequestState>, recycling: seq<(int, nat)>, used: set<int>, key: int, t: RequestState)
    requires IdsOk(states, recycling, used) && key in states && states[key].Valid() && t.Valid() && t.Id() == states[key].Id()
    ensures IdsOk(states[key := t], recycling, used)
    ensures forall x :: Lost(states, recycling, used, x) ==> Lost(states[key := t], recycling, used, x)
  {}

  lemma PrefilledIsQueued(states: map<int, RequestState>, running: seq<int>, before: seq<int>, key: int, after: seq<int>, t: RequestState)
    requires Queued(states, running, before + [key] + after) && key in states && states[key].Valid() && t.Valid() && t.Ready()
    ensures Queued(states[key := t], if states[key].alive then running else running + [key], before + after)
    ensures key !in before + after
  {
    var waiting, queue := before + [key] + after, before + after;
    var now, runs := states[key := t], if states[key].alive then running else running + [key];
    assert Placed(states, running, waiting, key);
    var n := |before|;
    forall i, j | 0 <= i < j < |queue| ensures queue[i] != queue[j] {
      assert waiting[if i < n then i else i + 1] != waiting[if j < n then j else j + 1];
    }
    forall i | 0 <= i < |queue| ensures queue[i] != key && queue[i] in waiting {
      assert waiting[n] == key && queue[i] == waiting[if i < n then i else i + 1];
    }
    forall k {:trigger Placed(now, runs, queue, k)} ensures Placed(now, runs, queue, k) {
      assert Placed(states, running, waiting, k);
      assert k in waiting <==> k in before || k == key || k in after;
    }
  }

  // ----- pages --------------------------------------------------------------------------------

  ghost function RecyclingPages(recycling: seq<(int, nat)>): nat {
    if recycling == [] then 0 else recycling[0].1 + RecyclingPages(recycling[1..])
  }

  /** The pages of the listed requests. */
  ghost function PagesIn(states: map<int, RequestState>, keys: seq<int>): nat {
    if keys == [] then 0 else (if keys[0] in states then states[keys[0]].pages else 0) + PagesIn(states, keys[1..])
  }

  /** The pages of all requests. */
  ghost function PagesOf(states: map<int, RequestState>): nat {
    PagesOver(states, states.Keys)
  }

  ghost function Pick(s: set<int>): (k: int)
    requires s != {}
    ensures k in s
  {
    assert (forall x :: x !in s) ==> s == {};
    var k :| k in s;
    k
  }

  ghost function PagesOver(states: map<int, RequestState>, keys: set<int>): nat
    requires keys <= states.Keys
  {
    if keys == {} then 0 else states[Pick(keys)].pages + PagesOver(states, keys - {Pick(keys)})
  }

  lemma {:induction false} PagesWithout(states: map<int, RequestState>, keys: set<int>, key: int)
    requires key in keys && keys <= states.Keys
    ensures PagesOver(states, keys) == states[key].pages + PagesOver(states, keys - {key})
  {
    var k := Pick(keys);
    if k != key {
      PagesWithout(states, keys - {k}, key);
      PagesWithout(states, keys - {key}, k);
      assert keys - {k} - {key} == keys - {key} - {k};
    }
  }

  lemma {:induction false} PagesSame(a: map<int, RequestState>, b: map<int, RequestState>, keys: set<int>)
    requires keys <= a.Keys && keys <= b.Keys && forall k :: k in keys ==> a[k] == b[k]
    ensures PagesOver(a, keys) == PagesOver(b, keys)
  {
    if keys != {} {
      PagesSame(a, b, keys - {Pick(keys)});
    }
  }

  lemma PagesUpdated(states: map<int, RequestState>, key: int, s: RequestState)
    ensures PagesOf(states[key := s]) == PagesOf(states) - (if key in states then states[key].pages else 0) + s.pages
  {
    var now := states[key := s];
    PagesWithout(now, now.Keys, key);
    PagesSame(states, now, now.Keys - {key});
    if key in states {
      PagesWithout(states, states.Keys, key);
      assert states.Keys - {key} == now.Keys - {key};
    } else {
      assert states.Keys == now.Keys - {key};
    }
  }

  /** Without the last of `running` there would be too few pages: preempting it was needed. */
  ghost predicate PreemptionNeeded(was: map<int, RequestState>, wasRunning: seq<int>, running: seq<int>, available: int) {
    |running| < |wasRunning| && wasRunning[|running|] in was ==>
      |ReadyOnes(was, wasRunning[..|running| + 1])| > available - was[wasRunning[|running|]].pages
  }

  lemma {:induction false} PagesInConcat(states: map<int, RequestState>, a: seq<int>, b: seq<int>)
    ensures PagesIn(states, a + b) == PagesIn(states, a) + PagesIn(states, b)
    decreases |a|
  {
    if a == [] {
      assert a + b == b;
    } else {
      assert (a + b)[1..] == a[1..] + b;
      PagesInConcat(states, a[1..], b);
    }
  }

  /** The free pages after the recycling sequences that are gone were evicted and the requests
      that are no longer running preempted. */
  ghost predicate PagesGained(was: map<int, RequestState>, wasRunning: seq<int>, wasRecycling: seq<(int, nat)>, wasAvailable: nat,
                              running: seq<int>, recycling: seq<(int, nat)>, available: nat)
  {
    && |running| <= |wasRunning|
    && available == wasAvailable + RecyclingPages(wasRecycling) - RecyclingPages(recycling) + PagesIn(was, wasRunning[|running|..])
  }

  /** One more preemption, of a request that is as it was. */
  lemma GainedMore(was: map<int, RequestState>, wasRunning: seq<int>, wasRecycling: seq<(int, nat)>, wasAvailable: nat,
                   front: seq<int>, key: int, recycling: seq<(int, nat)>, available: nat)
    requires front + [key] <= wasRunning && key in was
    requires PagesGained(was, wasRunning, wasRecycling, wasAvailable, front + [key], recycling, available)
    ensures PagesGained(was, wasRunning, wasRecycling, wasAvailable, front, recycling, available + was[key].pages)
  {
    var n := |front|;
    assert wasRunning[n] == (front + [key])[n] == key;
    assert wasRunning[n..] == [key] + wasRunning[n + 1..];
    PagesInConcat(was, [key], wasRunning[n + 1..]);
    assert PagesIn(was, [key]) == was[key].pages;
  }

  /** The first ready request is all there is to decode, and neither eviction nor preempting
      what runs behind it would yield a page. */
  ghost predicate StarvedAt(states: map<int, RequestState>, running: seq<int>, recycling: seq<(int, nat)>, available: nat,
                            i: int)
  {
    && 0 <= i < |running| && running[i] in states && states[running[i]].Ready() && ReadyOnes(states, running[..i]) == []
    && available + RecyclingPages(recycling) + PagesIn(states, running[i + 1..]) == 0
  }

  ghost predicate Starved(states: map<int, RequestState>, running: seq<int>, recycling: seq<(int, nat)>, available: nat) {
    exists i :: StarvedAt(states, running, recycling, available, i)
  }

  lemma {:induction false} ReadyPrefix(states: map<int, RequestState>, running: seq<int>, n: nat)
    requires n <= |running|
    ensures ReadyOnes(states, running[..n]) <= ReadyOnes(states, running)
    decreases |running|
  {
    if n < |running| {
      var m := |running| - 1;
      assert running[..m][..n] == running[..n];
      ReadyPrefix(states, running[..m], n);
    } else {
      assert running[..n] == running;
    }
  }

  lemma LastPages(states: map<int, RequestState>, keys: seq<int>, i: nat, j: nat)
    requires i <= j <= |keys|
    ensures PagesIn(states, keys[i..]) == PagesIn(states, keys[i..j]) + PagesIn(states, keys[j..])
  {
    assert keys[i..] == keys[i..j] + keys[j..];
    PagesInConcat(states, keys[i..j], keys[j..]);
  }

  /** What the loop that makes room leaves behind. */
  ghost predicate RoomMade(was: map<int, RequestState>, wasRunning: seq<int>, wasRecycling: seq<(int, nat)>, wasAvailable: nat,
                           running: seq<int>, recycling: seq<(int, nat)>, available: nat)
  {
    && |running| <= |wasRunning| && running == wasRunning[..|running|]
    && (forall i :: 0 <= i < |wasRunning| ==> wasRunning[i] in was)
    && PagesGained(was, wasRunning, wasRecycling, wasAvailable, running, recycling, available)
    && PreemptionNeeded(was, wasRunning, running, available) && |ReadyOnes(was, running)| <= available
    && (running != wasRunning ==> recycling == [])
  }

  lemma OneMore(states: map<int, RequestState>, keys: seq<int>, n: nat)
    requires n < |keys| && keys[n] in states
    ensures ReadyOnes(states, keys[..n + 1]) == ReadyOnes(states, keys[..n]) + if states[keys[n]].Ready() then [keys[n]] else []
    ensures PagesIn(states, keys[n..]) == states[keys[n]].pages + PagesIn(states, keys[n + 1..])
  {
    assert keys[..n + 1][..n] == keys[..n];
    assert keys[n..][1..] == keys[n + 1..];
  }

  lemma NothingLeft(was: map<int, RequestState>, wasRunning: seq<int>, wasRecycling: seq<(int, nat)>, wasAvailable: nat,
                    running: seq<int>, recycling: seq<(int, nat)>, available: nat)
    requires RoomMade(was, wasRunning, wasRecycling, wasAvailable, running, recycling, available)
    requires ReadyOnes(was, running) == [] && ReadyOnes(was, wasRunning) != []
    ensures Starved(was, wasRunning, wasRecycling, wasAvailable)
  {
    var n := |running|;
    assert n == |wasRunning| ==> running == wasRunning;
    OneMore(was, wasRunning, n);
    assert |ReadyOnes(was, wasRunning[..n + 1])| > available - was[wasRunning[n]].pages;
    assert StarvedAt(was, wasRunning, wasRecycling, wasAvailable, n);
  }

  lemma StarvedLeavesNothing(was: map<int, RequestState>, wasRunning: seq<int>, wasRecycling: seq<(int, nat)>, wasAvailable: nat,
                             running: seq<int>, recycling: seq<(int, nat)>, available: nat, i: int)
    requires RoomMade(was, wasRunning, wasRecycling, wasAvailable, running, recycling, available)
    requires StarvedAt(was, wasRunning, wasRecycling, wasAvailable, i)
    ensures ReadyOnes(was, running) == []
  {
    var n := |running|;
    assert running == wasRunning[..n];
    if n <= i {
      assert wasRunning[..i][..n] == running;
      ReadyPrefix(was, wasRunning[..i], n);
    } else {
      LastPages(was, wasRunning, i + 1, n);
      assert available == 0;
    }
  }

  /** Nothing is left to decode if and only if nothing was ready or the first ready request is
      starved. */
  lemma NothingLeftIff(was: map<int, RequestState>, wasRunning: seq<int>, wasRecycling: seq<(int, nat)>, wasAvailable: nat,
                       running: seq<int>, recycling: seq<(int, nat)>, available: nat)
    requires RoomMade(was, wasRunning, wasRecycling, wasAvailable, running, recycling, available)
    ensures ReadyOnes(was, running) == [] <==>
              ReadyOnes(was, wasRunning) == [] || Starved(was, wasRunning, wasRecycling, wasAvailable)
  {
    if ReadyOnes(was, wasRunning) == [] {
      assert running == wasRunning[..|running|];
      ReadyPrefix(was, wasRunning, |running|);
    } else if ReadyOnes(was, running) == [] {
      NothingLeft(was, wasRunning, wasRecycling, wasAvailable, running, recycling, available);
    } else if Starved(was, wasRunning, wasRecycling, wasAvailable) {
      var i :| StarvedAt(was, wasRunning, wasRecycling, wasAvailable, i);
      StarvedLeavesNothing(was, wasRunning, wasRecycling, wasAvailable, running, recycling, available, i);
    }
  }

  class EngineState {
    var running: seq<int>
    var waiting: seq<int>
    var states: map<int, RequestState>
    var cached: set<int>                // ids in the prefix cache, not recycling
    var recycling: seq<(int, nat)>      // recycling ids with their pages, in eviction order
    var available: nat                  // pages of the KV cache
    const ids: IdManager

    /** The free pages and those of the requests and of the recycling sequences. */
    ghost function TotalPages(): nat
      reads this
    {
      available + PagesOf(states) + RecyclingPages(recycling)
    }

    ghost predicate Valid()
      reads this, ids
    {
      ids.Valid() && Queued(states, running, waiting) && IdsOk(states, recycling, ids.Used())
    }

    constructor (pages: nat)
      ensures Valid() && states == map[] && running == []
      ensures waiting == [] && recycling == [] && cached == {}
      ensures available == pages
      ensures fresh(ids)
    {
      running, waiting, states, cached, recycling, available := [], [], map[], {}, [], pages;
      ids := new IdManager();
    }

    /** A new request waits, with an id of its own. */
    method AddRequest(key: int, prompt: seq<Data>, numModels: nat)
      requires Valid() && key !in states && prompt != [] && numModels > 0
      modifies this`waiting, this`states, ids
      ensures Valid() && waiting == old(waiting) + [key]
      ensures key in states
      ensures states == old(states)[key := states[key]]
      ensures !states[key].alive && states[key].prompt == prompt
      ensures |states[key].models| == numModels
      ensures forall m :: 0 <= m < numModels ==> states[key].models[m].committed == [] && states[key].models[m].inputs == prompt
      ensures forall x :: old(Lost(states, recycling, ids.Used(), x)) ==> Lost(states, recycling, ids.Used(), x)
      ensures TotalPages() == old(TotalPages())
    {
      ghost var used := ids.Used();
      var id := ids.GetNewId();
      var m := ModelState(id, prompt, [], [], 0, 0, 0);
      var s := RequestState(prompt, false, seq(numModels, _ => m), 0);
      PagesUpdated(states, key, s);
      AddedIsQueued(states, running, waiting, key, s);
      assert IdsOk(states[key := s], recycling, used + {id});
      waiting := waiting + [key];
      states := states[key := s];
    }

    /** The prompt of a waiting request is prefilled and a first token is sampled: the request
        runs and no longer waits.  Its sequence is in the prefix cache if the cache took it. */
    method FinishPrefill(key: int, token: int, pages: nat, intoCache: bool)
      requires Valid() && key in waiting && key in states && states[key].Valid() && pages <= available
      requires forall m :: 0 <= m < |states[key].models| ==> states[key].models[m].committed == states[key].models[0].committed
      modifies this`running, this`waiting, this`states, this`available, this`cached
      ensures Valid() && key in states
      ensures states == old(states)[key := states[key]]
      ensures states[key].Ready()
      ensures cached == if intoCache then old(cached) + {old(states[key].Id())} else old(cached)
      ensures states[key].Valid()
      ensures states[key].Id() == old(states[key].Id())
      ensures |states[key].models| == |old(states[key].models)|
      ensures forall m :: 0 <= m < |states[key].models| ==>
        states[key].models[m].committed == old(states[key].models)[m].committed + [token]
      ensures running == if old(states[key].alive) then old(running) else old(running) + [key]
      ensures key !in waiting && forall k :: k != key ==> (k in waiting <==> k in old(waiting))
      ensures forall x :: old(Lost(states, recycling, ids.Used(), x)) ==> Lost(states, recycling, ids.Used(), x)
      ensures TotalPages() == old(TotalPages()) && available == old(available) - pages
    {
      var t := PrefillAll(states[key], token, pages);
      PrefilledIdsOk(states, recycling, ids.Used(), key, t);
      PagesUpdated(states, key, t);
      if intoCache {
        cached := cached + {states[key].models[0].internalId};
      }
      available := available - pages;
      StartRunning(key, t);
    }

    /** The request joins the running queue, unless it is there, and leaves the waiting queue. */
    method StartRunning(key: int, t: RequestState)
      requires Queued(states, running, waiting) && key in waiting && key in states && states[key].Valid() && t.Valid() && t.Ready()
      modifies this`running, this`waiting, this`states
      ensures Queued(states, running, waiting)
      ensures states == old(states)[key := t]
      ensures running == if old(states[key].alive) then old(running) else old(running) + [key]
      ensures key !in waiting && forall k :: k != key ==> (k in waiting <==> k in old(waiting))
    {
      var queue;
      ghost var before, after;
      queue, before, after := Erase(waiting, key);
      PrefilledIsQueued(states, running, before, key, after, t);
      if !states[key].alive {
        running := running + [key];
      }
      waiting := queue;
      states := states[key := t];
    }

    /** TryFreeMemory with the callback that removes the sequence and returns its id. */
    method TryFreeMemory() returns (freed: bool)
      requires Valid()
      modifies this`recycling, this`available, ids
      ensures Valid() && freed == (old(recycling) != [])
      ensures freed ==> recycling == old(recycling)[1..] && available == old(available) + old(recycling)[0].1
      ensures TotalPages() == old(TotalPages())
      ensures !freed ==> unchanged(this) && unchanged(ids)
      ensures forall x :: old(Lost(states, recycling, ids.Used(), x)) ==> Lost(states, recycling, ids.Used(), x)
    {
      freed := recycling != [];
      if freed {
        var (id, pages) := recycling[0];
        ids.RecycleId(id);
        available := available + pages;
        recycling := recycling[1..];
      }
    }

    /** Gives up the sequence of a request.  A cached one is removed by the cache's callback,
        which returns the id; one that is not cached is removed from the models only. */
    method GiveUp(id: int, pages: nat)
      requires ids.Valid() && id in ids.Used()
      modifies this`cached, this`available, ids
      ensures ids.Valid() && cached == old(cached) - {id}
      ensures available == old(available) + pages
      ensures ids.Used() == if id in old(cached) then old(ids.Used()) - {id} else old(ids.Used())
    {
      if id in cached {
        cached := cached - {id};
        ids.RecycleId(id);
      }
      available := available + pages;
    }

    /** Preempts the last running request. */
    method PreemptLastRunningRequestStateEntry() returns (key: int, newId: int)
      requires Valid() && running != []
      modifies this, ids
      ensures Valid() && key == old(running[|running| - 1])
      ensures key in old(states) && old(states[key]).Valid()
      ensures running == old(running[..|running| - 1])
      ensures key !in running && key in waiting
      ensures waiting == if old(states[key].models[0].inputs) != [] then old(waiting) else [key] + old(waiting)
      ensures key in states
      ensures states == old(states)[key := states[key]]
      ensures Requeued(old(states[key]), states[key], newId)
      ensures recycling == old(recycling)
      ensures available == old(available) + old(states[key].pages) && states[key].pages == 0
      ensures TotalPages() == old(TotalPages())
      ensures ids.Used() == Rest(old(ids.Used()), old(states[key].Id()), old(states[key].Id() in cached)) + {newId}
      ensures newId !in Rest(old(ids.Used()), old(states[key].Id()), old(states[key].Id() in cached))
      ensures Lost(states, recycling, ids.Used(), old(states[key].Id())) <==> old(states[key].Id()) !in old(cached)
      ensures forall x :: old(Lost(states, recycling, ids.Used(), x)) ==> Lost(states, recycling, ids.Used(), x)
    {
      key := running[|running| - 1];
      ghost var front := running[..|running| - 1];
      assert running == front + [key];
      assert Placed(states, running, waiting, key);
      var s := states[key];
      ghost var used, wasCached := ids.Used(), s.Id() in cached;
      newId := ReplaceId(s.models[0].internalId, s.pages);
      var t := Requeue(s, newId);
      AllAfter(states, front, key, waiting, recycling, used, wasCached, t, newId);
      PagesUpdated(states, key, t);
      MoveToWaiting(key, t);
    }

    /** The id of a request whose sequence is given up is replaced by a new one. */
    method ReplaceId(id: int, pages: nat) returns (newId: int)
      requires ids.Valid() && id in ids.Used()
      modifies this`cached, this`available, ids
      ensures ids.Valid() && available == old(available) + pages
      ensures newId !in Rest(old(ids.Used()), id, id in old(cached))
      ensures ids.Used() == Rest(old(ids.Used()), id, id in old(cached)) + {newId}
    {
      GiveUp(id, pages);
      newId := ids.GetNewId();
    }

    /** The last running request leaves the running queue; unless it still waits, it goes to the
        front of the waiting queue. */
    method MoveToWaiting(key: int, t: RequestState)
      requires running != [] && key in states && states[key].models != []
      modifies this`running, this`waiting, this`states
      ensures running == old(running[..|running| - 1])
      ensures states == old(states)[key := t]
      ensures waiting == if old(states[key].models[0].inputs) != [] then old(waiting) else [key] + old(waiting)
    {
      if states[key].models[0].inputs == [] {
        waiting := [key] + waiting;
      }
      running := running[..|running| - 1];
      states := states[key := t];
    }

    /** Evicts or preempts until there is a page for every request to decode.  It ends after
        at most one round per recycling sequence and running request, neither queue is ever
        popped empty, a request is preempted only when nothing is left to evict, and no more are
        than needed. */
    method MakeRoomToDecode() returns (batch: seq<int>)
      requires Valid()
      modifies this, ids
      ensures Valid() && batch == ReadyOnes(states, running)
      ensures |batch| <= available
      ensures PreemptedFrom(old(states), old(running), states, running, waiting)
      ensures running != old(running) ==> recycling == []
      ensures PreemptionNeeded(old(states), old(running), running, available)
      ensures PagesGained(old(states), old(running), old(recycling), old(available), running, recycling, available)
      ensures TotalPages() == old(TotalPages())
      ensures |old(ReadyOnes(states, running))| <= old(available) ==> recycling == old(recycling) && running == old(running)
      ensures batch == [] <==> old(ReadyOnes(states, running)) == [] || old(Starved(states, running, recycling, available))
      ensures forall x :: old(Lost(states, recycling, ids.Used(), x)) ==> Lost(states, recycling, ids.Used(), x)
    {
      batch := ReadyOnes(states, running);
      while |batch| > available
        invariant Valid() && batch == ReadyOnes(states, running)
        invariant running != old(running) ==> recycling == []
        invariant PreemptionNeeded(old(states), old(running), running, available)
        invariant PagesGained(old(states), old(running), old(recycling), old(available), running, recycling, available)
        invariant TotalPages() == old(TotalPages())
        invariant |old(ReadyOnes(states, running))| <= old(available) ==>
                    recycling == old(recycling) && running == old(running) && |batch| <= available
        invariant forall x :: old(Lost(states, recycling, ids.Used(), x)) ==> Lost(states, recycling, ids.Used(), x)
        invariant PreemptedFrom(old(states), old(running), states, running, waiting)
        decreases |recycling| + |running|
      {
        var freed := TryFreeMemory();
        if !freed {
          batch := PreemptOne(batch, old(states), old(running), old(recycling), old(available));
        }
      }
      RoomIsMade(old(states), old(running), old(recycling), old(available), states, running, waiting, recycling, available);
    }

    /** What one decode step works on: at most `limit` ready requests, the first ones. */
    method SelectForDecode(limit: nat) returns (batch: seq<int>)
      requires Valid()
      modifies this, ids
      ensures Valid() && batch <= ReadyOnes(states, running)
      ensures |batch| <= available
      ensures |batch| <= limit
      ensures (batch == ReadyOnes(states, running) || |batch| == limit)
      ensures PreemptedFrom(old(states), old(running), states, running, waiting)
      ensures running != old(running) ==> recycling == []
      ensures PreemptionNeeded(old(states), old(running), running, available)
      ensures limit > 0 ==>
        (batch == [] <==> old(ReadyOnes(states, running)) == [] || old(Starved(states, running, recycling, available)))
      ensures forall x :: old(Lost(states, recycling, ids.Used(), x)) ==> Lost(states, recycling, ids.Used(), x)
    {
      batch := MakeRoomToDecode();
      while |batch| > limit
        invariant batch <= ReadyOnes(states, running) && |batch| <= available
        invariant batch == ReadyOnes(states, running) || |batch| >= limit
      {
        batch := batch[..|batch| - 1];
      }
    }

    method PreemptOne(batch: seq<int>, ghost was: map<int, RequestState>, ghost wasRunning: seq<int>,
                      ghost wasRecycling: seq<(int, nat)>, ghost wasAvailable: nat) returns (rest: seq<int>)
      requires Valid() && batch == ReadyOnes(states, running) && batch != [] && |batch| > available
      requires PreemptedFrom(was, wasRunning, states, running, waiting)
      requires PagesGained(was, wasRunning, wasRecycling, wasAvailable, running, recycling, available)
      modifies this, ids
      ensures Valid() && rest == ReadyOnes(states, running)
      ensures recycling == old(recycling)
      ensures |running| < |old(running)|
      ensures PreemptedFrom(was, wasRunning, states, running, waiting)
      ensures PreemptionNeeded(was, wasRunning, running, available)
      ensures PagesGained(was, wasRunning, wasRecycling, wasAvailable, running, recycling, available)
      ensures TotalPages() == old(TotalPages())
      ensures forall x :: old(Lost(states, recycling, ids.Used(), x)) ==> Lost(states, recycling, ids.Used(), x)
    {
      ghost var before, front, key0, queue := states, running[..|running| - 1], running[|running| - 1], waiting;
      assert running == front + [key0];
      LastReady(states, front, key0, batch);
      StillAsTheyWere(was, wasRunning, before, front + [key0], waiting);
      GainedMore(was, wasRunning, wasRecycling, wasAvailable, front, key0, recycling, available);
      var key, newId := PreemptLastRunningRequestStateEntry();
      KeptAfter(was, wasRunning, before, front, key, queue, states[key], newId, waiting);
      ReadySame(before, states, front);
      rest := batch;
      if key == batch[|batch| - 1] {
        rest := batch[..|batch| - 1];
      }
    }
  }

  // ----- what preemptions leave -------------------------------------------------------------

  ghost predicate KeptOrRequeued(was: map<int, RequestState>, wasRunning: seq<int>, states: map<int, RequestState>,
                                 running: seq<int>, waiting: seq<int>, k: int)
  {
    k in was && k in states ==>
      if k in wasRunning && k !in running then
        k in waiting && was[k].Valid() && exists newId :: Requeued(was[k], states[k], newId)
      else states[k] == was[k]
  }

  /** Running requests form a prefix of the earlier ones, untouched; each one preempted since
      waits with its prompt and committed tokens; nothing else changed. */
  ghost predicate PreemptedFrom(was: map<int, RequestState>, wasRunning: seq<int>, states: map<int, RequestState>,
                                running: seq<int>, waiting: seq<int>)
  {
    && running <= wasRunning && states.Keys == was.Keys
    && forall k {:trigger KeptOrRequeued(was, wasRunning, states, running, waiting, k)} ::
         KeptOrRequeued(was, wasRunning, states, running, waiting, k)
  }

  /** What still runs is as it was. */
  lemma StillAsTheyWere(was: map<int, RequestState>, wasRunning: seq<int>, states: map<int, RequestState>,
                        running: seq<int>, waiting: seq<int>)
    requires PreemptedFrom(was, wasRunning, states, running, waiting) && forall k :: k in running ==> k in states
    ensures forall k :: k in running ==> k in was && was[k] == states[k]
    ensures ReadyOnes(was, running) == ReadyOnes(states, running) && wasRunning[..|running|] == running
  {
    forall k | k in running ensures k in was && was[k] == states[k] {
      assert KeptOrRequeued(was, wasRunning, states, running, waiting, k);
    }
    ReadySame(was, states, running);
  }

  /** The loop is done: what is left of the ready requests, in terms of the state it began in. */
  lemma RoomIsMade(was: map<int, RequestState>, wasRunning: seq<int>, wasRecycling: seq<(int, nat)>, wasAvailable: nat,
                   states: map<int, RequestState>, running: seq<int>, waiting: seq<int>, recycling: seq<(int, nat)>, available: nat)
    requires PreemptedFrom(was, wasRunning, states, running, waiting)
    requires (forall k :: k in wasRunning ==> k in was) && (forall k :: k in running ==> k in states)
    requires PagesGained(was, wasRunning, wasRecycling, wasAvailable, running, recycling, available)
    requires PreemptionNeeded(was, wasRunning, running, available) && |ReadyOnes(states, running)| <= available
    requires running != wasRunning ==> recycling == []
    ensures ReadyOnes(states, running) == [] <==>
              ReadyOnes(was, wasRunning) == [] || Starved(was, wasRunning, wasRecycling, wasAvailable)
  {
    StillAsTheyWere(was, wasRunning, states, running, waiting);
    forall i | 0 <= i < |wasRunning| ensures wasRunning[i] in was {
      var k := wasRunning[i];
      assert k in wasRunning;
    }
    NothingLeftIff(was, wasRunning, wasRecycling, wasAvailable, running, recycling, available);
  }

  /** One more preemption. */
  lemma KeptAfter(was: map<int, RequestState>, wasRunning: seq<int>, states: map<int, RequestState>, front: seq<int>,
                  key: int, waiting: seq<int>, after: RequestState, newId: int, queue: seq<int>)
    requires PreemptedFrom(was, wasRunning, states, front + [key], waiting)
    requires key in states && states[key].Valid() && Requeued(states[key], after, newId)
    requires key !in front && key in queue && forall k :: k in waiting ==> k in queue
    ensures PreemptedFrom(was, wasRunning, states[key := after], front, queue)
  {
    var running, now := front + [key], states[key := after];
    assert running[|front|] == key && wasRunning[|front|] == key;
    forall k {:trigger KeptOrRequeued(was, wasRunning, now, front, queue, k)}
      ensures KeptOrRequeued(was, wasRunning, now, front, queue, k)
    {
      assert KeptOrRequeued(was, wasRunning, states, running, waiting, k);
      assert k in running <==> k in front || k == key;
    }
  }

  /** The last running request is the last ready one, or it is not ready. */
  lemma LastReady(states: map<int, RequestState>, front: seq<int>, key: int, batch: seq<int>)
    requires Distinct(front + [key]) && batch == ReadyOnes(states, front + [key]) && batch != []
    ensures key !in front
    ensures ReadyOnes(states, front) == if key == batch[|batch| - 1] then batch[..|batch| - 1] else batch
  {
    var running := front + [key];
    assert running[..|front|] == front && running[|front|] == key;
    forall k | 0 <= k < |front| ensures front[k] != key { assert running[k] != running[|front|]; }
    if !(key in states && states[key].Ready()) {
      assert batch == ReadyOnes(states, front) && batch[|batch| - 1] in batch;
    }
  }

  /** One request, running, which holds the only page. */
  method OneRunning() returns (engine: EngineState)
    ensures fresh(engine) && fresh(engine.ids) && engine.Valid()
    ensures engine.running == [0] && engine.cached == {} && engine.recycling == [] && engine.available == 0
    ensures 0 in engine.states && engine.states[0].Ready()
  {
    engine := new EngineState(1);
    engine.AddRequest(0, [TokenData([5])], 1);
    engine.FinishPrefill(0, 7, 1, false);
  }

  /** An id that is lost: a request that the prefix cache does not hold is preempted. */
  method LostId() returns (engine: EngineState, id: int)
    ensures fresh(engine) && fresh(engine.ids) && engine.Valid()
    ensures Lost(engine.states, engine.recycling, engine.ids.Used(), id)
  {
    engine := OneRunning();
    assert Placed(engine.states, engine.running, engine.waiting, 0);
    id := engine.states[0].models[0].internalId;
    var key, newId := engine.PreemptLastRunningRequestStateEntry();
  }

  /** A request that is starved: it is preempted to make room for itself, and the check that
      there is something to decode fails. */
  method StarvedRequest() returns (engine: EngineState, batch: seq<int>)
    ensures fresh(engine) && fresh(engine.ids) && engine.Valid()
    ensures batch == [] && engine.running == []
  {
    engine := OneRunning();
    assert engine.running[1..] == [] && engine.running[..0] == [] && engine.running[..1] == [0];
    assert StarvedAt(engine.states, engine.running, engine.recycling, engine.available, 0);
    ghost var was := engine.states;
    batch := engine.SelectForDecode(1);
    assert KeptOrRequeued(was, [0], engine.states, engine.running, engine.waiting, 0);
  }
}
