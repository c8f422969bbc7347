/**
  Slots for draft tokens.  The manager counts references; a model state may use one slot for
  many of its draft tokens, and one slot may be shared by several model states.
  */
module DraftSlots {
  import opened Sequences

  /** The references counted for a slot; a slot without an entry has none. */
  function Refs(refCount: map<int, nat>, slot: int): nat {
    if slot in refCount then refCount[slot] else 0
  }

  /** Free slots are distinct, disjoint from the counted ones, and together they are exactly
      the slots of the workspace; counts are positive. */
  ghost predicate Balanced(max: nat, free: seq<int>, refCount: map<int, nat>) {
    && Distinct(free)
    && (forall x :: x in free ==> 0 <= x < max && x !in refCount)
    && (forall x :: x in refCount ==> 0 <= x < max && refCount[x] > 0)
    && (forall x :: 0 <= x < max ==> x in free || x in refCount)
  }

  /** From the last element to the first. */
  function Reversed(s: seq<int>): seq<int> {
    seq(|s|, i requires 0 <= i < |s| => s[|s| - 1 - i])
  }

  lemma ReversedSame(s: seq<int>)
    requires Distinct(s)
    ensures Distinct(Reversed(s)) && Reversed(Reversed(s)) == s
    ensures forall x :: x in Reversed(s) <==> x in s
  {
    forall x | x in s ensures x in Reversed(s) {
      var k :| 0 <= k < |s| && s[k] == x;
      assert Reversed(s)[|s| - 1 - k] == x;
    }
  }

  /** Moving distinct slots from the free list to positive counts keeps the balance. */
  lemma Moved(max: nat, keep: seq<int>, taken: seq<int>, was: map<int, nat>, now: map<int, nat>)
    requires Balanced(max, keep + taken, was)
    requires forall x :: x in now <==> x in was || x in taken
    requires forall x :: x in was ==> now[x] == was[x]
    requires forall x :: x in taken ==> now[x] > 0
    ensures Balanced(max, keep, now) && Distinct(taken) && forall x :: x in taken ==> x !in was
  {
    var all := keep + taken;
    forall i, j | 0 <= i < j < |taken| ensures taken[i] != taken[j] {
      assert all[|keep| + i] != all[|keep| + j];
    }
    forall i, j | 0 <= i < j < |keep| ensures keep[i] != keep[j] {
      assert all[i] != all[j];
    }
    forall x | x in taken ensures x in all && x !in keep && x !in was {
      var j :| 0 <= j < |taken| && taken[j] == x;
      assert all[|keep| + j] == x;
      forall i | 0 <= i < |keep| ensures keep[i] != x { assert all[i] != all[|keep| + j]; }
    }
    forall x | x in keep ensures x in all {}
  }

  /** The last free slots, apart from the list they are cut from. */
  lemma TakenSlots(max: nat, free: seq<int>, n: nat, refCount: map<int, nat>) returns (taken: seq<int>)
    requires n <= |free| && Balanced(max, free, refCount)
    ensures taken == free[|free| - n..]
    ensures free == free[..|free| - n] + taken
    ensures |taken| == n && Distinct(taken) && forall x :: x in taken ==> x !in refCount
  {
    taken := free[|free| - n..];
  }

  class DraftTokenWorkspaceManager {
    const maxNumTokens: nat
    var freeSlots: seq<int>
    var refCount: map<int, nat>

    ghost predicate Valid()
      reads this
    {
      Balanced(maxNumTokens, freeSlots, refCount)
    }

    constructor (maxNumTokens: nat)
      ensures Valid() && refCount == map[]
      ensures this.maxNumTokens == maxNumTokens
    {
      this.maxNumTokens := maxNumTokens;
      freeSlots, refCount := seq(maxNumTokens, i => i), map[];
      new;
      forall x | 0 <= x < maxNumTokens ensures x in freeSlots { assert freeSlots[x] == x; }
    }

    /** Enters the initial counts of distinct new slots. */
    method SetCounts(slots: seq<int>, initialRefCount: seq<nat>)
      requires |slots| == |initialRefCount| && Distinct(slots)
      requires forall x :: x in slots ==> x !in refCount
      modifies this`refCount
      ensures forall x :: x in refCount <==> x in old(refCount) || x in slots
      ensures forall x :: x in old(refCount) ==> refCount[x] == old(refCount)[x]
      ensures forall i :: 0 <= i < |slots| ==> slots[i] in refCount && refCount[slots[i]] == initialRefCount[i]
    {
      for i := 0 to |slots|
        invariant forall x :: x in refCount <==> x in old(refCount) || x in slots[..i]
        invariant forall x :: x in old(refCount) ==> refCount[x] == old(refCount)[x]
        invariant forall j :: 0 <= j < i ==> slots[j] in refCount && refCount[slots[j]] == initialRefCount[j]
      {
        assert slots[..i + 1] == slots[..i] + [slots[i]];
        refCount := refCount[slots[i] := initialRefCount[i]];
      }
      assert slots[..|slots|] == slots;
    }

    /** The last n free slots, last one first. */
    method TakeFromEnd(n: nat) returns (result: seq<int>, ghost taken: seq<int>)
      requires Valid() && n <= |freeSlots|
      modifies this`freeSlots
      ensures old(freeSlots) == freeSlots + taken && |result| == n
      ensures freeSlots == old(freeSlots)[..|old(freeSlots)| - n]
      ensures forall i :: 0 <= i < n ==> result[i] == old(freeSlots)[|old(freeSlots)| - 1 - i]
      ensures taken == Reversed(result) && Distinct(result)
      ensures forall x :: x in result ==> x !in refCount
      ensures forall x :: x in taken <==> x in result
    {
      taken := TakenSlots(maxNumTokens, freeSlots, n, refCount);
      ReversedSame(taken);
      result := Reversed(freeSlots[|freeSlots| - n..]);
      freeSlots := freeSlots[..|freeSlots| - n];
    }

    /** Takes slots from the end of the free list, with the given initial counts. */
    method AllocSlots(initialRefCount: seq<nat>) returns (ok: bool, result: seq<int>)
      requires Valid() && forall i :: 0 <= i < |initialRefCount| ==> initialRefCount[i] > 0
      modifies this
      ensures Valid()
      ensures ok <==> |initialRefCount| <= |old(freeSlots)|
      ensures !ok ==> result == [] && unchanged(this)
      ensures ok ==> |result| == |initialRefCount| && Distinct(result)
      ensures ok ==> freeSlots == old(freeSlots)[..|old(freeSlots)| - |initialRefCount|]
      ensures ok ==> forall i :: 0 <= i < |initialRefCount| ==> result[i] == old(freeSlots)[|old(freeSlots)| - 1 - i]
      ensures ok ==> forall x :: x in result ==> x !in old(refCount)
      ensures ok ==> forall i :: 0 <= i < |result| ==> Refs(refCount, result[i]) == initialRefCount[i]
      ensures ok ==> forall x :: x !in result ==> Refs(refCount, x) == Refs(old(refCount), x)
    {
      var n := |initialRefCount|;
      if n > |freeSlots| {
        return false, [];
      }
      ghost var taken;
      result, taken := TakeFromEnd(n);
      SetCounts(result, initialRefCount);
      Moved(maxNumTokens, freeSlots, taken, old(refCount), refCount);
      ok := true;
    }

    /** Drops one reference. */
    method FreeSlot(slot: int)
      requires Valid() && Refs(refCount, slot) > 0
      modifies this
      ensures Valid()
      ensures freeSlots == old(freeSlots) + if Refs(old(refCount), slot) == 1 then [slot] else []
      ensures forall x :: Refs(refCount, x) == Refs(old(refCount), x) - if x == slot then 1 else 0
    {
      if refCount[slot] == 1 {
        freeSlots := freeSlots + [slot];
        refCount := refCount - {slot};
      } else {
        refCount := refCount[slot := refCount[slot] - 1];
      }
    }

    /** Drops one reference per listed slot.  The precondition is that no reference is dropped
        twice: it is what `.at` checks, slot by slot. */
    method FreeSlots(slots: seq<int>)
      requires Valid() && forall x :: x in slots ==> multiset(slots)[x] <= Refs(refCount, x)
      modifies this
      ensures Valid()
      ensures forall x :: Refs(refCount, x) == Refs(old(refCount), x) - multiset(slots)[x]
    {
      for i := 0 to |slots|
        invariant Valid()
        invariant forall x :: Refs(refCount, x) + multiset(slots[..i])[x] == Refs(old(refCount), x)
      {
        var slot := slots[i];
        assert slots[..i + 1] == slots[..i] + [slot];
        assert slots == slots[..i + 1] + slots[i + 1..];
        assert multiset(slots[..i + 1])[slot] <= multiset(slots)[slot];
        FreeSlot(slot);
      }
      assert slots[..|slots|] == slots;
    }
  }

  // ----- the model states that use the slots ------------------------------------------------

  /** The model states with a draft token in `slot`. */
  ghost function Holders(drafts: seq<seq<int>>, slot: int): set<int> {
    set i | 0 <= i < |drafts| && slot in drafts[i]
  }

  /** The model states that a list of (model state, slot number) pairs gives the slot to. */
  function Users(plan: seq<(nat, nat)>, j: nat): (r: set<nat>)
  {
    set k | 0 <= k < |plan| && plan[k].1 == j :: plan[k].0
  }

  /** RemoveAllDraftTokens reports every slot once. */
  method RemovedSlots(slots: seq<int>) returns (removed: seq<int>)
    ensures Distinct(removed) && forall x :: x in removed <==> x in slots
  {
    removed := [];
    for i := 0 to |slots|
      invariant Distinct(removed) && forall x :: x in removed <==> x in slots[..i]
    {
      assert slots[..i + 1] == slots[..i] + [slots[i]];
      if slots[i] !in removed {
        removed := removed + [slots[i]];
      }
    }
    assert slots[..|slots|] == slots;
  }

  lemma DistinctOnce(s: seq<int>, x: int)
    requires Distinct(s)
    ensures multiset(s)[x] == if x in s then 1 else 0
    decreases |s|
  {
    if s != [] {
      assert s == [s[0]] + s[1..];
      DistinctOnce(s[1..], x);
      if x == s[0] {
        assert x !in s[1..];
      }
    }
  }

  /** The manager together with the slots named by the draft tokens of every model state. */
  class DraftingSystem {
    const manager: DraftTokenWorkspaceManager
    var drafts: seq<seq<int>>

    /** The references of a slot beyond those of the model states that use it. */
    ghost function Excess(slot: int): int
      reads this, manager
    {
      Refs(manager.refCount, slot) - |Holders(drafts, slot)|
    }

    /** Every slot is counted at least once per model state that uses it. */
    ghost predicate Covered()
      reads this, manager
    {
      manager.Valid() && forall slot :: Excess(slot) >= 0
    }

    /** Every slot is counted exactly once per model state that uses it. */
    ghost predicate Valid()
      reads this, manager
    {
      manager.Valid() && forall slot :: Excess(slot) == 0
    }

    constructor (maxNumTokens: nat, modelStates: nat)
      ensures Valid() && fresh(manager)
      ensures manager.maxNumTokens == maxNumTokens
      ensures drafts == seq(modelStates, _ => [])
    {
      manager := new DraftTokenWorkspaceManager(maxNumTokens);
      drafts := seq(modelStates, _ => []);
      new;
      forall slot ensures Holders(drafts, slot) == {} {}
    }

    /** The AddDraftToken calls of one round, in order. */
    method AttachAll(slots: seq<int>, plan: seq<(nat, nat)>)
      requires Distinct(slots) && forall k :: 0 <= k < |plan| ==> plan[k].0 < |drafts| && plan[k].1 < |slots|
      requires forall j :: 0 <= j < |slots| ==> Holders(drafts, slots[j]) == {}
      modifies this
      ensures |drafts| == |old(drafts)|
      ensures forall j :: 0 <= j < |slots| ==> Holders(drafts, slots[j]) == Users(plan, j)
      ensures forall x :: x !in slots ==> Holders(drafts, x) == Holders(old(drafts), x)
      ensures forall i :: 0 <= i < |drafts| ==> old(drafts)[i] <= drafts[i]
    {
      for k := 0 to |plan|
        invariant |drafts| == |old(drafts)|
        invariant forall j :: 0 <= j < |slots| ==> Holders(drafts, slots[j]) == Users(plan[..k], j)
        invariant forall x :: x !in slots ==> Holders(drafts, x) == Holders(old(drafts), x)
        invariant forall i :: 0 <= i < |drafts| ==> old(drafts)[i] <= drafts[i]
      {
        var (i, j) := plan[k];
        Attached(drafts, i, slots[j]);
        UsersStep(plan, k);
        drafts := drafts[i := drafts[i] + [slots[j]]];
      }
      assert plan[..|plan|] == plan;
    }

    /** One drafting round: slot j is counted initialRefCount[j] times.  Slots and users agree
        afterwards if and only if that is the number of model states its draft tokens go to;
        a slot that gets no token, in particular, is counted without being used. */
    method Draft(initialRefCount: seq<nat>, plan: seq<(nat, nat)>) returns (ok: bool, slots: seq<int>)
      requires Covered() && forall k :: 0 <= k < |plan| ==> plan[k].0 < |drafts| && plan[k].1 < |initialRefCount|
      requires forall j :: 0 <= j < |initialRefCount| ==> initialRefCount[j] > 0
      modifies this, manager
      ensures manager.Valid()
      ensures ok <==> |initialRefCount| <= |old(manager.freeSlots)|
      ensures !ok ==> unchanged(this) && unchanged(manager)
      ensures ok ==> |slots| == |initialRefCount| && Distinct(slots) && |drafts| == |old(drafts)|
      ensures ok ==> forall j :: 0 <= j < |slots| ==>
        Holders(old(drafts), slots[j]) == {} && Holders(drafts, slots[j]) == Users(plan, j)
      ensures ok ==> forall j :: 0 <= j < |slots| ==> Excess(slots[j]) == initialRefCount[j] - |Users(plan, j)|
      ensures ok ==> forall x :: x !in slots ==> Holders(drafts, x) == Holders(old(drafts), x) && Excess(x) == old(Excess(x))
      ensures forall x :: old(Excess(x)) > 0 ==> Excess(x) == old(Excess(x))
      ensures ok && old(Valid()) ==>
        (Valid() <==> forall j :: 0 <= j < |initialRefCount| ==> initialRefCount[j] == |Users(plan, j)|)
    {
      ok, slots := manager.AllocSlots(initialRefCount);
      if ok {
        forall j | 0 <= j < |slots| ensures Holders(drafts, slots[j]) == {} {
          assert old(Excess(slots[j])) >= 0;
        }
        AttachAll(slots, plan);
        assert forall x :: x !in slots ==> Excess(x) == old(Excess(x));
        assert forall j :: 0 <= j < |slots| ==> Excess(slots[j]) == initialRefCount[j] - |Users(plan, j)|;
      }
    }

    /** Dropping all draft tokens of a model state frees each of its slots once, however many
        tokens share the slot: FreeSlots never meets a slot without references. */
    method RemoveAllDraftTokens(i: nat)
      requires Covered() && i < |drafts|
      modifies this, manager
      ensures Covered() && forall x :: Excess(x) == old(Excess(x))
      ensures drafts == old(drafts)[i := []]
      ensures old(Valid()) ==> Valid()
    {
      var removed := RemovedSlots(drafts[i]);
      forall x
        ensures multiset(removed)[x] == (if x in drafts[i] then 1 else 0)
        ensures |Holders(drafts[i := []], x)| + multiset(removed)[x] == |Holders(drafts, x)|
        ensures multiset(removed)[x] <= Refs(manager.refCount, x)
      {
        DistinctOnce(removed, x);
        Detached(drafts, i, x);
        assert Excess(x) >= 0;
      }
      manager.FreeSlots(removed);
      drafts := drafts[i := []];
      forall x ensures Excess(x) == old(Excess(x)) >= 0 {
        assert old(Excess(x)) >= 0;
      }
    }

    /** Any run of rounds and removals.  A slot with an excess keeps it, so it is never free
        again. */
    method Run(ops: seq<Op>)
      requires Covered() && forall n :: 0 <= n < |ops| ==> Legal(ops[n], |drafts|)
      modifies this, manager
      ensures Covered() && |drafts| == |old(drafts)|
      ensures forall x :: old(Excess(x)) > 0 ==> Excess(x) == old(Excess(x)) && x !in manager.freeSlots
    {
      for n := 0 to |ops|
        invariant Covered() && |drafts| == |old(drafts)|
        invariant forall x :: old(Excess(x)) > 0 ==> Excess(x) == old(Excess(x))
      {
        assert Legal(ops[n], |drafts|);
        RunOne(ops[n]);
      }
      forall x | old(Excess(x)) > 0 ensures x !in manager.freeSlots {
        assert Refs(manager.refCount, x) > 0;
      }
    }

    method RunOne(op: Op)
      requires Covered() && Legal(op, |drafts|)
      modifies this, manager
      ensures Covered() && |drafts| == |old(drafts)|
      ensures forall x :: old(Excess(x)) > 0 ==> Excess(x) == old(Excess(x))
    {
      match op
      case Drafting(counts, plan) =>
        var ok, slots := Draft(counts, plan);
        forall x ensures Excess(x) >= 0 {
          assert old(Excess(x)) >= 0;
        }
      case Removing(i) =>
        RemoveAllDraftTokens(i);
    }
  }

  datatype Op = Drafting(counts: seq<nat>, plan: seq<(nat, nat)>) | Removing(i: nat)

  /** A round gives every slot a positive count that covers its users; any slot may be counted
      for more than use it. */
  ghost predicate Legal(op: Op, modelStates: nat) {
    match op
    case Drafting(counts, plan) =>
      && (forall k :: 0 <= k < |plan| ==> plan[k].0 < modelStates && plan[k].1 < |counts|)
      && (forall j :: 0 <= j < |counts| ==> counts[j] > 0 && counts[j] >= |Users(plan, j)|)
    case Removing(i) => i < modelStates
  }

  lemma Attached(drafts: seq<seq<int>>, i: nat, slot: int)
    requires i < |drafts|
    ensures Holders(drafts[i := drafts[i] + [slot]], slot) == Holders(drafts, slot) + {i}
    ensures forall x :: x != slot ==> Holders(drafts[i := drafts[i] + [slot]], x) == Holders(drafts, x)
  {
    var after := drafts[i := drafts[i] + [slot]];
    forall k, x | 0 <= k < |drafts| ensures x in after[k] <==> x in drafts[k] || (k == i && x == slot) {}
  }

  lemma Detached(drafts: seq<seq<int>>, i: nat, slot: int)
    requires i < |drafts|
    ensures |Holders(drafts[i := []], slot)| + (if slot in drafts[i] then 1 else 0) == |Holders(drafts, slot)|
  {
    assert Holders(drafts[i := []], slot) == Holders(drafts, slot) - {i};
  }

  lemma UsersStep(plan: seq<(nat, nat)>, k: nat)
    requires k < |plan|
    ensures forall j: nat :: (Users(plan[..k + 1], j) == Users(plan[..k], j) + if plan[k].1 == j then {plan[k].0} else {})
  {
    assert plan[..k + 1] == plan[..k] + [plan[k]];
    forall j: nat
      ensures Users(plan[..k + 1], j) == Users(plan[..k], j) + if plan[k].1 == j then {plan[k].0} else {}
    {
      var p, q := plan[..k], plan[..k + 1];
      forall i | i in Users(p, j) ensures i in Users(q, j) {
        var m :| 0 <= m < |p| && p[m].1 == j && p[m].0 == i;
        assert q[m] == p[m];
      }
      assert q[k] == plan[k];
    }
  }

  /** The free set is a function of the draft tokens alone: exactly the slots no draft token
      names.  So rounds that leave the same draft tokens leave the same free set, and without
      draft tokens every slot is free. */
  lemma FreeIffUnused(system: DraftingSystem, x: int)
    requires system.Valid()
    ensures Distinct(system.manager.freeSlots)
    ensures x in system.manager.freeSlots <==>
      0 <= x < system.manager.maxNumTokens && forall i :: 0 <= i < |system.drafts| ==> x !in system.drafts[i]
  {
    var holders := Holders(system.drafts, x);
    assert system.Excess(x) == 0;
    if i :| 0 <= i < |system.drafts| && x in system.drafts[i] {
      assert i in holders;
    } else {
      assert holders == {};
    }
  }

  /** A round that leaks: the only slot is allocated for a sample that yields no token.  No model
      state names it, and whatever rounds and removals follow, it stays counted and not free. */
  method LeakedSlot(ops: seq<Op>) returns (system: DraftingSystem)
    requires forall n :: 0 <= n < |ops| ==> Legal(ops[n], 1)
    ensures fresh(system) && system.manager.maxNumTokens == 1
    ensures system.Excess(0) == 1 && 0 !in system.manager.freeSlots
    ensures !system.Valid()
  {
    system := new DraftingSystem(1, 1);
    FreeIffUnused(system, 0);
    var ok, slots := system.Draft([1], []);
    assert Users([], 0) == {};
    assert slots[0] == 0;
    forall x ensures system.Excess(x) >= 0 {}
    system.Run(ops);
  }
}
