/** The radix page pool: page indices handed out one by one, in blocks that are added on demand. */
module PagePools {
  import opened Sequences
  import opened RadixForest

  /** kPageBlockSize_ */
  const PAGE_BLOCK_SIZE: nat := 64

  class RadixPagePool {
    var numPages: nat
    var freeIndices: seq<nat>
    var usedPages: set<nat>

    /** Free and used indices partition the pages of the pool. */
    ghost predicate Valid()
      reads this
    {
      && Distinct(freeIndices)
      && (forall i :: i in freeIndices ==> i < numPages && i !in usedPages)
      && (forall i :: i in usedPages ==> i < numPages)
      && (forall i: nat :: i < numPages ==> i in freeIndices || i in usedPages)
    }

    constructor ()
      ensures Valid() && usedPages == {}
    {
      numPages, freeIndices, usedPages := 0, [], {};
      new;
      NewPageBlock();
    }

    method NewPageBlock()
      requires Valid() && freeIndices == []
      modifies this`numPages, this`freeIndices
      ensures Valid() && |freeIndices| == PAGE_BLOCK_SIZE
      ensures numPages == old(numPages) + PAGE_BLOCK_SIZE
    {
      var base := numPages;
      var i := 0;
      while i < PAGE_BLOCK_SIZE
        invariant 0 <= i <= PAGE_BLOCK_SIZE && numPages == base + i
        invariant |freeIndices| == i && forall j :: 0 <= j < i ==> freeIndices[j] == base + j
      {
        freeIndices := freeIndices + [base + i];
        numPages := numPages + 1;
        i := i + 1;
      }
      forall j: nat | base <= j < numPages ensures j in freeIndices {
        assert freeIndices[j - base] == j;
      }
    }

    /** Never hands out a page that is in use. */
    method Allocate() returns (i: nat)
      requires Valid()
      modifies this
      ensures Valid() && i !in old(usedPages)
      ensures usedPages == old(usedPages) + {i}
      ensures numPages >= old(numPages)
    {
      if freeIndices == [] {
        NewPageBlock();
      }
      var n := |freeIndices| - 1;
      i := freeIndices[n];
      assert freeIndices == freeIndices[..n] + [i];
      assert i !in freeIndices[..n];
      freeIndices := freeIndices[..n];
      usedPages := usedPages + {i};
    }

    /** The precondition is the CHECK against freeing a page twice. */
    method Free(i: nat)
      requires Valid() && i in usedPages
      modifies this`freeIndices, this`usedPages
      ensures Valid() && usedPages == old(usedPages) - {i}
    {
      freeIndices := freeIndices + [i];
      usedPages := usedPages - {i};
    }

    /** The room left is that of the pages of the pool that are not in use. */
    method FreeCapacity() returns (n: nat)
      requires Valid()
      ensures |usedPages| <= numPages
      ensures n == (numPages - |usedPages|) * PAGE_CAPACITY
    {
      n := |freeIndices| * PAGE_CAPACITY;
      FreeAndUsed(numPages, freeIndices, usedPages);
    }
  }

  /** Indices that partition the pool add up to it. */
  lemma {:induction false} FreeAndUsed(numPages: nat, free: seq<nat>, used: set<nat>)
    requires Distinct(free) && (forall i :: i in free ==> i < numPages && i !in used) && (forall i :: i in used ==> i < numPages)
    requires forall i: nat :: i < numPages ==> i in free || i in used
    ensures |free| + |used| == numPages
    decreases |free|
  {
    if free == [] {
      Below(numPages, used);
    } else {
      var n := |free| - 1;
      var i, rest := free[n], free[..n];
      assert free == rest + [i] && i in free;
      forall x | x in rest ensures x in free && x != i {
        var j :| 0 <= j < n && rest[j] == x;
        assert free[j] != free[n];
      }
      forall x: nat | x < numPages ensures x in rest || x in used + {i} {
        assert x in free ==> x in rest || x == i;
      }
      FreeAndUsed(numPages, rest, used + {i});
    }
  }

  lemma {:induction false} Below(n: nat, s: set<nat>)
    requires forall i: nat :: i in s <==> i < n
    ensures |s| == n
  {
    if n == 0 {
      assert s == {};
    } else {
      Below(n - 1, s - {n - 1});
    }
  }
}
