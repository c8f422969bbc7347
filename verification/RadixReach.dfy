/**
  The tree as the pointers alone give it: what is reached from the root through first-child and
  next-sibling links.  It is exactly the pages of the invariant, each by one walk only.
  */
module RadixReach {
  import opened RadixForest
  import opened PagedRadixTrees

  ghost predicate StepOk(mem: map<Ptr, RadixPage>, p: Ptr, q: Ptr) {
    p in mem && q != Null && (mem[p].firstChild == q || mem[p].nextSibling == q)
  }

  /** A walk from the root along links. */
  ghost predicate Walk(mem: map<Ptr, RadixPage>, w: seq<Ptr>)
    decreases |w|
  {
    w != [] &&
    if |w| == 1 then w[0] == Root
    else Walk(mem, w[..|w| - 1]) && StepOk(mem, w[|w| - 2], w[|w| - 1])
  }

  ghost function End(w: seq<Ptr>): Ptr
    requires w != []
  {
    w[|w| - 1]
  }

  ghost predicate Reachable(mem: map<Ptr, RadixPage>, p: Ptr) {
    exists w :: Walk(mem, w) && End(w) == p
  }

  /** A page of the tree other than the root is child number i of some page u. */
  lemma PlaceOf(f: Forest, p: Ptr) returns (u: Ptr, i: nat)
    requires Linked(f) && p in f.kids && p != Root
    ensures p in f.mem && f.mem[p].parent == u && u in f.kids
    ensures u in f.full && i < |f.kids[u]| && f.kids[u][i] == p
  {
    assert PageOk(f, p);
    u := f.mem[p].parent;
    i :| 0 <= i < |f.kids[u]| && f.kids[u][i] == p;
  }

  /** Links stay inside the tree, and where a link leads is the place after the one it leaves. */
  lemma StepStays(f: Forest, p: Ptr, q: Ptr)
    requires Linked(f) && p in f.kids && StepOk(f.mem, p, q)
    ensures q in f.kids && q != Root
    ensures q in f.mem && f.mem[q].parent in f.kids
    ensures (f.kids[p] != [] && q == f.kids[p][0]) ||
            (p != Root && p in f.mem && f.mem[p].parent in f.kids &&
             exists i :: 0 < i < |f.kids[f.mem[p].parent]| && f.kids[f.mem[p].parent][i - 1] == p && f.kids[f.mem[p].parent][i] == q)
  {
    assert PageOk(f, p);
    if f.mem[p].firstChild == q {
      assert ChildOk(f, p, 0);
    } else {
      var u, i := PlaceOf(f, p);
      assert ChildOk(f, u, i) && ChildOk(f, u, i + 1);
      assert f.kids[u][i + 1 - 1] == p;
    }
  }

  lemma {:induction false} WalkStays(f: Forest, w: seq<Ptr>)
    requires Linked(f) && Walk(f.mem, w)
    ensures End(w) in f.kids
    decreases |w|
  {
    if |w| > 1 {
      WalkStays(f, w[..|w| - 1]);
      StepStays(f, w[|w| - 2], w[|w| - 1]);
    }
  }

  lemma {:induction false} WalkToChild(f: Forest, u: Ptr, i: nat) returns (w: seq<Ptr>)
    requires Linked(f) && u in f.kids && u in f.full && i < |f.kids[u]|
    ensures Walk(f.mem, w) && End(w) == f.kids[u][i]
    decreases |f.full[u]|, i
  {
    assert ChildOk(f, u, i);
    if i == 0 {
      assert PageOk(f, u);
      if u == Root {
        w := [Root];
      } else {
        var v, k := PlaceOf(f, u);
        w := WalkToChild(f, v, k);
      }
    } else {
      assert ChildOk(f, u, i - 1);
      w := WalkToChild(f, u, i - 1);
    }
    var longer := w + [f.kids[u][i]];
    assert longer[..|w|] == w;
    w := longer;
  }

  /** The pages of the tree are the reachable ones. */
  lemma LinkedIffReachable(f: Forest, p: Ptr)
    requires Linked(f)
    ensures p in f.kids <==> Reachable(f.mem, p)
  {
    if p in f.kids {
      if p == Root {
        assert Walk(f.mem, [Root]) && End([Root]) == Root;
      } else {
        var u, i := PlaceOf(f, p);
        assert PageOk(f, p);
        var w := WalkToChild(f, u, i);
      }
    } else if Reachable(f.mem, p) {
      var w :| Walk(f.mem, w) && End(w) == p;
      WalkStays(f, w);
      assert false;
    }
  }

  /** One page precedes each page but the root, and none precedes the root. */
  lemma OnePredecessor(f: Forest, p: Ptr, p': Ptr, q: Ptr)
    requires Linked(f) && Branching(f) && p in f.kids && p' in f.kids
    requires StepOk(f.mem, p, q) && StepOk(f.mem, p', q)
    ensures p == p'
  {
    var u, i := Predecessor(f, p, q);
    var u', i' := Predecessor(f, p', q);
    assert ChildOk(f, u, i) && ChildOk(f, u', i');
    assert BranchOk(f, u, i, i') && BranchOk(f, u, i', i);
  }

  lemma Predecessor(f: Forest, p: Ptr, q: Ptr) returns (u: Ptr, i: nat)
    requires Linked(f) && p in f.kids && StepOk(f.mem, p, q)
    ensures u in f.kids && i < |f.kids[u]| && f.kids[u][i] == q
    ensures p == if i == 0 then u else f.kids[u][i - 1]
  {
    StepStays(f, p, q);
    if f.kids[p] != [] && q == f.kids[p][0] {
      u, i := p, 0;
    } else {
      u := f.mem[p].parent;
      i :| 0 < i < |f.kids[u]| && f.kids[u][i - 1] == p && f.kids[u][i] == q;
    }
  }

  /** The links form a tree: two walks to the same page are the same walk. */
  lemma {:induction false} OneWalk(f: Forest, v: seq<Ptr>, w: seq<Ptr>)
    requires Linked(f) && Branching(f) && Walk(f.mem, v) && Walk(f.mem, w) && End(v) == End(w)
    ensures v == w
    decreases |v|
  {
    if |v| == 1 && |w| == 1 {
    } else if |v| == 1 {
      WalkStays(f, w[..|w| - 1]);
      StepStays(f, w[|w| - 2], w[|w| - 1]);
    } else if |w| == 1 {
      WalkStays(f, v[..|v| - 1]);
      StepStays(f, v[|v| - 2], v[|v| - 1]);
    } else {
      var v', w' := v[..|v| - 1], w[..|w| - 1];
      WalkStays(f, v');
      WalkStays(f, w');
      OnePredecessor(f, End(v'), End(w'), End(v));
      OneWalk(f, v', w');
      assert v == v' + [End(v)] && w == w' + [End(w)];
    }
  }

  /** No leak and no dangling page: after every operation the pool's used pages are those that
      the links reach, and the links reach each of them by one walk. */
  lemma UsedPagesAreReachable(tree: PagedRadixTree, i: nat)
    requires tree.Valid()
    ensures i in tree.pool.usedPages <==> Reachable(tree.mem, Slot(i))
    ensures forall v, w :: Walk(tree.mem, v) && Walk(tree.mem, w) && End(v) == End(w) ==> v == w
  {
    LinkedIffReachable(tree.State(), Slot(i));
    forall v, w | Walk(tree.mem, v) && Walk(tree.mem, w) && End(v) == End(w) ensures v == w {
      OneWalk(tree.State(), v, w);
    }
  }
}
