/**
  The elementary edits of the paged radix tree as functions on forests, and the
  proof that each keeps the shape invariant and what it does to the contents.
  */
module RadixEdits {
  import opened Sequences
  import opened RadixForest

  ghost function Reparented(mem: map<Ptr, RadixPage>, ks: seq<Ptr>, p: Ptr): map<Ptr, RadixPage> {
    map q | q in mem :: if q in ks then mem[q].(parent := p) else mem[q]
  }

  ghost function Redirected(seq2page: map<int, Ptr>, p: Ptr, q: Ptr): map<int, Ptr> {
    map id | id in seq2page :: if seq2page[id] == p then q else seq2page[id]
  }

  // ----- SplitPage, without the merges it may trigger ---------------------------

  ghost predicate CanSplit(f: Forest, p: Ptr, k: nat, c: Ptr) {
    && Shape(f) && p in f.kids && p != Root && c.Slot? && c !in f.kids && c in f.mem
    && p in f.mem && 0 < k < |f.mem[p].tokens|
  }

  /** Page `p` keeps its first `k` tokens; the new page `c` below it takes the rest. */
  ghost function Split(f: Forest, p: Ptr, k: nat, c: Ptr): Forest
    requires CanSplit(f, p, k, c)
  {
    assert PageOk(f, p);
    var page := f.mem[p];
    Forest(
      Reparented(f.mem, f.kids[p], c)
        [c := RadixPage(p, page.firstChild, Null, page.seqIds, PAGE_CAPACITY, page.tokens[k..])]
        [p := page.(firstChild := c, seqIds := [], tokens := page.tokens[..k])],
      f.kids[c := f.kids[p]][p := [c]],
      f.full[c := f.full[p]][p := f.full[page.parent] + page.tokens[..k]],
      Redirected(f.seq2page, p, c))
  }

  lemma SplitLinked(f: Forest, p: Ptr, k: nat, c: Ptr)
    requires CanSplit(f, p, k, c)
    ensures Linked(Split(f, p, k, c))
  {
    var g := Split(f, p, k, c);
    assert PageOk(f, p);
    assert p !in f.kids[p] by { if p in f.kids[p] { ChildFacts(f, p, p); } }
    assert c !in f.kids[p] by { if c in f.kids[p] { ChildFacts(f, p, c); } }
    forall q ensures PageOk(g, q) {
      assert PageOk(f, q);
      if q in f.kids && q in f.kids[p] {
        ChildFacts(f, p, q);
      }
    }
    forall q, i ensures ChildOk(g, q, i) {
      assert ChildOk(f, q, i) && ChildOk(f, p, i);
      if q in f.kids && 0 <= i < |f.kids[q]| && f.kids[q][i] in f.kids[p] {
        ChildFacts(f, p, f.kids[q][i]);
      }
    }
  }

  lemma SplitBranching(f: Forest, p: Ptr, k: nat, c: Ptr)
    requires CanSplit(f, p, k, c)
    ensures Branching(Split(f, p, k, c))
  {
    var g := Split(f, p, k, c);
    forall q, i, j ensures BranchOk(g, q, i, j) {
      assert BranchOk(f, q, i, j) && BranchOk(f, p, i, j);
      assert ChildOk(f, q, i) && ChildOk(f, q, j) && ChildOk(f, p, i) && ChildOk(f, p, j);
    }
  }

  lemma SplitIndexed(f: Forest, p: Ptr, k: nat, c: Ptr)
    requires CanSplit(f, p, k, c)
    ensures Indexed(Split(f, p, k, c))
  {
    var g := Split(f, p, k, c);
    forall id ensures IdOk(g, id) {
      assert IdOk(f, id) && PageOk(f, p);
    }
    forall q, id ensures ListOk(g, q, id) {
      assert ListOk(f, q, id) && ListOk(f, p, id) && IdOk(f, id);
      assert PageOk(f, q) && PageOk(f, p);
    }
    forall q ensures OnceOk(g, q) {
      assert OnceOk(f, q) && OnceOk(f, p) && PageOk(f, q);
    }
  }

  /** Splitting a page changes no sequence and needs no page to become a bare leaf. */
  lemma SplitOk(f: Forest, p: Ptr, k: nat, c: Ptr)
    requires CanSplit(f, p, k, c) && WellFormed(f)
    ensures WellFormed(Split(f, p, k, c))
    ensures Contents(Split(f, p, k, c)) == Contents(f)
  {
    SplitLinked(f, p, k, c);
    SplitBranching(f, p, k, c);
    SplitIndexed(f, p, k, c);
    var g := Split(f, p, k, c);
    forall q ensures LeafOk(g, q) {
      assert LeafOk(f, q) && LeafOk(f, p) && PageOk(f, q);
    }
    forall id | id in f.seq2page ensures Contents(g)[id] == Contents(f)[id] {
      assert IdOk(f, id) && IdOk(g, id);
    }
  }

  // ----- MergePage ---------------------------------------------------------------

  /** RadixPage::Mergeable */
  ghost predicate CanMerge(f: Forest, p: Ptr) {
    && Shape(f) && p in f.kids && p in f.mem && f.mem[p].seqIds == []
    && |f.kids[p]| == 1 && f.kids[p][0] in f.mem
    && |f.mem[p].tokens| + |f.mem[f.kids[p][0]].tokens| <= f.mem[p].capacity
  }

  /** Page `p` absorbs its only child. */
  ghost function Merge(f: Forest, p: Ptr): Forest
    requires CanMerge(f, p)
  {
    var c := f.kids[p][0];
    assert ChildOk(f, p, 0);
    assert PageOk(f, c);
    Forest(
      Reparented(f.mem, f.kids[c], p)
        [p := f.mem[p].(firstChild := f.mem[c].firstChild, seqIds := f.mem[c].seqIds,
                        tokens := f.mem[p].tokens + f.mem[c].tokens)]
        [c := f.mem[c].(seqIds := [])],
      (f.kids - {c})[p := f.kids[c]],
      (f.full - {c})[p := f.full[c]],
      Redirected(f.seq2page, c, p))
  }

  lemma MergeFacts(f: Forest, p: Ptr)
    requires CanMerge(f, p)
    ensures p != Root && PageOk(f, p) && PageOk(f, f.kids[p][0])
    ensures ChildOk(f, p, 0)
    ensures f.kids[p][0] != p && f.kids[p][0] in f.kids
    ensures f.kids[p][0] != Root
    ensures p !in f.kids[f.kids[p][0]]
    ensures f.kids[p][0] !in f.kids[f.kids[p][0]]
  {
    var c := f.kids[p][0];
    assert PageOk(f, p) && ChildOk(f, p, 0) && PageOk(f, c);
    if p in f.kids[c] { ChildFacts(f, c, p); ChildFacts(f, p, c); }
    if c in f.kids[c] { ChildFacts(f, c, c); }
  }

  lemma MergeLinked(f: Forest, p: Ptr)
    requires CanMerge(f, p)
    ensures Linked(Merge(f, p))
  {
    var g := Merge(f, p);
    var c := f.kids[p][0];
    MergeFacts(f, p);
    forall q ensures PageOk(g, q) {
      assert PageOk(f, q);
      if q in f.kids && q in f.kids[c] {
        ChildFacts(f, c, q);
      }
      if q in g.kids && q != Root && f.mem[q].parent == c {
        assert q in f.kids[c];
      }
    }
    forall q, i ensures ChildOk(g, q, i) {
      assert ChildOk(f, q, i) && ChildOk(f, c, i);
      if q in g.kids && 0 <= i < |g.kids[q]| && g.kids[q][i] == c {
        ChildFacts(f, q, c);
      }
      if q in f.kids && 0 <= i < |f.kids[q]| && f.kids[q][i] in f.kids[c] {
        ChildFacts(f, c, f.kids[q][i]);
      }
    }
  }

  lemma MergeBranching(f: Forest, p: Ptr)
    requires CanMerge(f, p)
    ensures Branching(Merge(f, p))
  {
    var g := Merge(f, p);
    var c := f.kids[p][0];
    MergeFacts(f, p);
    forall q, i, j ensures BranchOk(g, q, i, j) {
      assert BranchOk(f, q, i, j) && BranchOk(f, c, i, j);
      assert ChildOk(f, q, i) && ChildOk(f, q, j) && ChildOk(f, c, i) && ChildOk(f, c, j);
      assert ChildOk(f, p, i) && ChildOk(f, p, j);
    }
  }

  lemma MergeIndexed(f: Forest, p: Ptr)
    requires CanMerge(f, p)
    ensures Indexed(Merge(f, p))
  {
    var g := Merge(f, p);
    var c := f.kids[p][0];
    MergeFacts(f, p);
    forall id ensures IdOk(g, id) {
      assert IdOk(f, id);
    }
    forall q, id ensures ListOk(g, q, id) {
      assert ListOk(f, q, id) && ListOk(f, c, id) && IdOk(f, id) && PageOk(f, q);
    }
    forall q ensures OnceOk(g, q) {
      assert OnceOk(f, q) && OnceOk(f, c) && PageOk(f, q);
    }
  }

  /** Merging a page with its only child changes no sequence. */
  lemma MergeOk(f: Forest, p: Ptr)
    requires CanMerge(f, p) && WellFormed(f)
    ensures WellFormed(Merge(f, p))
    ensures Contents(Merge(f, p)) == Contents(f)
  {
    MergeLinked(f, p);
    MergeBranching(f, p);
    MergeIndexed(f, p);
    var g := Merge(f, p);
    var c := f.kids[p][0];
    MergeFacts(f, p);
    forall q ensures LeafOk(g, q) {
      assert LeafOk(f, q) && LeafOk(f, c) && PageOk(f, q);
    }
    forall id | id in f.seq2page ensures Contents(g)[id] == Contents(f)[id] {
      assert IdOk(f, id) && IdOk(g, id);
    }
  }

  // ----- InsertChild of a new page -------------------------------------------------

  ghost predicate CanAttach(f: Forest, p: Ptr, c: Ptr, tokens: seq<int>) {
    && Shape(f) && p in f.kids && p in f.mem && c.Slot? && c !in f.kids && c in f.mem
    && 1 <= |tokens| <= PAGE_CAPACITY
    && (forall q :: q in f.kids[p] && q in f.mem && f.mem[q].tokens != [] ==> f.mem[q].tokens[0] != tokens[0])
  }

  /** The new page `c` becomes the first child of `p`. */
  ghost function Attach(f: Forest, p: Ptr, c: Ptr, tokens: seq<int>): Forest
    requires CanAttach(f, p, c, tokens)
  {
    assert PageOk(f, p);
    Forest(
      f.mem[c := RadixPage(p, Null, f.mem[p].firstChild, [], PAGE_CAPACITY, tokens)]
        [p := f.mem[p].(firstChild := c)],
      f.kids[p := [c] + f.kids[p]][c := []],
      f.full[c := f.full[p] + tokens],
      f.seq2page)
  }

  lemma AttachLinked(f: Forest, p: Ptr, c: Ptr, tokens: seq<int>)
    requires CanAttach(f, p, c, tokens)
    ensures Linked(Attach(f, p, c, tokens))
  {
    var g := Attach(f, p, c, tokens);
    assert PageOk(f, p);
    forall q ensures PageOk(g, q) {
      assert PageOk(f, q);
      if q in f.kids && q != Root && q != c && f.mem[q].parent == p {
        assert q in g.kids[p];
      }
      if q == c {
        assert g.kids[p][0] == c;
      }
    }
    forall q, i ensures ChildOk(g, q, i) {
      assert ChildOk(f, q, i) && ChildOk(f, q, i - 1);
    }
  }

  lemma AttachBranching(f: Forest, p: Ptr, c: Ptr, tokens: seq<int>)
    requires CanAttach(f, p, c, tokens)
    ensures Branching(Attach(f, p, c, tokens))
  {
    var g := Attach(f, p, c, tokens);
    assert PageOk(f, p);
    forall q, i, j ensures BranchOk(g, q, i, j) {
      assert ChildOk(f, q, i) && ChildOk(f, q, j) && ChildOk(f, q, i - 1) && ChildOk(f, q, j - 1);
      if q == p && q in g.kids && 0 <= i < j < |g.kids[p]| {
        assert BranchOk(f, p, i - 1, j - 1);
        if i == 0 {
          ChildFacts(f, p, f.kids[p][j - 1]);
          assert f.kids[p][j - 1] in f.kids[p];
        }
      } else {
        assert BranchOk(f, q, i, j);
      }
    }
  }

  /** A new leaf below `p` is the only page that may lack a sequence; contents are unchanged. */
  lemma AttachOk(f: Forest, p: Ptr, c: Ptr, tokens: seq<int>)
    requires CanAttach(f, p, c, tokens) && WellFormedBut(f, p)
    ensures WellFormedBut(Attach(f, p, c, tokens), c)
    ensures Contents(Attach(f, p, c, tokens)) == Contents(f)
  {
    AttachLinked(f, p, c, tokens);
    AttachBranching(f, p, c, tokens);
    var g := Attach(f, p, c, tokens);
    forall id ensures IdOk(g, id) {
      assert IdOk(f, id);
    }
    forall q, id ensures ListOk(g, q, id) {
      assert ListOk(f, q, id) && PageOk(f, q);
    }
    forall q ensures OnceOk(g, q) {
      assert OnceOk(f, q) && PageOk(f, q);
    }
    forall q | q != c ensures LeafOk(g, q) {
      assert (q != p ==> LeafOk(f, q)) && PageOk(f, q);
    }
    forall id | id in f.seq2page ensures Contents(g)[id] == Contents(f)[id] {
      assert IdOk(f, id) && IdOk(g, id);
    }
  }

  // ----- RemoveChild of a bare leaf -------------------------------------------------

  /** Page `p` is the `i`-th child of its parent. */
  ghost predicate IsChild(f: Forest, p: Ptr, i: nat) {
    && Linked(f) && Branching(f) && p in f.kids && p != Root && p in f.mem
    && f.mem[p].parent in f.kids && i < |f.kids[f.mem[p].parent]| && f.kids[f.mem[p].parent][i] == p
  }

  /** The pages after the links around a child are closed. */
  ghost function Unlinked(f: Forest, p: Ptr, i: nat): map<Ptr, RadixPage>
    requires IsChild(f, p, i)
  {
    var q := f.mem[p].parent;
    var ks := f.kids[q];
    assert PageOk(f, q) && ChildOk(f, q, i - 1) && ChildOk(f, q, i);
    if i == 0 then f.mem[q := f.mem[q].(firstChild := f.mem[p].nextSibling)]
    else f.mem[ks[i - 1] := f.mem[ks[i - 1]].(nextSibling := f.mem[p].nextSibling)]
  }

  ghost predicate CanDetach(f: Forest, p: Ptr, i: nat) {
    Shape(f) && IsChild(f, p, i) && f.kids[p] == [] && f.mem[p].seqIds == []
  }

  /** The bare leaf `p`, the `i`-th child of its parent, is unlinked. */
  ghost function Detach(f: Forest, p: Ptr, i: nat): Forest
    requires CanDetach(f, p, i)
  {
    var q := f.mem[p].parent;
    var ks := f.kids[q];
    Forest(Unlinked(f, p, i), (f.kids - {p})[q := ks[..i] + ks[i + 1..]], f.full - {p}, f.seq2page)
  }

  lemma DetachFacts(f: Forest, p: Ptr, i: nat)
    requires CanDetach(f, p, i)
    ensures PageOk(f, p) && PageOk(f, f.mem[p].parent)
    ensures p != f.mem[p].parent
    ensures forall q, j :: q in f.kids && 0 <= j < |f.kids[q]| && f.kids[q][j] == p ==> q == f.mem[p].parent && j == i
  {
    var u := f.mem[p].parent;
    assert PageOk(f, p) && PageOk(f, u);
    ChildFacts(f, u, p);
    forall q, j | q in f.kids && 0 <= j < |f.kids[q]| && f.kids[q][j] == p ensures q == u && j == i {
      assert ChildOk(f, q, j);
      assert BranchOk(f, q, i, j) && BranchOk(f, q, j, i);
    }
  }

  lemma DetachChildren(f: Forest, p: Ptr, i: nat)
    requires CanDetach(f, p, i)
    ensures forall q, j {:trigger ChildOk(Detach(f, p, i), q, j)} :: ChildOk(Detach(f, p, i), q, j)
  {
    var g := Detach(f, p, i);
    var u := f.mem[p].parent;
    DetachFacts(f, p, i);
    assert ChildOk(f, u, i) && ChildOk(f, u, i - 1);
    forall q, j ensures ChildOk(g, q, j) {
      assert ChildOk(f, q, j) && ChildOk(f, q, j + 1);
      if q == u && 0 < i {
        assert BranchOk(f, u, i - 1, j) && BranchOk(f, u, i - 1, j + 1);
        assert BranchOk(f, u, j, i - 1) && BranchOk(f, u, j + 1, i - 1);
      }
    }
  }

  lemma DetachLinked(f: Forest, p: Ptr, i: nat)
    requires CanDetach(f, p, i)
    ensures Linked(Detach(f, p, i))
  {
    DetachChildren(f, p, i);
    var g := Detach(f, p, i);
    var u := f.mem[p].parent;
    var ks := f.kids[u];
    DetachFacts(f, p, i);
    assert ChildOk(f, u, i) && ChildOk(f, u, i - 1);
    forall q ensures PageOk(g, q) {
      assert PageOk(f, q);
      if q in g.kids && q != Root && f.mem[q].parent == u {
        var j :| 0 <= j < |ks| && ks[j] == q;
        assert j != i;
        assert g.kids[u][if j < i then j else j - 1] == q;
      }
    }
  }

  lemma DetachBranching(f: Forest, p: Ptr, i: nat)
    requires CanDetach(f, p, i)
    ensures Branching(Detach(f, p, i))
  {
    var g := Detach(f, p, i);
    var u := f.mem[p].parent;
    DetachFacts(f, p, i);
    assert ChildOk(f, u, i - 1);
    forall q, j, k ensures BranchOk(g, q, j, k) {
      if q == u {
        assert BranchOk(f, u, if j < i then j else j + 1, if k < i then k else k + 1);
      } else {
        assert BranchOk(f, q, j, k);
      }
    }
  }

  /** Unlinking a bare leaf changes no sequence; its parent may become a bare leaf. */
  lemma DetachOk(f: Forest, p: Ptr, i: nat)
    requires CanDetach(f, p, i) && WellFormedBut(f, p)
    ensures WellFormedBut(Detach(f, p, i), f.mem[p].parent)
    ensures Contents(Detach(f, p, i)) == Contents(f)
  {
    DetachLinked(f, p, i);
    DetachBranching(f, p, i);
    var g := Detach(f, p, i);
    var u := f.mem[p].parent;
    DetachFacts(f, p, i);
    assert ChildOk(f, u, i - 1);
    forall id ensures IdOk(g, id) {
      assert IdOk(f, id);
    }
    forall q, id ensures ListOk(g, q, id) {
      assert ListOk(f, q, id) && PageOk(f, q);
    }
    forall q ensures OnceOk(g, q) {
      assert OnceOk(f, q) && PageOk(f, q);
    }
    forall q | q != u ensures LeafOk(g, q) {
      assert (q != p ==> LeafOk(f, q)) && PageOk(f, q);
    }
    forall id | id in f.seq2page ensures Contents(g)[id] == Contents(f)[id] {
      assert IdOk(f, id) && IdOk(g, id);
    }
  }

  // ----- refilling a bare leaf in place -----------------------------------------------

  ghost predicate CanRefill(f: Forest, p: Ptr, tokens: seq<int>) {
    && Shape(f) && p in f.kids && p in f.mem && p != Root && f.kids[p] == [] && f.mem[p].seqIds == []
    && 1 <= |tokens| <= PAGE_CAPACITY && f.mem[p].tokens != [] && f.mem[p].tokens[0] == tokens[0]
  }

  /** A leaf where no sequence ends may change its tokens after the first one. */
  ghost function Refill(f: Forest, p: Ptr, tokens: seq<int>): Forest
    requires CanRefill(f, p, tokens)
  {
    assert PageOk(f, p);
    f.(mem := f.mem[p := f.mem[p].(tokens := tokens)],
       full := f.full[p := f.full[f.mem[p].parent] + tokens])
  }

  lemma RefillOk(f: Forest, p: Ptr, tokens: seq<int>)
    requires CanRefill(f, p, tokens) && WellFormedBut(f, p)
    ensures WellFormedBut(Refill(f, p, tokens), p)
    ensures Contents(Refill(f, p, tokens)) == Contents(f)
  {
    var g := Refill(f, p, tokens);
    assert PageOk(f, p);
    forall q ensures PageOk(g, q) {
      assert PageOk(f, q);
    }
    forall q, i ensures ChildOk(g, q, i) {
      assert ChildOk(f, q, i);
    }
    forall q, i, j ensures BranchOk(g, q, i, j) {
      assert BranchOk(f, q, i, j);
    }
    forall id ensures IdOk(g, id) {
      assert IdOk(f, id);
    }
    forall q, id ensures ListOk(g, q, id) {
      assert ListOk(f, q, id);
    }
    forall q ensures OnceOk(g, q) {
      assert OnceOk(f, q);
    }
    forall q | q != p ensures LeafOk(g, q) {
      assert LeafOk(f, q);
    }
    forall id | id in f.seq2page ensures Contents(g)[id] == Contents(f)[id] {
      assert IdOk(f, id) && IdOk(g, id);
      assert ListOk(f, p, id);
    }
  }

  // ----- PopSequence and AddSequence of a page -------------------------------------------

  /** The list of a page without the first node that holds `id`. */
  function Without(ids: seq<int>, id: int): (r: seq<int>)
    ensures id !in ids ==> r == ids
    ensures forall x :: x in r ==> x in ids
    ensures forall x :: x in ids && x != id ==> x in r
  {
    if ids == [] then []
    else if ids[0] == id then ids[1..]
    else [ids[0]] + Without(ids[1..], id)
  }

  lemma {:induction false} WithoutDistinct(ids: seq<int>, id: int)
    requires Distinct(ids)
    ensures Distinct(Without(ids, id)) && id !in Without(ids, id)
  {
    if ids != [] && ids[0] != id {
      WithoutDistinct(ids[1..], id);
      var r := Without(ids[1..], id);
      assert ids[0] !in r;
    }
  }

  ghost function Pop(f: Forest, id: int): Forest
    requires Shape(f) && id in f.seq2page
  {
    assert IdOk(f, id);
    var p := f.seq2page[id];
    f.(mem := f.mem[p := f.mem[p].(seqIds := Without(f.mem[p].seqIds, id))],
       seq2page := f.seq2page - {id})
  }

  lemma PopOk(f: Forest, id: int)
    requires WellFormed(f) && id in f.seq2page
    ensures WellFormedBut(Pop(f, id), f.seq2page[id])
    ensures Contents(Pop(f, id)) == Contents(f) - {id}
  {
    var g := Pop(f, id);
    var p := f.seq2page[id];
    assert IdOk(f, id) && PageOk(f, p) && OnceOk(f, p);
    WithoutDistinct(f.mem[p].seqIds, id);
    forall q ensures PageOk(g, q) { assert PageOk(f, q); }
    forall q, i ensures ChildOk(g, q, i) { assert ChildOk(f, q, i); }
    forall q, i, j ensures BranchOk(g, q, i, j) { assert BranchOk(f, q, i, j); }
    forall x ensures IdOk(g, x) { assert IdOk(f, x); }
    forall q, x ensures ListOk(g, q, x) {
      assert ListOk(f, q, x) && PageOk(f, q);
    }
    forall q ensures OnceOk(g, q) { assert OnceOk(f, q); }
    forall q | q != p ensures LeafOk(g, q) { assert LeafOk(f, q); }
    forall x | x in g.seq2page ensures Contents(g)[x] == Contents(f)[x] {
      assert IdOk(f, x) && IdOk(g, x);
    }
  }

  ghost function Push(f: Forest, p: Ptr, id: int): Forest
    requires Shape(f) && p in f.kids
  {
    assert PageOk(f, p);
    f.(mem := f.mem[p := f.mem[p].(seqIds := [id] + f.mem[p].seqIds)],
       seq2page := f.seq2page[id := p])
  }

  lemma PushOk(f: Forest, p: Ptr, id: int)
    requires WellFormedBut(f, p) && id !in f.seq2page && p in f.kids
    ensures WellFormed(Push(f, p, id))
    ensures Contents(Push(f, p, id)) == Contents(f)[id := f.full[p]]
  {
    var g := Push(f, p, id);
    assert PageOk(f, p);
    forall q ensures PageOk(g, q) { assert PageOk(f, q); }
    forall q, i ensures ChildOk(g, q, i) { assert ChildOk(f, q, i); }
    forall q, i, j ensures BranchOk(g, q, i, j) { assert BranchOk(f, q, i, j); }
    forall x ensures IdOk(g, x) { assert IdOk(f, x); }
    forall q, x ensures ListOk(g, q, x) {
      assert ListOk(f, q, x) && PageOk(f, q);
    }
    forall q ensures OnceOk(g, q) {
      assert OnceOk(f, q);
      assert ListOk(f, p, id);
    }
    forall q ensures LeafOk(g, q) { assert q != p ==> LeafOk(f, q); }
    forall x | x in g.seq2page ensures Contents(g)[x] == Contents(f)[id := f.full[p]][x] {
      assert IdOk(f, x) && IdOk(g, x);
    }
  }

  // ----- SplitPage with its merges -----------------------------------------------------

  /** What the caller of SplitPage may rely on, given the old path strings and the old tokens of
      the page `p`: page `r` ends after the first `k` tokens of `p`, no sequence ends there, its
      only child continues as `p` did, and no page shallower than `p` has been freed. */
  ghost predicate SplitAt(full: map<Ptr, seq<int>>, p: Ptr, tokens: seq<int>, k: nat, g: Forest, r: Ptr)
    requires p in full && k < |tokens| <= |full[p]|
  {
    && r in g.kids && r in g.mem && r in g.full && r != Root && g.mem[r].seqIds == []
    && g.full[r] == full[p][..|full[p]| - |tokens| + k]
    && |g.kids[r]| == 1
    && (var x := g.kids[r][0];
        && x in g.mem && x in g.full && g.mem[x].tokens != [] && g.mem[x].tokens[0] == tokens[k]
        && |full[p]| <= |g.full[x]|)
    && (forall q :: q in full && |full[q]| < |full[p]| ==>
          q in g.kids && q in g.full && |g.full[q]| < |full[p]|)
  }

  lemma SplitAtSplit(f: Forest, p: Ptr, k: nat, c: Ptr)
    requires CanSplit(f, p, k, c)
    ensures PageOk(f, p) && |f.mem[p].tokens| <= |f.full[p]|
    ensures SplitAt(f.full, p, f.mem[p].tokens, k, Split(f, p, k, c), p)
    ensures Split(f, p, k, c).kids[p] == [c]
  {
    assert PageOk(f, p);
  }

  ghost function MergeIfCan(f: Forest, p: Ptr): Forest {
    if CanMerge(f, p) then Merge(f, p) else f
  }

  lemma SplitAtMergeBelow(full: map<Ptr, seq<int>>, p: Ptr, tokens: seq<int>, k: nat, g: Forest)
    requires p in full && k < |tokens| <= |full[p]|
    requires SplitAt(full, p, tokens, k, g, p)
    ensures SplitAt(full, p, tokens, k, MergeIfCan(g, g.kids[p][0]), p)
  {
    var x := g.kids[p][0];
    if CanMerge(g, x) {
      MergeFacts(g, x);
      var d := g.kids[x][0];
      ChildFacts(g, x, d);
      ChildFacts(g, p, x);
      if p in g.kids[d] { ChildFacts(g, d, p); }
    }
  }

  lemma SplitAtMergeAbove(full: map<Ptr, seq<int>>, p: Ptr, tokens: seq<int>, k: nat, g: Forest)
    requires p in full && k < |tokens| <= |full[p]|
    requires SplitAt(full, p, tokens, k, g, p) && CanMerge(g, g.mem[p].parent)
    ensures SplitAt(full, p, tokens, k, Merge(g, g.mem[p].parent), g.mem[p].parent)
  {
    var u := g.mem[p].parent;
    var x := g.kids[p][0];
    MergeFacts(g, u);
    assert PageOk(g, p);
    ChildFacts(g, p, x);
    ChildFacts(g, u, p);
  }
}
