/**
  The value-level model of the paged radix tree: the pages that are linked into
  the tree, described locally (each page against its parent and its children).

  Two pieces of bookkeeping have no counterpart in the program.  `kids` lists the
  children of a page in sibling order, and `full` is the token string spelled by
  the path from the root to the end of a page.  Because every page below the root
  is non-empty, `full` grows strictly along the child links; that alone makes the
  links a tree.

  The invariant is a conjunction of named facts, one per page, child position,
  sibling pair or sequence id.  The quantifiers are triggered by the name of the
  fact only, so a proof instantiates exactly the facts that it mentions.
  */
module RadixForest {
  import opened Sequences

  /** A page pointer: null, the separately allocated root, or a page of the pool. */
  datatype Ptr = Null | Root | Slot(index: nat)

  /** kPageCapacity_ */
  const PAGE_CAPACITY: nat := 64

  datatype RadixPage = RadixPage(
    parent: Ptr, firstChild: Ptr, nextSibling: Ptr,
    seqIds: seq<int>, capacity: nat, tokens: seq<int>)

  datatype Forest = Forest(
    mem: map<Ptr, RadixPage>,
    kids: map<Ptr, seq<Ptr>>,
    full: map<Ptr, seq<int>>,
    seq2page: map<int, Ptr>)

  function At(s: seq<Ptr>, i: nat): Ptr {
    if i < |s| then s[i] else Null
  }

  // ----- the shape invariant --------------------------------------------------

  /** A page below the root hangs off its parent, is filled within its capacity
      and spells the end of its path; the root is empty and has no capacity. */
  ghost predicate PageOk(f: Forest, p: Ptr) {
    p in f.kids ==>
      && p in f.mem && p in f.full
      && f.mem[p].firstChild == At(f.kids[p], 0)
      && if p == Root then
           && f.mem[p].parent == Null && f.mem[p].nextSibling == Null
           && f.mem[p].capacity == 0 && f.mem[p].tokens == [] && f.full[p] == []
         else
           && f.mem[p].parent in f.kids && f.mem[p].parent in f.full
           && p in f.kids[f.mem[p].parent]
           && 1 <= |f.mem[p].tokens| <= f.mem[p].capacity == PAGE_CAPACITY
           && f.full[p] == f.full[f.mem[p].parent] + f.mem[p].tokens
  }

  /** The `i`-th child of `p` points back to `p` and on to the next child. */
  ghost predicate ChildOk(f: Forest, p: Ptr, i: int) {
    p in f.kids && 0 <= i < |f.kids[p]| ==>
      var c := f.kids[p][i];
      c in f.kids && c in f.mem && c != Root && f.mem[c].parent == p && f.mem[c].nextSibling == At(f.kids[p], i + 1)
  }

  /** Siblings start with distinct tokens. */
  ghost predicate BranchOk(f: Forest, p: Ptr, i: int, j: int) {
    p in f.kids && 0 <= i < j < |f.kids[p]| ==>
      && f.kids[p][i] in f.mem && f.kids[p][j] in f.mem
      && f.mem[f.kids[p][i]].tokens != [] && f.mem[f.kids[p][j]].tokens != []
      && f.mem[f.kids[p][i]].tokens[0] != f.mem[f.kids[p][j]].tokens[0]
  }

  /** `seq2page` leads to a page that lists the id ... */
  ghost predicate IdOk(f: Forest, id: int) {
    id in f.seq2page ==>
      f.seq2page[id] in f.kids && f.seq2page[id] in f.mem && f.seq2page[id] in f.full && id in f.mem[f.seq2page[id]].seqIds
  }

  /** ... and it is the only such page. */
  ghost predicate ListOk(f: Forest, p: Ptr, id: int) {
    p in f.kids && p in f.mem && id in f.mem[p].seqIds ==> id in f.seq2page && f.seq2page[id] == p
  }

  ghost predicate OnceOk(f: Forest, p: Ptr) {
    p in f.kids && p in f.mem ==> Distinct(f.mem[p].seqIds)
  }

  /** Every leaf below the root ends a sequence. */
  ghost predicate LeafOk(f: Forest, p: Ptr) {
    p in f.kids && p in f.mem && p != Root && f.kids[p] == [] ==> f.mem[p].seqIds != []
  }

  ghost predicate Linked(f: Forest) {
    && Root in f.kids && Null !in f.kids && f.kids.Keys == f.full.Keys
    && (forall p {:trigger PageOk(f, p)} :: PageOk(f, p))
    && (forall p, i {:trigger ChildOk(f, p, i)} :: ChildOk(f, p, i))
  }

  ghost predicate Branching(f: Forest) {
    forall p, i, j {:trigger BranchOk(f, p, i, j)} :: BranchOk(f, p, i, j)
  }

  ghost predicate Indexed(f: Forest) {
    && (forall id {:trigger IdOk(f, id)} :: IdOk(f, id))
    && (forall p, id {:trigger ListOk(f, p, id)} :: ListOk(f, p, id))
    && (forall p {:trigger OnceOk(f, p)} :: OnceOk(f, p))
  }

  ghost predicate Shape(f: Forest) {
    && Linked(f)
    && Branching(f)
    && Indexed(f)
  }

  /** The invariant, with one page excepted from ending a sequence when it is a leaf. */
  ghost predicate WellFormedBut(f: Forest, x: Ptr) {
    && Shape(f)
    && forall p {:trigger LeafOk(f, p)} :: p != x ==> LeafOk(f, p)
  }

  ghost predicate WellFormed(f: Forest) {
    WellFormedBut(f, Null)
  }

  /** What the tree means: the token sequence of every sequence id. */
  ghost function Contents(f: Forest): map<int, seq<int>>
    requires Shape(f)
  {
    map id | id in f.seq2page :: assert IdOk(f, id); f.full[f.seq2page[id]]
  }

  // ----- paths ----------------------------------------------------------------

  lemma ChildFacts(f: Forest, p: Ptr, c: Ptr)
    requires Linked(f) && p in f.kids && c in f.kids[p]
    ensures c in f.kids && c in f.mem && c in f.full && p in f.full
    ensures c != Root && f.mem[c].parent == p
    ensures f.mem[c].tokens != []
    ensures f.full[c] == f.full[p] + f.mem[c].tokens
    ensures |f.full[p]| < |f.full[c]|
  {
    var i :| 0 <= i < |f.kids[p]| && f.kids[p][i] == c;
    assert ChildOk(f, p, i);
    assert PageOk(f, c);
  }

  /** Two children of one page whose first tokens agree are the same page. */
  lemma SameChild(f: Forest, p: Ptr, c: Ptr, d: Ptr)
    requires Linked(f) && Branching(f) && p in f.kids && c in f.kids[p] && d in f.kids[p]
    requires c in f.full && d in f.full && p in f.full
    requires |f.full[p]| < |f.full[c]| && |f.full[p]| < |f.full[d]|
    requires f.full[c][|f.full[p]|] == f.full[d][|f.full[p]|]
    ensures c == d
  {
    var i :| 0 <= i < |f.kids[p]| && f.kids[p][i] == c;
    var j :| 0 <= j < |f.kids[p]| && f.kids[p][j] == d;
    ChildFacts(f, p, c);
    ChildFacts(f, p, d);
    assert BranchOk(f, p, i, j) && BranchOk(f, p, j, i);
  }

  /** The string of a path determines its page. */
  lemma {:induction false} FullIsInjective(f: Forest, p: Ptr, q: Ptr)
    requires Linked(f) && Branching(f) && p in f.kids && q in f.kids
    requires f.full[p] == f.full[q]
    ensures p == q
    decreases |f.full[p]| + |f.full[q]|, 0
  {
    assert PageOk(f, p) && PageOk(f, q);
    if p != Root && q != Root {
      var pp, qq := f.mem[p].parent, f.mem[q].parent;
      assert f.full[pp] == f.full[p][..|f.full[pp]|] && f.full[qq] == f.full[p][..|f.full[qq]|];
      if |f.full[pp]| <= |f.full[qq]| {
        assert f.full[pp] <= f.full[qq];
        var d := Toward(f, pp, qq);
        if pp != qq {
          ChildFacts(f, pp, d);
          SameChild(f, pp, d, p);
        } else {
          SameChild(f, pp, p, q);
        }
      } else {
        assert f.full[qq] <= f.full[pp];
        var d := Toward(f, qq, pp);
        ChildFacts(f, qq, d);
        SameChild(f, qq, d, q);
      }
    }
  }

  /** If the path of `p` is a prefix of the path of `q`, some child of `p` leads to `q`. */
  lemma {:induction false} Toward(f: Forest, p: Ptr, q: Ptr) returns (c: Ptr)
    requires Linked(f) && Branching(f) && p in f.kids && q in f.kids
    requires f.full[p] <= f.full[q]
    ensures p == q || (c in f.kids[p] && c in f.kids && f.full[c] <= f.full[q])
    decreases |f.full[p]| + |f.full[q]|, 1
  {
    c := q;
    assert PageOk(f, p) && PageOk(f, q);
    if p != q && q != Root {
      var qq := f.mem[q].parent;
      if |f.full[p]| <= |f.full[qq]| {
        assert f.full[p] <= f.full[qq];
        c := Toward(f, p, qq);
        if p == qq {
          c := q;
        }
      } else {
        assert f.full[qq] <= f.full[p];
        var d := Toward(f, qq, p);
        ChildFacts(f, qq, d);
        SameChild(f, qq, d, q);
        FullIsInjective(f, p, q);
      }
    }
  }

  /** Below every page but the root some sequence ends. */
  lemma {:induction false} SomeSequenceBelow(f: Forest, p: Ptr, bound: nat) returns (id: int)
    requires WellFormed(f) && p in f.kids && p != Root
    requires forall q :: q in f.full ==> |f.full[q]| <= bound
    ensures id in f.seq2page && IdOk(f, id)
    ensures f.full[p] <= f.full[f.seq2page[id]]
    decreases bound - |f.full[p]|
  {
    assert PageOk(f, p) && LeafOk(f, p);
    if f.mem[p].seqIds != [] {
      id := f.mem[p].seqIds[0];
      assert ListOk(f, p, id);
    } else {
      var c := f.kids[p][0];
      ChildFacts(f, p, c);
      id := SomeSequenceBelow(f, c, bound);
    }
  }

  lemma {:induction false} PathBound(full: map<Ptr, seq<int>>) returns (bound: nat)
    ensures forall q :: q in full ==> |full[q]| <= bound
    decreases |full|
  {
    if full == map[] {
      bound := 0;
    } else {
      var p :| p in full;
      var rest := full - {p};
      assert full.Keys == rest.Keys + {p};
      bound := PathBound(rest);
      assert forall q :: q in full && q != p ==> q in rest && rest[q] == full[q];
      if bound < |full[p]| {
        bound := |full[p]|;
      }
    }
  }

  /** The invariant speaks only of linked pages: unlinked pool pages may hold anything. */
  lemma UnlinkedPagesDoNotMatter(f: Forest, g: Forest, x: Ptr)
    requires WellFormedBut(f, x)
    requires g == f.(mem := g.mem)
    requires forall p :: p in f.kids ==> p in f.mem && p in g.mem && f.mem[p] == g.mem[p]
    ensures WellFormedBut(g, x)
    ensures Contents(g) == Contents(f)
  {
    forall p ensures PageOk(g, p) && OnceOk(g, p) {
      assert PageOk(f, p) && OnceOk(f, p);
    }
    forall p, i ensures ChildOk(g, p, i) {
      assert ChildOk(f, p, i);
    }
    forall p, i, j ensures BranchOk(g, p, i, j) {
      assert BranchOk(f, p, i, j) && ChildOk(f, p, i) && ChildOk(f, p, j);
    }
    forall p, id ensures ListOk(g, p, id) {
      assert ListOk(f, p, id) && PageOk(f, p);
    }
    forall id ensures IdOk(g, id) {
      assert IdOk(f, id);
    }
    forall p | p != x ensures LeafOk(g, p) {
      assert LeafOk(f, p) && PageOk(f, p);
    }
  }

  // ----- matching a token string from a page downwards --------------------------------

  /** The outcome of MatchSequence from page `s`: the tokens up to `offset` lead into page
      `r`, of which `inPage` tokens are used, and no page continues with the next token. */
  ghost predicate Matched(f: Forest, s: Ptr, tokens: seq<int>, r: Ptr, offset: nat, inPage: nat) {
    && s in f.kids && s in f.full && r in f.kids && r in f.mem && r in f.full
    && offset <= |tokens| && inPage <= |f.mem[r].tokens|
    && (r != s ==> f.kids[s] != [])
    && (inPage == |f.mem[r].tokens| ==>
          && f.full[r] == f.full[s] + tokens[..offset]
          && (offset < |tokens| ==> NoChildStarts(f, r, tokens[offset])))
    && (inPage < |f.mem[r].tokens| ==>
          && 0 < inPage && r != Root && r != s && f.mem[r].parent in f.full
          && inPage <= offset
          && f.full[f.mem[r].parent] == f.full[s] + tokens[..offset - inPage]
          && f.mem[r].tokens[..inPage] == tokens[offset - inPage..offset]
          && (offset < |tokens| ==> f.mem[r].tokens[inPage] != tokens[offset]))
  }

  ghost predicate NoChildStarts(f: Forest, p: Ptr, token: int) {
    p in f.kids &&
    forall c :: c in f.kids[p] && c in f.mem && f.mem[c].tokens != [] ==> f.mem[c].tokens[0] != token
  }

  /** The page that leads to `q` continues as `q` does. */
  lemma StepToward(f: Forest, p: Ptr, q: Ptr) returns (c: Ptr)
    requires Linked(f) && Branching(f) && p in f.kids && q in f.kids
    requires f.full[p] <= f.full[q] && |f.full[p]| < |f.full[q]|
    ensures c in f.kids[p] && c in f.mem && c in f.kids
    ensures f.full[c] <= f.full[q]
    ensures f.full[c] == f.full[p] + f.mem[c].tokens
    ensures f.mem[c].tokens != []
    ensures f.mem[c].tokens[0] == f.full[q][|f.full[p]|]
  {
    c := Toward(f, p, q);
    ChildFacts(f, p, c);
  }

  /** No path of the tree follows `tokens` further than a match from the root. */
  lemma MatchIsMaximal(f: Forest, tokens: seq<int>, r: Ptr, offset: nat, inPage: nat, q: Ptr)
    requires Linked(f) && Branching(f) && Matched(f, Root, tokens, r, offset, inPage)
    requires q in f.kids && offset < |tokens|
    ensures !(tokens[..offset + 1] <= f.full[q])
  {
    assert PageOk(f, Root) && PageOk(f, r);
    if tokens[..offset + 1] <= f.full[q] {
      if inPage == |f.mem[r].tokens| {
        assert f.full[r] == tokens[..offset];
        var c := StepToward(f, r, q);
      } else {
        var u, k := f.mem[r].parent, offset - inPage;
        assert f.full[u] == [] + tokens[..k] == tokens[..k];
        assert f.mem[r].tokens[..inPage][0] == tokens[k..offset][0] == tokens[k];
        assert f.full[r][k] == tokens[k];
        assert f.full[q][k] == tokens[..offset + 1][k] == tokens[k];
        assert f.full[u] <= f.full[q];
        var c := StepToward(f, u, q);
        assert f.full[c][k] == f.full[q][k];
        SameChild(f, u, c, r);
      }
    }
  }

  /** The paths that start with the matched tokens are those that lead through the matched page. */
  lemma MatchCovers(f: Forest, tokens: seq<int>, r: Ptr, offset: nat, inPage: nat, q: Ptr)
    requires Linked(f) && Branching(f) && Matched(f, Root, tokens, r, offset, inPage)
    requires q in f.kids
    ensures tokens[..offset] <= f.full[q] <==> f.full[r] <= f.full[q]
  {
    assert PageOk(f, Root) && PageOk(f, r);
    if inPage < |f.mem[r].tokens| {
      var u := f.mem[r].parent;
      assert f.full[u] == tokens[..offset - inPage];
      assert f.full[r][..offset] == tokens[..offset];
      if tokens[..offset] <= f.full[q] {
        var k := offset - inPage;
        assert f.full[u] == [] + tokens[..k] == tokens[..k];
        assert f.mem[r].tokens[..inPage][0] == tokens[k..offset][0] == tokens[k];
        assert f.full[r][k] == tokens[k];
        assert f.full[q][k] == tokens[..offset][k] == tokens[k];
        var c := StepToward(f, u, q);
        assert f.full[c][k] == f.full[q][k];
        SameChild(f, u, c, r);
      }
    } else {
      assert f.full[r] == tokens[..offset];
    }
  }

  // ----- collecting the sequences below a page -------------------------------------------

  /** Sequence `id` ends at page `c` or below it. */
  ghost predicate Under(f: Forest, c: Ptr, id: int) {
    id in f.seq2page && f.seq2page[id] in f.full && c in f.full && f.full[c] <= f.full[f.seq2page[id]]
  }

  ghost predicate UnderSome(f: Forest, roots: seq<Ptr>, id: int) {
    exists k :: 0 <= k < |roots| && Under(f, roots[k], id)
  }

  /** `ids` lists the sequences below `roots`, each once. */
  ghost predicate Lists(f: Forest, roots: seq<Ptr>, ids: seq<int>) {
    Distinct(ids) && forall id :: id in ids <==> UnderSome(f, roots, id)
  }

  /** No sequence ends below two siblings. */
  lemma UnderOneSibling(f: Forest, p: Ptr, i: nat, j: nat, id: int)
    requires Shape(f) && p in f.kids && i < |f.kids[p]| && j < |f.kids[p]|
    requires Under(f, f.kids[p][i], id) && Under(f, f.kids[p][j], id)
    ensures i == j
  {
    ChildFacts(f, p, f.kids[p][i]);
    ChildFacts(f, p, f.kids[p][j]);
    assert f.full[f.kids[p][i]][|f.full[p]|] == f.full[f.kids[p][j]][|f.full[p]|];
    assert BranchOk(f, p, i, j) && BranchOk(f, p, j, i);
  }

  /** A sequence below a page ends at it or below exactly its children. */
  lemma UnderPage(f: Forest, p: Ptr, id: int)
    requires Shape(f) && p in f.kids && p in f.mem
    ensures Under(f, p, id) <==> id in f.mem[p].seqIds || UnderSome(f, f.kids[p], id)
    ensures !(id in f.mem[p].seqIds && UnderSome(f, f.kids[p], id))
  {
    assert IdOk(f, id) && ListOk(f, p, id) && PageOk(f, p);
    if UnderSome(f, f.kids[p], id) {
      var k :| 0 <= k < |f.kids[p]| && Under(f, f.kids[p][k], id);
      ChildFacts(f, p, f.kids[p][k]);
    }
    if Under(f, p, id) && f.seq2page[id] != p {
      var c := Toward(f, p, f.seq2page[id]);
      var k :| 0 <= k < |f.kids[p]| && f.kids[p][k] == c;
      assert Under(f, f.kids[p][k], id);
    }
  }

  lemma DistinctConcat<T>(a: seq<T>, b: seq<T>)
    requires Distinct(a) && Distinct(b) && forall x :: x in a ==> x !in b
    ensures Distinct(a + b)
  {
    forall i, j | 0 <= i < j < |a + b| ensures (a + b)[i] != (a + b)[j] {
      if i < |a| <= j {
        assert a[i] in a && b[j - |a|] in b;
      }
    }
  }

  /** The visit of a page: its own list, then its later siblings, then its children. */
  lemma ListsVisit(f: Forest, p: Ptr, i: nat, later: seq<int>, below: seq<int>)
    requires Shape(f) && p in f.kids && i < |f.kids[p]|
    requires f.kids[p][i] in f.kids && f.kids[p][i] in f.mem
    requires Lists(f, f.kids[p][i + 1..], later) && Lists(f, f.kids[f.kids[p][i]], below)
    ensures Lists(f, f.kids[p][i..], f.mem[f.kids[p][i]].seqIds + later + below)
  {
    var c := f.kids[p][i];
    var own := f.mem[c].seqIds;
    var roots, rest := f.kids[p][i..], f.kids[p][i + 1..];
    forall id ensures id in own + later + below <==> UnderSome(f, roots, id) {
      UnderPage(f, c, id);
      if UnderSome(f, rest, id) {
        var k :| 0 <= k < |rest| && Under(f, rest[k], id);
        assert Under(f, roots[k + 1], id);
      }
      if Under(f, c, id) {
        assert Under(f, roots[0], id);
      }
      if UnderSome(f, roots, id) && !Under(f, c, id) {
        var k :| 0 <= k < |roots| && Under(f, roots[k], id);
        assert Under(f, rest[k - 1], id);
      }
    }
    forall id | id in later ensures id !in own && id !in below {
      UnderPage(f, c, id);
      var k :| 0 <= k < |rest| && Under(f, rest[k], id);
      if Under(f, c, id) {
        UnderOneSibling(f, p, i, i + 1 + k, id);
      }
    }
    forall id | id in own ensures id !in below {
      UnderPage(f, c, id);
    }
    assert OnceOk(f, c);
    DistinctConcat(own, later);
    DistinctConcat(own + later, below);
  }
}
