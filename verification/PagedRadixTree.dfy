/**
  The paged radix tree: pages addressed by pointers and recycled through a pool,
  left-child/right-sibling links, and page splits and merges behind every update.

  Each public method is specified by what it does to Contents(), the map from a
  sequence id to its tokens.  A failed CHECK is reported as `ok == false` and
  leaves the tree as it was.
  */
module PagedRadixTrees {
  import opened Sequences
  import opened RadixForest
  import opened RadixEdits
  import opened PagePools

  /** `offset` is the longest prefix of `tokens` that some stored sequence starts with. */
  ghost predicate IsLongestMatch(contents: map<int, seq<int>>, tokens: seq<int>, offset: nat) {
    && offset <= |tokens|
    && (offset > 0 ==> exists id :: id in contents && tokens[..offset] <= contents[id])
    && (forall id, n :: id in contents && offset < n <= |tokens| ==> !(tokens[..n] <= contents[id]))
  }

  function Min(a: nat, b: nat): nat { if a < b then a else b }

  /** The `i`-th page of a sibling list points to the next one. */
  ghost predicate NextOk(mem: map<Ptr, RadixPage>, ks: seq<Ptr>, i: int) {
    0 <= i < |ks| ==> ks[i] != Null && ks[i] in mem && mem[ks[i]].nextSibling == At(ks, i + 1)
  }

  lemma NextChunk(start: seq<int>, tokens: seq<int>, offset: nat, n: nat)
    requires offset + n <= |tokens|
    ensures start + tokens[..offset] + tokens[offset..offset + n] == start + tokens[..offset + n]
  {
    assert tokens[..offset] + tokens[offset..offset + n] == tokens[..offset + n];
  }

  /** The match ends inside a child of the page reached. */
  lemma MatchedInChild(f: Forest, start: Ptr, tokens: seq<int>, page: Ptr, child: Ptr, offset: nat, n: nat)
    requires Linked(f) && start in f.kids && page in f.kids && child in f.kids[page] && child in f.mem
    requires start in f.full && page in f.full && offset < |tokens| && f.full[page] == f.full[start] + tokens[..offset]
    requires page != start ==> f.kids[start] != []
    requires n < |f.mem[child].tokens| && offset + n <= |tokens| && f.mem[child].tokens[0] == tokens[offset]
    requires f.mem[child].tokens[..n] == tokens[offset..offset + n]
    requires offset + n < |tokens| ==> f.mem[child].tokens[n] != tokens[offset + n]
    ensures Matched(f, start, tokens, child, offset + n, n)
  {
    ChildFacts(f, page, child);
    assert n > 0;
    var k := offset + n;
    assert k - n == offset;
  }

  lemma PutBack<K, V>(m: map<K, V>, k: K, v: V)
    ensures (m - {k})[k := v] == m[k := v]
  {
  }

  lemma Overwrite<K, V>(m: map<K, V>, a: K, b: K, first: V, last: V, other: V)
    requires a != b
    ensures m[a := first][b := other][a := last] == m[a := last][b := other]
  {
  }

  lemma NewKidsStartDifferently(f: Forest, p: Ptr, token: int)
    requires Linked(f) && p in f.kids && NoChildStarts(f, p, token)
    ensures PageOk(f, p)
    ensures forall c :: c in f.kids[p] ==> c in f.kids && c in f.mem && f.mem[c].tokens != [] && f.mem[c].tokens[0] != token
  {
    assert PageOk(f, p);
    forall c | c in f.kids[p] ensures c in f.kids && c in f.mem && f.mem[c].tokens != [] && f.mem[c].tokens[0] != token {
      ChildFacts(f, p, c);
    }
  }

  lemma ListedIds(f: Forest, p: Ptr)
    requires Indexed(f) && p in f.kids && p in f.mem
    ensures forall id :: id in f.mem[p].seqIds <==> id in f.seq2page && f.seq2page[id] == p
  {
    forall id ensures id in f.mem[p].seqIds <==> id in f.seq2page && f.seq2page[id] == p {
      assert ListOk(f, p, id) && IdOk(f, id);
    }
  }

  lemma SplitFacts(f: Forest, p: Ptr, k: nat, c: Ptr)
    requires CanSplit(f, p, k, c)
    ensures PageOk(f, p) && p !in f.kids[p] && c !in f.kids[p]
    ensures forall id :: id in f.mem[p].seqIds <==> id in f.seq2page && f.seq2page[id] == p
  {
    assert PageOk(f, p);
    ListedIds(f, p);
    if p in f.kids[p] { ChildFacts(f, p, p); }
    if c in f.kids[p] { ChildFacts(f, p, c); }
  }

  /** Redirecting the ids of one page leaves the ids in limbo alone. */
  lemma RedirectedAround(s: map<int, Ptr>, t: map<int, Ptr>, limbo: set<int>, ids: seq<int>, p: Ptr, q: Ptr)
    requires forall id :: id in s <==> id in t
    requires forall id :: id in t ==> t[id] == if id in ids then q else s[id]
    requires forall id :: id in ids <==> id in s - limbo && s[id] == p
    ensures t - limbo == Redirected(s - limbo, p, q)
  {
    var a, b := t - limbo, Redirected(s - limbo, p, q);
    assert forall id :: id in a <==> id in b;
    assert forall id :: id in a ==> a[id] == b[id];
  }

  method CopyInto(a: array<int>, at: nat, source: seq<int>)
    requires at + |source| <= a.Length
    modifies a
    ensures a[at..] == source + old(a[at + |source|..])
  {
    ghost var rest := a[at + |source|..];
    for i := 0 to |source|
      invariant a[at..at + i] == source[..i]
      invariant a[at + |source|..] == rest
    {
      a[at + i] := source[i];
    }
    assert a[at..] == a[at..at + |source|] + a[at + |source|..];
  }

  class PagedRadixTree {
    // The memory of the pages: the root and every pool page ever handed out.
    var mem: map<Ptr, RadixPage>
    var seq2page: map<int, Ptr>
    const pool: RadixPagePool
    // Proof bookkeeping: child lists, path strings, and ids on their way between two pages.
    ghost var kids: map<Ptr, seq<Ptr>>
    ghost var full: map<Ptr, seq<int>>
    ghost var limbo: set<int>

    ghost function State(): Forest
      reads this
    {
      Forest(mem, kids, full, seq2page - limbo)
    }

    /** The used pages of the pool are exactly the linked ones, plus `extra`
        between Allocate and linking: nothing leaks and nothing is freed twice. */
    ghost predicate PoolOk(extra: set<nat>)
      reads this, pool
    {
      pool.Valid() && forall i: nat :: i in pool.usedPages <==> Slot(i) in kids || i in extra
    }

    ghost predicate Inv()
      reads this, pool
    {
      WellFormed(State()) && PoolOk({})
    }

    ghost predicate Valid()
      reads this, pool
    {
      Inv() && limbo == {}
    }

    ghost function Contents(): map<int, seq<int>>
      reads this, pool
      requires Valid()
    {
      RadixForest.Contents(State())
    }

    constructor ()
      ensures Valid() && Contents() == map[] && fresh(pool)
    {
      pool := new RadixPagePool();
      mem := map[Root := RadixPage(Null, Null, Null, [], 0, [])];
      kids := map[Root := []];
      full := map[Root := []];
      seq2page, limbo := map[], {};
      new;
      assert seq2page - limbo == map[];
    }

    // ----- pages ----------------------------------------------------------------------

    method AllocatePage(ghost x: Ptr) returns (p: Ptr)
      requires WellFormedBut(State(), x) && PoolOk({})
      modifies this`mem, pool
      ensures p.Slot? && p !in kids && PoolOk({p.index})
      ensures WellFormedBut(State(), x)
      ensures mem == old(mem)[p := RadixPage(Null, Null, Null, [], PAGE_CAPACITY, [])]
      ensures RadixForest.Contents(State()) == old(RadixForest.Contents(State()))
    {
      ghost var f := State();
      var i := pool.Allocate();
      p := Slot(i);
      mem := mem[p := RadixPage(Null, Null, Null, [], PAGE_CAPACITY, [])];
      forall q | q in kids ensures q in f.mem {
        assert PageOk(f, q);
      }
      UnlinkedPagesDoNotMatter(f, State(), x);
    }

    /** Gives all pages of a sibling list a new parent. */
    method Reparent(first: Ptr, parent: Ptr, ghost ks: seq<Ptr>)
      requires first == At(ks, 0)
      requires forall i {:trigger NextOk(mem, ks, i)} :: NextOk(mem, ks, i)
      modifies this`mem
      ensures mem == Reparented(old(mem), ks, parent)
    {
      var cur := first;
      ghost var i := 0;
      while cur != Null
        invariant 0 <= i <= |ks| && cur == At(ks, i)
        invariant mem.Keys == old(mem).Keys
        invariant forall q :: q in mem ==> mem[q] == if q in ks[..i] then old(mem)[q].(parent := parent) else old(mem)[q]
        decreases |ks| - i
      {
        assert NextOk(old(mem), ks, i);
        assert ks[..i + 1] == ks[..i] + [cur];
        mem := mem[cur := mem[cur].(parent := parent)];
        cur := mem[cur].nextSibling;
        i := i + 1;
      }
      assert NextOk(old(mem), ks, i);
      assert ks[..i] == ks;
    }

    /** Redirects the listed ids to another page. */
    method Redirect(ids: seq<int>, q: Ptr)
      requires forall id :: id in ids ==> id in seq2page
      modifies this`seq2page
      ensures forall id :: id in seq2page <==> id in old(seq2page)
      ensures forall id :: id in seq2page ==> seq2page[id] == if id in ids then q else old(seq2page)[id]
    {
      for i := 0 to |ids|
        invariant forall id :: id in seq2page <==> id in old(seq2page)
        invariant forall id :: id in seq2page ==> seq2page[id] == if id in ids[..i] then q else old(seq2page)[id]
      {
        assert ids[..i + 1] == ids[..i] + [ids[i]];
        seq2page := seq2page[ids[i] := q];
      }
      assert ids[..|ids|] == ids;
    }

    // ----- merging and splitting pages ---------------------------------------------------

    method Mergeable(page: Ptr) returns (b: bool)
      requires Linked(State()) && page in kids
      requires Shape(State())
      ensures b <==> CanMerge(State(), page)
    {
      assert PageOk(State(), page) && ChildOk(State(), page, 0) && ChildOk(State(), page, 1);
      if mem[page].seqIds != [] {
        return false;
      }
      var child := mem[page].firstChild;
      if child == Null {
        return false;
      }
      if mem[child].nextSibling != Null {
        return false;
      }
      return |mem[page].tokens| + |mem[child].tokens| <= mem[page].capacity;
    }

    method MergePage(page: Ptr)
      requires Inv() && CanMerge(State(), page)
      modifies this`mem, this`seq2page, this`kids, this`full, pool`freeIndices, pool`usedPages
      ensures Inv()
      ensures State() == Merge(old(State()), page)
      ensures RadixForest.Contents(State()) == old(RadixForest.Contents(State()))
      ensures forall id :: id in seq2page <==> id in old(seq2page)
    {
      ghost var f := State();
      MergeFacts(f, page);
      MergeOk(f, page);
      var child := mem[page].firstChild;
      AbsorbChild(page);
      ghost var g := State();
      assert g == Merge(f, page);
      pool.Free(child.index);
    }

    /** Moves the tokens, the children and the sequences of the only child into the page. */
    method AbsorbChild(page: Ptr)
      requires CanMerge(State(), page)
      modifies this`mem, this`seq2page, this`kids, this`full
      ensures State() == Merge(old(State()), page)
      ensures forall id :: id in seq2page <==> id in old(seq2page)
    {
      ghost var f := State();
      MergeFacts(f, page);
      var child := mem[page].firstChild;
      ghost var ks := kids[child];
      forall i ensures NextOk(mem, ks, i) { assert ChildOk(f, child, i); }
      var ids := mem[child].seqIds;
      ListedIds(f, child);
      Reparent(mem[child].firstChild, page, ks);
      mem := mem[page := mem[page].(
                   tokens := mem[page].tokens + mem[child].tokens,
                   firstChild := mem[child].firstChild,
                   seqIds := ids)];
      Redirect(ids, page);
      mem := mem[child := mem[child].(seqIds := [])];
      kids := (kids - {child})[page := ks];
      full := (full - {child})[page := full[child]];
      RedirectedAround(old(seq2page), seq2page, limbo, ids, child, page);
      assert mem == Merge(f, page).mem;
    }

    /** Merges the page if it can be merged. */
    method MergeIfMergeable(page: Ptr) returns (merged: bool)
      requires Inv() && page in kids
      modifies this`mem, this`seq2page, this`kids, this`full, pool`freeIndices, pool`usedPages
      ensures Inv()
      ensures merged <==> CanMerge(old(State()), page)
      ensures State() == MergeIfCan(old(State()), page)
      ensures RadixForest.Contents(State()) == old(RadixForest.Contents(State()))
      ensures forall id :: id in seq2page <==> id in old(seq2page)
    {
      merged := Mergeable(page);
      if merged {
        MergePage(page);
      }
    }

    /** Moves the tokens of `page` from `offset` on, with its children and its sequences,
        into the new page `child` below it. */
    method MoveTail(page: Ptr, offset: nat, child: Ptr)
      requires CanSplit(State(), page, offset, child)
      modifies this`mem, this`seq2page, this`kids, this`full
      ensures State() == Split(old(State()), page, offset, child)
      ensures forall id :: id in seq2page <==> id in old(seq2page)
    {
      ghost var f := State();
      SplitFacts(f, page, offset, child);
      ghost var ks := kids[page];
      forall i ensures NextOk(mem, ks, i) { assert ChildOk(f, page, i); }
      var ids := mem[page].seqIds;
      var tokens := mem[page].tokens;
      Reparent(mem[page].firstChild, child, ks);
      mem := mem[child := RadixPage(page, mem[page].firstChild, Null, ids, PAGE_CAPACITY, tokens[offset..])];
      mem := mem[page := mem[page].(firstChild := child, tokens := tokens[..offset], seqIds := [])];
      Redirect(ids, child);
      RedirectedAround(old(seq2page), seq2page, limbo, ids, page, child);
      full := full[child := full[page]][page := full[f.mem[page].parent] + tokens[..offset]];
      kids := kids[child := ks][page := [child]];
    }

    method SplitOff(page: Ptr, offset: nat) returns (child: Ptr)
      requires Inv() && page in kids && page != Root && page in mem && 0 < offset < |mem[page].tokens|
      modifies this, pool
      ensures Inv() && limbo == old(limbo)
      ensures page in old(full)
      ensures |old(mem)[page].tokens| <= |old(full)[page]|
      ensures SplitAt(old(full), page, old(mem)[page].tokens, offset, State(), page)
      ensures kids[page][0] == child
      ensures RadixForest.Contents(State()) == old(RadixForest.Contents(State()))
      ensures forall id :: id in seq2page <==> id in old(seq2page)
    {
      assert PageOk(State(), page);
      child := AllocatePage(Null);
      SplitInto(page, offset, child);
    }

    method SplitInto(page: Ptr, offset: nat, child: Ptr)
      requires WellFormed(State()) && child.Slot? && PoolOk({child.index}) && CanSplit(State(), page, offset, child)
      modifies this`mem, this`seq2page, this`kids, this`full
      ensures Inv()
      ensures page in old(full)
      ensures |old(mem)[page].tokens| <= |old(full)[page]|
      ensures SplitAt(old(full), page, old(mem)[page].tokens, offset, State(), page)
      ensures kids[page][0] == child
      ensures RadixForest.Contents(State()) == old(RadixForest.Contents(State()))
      ensures forall id :: id in seq2page <==> id in old(seq2page)
    {
      ghost var f := State();
      assert PageOk(f, page);
      SplitOk(f, page, offset, child);
      SplitAtSplit(f, page, offset, child);
      MoveTail(page, offset, child);
      ghost var g := State();
      assert g == Split(f, page, offset, child);
    }

    /** The returned page can be the parent of `page0`, merged with what remains of it. */
    method SplitPage(page0: Ptr, offset: nat) returns (page: Ptr)
      requires Inv() && page0 in kids && page0 != Root && page0 in mem && 0 < offset < |mem[page0].tokens|
      modifies this, pool
      ensures Inv() && limbo == old(limbo)
      ensures page0 in old(full)
      ensures |old(mem)[page0].tokens| <= |old(full)[page0]|
      ensures SplitAt(old(full), page0, old(mem)[page0].tokens, offset, State(), page)
      ensures RadixForest.Contents(State()) == old(RadixForest.Contents(State()))
      ensures forall id :: id in seq2page <==> id in old(seq2page)
    {
      ghost var f := State();
      var child := SplitOff(page0, offset);
      ghost var g := State();
      SplitAtMergeBelow(f.full, page0, f.mem[page0].tokens, offset, g);
      var _ := MergeIfMergeable(child);
      page := MergeUp(page0, offset, f.full, f.mem[page0].tokens);
    }

    /** After a split the parent may be mergeable with what remains of the page. */
    method MergeUp(page0: Ptr, ghost offset: nat, ghost wasFull: map<Ptr, seq<int>>, ghost tokens: seq<int>) returns (page: Ptr)
      requires Inv() && page0 in wasFull && offset < |tokens| <= |wasFull[page0]|
      requires SplitAt(wasFull, page0, tokens, offset, State(), page0)
      modifies this`mem, this`seq2page, this`kids, this`full, pool`freeIndices, pool`usedPages
      ensures Inv()
      ensures SplitAt(wasFull, page0, tokens, offset, State(), page)
      ensures RadixForest.Contents(State()) == old(RadixForest.Contents(State()))
      ensures forall id :: id in seq2page <==> id in old(seq2page)
    {
      page := page0;
      ghost var g := State();
      assert PageOk(g, page);
      var parent := mem[page].parent;
      if parent != Null {
        var merged := MergeIfMergeable(parent);
        if merged {
          SplitAtMergeAbove(wasFull, page0, tokens, offset, g);
          page := parent;
        }
      }
    }

    // ----- searching -----------------------------------------------------------------------

    method FindChild(page: Ptr, token: int) returns (child: Ptr)
      requires Linked(State()) && page in kids
      ensures child == Null ==> NoChildStarts(State(), page, token)
      ensures child != Null ==> child in kids[page] && child in mem && mem[child].tokens != [] && mem[child].tokens[0] == token
    {
      ghost var f := State();
      ghost var ks := kids[page];
      assert PageOk(f, page);
      child := mem[page].firstChild;
      ghost var i := 0;
      while child != Null
        invariant 0 <= i <= |ks| && child == At(ks, i)
        invariant forall j :: 0 <= j < i ==> ks[j] in mem && (mem[ks[j]].tokens != [] ==> mem[ks[j]].tokens[0] != token)
        decreases |ks| - i
      {
        assert ChildOk(f, page, i);
        ChildFacts(f, page, child);
        if mem[child].tokens[0] == token {
          return;
        }
        child := mem[child].nextSibling;
        i := i + 1;
      }
      assert ChildOk(f, page, i);
    }

    /** RadixPage::MatchPrefix: the first position where the page and `prefix` differ. */
    /** How far the page agrees with the tokens from `offset` on. */
    method MatchInPage(page: Ptr, prefix: seq<int>, offset: nat) returns (n: nat)
      requires page in mem && offset <= |prefix|
      ensures n <= |mem[page].tokens| && offset + n <= |prefix|
      ensures mem[page].tokens[..n] == prefix[offset..offset + n]
      ensures n < |mem[page].tokens| && offset + n < |prefix| ==> mem[page].tokens[n] != prefix[offset + n]
    {
      var tokens := mem[page].tokens;
      var m := Min(|tokens|, |prefix| - offset);
      n := 0;
      while n < m
        invariant n <= m && tokens[..n] == prefix[offset..offset + n]
      {
        if tokens[n] != prefix[offset + n] {
          return;
        }
        n := n + 1;
      }
    }

    method MatchSequence(start: Ptr, tokens: seq<int>) returns (page: Ptr, offset: nat, inPage: nat)
      requires Linked(State()) && Branching(State()) && start in kids
      ensures Matched(State(), start, tokens, page, offset, inPage)
    {
      ghost var f := State();
      page, offset := start, 0;
      assert PageOk(f, start);
      while offset < |tokens|
        invariant offset <= |tokens| && page in kids && page in mem && page in full
        invariant full[page] == full[start] + tokens[..offset]
        invariant page != start ==> kids[start] != []
      {
        var child := FindChild(page, tokens[offset]);
        if child == Null {
          return page, offset, |mem[page].tokens|;
        }
        ChildFacts(f, page, child);
        var n := MatchInPage(child, tokens, offset);
        if n < |mem[child].tokens| {
          MatchedInChild(f, start, tokens, page, child, offset, n);
          return child, offset + n, n;
        }
        assert mem[child].tokens[..n] == mem[child].tokens;
        NextChunk(full[start], tokens, offset, n);
        page, offset := child, offset + n;
      }
      return page, |tokens|, |mem[page].tokens|;
    }

    /** RadixPage::Iterate with the callback of FindAllChildSequence: visits `page` (the `i`-th
        child of `parent`), then its later siblings, then its children. */
    method Iterate(page: Ptr, output0: seq<int>, ghost parent: Ptr, ghost i: nat, ghost bound: nat)
        returns (output: seq<int>)
      requires Shape(State()) && parent in kids && i < |kids[parent]| && kids[parent][i] == page
      requires parent in full && forall q :: q in full ==> |full[q]| <= bound
      ensures output0 <= output
      ensures Lists(State(), kids[parent][i..], output[|output0|..])
      decreases bound - |full[parent]|, |kids[parent]| - i
    {
      ghost var f := State();
      ChildFacts(f, parent, page);
      assert ChildOk(f, parent, i) && PageOk(f, page) && ChildOk(f, parent, i + 1) && ChildOk(f, page, 0);
      output := output0 + mem[page].seqIds;
      ghost var later, below := [], [];
      if mem[page].nextSibling != Null {
        ghost var n := |output|;
        output := Iterate(mem[page].nextSibling, output, parent, i + 1, bound);
        later := output[n..];
      }
      if mem[page].firstChild != Null {
        ghost var n := |output|;
        output := Iterate(mem[page].firstChild, output, page, 0, bound);
        below := output[n..];
        assert kids[page][0..] == kids[page];
      }
      ListsVisit(f, parent, i, later, below);
      assert output == output0 + (mem[page].seqIds + later + below);
    }

    method FindAllChildSequence(page: Ptr) returns (output: seq<int>)
      requires Shape(State()) && page in kids
      ensures Distinct(output) && forall id :: id in output <==> Under(State(), page, id)
    {
      ghost var f := State();
      assert PageOk(f, page) && OnceOk(f, page) && ChildOk(f, page, 0);
      ghost var bound := PathBound(full);
      output := mem[page].seqIds;
      ghost var below := [];
      if mem[page].firstChild != Null {
        ghost var n := |output|;
        output := Iterate(mem[page].firstChild, output, page, 0, bound);
        below := output[n..];
        assert kids[page][0..] == kids[page];
      }
      forall id ensures id in output <==> Under(f, page, id) {
        UnderPage(f, page, id);
        assert output == mem[page].seqIds + below;
      }
      forall id | id in mem[page].seqIds ensures id !in below {
        UnderPage(f, page, id);
      }
      DistinctConcat(mem[page].seqIds, below);
      assert output == mem[page].seqIds + below;
    }

    /** Exact: the longest stored prefix of `tokens`, and every sequence that starts with it. */
    method MatchPrefix(tokens: seq<int>) returns (offset: nat, ids: seq<int>)
      requires Valid()
      ensures IsLongestMatch(Contents(), tokens, offset)
      ensures offset == 0 ==> ids == []
      ensures offset > 0 ==> ids != [] && Distinct(ids)
      ensures offset > 0 ==>
                forall id :: id in ids <==> id in Contents() && tokens[..offset] <= Contents()[id]
    {
      ghost var f := State();
      assert PageOk(f, Root);
      var page, n, inPage := MatchSequence(Root, tokens);
      offset := n;
      forall id, m | id in Contents() && offset < m <= |tokens| ensures !(tokens[..m] <= Contents()[id]) {
        assert IdOk(f, id);
        MatchIsMaximal(f, tokens, page, offset, inPage, f.seq2page[id]);
        assert tokens[..m][..offset + 1] == tokens[..offset + 1];
      }
      if offset == 0 {
        return 0, [];
      }
      ids := FindAllChildSequence(page);
      forall id ensures id in ids <==> id in Contents() && tokens[..offset] <= Contents()[id] {
        assert IdOk(f, id) && PageOk(f, page);
        if id in f.seq2page {
          MatchCovers(f, tokens, page, offset, inPage, f.seq2page[id]);
        }
      }
      ghost var bound := PathBound(full);
      ghost var id := SomeSequenceBelow(f, page, bound);
      assert id in ids;
    }

    // ----- moving one sequence between pages -----------------------------------------------

    /** Takes the id off its page's list; `seq2page` keeps its entry for now. */
    method PopSequence(id: int)
      requires Inv() && id in State().seq2page
      modifies this`mem, this`limbo
      ensures WellFormedBut(State(), seq2page[id])
      ensures State() == Pop(old(State()), id)
      ensures RadixForest.Contents(State()) == old(RadixForest.Contents(State())) - {id}
      ensures limbo == old(limbo) + {id}
    {
      ghost var f := State();
      PopOk(f, id);
      assert IdOk(f, id);
      var page := seq2page[id];
      mem := mem[page := mem[page].(seqIds := Without(mem[page].seqIds, id))];
      limbo := limbo + {id};
      assert seq2page - limbo == (seq2page - (limbo - {id})) - {id};
      assert seq2page - limbo == f.seq2page - {id};
    }

    /** Puts the id on the page's list and points `seq2page` to it. */
    method PushSequence(page: Ptr, id: int)
      requires WellFormedBut(State(), page) && page in kids && id !in State().seq2page
      modifies this`mem, this`seq2page, this`limbo
      ensures WellFormed(State()) && limbo == old(limbo) - {id}
      ensures RadixForest.Contents(State()) == old(RadixForest.Contents(State()))[id := full[page]]
    {
      ghost var f := State();
      PushOk(f, page, id);
      assert PageOk(f, page);
      mem := mem[page := mem[page].(seqIds := [id] + mem[page].seqIds)];
      seq2page := seq2page[id := page];
      limbo := limbo - {id};
      assert seq2page - limbo == f.seq2page[id := page];
    }

    /** The sibling before the page, or null for the root and for a first child.  `k` is the
        position of the page among its siblings. */
    method GetLastSibling(page: Ptr, ghost k: nat) returns (last: Ptr)
      requires Linked(State()) && page in kids && (page != Root ==> IsChild(State(), page, k))
      ensures page == Root ==> last == Null
      ensures page != Root ==> last == if k == 0 then Null else kids[mem[page].parent][k - 1]
    {
      ghost var f := State();
      assert PageOk(f, page);
      var parent := mem[page].parent;
      if parent == Null {
        return Null;
      }
      ghost var ks := kids[parent];
      assert PageOk(f, parent) && ChildOk(f, parent, 0) && BranchOk(f, parent, 0, k);
      if mem[parent].firstChild == page {
        return Null;
      }
      last := mem[parent].firstChild;
      ghost var j := 0;
      while mem[last].nextSibling != page
        invariant 0 <= j < k && last == ks[j] && last in mem
        decreases k - j
      {
        assert ChildOk(f, parent, j) && ChildOk(f, parent, j + 1);
        last := mem[last].nextSibling;
        j := j + 1;
      }
      assert ChildOk(f, parent, j) && BranchOk(f, parent, j + 1, k);
    }

    /** Unlinks the page, the `k`-th child of its parent. */
    method RemoveChild(page: Ptr, ghost k: nat)
      requires IsChild(State(), page, k)
      modifies this`mem
      ensures mem == Unlinked(old(State()), page, k)
    {
      ghost var f := State();
      var parent := mem[page].parent;
      assert PageOk(f, parent) && ChildOk(f, parent, 0) && BranchOk(f, parent, 0, k);
      if mem[parent].firstChild == page {
        mem := mem[parent := mem[parent].(firstChild := mem[page].nextSibling)];
      } else {
        var last := GetLastSibling(page, k);
        assert ChildOk(f, parent, k - 1);
        mem := mem[last := mem[last].(nextSibling := mem[page].nextSibling)];
      }
    }

    /** Unlinks a leaf, gives it back to the pool and returns its parent. */
    method FreeLeaf(page: Ptr) returns (parent: Ptr)
      requires WellFormedBut(State(), page) && PoolOk({})
      requires page in kids && page != Root && kids[page] == [] && page in mem && mem[page].seqIds == []
      modifies this`mem, this`kids, this`full, pool`freeIndices, pool`usedPages
      ensures parent == old(mem)[page].parent && parent in kids
      ensures WellFormedBut(State(), parent) && PoolOk({})
      ensures full == old(full) - {page}
      ensures RadixForest.Contents(State()) == old(RadixForest.Contents(State()))
    {
      ghost var f := State();
      assert PageOk(f, page);
      parent := mem[page].parent;
      ghost var ks := kids[parent];
      ghost var k :| 0 <= k < |ks| && ks[k] == page;
      DetachFacts(f, page, k);
      DetachOk(f, page, k);
      RemoveChild(page, k);
      pool.Free(page.index);
      kids := (kids - {page})[parent := ks[..k] + ks[k + 1..]];
      full := full - {page};
      assert State() == Detach(f, page, k);
    }

    /** Links a blank page as first child and fills it. */
    method InsertChild(page: Ptr, child: Ptr, chunk: seq<int>)
      requires CanAttach(State(), page, child, chunk)
      requires mem[child] == RadixPage(Null, Null, Null, [], PAGE_CAPACITY, [])
      modifies this`mem, this`kids, this`full
      ensures State() == Attach(old(State()), page, child, chunk)
    {
      ghost var f := State();
      assert PageOk(f, page);
      assert [] + chunk == chunk;
      Overwrite(mem, child, page, mem[child].(parent := page, nextSibling := mem[page].firstChild),
                RadixPage(page, Null, mem[page].firstChild, [], PAGE_CAPACITY, chunk), mem[page].(firstChild := child));
      mem := mem[child := mem[child].(parent := page, nextSibling := mem[page].firstChild)];
      mem := mem[page := mem[page].(firstChild := child)];
      mem := mem[child := mem[child].(tokens := mem[child].tokens + chunk)];
      kids := kids[page := [child] + kids[page]][child := []];
      full := full[child := full[page] + chunk];
      assert mem == Attach(f, page, child, chunk).mem;
    }

    /** Allocates a page, links it as first child and fills it. */
    method AppendPage(page: Ptr, chunk: seq<int>) returns (child: Ptr)
      requires WellFormedBut(State(), page) && PoolOk({}) && page in kids
      requires 1 <= |chunk| <= PAGE_CAPACITY && NoChildStarts(State(), page, chunk[0])
      modifies this`mem, this`kids, this`full, pool
      ensures WellFormedBut(State(), child) && PoolOk({})
      ensures child in kids && kids[child] == []
      ensures full == old(full)[child := old(full)[page] + chunk]
      ensures RadixForest.Contents(State()) == old(RadixForest.Contents(State()))
    {
      NewKidsStartDifferently(State(), page, chunk[0]);
      child := AllocatePage(page);
      AttachOk(State(), page, child, chunk);
      InsertChild(page, child, chunk);
    }

    /** Changes the tokens of a leaf where no sequence ends, keeping its first token. */
    method RefillLeaf(page: Ptr, tokens: seq<int>)
      requires CanRefill(State(), page, tokens) && WellFormedBut(State(), page)
      modifies this`mem, this`full
      ensures WellFormedBut(State(), page)
      ensures old(mem)[page].parent in old(full)
      ensures full == old(full)[page := old(full)[old(mem)[page].parent] + tokens]
      ensures RadixForest.Contents(State()) == old(RadixForest.Contents(State()))
    {
      ghost var f := State();
      RefillOk(f, page, tokens);
      assert PageOk(f, page);
      mem := mem[page := mem[page].(tokens := tokens)];
      full := full[page := full[mem[page].parent] + tokens];
      assert State() == Refill(f, page, tokens);
    }

    // ----- the public interface ------------------------------------------------------------

    method HasSequence(id: int) returns (b: bool)
      requires Valid()
      ensures b <==> id in Contents()
    {
      assert State().seq2page == seq2page;
      b := id in seq2page;
    }

    method PathLength(page0: Ptr) returns (length: nat)
      requires Linked(State()) && page0 in kids
      ensures length == |full[page0]|
    {
      var page := page0;
      length := 0;
      while page != Null
        invariant page == Null || page in kids
        invariant length + (if page == Null then 0 else |full[page]|) == |full[page0]|
        decreases page != Null, if page == Null then 0 else |full[page]|
      {
        assert PageOk(State(), page);
        length := length + |mem[page].tokens|;
        page := mem[page].parent;
      }
    }

    method GetSequenceLength(id: int) returns (ok: bool, length: nat)
      requires Valid()
      ensures ok <==> id in Contents()
      ensures ok ==> length == |Contents()[id]|
    {
      assert State().seq2page == seq2page;
      if id !in seq2page {
        return false, 0;
      }
      assert IdOk(State(), id);
      length := PathLength(seq2page[id]);
      ok := true;
    }

    /** Reads the pages from the last one upwards and fills the output from its end. */
    method GetSequence(id: int) returns (ok: bool, output: seq<int>)
      requires Valid()
      ensures ok <==> id in Contents()
      ensures ok ==> output == Contents()[id]
    {
      assert State().seq2page == seq2page;
      if id !in seq2page {
        return false, [];
      }
      assert IdOk(State(), id);
      var length := PathLength(seq2page[id]);
      var a := new int[length];
      CollectPath(seq2page[id], a);
      return true, a[..];
    }

    /** Fills the array from its end with the tokens on the path up from a page. */
    method CollectPath(last: Ptr, a: array<int>)
      requires Linked(State()) && last in kids && a.Length == |full[last]|
      modifies a
      ensures a[..] == full[last]
    {
      var page, offset := last, a.Length;
      ghost var f := State();
      ghost var tokens := full[last];
      while page != Null
        invariant page == Null || page in kids
        invariant offset == if page == Null then 0 else |full[page]|
        invariant offset <= a.Length && (page != Null ==> full[page] == tokens[..offset])
        invariant a[offset..] == tokens[offset..]
        decreases page != Null, offset
      {
        assert PageOk(f, page);
        var n := |mem[page].tokens|;
        offset := offset - n;
        CopyInto(a, offset, mem[page].tokens);
        assert tokens[offset..] == mem[page].tokens + tokens[offset + n..] by {
          assert tokens[..offset + n] == full[page];
        }
        page := mem[page].parent;
      }
    }

    method AddSequence(id: int) returns (ok: bool)
      requires Valid()
      modifies this`mem, this`seq2page
      ensures Valid()
      ensures ok <==> id !in old(Contents())
      ensures Contents() == if ok then old(Contents())[id := []] else old(Contents())
    {
      ghost var f := State();
      assert f.seq2page == seq2page;
      if id in seq2page {
        return false;
      }
      assert PageOk(f, Root);
      PushOk(f, Root, id);
      mem := mem[Root := mem[Root].(seqIds := [id] + mem[Root].seqIds)];
      seq2page := seq2page[id := Root];
      assert State() == Push(f, Root, id);
      return true;
    }

    method ForkSequence(id: int, parentId: int, forkedOffset: nat) returns (ok: bool)
      requires Valid()
      modifies this, pool
      ensures Valid()
      ensures ok <==> id !in old(Contents()) && parentId in old(Contents()) &&
                      0 < forkedOffset <= |old(Contents())[parentId]|
      ensures Contents() == if ok then old(Contents())[id := old(Contents())[parentId][..forkedOffset]]
                            else old(Contents())
    {
      ghost var f := State();
      assert f.seq2page == seq2page;
      if id in seq2page || parentId !in seq2page || forkedOffset == 0 {
        return false;
      }
      assert IdOk(f, parentId);
      var length := PathLength(seq2page[parentId]);
      if length < forkedOffset {
        return false;
      }
      var page := seq2page[parentId];
      ghost var tokens := full[page];
      while forkedOffset <= length - |mem[page].tokens|
        invariant page in kids && page in mem && length == |full[page]| && full[page] == tokens[..length]
        invariant forkedOffset <= length
        decreases length
      {
        assert PageOk(f, page);
        length := length - |mem[page].tokens|;
        page := mem[page].parent;
        assert PageOk(f, page);
      }
      assert PageOk(f, page);
      if forkedOffset < length {
        page := SplitPage(page, forkedOffset + |mem[page].tokens| - length);
      }
      assert full[page] == tokens[..forkedOffset];
      assert id !in seq2page;
      PushSequence(page, id);
      return true;
    }

    method RemoveSequence(id: int)
      requires Valid() && id in Contents()
      modifies this, pool
      ensures Valid() && Contents() == old(Contents()) - {id}
    {
      var page := TakeOut(id);
      page := FreeBarePages(page);
      var _ := MergeIfMergeable(page);
    }

    /** Takes the id off its page and out of `seq2page`. */
    method TakeOut(id: int) returns (page: Ptr)
      requires Valid() && id in Contents()
      modifies this`mem, this`seq2page, this`limbo
      ensures limbo == {} && page in kids && id !in seq2page
      ensures WellFormedBut(State(), page) && PoolOk({})
      ensures full[page] == old(Contents())[id]
      ensures RadixForest.Contents(State()) == old(Contents()) - {id}
    {
      page := seq2page[id];
      assert State().seq2page == seq2page;
      assert IdOk(State(), id);
      PopSequence(id);
      ghost var g := State();
      seq2page := seq2page - {id};
      limbo := {};
      assert State() == g;
    }

    /** Frees pages upwards until one is needed. */
    method FreeBarePages(page0: Ptr) returns (page: Ptr)
      requires limbo == {} && page0 in kids && WellFormedBut(State(), page0) && PoolOk({})
      modifies this`mem, this`kids, this`full, pool`freeIndices, pool`usedPages
      ensures page in kids && WellFormed(State()) && PoolOk({})
      ensures RadixForest.Contents(State()) == old(RadixForest.Contents(State()))
    {
      page := page0;
      assert PageOk(State(), page);
      while mem[page].parent != Null && mem[page].seqIds == [] && mem[page].firstChild == Null
        invariant page in kids && page in mem && WellFormedBut(State(), page) && PoolOk({})
        invariant RadixForest.Contents(State()) == old(RadixForest.Contents(State()))
        decreases |full|
      {
        assert PageOk(State(), page) && ChildOk(State(), page, 0);
        page := FreeLeaf(page);
        assert PageOk(State(), page);
      }
      assert PageOk(State(), page) && ChildOk(State(), page, 0);
      assert LeafOk(State(), page);
    }

    /** Extends in the existing leaf page first, if no sequence ends there and it has room. */
    method FillLeaf(page: Ptr, tokens: seq<int>, offset0: nat, ghost start: seq<int>) returns (offset: nat)
      requires WellFormedBut(State(), page) && PoolOk({}) && page in kids
      requires offset0 <= |tokens| && full[page] == start + tokens[..offset0]
      requires offset0 < |tokens| ==> NoChildStarts(State(), page, tokens[offset0])
      modifies this`mem, this`full
      ensures WellFormedBut(State(), page) && PoolOk({})
      ensures offset <= |tokens|
      ensures full[page] == start + tokens[..offset]
      ensures offset < |tokens| ==> NoChildStarts(State(), page, tokens[offset])
      ensures RadixForest.Contents(State()) == old(RadixForest.Contents(State()))
    {
      offset := offset0;
      assert PageOk(State(), page) && ChildOk(State(), page, 0);
      if offset < |tokens| && mem[page].seqIds == [] && mem[page].firstChild == Null && |mem[page].tokens| < mem[page].capacity {
        var n := Min(mem[page].capacity - |mem[page].tokens|, |tokens| - offset);
        ghost var above := full[mem[page].parent];
        ghost var own, chunk := mem[page].tokens, tokens[offset..offset + n];
        NextChunk(start, tokens, offset, n);
        assert above + (own + chunk) == above + own + chunk;
        RefillLeaf(page, mem[page].tokens + tokens[offset..offset + n]);
        offset := offset + n;
      }
    }

    /** The part of ExtendSequence that adds the tokens beyond the matched ones. */
    method ExtendBeyond(page0: Ptr, tokens: seq<int>, offset0: nat, ghost start: seq<int>, ghost original: Ptr)
        returns (page: Ptr)
      requires WellFormedBut(State(), page0) && PoolOk({}) && page0 in kids && original in kids
      requires offset0 <= |tokens| && full[page0] == start + tokens[..offset0]
      requires offset0 < |tokens| ==> NoChildStarts(State(), page0, tokens[offset0])
      modifies this`mem, this`kids, this`full, pool
      ensures WellFormedBut(State(), page) && PoolOk({})
      ensures page in kids && original in kids
      ensures full[page] == start + tokens
      ensures RadixForest.Contents(State()) == old(RadixForest.Contents(State()))
    {
      page := page0;
      var offset := FillLeaf(page, tokens, offset0, start);
      while offset < |tokens|
        invariant WellFormedBut(State(), page) && PoolOk({}) && page in kids && original in kids
        invariant offset <= |tokens| && full[page] == start + tokens[..offset]
        invariant offset < |tokens| ==> NoChildStarts(State(), page, tokens[offset])
        invariant RadixForest.Contents(State()) == old(RadixForest.Contents(State()))
      {
        var n := Min(PAGE_CAPACITY, |tokens| - offset);
        NextChunk(start, tokens, offset, n);
        page := AppendPage(page, tokens[offset..offset + n]);
        offset := offset + n;
      }
      assert tokens[..offset] == tokens;
    }

    /** The part of ExtendSequence that finds the matched tokens and splits a page where they end. */
    method MatchAndSplit(original: Ptr, tokens: seq<int>) returns (page: Ptr, offset: nat)
      requires WellFormedBut(State(), original) && PoolOk({}) && original in kids
      modifies this, pool
      ensures WellFormedBut(State(), page) && PoolOk({})
      ensures page in kids && original in kids && limbo == old(limbo)
      ensures offset <= |tokens|
      ensures full[page] == old(full)[original] + tokens[..offset]
      ensures offset < |tokens| ==> NoChildStarts(State(), page, tokens[offset])
      ensures RadixForest.Contents(State()) == old(RadixForest.Contents(State()))
      ensures forall id :: id in seq2page <==> id in old(seq2page)
    {
      var inPage;
      page, offset, inPage := MatchSequence(original, tokens);
      assert PageOk(State(), page) && PageOk(State(), original);
      if page != original {
        assert LeafOk(State(), original);
      }
      if inPage < |mem[page].tokens| {
        page := SplitPage(page, inPage);
      }
    }

    method ExtendSequence(id: int, tokens: seq<int>) returns (ok: bool)
      requires Valid()
      modifies this, pool
      ensures Valid()
      ensures ok <==> id in old(Contents())
      ensures Contents() == if ok then old(Contents())[id := old(Contents())[id] + tokens] else old(Contents())
    {
      assert State().seq2page == seq2page;
      if id !in seq2page {
        return false;
      }
      assert IdOk(State(), id);
      var original := seq2page[id];
      ghost var start := full[original];
      PopSequence(id);
      var page, offset := MatchAndSplit(original, tokens);
      page := ExtendBeyond(page, tokens, offset, start, original);
      PushSequence(page, id);
      PutBack(old(Contents()), id, start + tokens);
      assert RadixForest.Contents(State()) == old(Contents())[id := old(Contents())[id] + tokens];
      var _ := MergeIfMergeable(original);
      return true;
    }

    /** The loop of RollBackSequence: drops whole pages from the end of the path,
        freeing those that no other sequence needs. */
    method DropPages(page0: Ptr, num0: nat) returns (page: Ptr, num: nat)
      requires WellFormedBut(State(), page0) && PoolOk({}) && page0 in kids && num0 < |full[page0]|
      modifies this`mem, this`kids, this`full, pool`freeIndices, pool`usedPages
      ensures WellFormedBut(State(), page) && PoolOk({})
      ensures page in kids && page != Root && page in mem
      ensures num < |mem[page].tokens| <= |full[page]|
      ensures full[page][..|full[page]| - num] == old(full)[page0][..|old(full)[page0]| - num0]
      ensures RadixForest.Contents(State()) == old(RadixForest.Contents(State()))
    {
      page, num := page0, num0;
      assert PageOk(State(), page);
      while |mem[page].tokens| <= num
        invariant WellFormedBut(State(), page) && PoolOk({}) && page in kids && page in mem && num < |full[page]|
        invariant full[page][..|full[page]| - num] == old(full)[page0][..|old(full)[page0]| - num0]
        invariant RadixForest.Contents(State()) == old(RadixForest.Contents(State()))
        decreases |full[page]|
      {
        assert PageOk(State(), page) && ChildOk(State(), page, 0);
        ghost var here := full[page];
        var parent := mem[page].parent;
        assert PageOk(State(), parent) && full[parent] == here[..|here| - |mem[page].tokens|];
        num := num - |mem[page].tokens|;
        if mem[page].seqIds == [] && mem[page].firstChild == Null {
          parent := FreeLeaf(page);
        } else {
          assert LeafOk(State(), page);
        }
        page := parent;
        assert full[page][..|full[page]| - num] == here[..|full[page]| - num];
        assert PageOk(State(), page);
      }
      assert PageOk(State(), page);
    }

    method RollBackSequence(id: int, numTokens: nat) returns (ok: bool)
      requires Valid()
      modifies this, pool
      ensures Valid()
      ensures ok <==> id in old(Contents()) && 0 < numTokens <= |old(Contents())[id]|
      ensures Contents() == if ok then old(Contents())[id := old(Contents())[id][..|old(Contents())[id]| - numTokens]]
                            else old(Contents())
    {
      assert State().seq2page == seq2page;
      if id !in seq2page || numTokens == 0 {
        return false;
      }
      assert IdOk(State(), id);
      var length := PathLength(seq2page[id]);
      if length < numTokens {
        return false;
      }
      ghost var kept := full[seq2page[id]][..length - numTokens];
      PutBack(Contents(), id, kept);
      if numTokens == length {
        RemoveSequence(id);
        ok := AddSequence(id);
        return;
      }
      RollBackPart(id, numTokens);
      return true;
    }

    /** Drops some but not all tokens. */
    method RollBackPart(id: int, numTokens: nat)
      requires Valid() && id in Contents() && numTokens < |Contents()[id]|
      modifies this, pool
      ensures Valid()
      ensures Contents() == (old(Contents()) - {id})[id := old(Contents())[id][..|old(Contents())[id]| - numTokens]]
    {
      var page := TakeOut(id);
      var num;
      page, num := DropPages(page, numTokens);
      RollBackInPage(id, page, num);
    }

    /** The last part of RollBackSequence: `id` ends `num` tokens before the end of `page`. */
    method RollBackInPage(id: int, page0: Ptr, num: nat)
      requires WellFormedBut(State(), page0) && PoolOk({}) && page0 in kids && page0 != Root && page0 in mem
      requires limbo == {} && id !in seq2page && num < |mem[page0].tokens| <= |full[page0]|
      modifies this, pool
      ensures Valid()
      ensures Contents() == old(RadixForest.Contents(State()))[id := old(full)[page0][..|old(full)[page0]| - num]]
    {
      ghost var f := State();
      assert f.seq2page == seq2page;
      assert PageOk(f, page0) && ChildOk(f, page0, 0);
      if mem[page0].seqIds == [] && mem[page0].firstChild == Null {
        ShortenLeaf(id, page0, num);
      } else {
        assert LeafOk(f, page0);
        EndWithin(id, page0, num);
      }
    }

    /** A leaf that no sequence ends in keeps the tokens that are left. */
    method ShortenLeaf(id: int, page: Ptr, num: nat)
      requires WellFormedBut(State(), page) && PoolOk({}) && page in kids && page != Root && page in mem
      requires limbo == {} && id !in seq2page && num < |mem[page].tokens| <= |full[page]|
      requires kids[page] == [] && mem[page].seqIds == []
      modifies this`mem, this`full, this`seq2page, this`limbo
      ensures Valid()
      ensures Contents() == old(RadixForest.Contents(State()))[id := old(full)[page][..|old(full)[page]| - num]]
    {
      ghost var f := State();
      assert f.seq2page == seq2page && PageOk(f, page);
      var kept := mem[page].tokens[..|mem[page].tokens| - num];
      assert full[page][..|full[page]| - num] == full[mem[page].parent] + kept;
      RefillLeaf(page, kept);
      PushSequence(page, id);
    }

    /** A page that is still needed is split unless the sequence ends at its end. */
    method EndWithin(id: int, page0: Ptr, num: nat)
      requires WellFormed(State()) && PoolOk({}) && page0 in kids && page0 != Root && page0 in mem
      requires limbo == {} && id !in seq2page && num < |mem[page0].tokens| <= |full[page0]|
      modifies this, pool
      ensures Valid()
      ensures Contents() == old(RadixForest.Contents(State()))[id := old(full)[page0][..|old(full)[page0]| - num]]
    {
      var page := page0;
      if num > 0 {
        page := SplitPage(page, |mem[page].tokens| - num);
      } else {
        assert full[page][..|full[page]|] == full[page];
      }
      assert State().seq2page == seq2page;
      PushSequence(page, id);
    }
  }
}
