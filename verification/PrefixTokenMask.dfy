/** The mask of tokens that are a prefix of another token, found by sorting. */
module PrefixTokenMask {

  /** Lexicographic order on strings. */
  predicate LexLeq(a: string, b: string) {
    a == [] || (b != [] && (a[0] < b[0] || (a[0] == b[0] && LexLeq(a[1..], b[1..]))))
  }

  /** The order of (string, id) pairs. */
  predicate Leq(x: (string, int), y: (string, int)) {
    LexLeq(x.0, y.0) && (x.0 == y.0 ==> x.1 <= y.1)
  }

  lemma {:induction false} LexTransitive(a: string, b: string, c: string)
    requires LexLeq(a, b) && LexLeq(b, c)
    ensures LexLeq(a, c)
  {
    if a != [] && a[0] == b[0] == c[0] {
      LexTransitive(a[1..], b[1..], c[1..]);
    }
  }

  lemma {:induction false} LexTotal(a: string, b: string)
    ensures LexLeq(a, b) || LexLeq(b, a)
    ensures LexLeq(a, b) && LexLeq(b, a) ==> a == b
    ensures a == b ==> LexLeq(a, b)
  {
    if a != [] && b != [] && a[0] == b[0] {
      LexTotal(a[1..], b[1..]);
      assert a == [a[0]] + a[1..] && b == [b[0]] + b[1..];
    }
  }

  lemma {:induction false} PrefixLeq(a: string, c: string)
    requires a <= c
    ensures LexLeq(a, c)
  {
    if a != [] {
      PrefixLeq(a[1..], c[1..]);
    }
  }

  /** Whatever lies between a string and an extension of it extends it too. */
  lemma {:induction false} PrefixReachesBetween(a: string, b: string, c: string)
    requires LexLeq(a, b) && LexLeq(b, c) && a <= c
    ensures a <= b
  {
    if a != [] {
      assert a[0] == c[0];
      PrefixReachesBetween(a[1..], b[1..], c[1..]);
      assert a == [a[0]] + a[1..] && b == [b[0]] + b[1..];
    }
  }

  // ----- sorting ----------------------------------------------------------------------------

  ghost predicate Sorted(s: seq<(string, int)>) {
    forall i, j :: 0 <= i < j < |s| ==> Leq(s[i], s[j])
  }

  /** `s` lists every token of the table once. */
  ghost predicate Lists(s: seq<(string, int)>, table: seq<string>) {
    && |s| == |table|
    && (forall k :: 0 <= k < |s| ==> 0 <= s[k].1 < |table| && s[k].0 == table[s[k].1])
    && (forall i, j :: 0 <= i < j < |s| ==> s[i].1 != s[j].1)
  }

  method InsertPair(s: seq<(string, int)>, x: (string, int)) returns (r: seq<(string, int)>, k: nat)
    requires Sorted(s)
    ensures Sorted(r) && k <= |s| && r == s[..k] + [x] + s[k..]
  {
    k := 0;
    while k < |s| && Leq(s[k], x)
      invariant k <= |s|
      invariant forall i :: 0 <= i < k ==> Leq(s[i], x)
    {
      k := k + 1;
    }
    r := s[..k] + [x] + s[k..];
    forall j | k <= j < |s| ensures Leq(x, s[j]) {
      LexTotal(x.0, s[k].0);
      if k < j {
        LexTransitive(x.0, s[k].0, s[j].0);
        LexTotal(s[k].0, s[j].0);
      }
    }
  }

  lemma ListsOneMore(before: seq<(string, int)>, after: seq<(string, int)>, table: seq<string>, token: string)
    requires Lists(before + after, table)
    ensures Lists(before + [(token, |table|)] + after, table + [token])
  {
    var s, r, n := before + after, before + [(token, |table|)] + after, |before|;
    forall k | 0 <= k < |r| && k != n ensures r[k] == s[if k < n then k else k - 1] {}
  }

  method SortTokens(table: seq<string>) returns (s: seq<(string, int)>)
    ensures Sorted(s) && Lists(s, table)
  {
    s := [];
    for n := 0 to |table|
      invariant Sorted(s) && Lists(s, table[..n])
    {
      var longer, k := InsertPair(s, (table[n], n));
      ListsOneMore(s[..k], s[k..], table[..n], table[n]);
      assert s[..k] + s[k..] == s && table[..n + 1] == table[..n] + [table[n]];
      s := longer;
    }
    assert table[..|table|] == table;
  }

  /** A list of as many different ids as there are tokens holds every id. */
  lemma EveryTokenListed(s: seq<(string, int)>, table: seq<string>, id: int)
    requires Lists(s, table) && 0 <= id < |table|
    ensures exists k :: 0 <= k < |s| && s[k].1 == id
  {
    if forall k :: 0 <= k < |s| ==> s[k].1 != id {
      DifferentIdsFit(seq(|s|, k requires 0 <= k < |s| => s[k].1), Below(|table|) - {id});
    }
  }

  lemma {:induction false} DifferentIdsFit(ids: seq<int>, room: set<int>)
    requires forall i, j :: 0 <= i < j < |ids| ==> ids[i] != ids[j]
    requires forall i :: 0 <= i < |ids| ==> ids[i] in room
    ensures |ids| <= |room|
  {
    if ids != [] {
      DifferentIdsFit(ids[1..], room - {ids[0]});
    }
  }

  ghost function Below(n: nat): (r: set<int>)
    ensures |r| == n && forall i :: i in r <==> 0 <= i < n
  {
    if n == 0 then {} else Below(n - 1) + {n - 1}
  }

  // ----- the mask ---------------------------------------------------------------------------

  /** The quadratic meaning of the mask: the token is a proper prefix of another, or equals
      one with a larger id. */
  ghost predicate PrefixesAnother(table: seq<string>, id: int)
  {
    0 <= id < |table| &&
    exists other :: 0 <= other < |table| && other != id && table[id] <= table[other] &&
                    (table[id] == table[other] ==> id < other)
  }

  /** Looking at the next pair alone is enough. */
  lemma NextPairDecides(s: seq<(string, int)>, table: seq<string>, k: nat)
    requires Sorted(s) && Lists(s, table) && k < |s|
    ensures PrefixesAnother(table, s[k].1) <==> k + 1 < |s| && s[k].0 <= s[k + 1].0
  {
    var id := s[k].1;
    if k + 1 < |s| && s[k].0 <= s[k + 1].0 {
      assert Leq(s[k], s[k + 1]);
      assert s[k + 1].1 != id && PrefixesAnother(table, id);
    } else if PrefixesAnother(table, id) {
      var other :| 0 <= other < |table| && other != id && table[id] <= table[other] &&
                   (table[id] == table[other] ==> id < other);
      EveryTokenListed(s, table, other);
      var m :| 0 <= m < |s| && s[m].1 == other;
      PrefixLeq(s[k].0, s[m].0);
      if m < k {
        assert Leq(s[m], s[k]);
        LexTotal(s[k].0, s[m].0);
        assert false;
      }
      assert Leq(s[k], s[k + 1]);
      LexTotal(s[m].0, s[m].0);
      PrefixReachesBetween(s[k].0, s[k + 1].0, s[m].0);
    }
  }

  class Tokenizer {
    const tokenTable: seq<string>
    var prefixTokenMask: seq<bool>

    /** The mask is either not built yet or complete. */
    ghost predicate Valid()
      reads this
    {
      prefixTokenMask == [] || IsMask(tokenTable, prefixTokenMask)
    }

    constructor (tokenTable: seq<string>)
      ensures Valid() && this.tokenTable == tokenTable
      ensures prefixTokenMask == []
    {
      this.tokenTable := tokenTable;
      prefixTokenMask := [];
    }

    method GetPrefixTokenMask() returns (mask: seq<bool>)
      requires Valid()
      modifies this
      ensures Valid() && mask == prefixTokenMask
      ensures IsMask(tokenTable, mask)
      ensures old(prefixTokenMask) != [] ==> prefixTokenMask == old(prefixTokenMask)
    {
      if |prefixTokenMask| != 0 {
        return prefixTokenMask;
      }
      var sorted := SortTokens(tokenTable);
      var marks := MarkNeighbours(sorted, tokenTable);
      prefixTokenMask := marks;
      return prefixTokenMask;
    }
  }

  ghost predicate IsMask(table: seq<string>, mask: seq<bool>) {
    |mask| == |table| && forall id :: 0 <= id < |table| ==> (mask[id] <==> PrefixesAnother(table, id))
  }

  method MarkNeighbours(sorted: seq<(string, int)>, table: seq<string>) returns (mask: seq<bool>)
    requires Sorted(sorted) && Lists(sorted, table)
    ensures IsMask(table, mask)
  {
    var n := |table|;
    mask := seq(n, _ => false);
    var idx := 0;
    while idx < n - 1
      invariant 0 <= idx <= n && |mask| == n
      invariant idx <= n - 1 || n == 0
      invariant forall k :: 0 <= k < idx ==> (mask[sorted[k].1] <==> sorted[k].0 <= sorted[k + 1].0)
      invariant forall k :: idx <= k < n ==> !mask[sorted[k].1]
    {
      var cur, next := sorted[idx].0, sorted[idx + 1].0;
      if |cur| <= |next| && next[..|cur|] == cur {
        mask := mask[sorted[idx].1 := true];
      }
      idx := idx + 1;
    }
    forall id | 0 <= id < n ensures mask[id] <==> PrefixesAnother(table, id) {
      EveryTokenListed(sorted, table, id);
      var k :| 0 <= k < n && sorted[k].1 == id;
      NextPairDecides(sorted, table, k);
    }
  }

  /** A proper prefix of another token. */
  ghost predicate ProperPrefix(table: seq<string>, id: int)
  {
    0 <= id < |table| && exists other :: 0 <= other < |table| && table[id] < table[other]
  }

  /** Of two equal token strings the earlier one is a proper prefix of some token. */
  ghost predicate DuplicatesExtended(table: seq<string>) {
    forall i, j :: 0 <= i < j < |table| && table[i] == table[j] ==> ProperPrefix(table, i)
  }

  /** A token is marked if it is a proper prefix of another, or if it has an equal one later on. */
  lemma MarkedIff(table: seq<string>, mask: seq<bool>, id: int)
    requires IsMask(table, mask) && 0 <= id < |table|
    ensures mask[id] <==> ProperPrefix(table, id) || exists j :: id < j < |table| && table[id] == table[j]
  {
    if other :| 0 <= other < |table| && table[id] < table[other] {
      assert other != id && PrefixesAnother(table, id);
    } else if j :| id < j < |table| && table[id] == table[j] {
      assert PrefixesAnother(table, id);
    }
  }

  /** The mask marks exactly the proper prefixes of other tokens if and only if, of any two
      equal token strings, the earlier one is a proper prefix of some token. */
  lemma MaskIsProperPrefixIff(table: seq<string>, mask: seq<bool>)
    requires IsMask(table, mask)
    ensures (forall id :: 0 <= id < |table| ==> (mask[id] <==> ProperPrefix(table, id))) <==> DuplicatesExtended(table)
  {
    forall id | 0 <= id < |table|
      ensures mask[id] <==> ProperPrefix(table, id) || exists j :: id < j < |table| && table[id] == table[j]
    {
      MarkedIff(table, mask, id);
    }
  }

  /** In particular with distinct token strings. */
  lemma MaskOfDistinctTokens(table: seq<string>, mask: seq<bool>, id: int)
    requires IsMask(table, mask) && 0 <= id < |table|
    requires forall i, j :: 0 <= i < j < |table| ==> table[i] != table[j]
    ensures mask[id] <==> ProperPrefix(table, id)
  {
    MaskIsProperPrefixIff(table, mask);
  }

  /** Two equal strings, of which the first is marked although it is no proper prefix; with a
      third that extends them the mask is right. */
  lemma DuplicateIsMarked()
    ensures PrefixesAnother(["a", "a"], 0)
    ensures !ProperPrefix(["a", "a"], 0)
    ensures !DuplicatesExtended(["a", "a"])
    ensures DuplicatesExtended(["a", "a", "ab"])
  {
    var table, longer := ["a", "a"], ["a", "a", "ab"];
    assert table[0] <= table[1] && 0 < 1;
    assert table[0] == table[1];
    assert longer[0] < longer[2] && longer[1] < longer[2];
  }
}
