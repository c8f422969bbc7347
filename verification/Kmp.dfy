/** The partial match table and one step of the matching automaton. */
module Kmp {

  /** The first `k` characters of `p` are also the last `k` of its first `i`, with `k` below `i`. */
  predicate Border(p: string, i: int, k: int) {
    0 <= k < i <= |p| && p[..k] == p[i - k..i]
  }

  /** The first `m` characters of `p` are the last `m` of `text`. */
  predicate EndsWith(text: string, p: string, m: int) {
    0 <= m <= |p| && m <= |text| && p[..m] == text[|text| - m..]
  }

  /** `m` is the longest prefix of `p` that `text` ends with. */
  ghost predicate Longest(text: string, p: string, m: int) {
    EndsWith(text, p, m) && forall n :: EndsWith(text, p, n) ==> n <= m
  }

  /** Entry `i` of the table: the longest border of the first `i` characters, -1 for none. */
  ghost predicate EntryOk(p: string, table: seq<int>, i: int) {
    0 <= i < |table| ==>
      if i == 0 then table[i] == -1
      else Border(p, i, table[i]) && forall k :: Border(p, i, k) ==> k <= table[i]
  }

  ghost predicate IsTable(p: string, table: seq<int>) {
    |table| <= |p| && forall i {:trigger EntryOk(p, table, i)} :: EntryOk(p, table, i)
  }

  // ----- borders ----------------------------------------------------------------------

  lemma EndsWithBorder(text: string, p: string, a: int, b: int)
    requires EndsWith(text, p, a) && 0 <= b < a
    ensures EndsWith(text, p, b) <==> Border(p, a, b)
  {
    assert p[..a][a - b..] == p[a - b..a];
    assert text[|text| - a..][a - b..] == text[|text| - b..];
  }

  lemma BorderTransitive(p: string, i: int, a: int, b: int)
    requires Border(p, i, a) && 0 <= b < a
    ensures Border(p, i, b) <==> Border(p, a, b)
  {
    assert p[..a][a - b..] == p[a - b..a];
    assert p[i - a..i][a - b..] == p[i - b..i];
  }

  /** Reading one more character extends a match by one, or starts anew. */
  lemma EndsWithStep(text: string, ch: char, p: string, m: int)
    requires 0 <= m < |p|
    ensures EndsWith(text + [ch], p, m + 1) <==> EndsWith(text, p, m) && p[m] == ch
  {
    var t := text + [ch];
    assert p[..m + 1] == p[..m] + [p[m]];
    if m <= |text| {
      assert t[|t| - (m + 1)..] == text[|text| - m..] + [ch];
    }
  }

  lemma BorderStep(p: string, i: int, m: int)
    requires 0 < i < |p| && 0 <= m < i
    ensures Border(p, i + 1, m + 1) <==> Border(p, i, m) && p[m] == p[i]
  {
    assert p[..m + 1] == p[..m] + [p[m]];
    assert p[i - m..i + 1] == p[i - m..i] + [p[i]];
  }

  // ----- the table ------------------------------------------------------------------------

  /** The entry after the last one of `table`: follows shorter and shorter borders until one
      can be extended. */
  method NextEntry(p: string, table: seq<int>) returns (r: int)
    requires 0 < |table| < |p| && IsTable(p, table)
    ensures Border(p, |table|, r) && forall k :: Border(p, |table|, k) ==> k <= r
  {
    var n := |table|;
    var i := n - 1;
    r := table[i];
    assert EntryOk(p, table, i);
    while r != -1 && p[r] != p[i]
      invariant -1 <= r < |table| && (r >= 0 ==> Border(p, i, r))
      invariant forall m :: Border(p, i, m) && p[m] == p[i] ==> m <= r
      decreases r
    {
      assert EntryOk(p, table, r);
      forall m | Border(p, i, m) && p[m] == p[i] ensures m <= table[r] {
        if m < r {
          BorderTransitive(p, i, r, m);
        }
      }
      if table[r] >= 0 {
        BorderTransitive(p, i, r, table[r]);
      }
      r := table[r];
    }
    forall k | Border(p, n, k) ensures k <= r + 1 {
      if k > 0 && i > 0 {
        BorderStep(p, i, k - 1);
      }
    }
    if r >= 0 {
      BorderStep(p, i, r);
    }
    r := r + 1;
  }

  method CreatePartialMatchTable(p: string) returns (table: seq<int>)
    requires p != ""
    ensures |table| == |p| && IsTable(p, table)
  {
    table := [-1];
    while |table| < |p|
      invariant 1 <= |table| <= |p| && IsTable(p, table)
    {
      var r := NextEntry(p, table);
      var extended := table + [r];
      forall j ensures EntryOk(p, extended, j) {
        assert EntryOk(p, table, j);
      }
      table := extended;
    }
  }

  // ----- one step ---------------------------------------------------------------------------

  /** From the longest match before the character to the longest one after it. */
  method Step(p: string, table: seq<int>, matched: int, ch: char, ghost text: string) returns (r: int)
    requires |table| == |p| && IsTable(p, table)
    requires Longest(text, p, matched) && matched < |p|
    ensures Longest(text + [ch], p, r)
  {
    r := matched;
    while r != -1 && ch != p[r]
      invariant -1 <= r < |p|
      invariant r >= 0 ==> EndsWith(text, p, r)
      invariant forall m :: EndsWith(text, p, m) && m < |p| && p[m] == ch ==> m <= r
      decreases r
    {
      assert EntryOk(p, table, r);
      forall m | EndsWith(text, p, m) && m < |p| && p[m] == ch ensures m <= table[r] {
        if m < r {
          EndsWithBorder(text, p, r, m);
        }
      }
      if table[r] >= 0 {
        EndsWithBorder(text, p, r, table[r]);
      }
      r := table[r];
    }
    forall n | EndsWith(text + [ch], p, n) ensures n <= r + 1 {
      if n > 0 {
        EndsWithStep(text, ch, p, n - 1);
      }
    }
    if r >= 0 {
      EndsWithStep(text, ch, p, r);
    }
    r := r + 1;
  }
}
