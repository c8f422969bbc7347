/** Tokens and the text they stand for, one table entry per token. */
module TokenText {

  predicate Known(table: seq<string>, tokens: seq<int>) {
    forall j :: 0 <= j < |tokens| ==> 0 <= tokens[j] < |table|
  }

  /** The text of a list of tokens. */
  ghost function Text(table: seq<string>, tokens: seq<int>): string
    requires Known(table, tokens)
  {
    if tokens == [] then "" else table[tokens[0]] + Text(table, tokens[1..])
  }

  lemma {:induction false} TextConcat(table: seq<string>, a: seq<int>, b: seq<int>)
    requires Known(table, a) && Known(table, b)
    ensures Text(table, a + b) == Text(table, a) + Text(table, b)
    decreases |a|
  {
    if a == [] {
      assert a + b == b;
    } else {
      assert (a + b)[1..] == a[1..] + b;
      TextConcat(table, a[1..], b);
    }
  }

  lemma TextSplit(table: seq<string>, tokens: seq<int>, n: nat)
    requires Known(table, tokens) && n <= |tokens|
    ensures Text(table, tokens) == Text(table, tokens[..n]) + Text(table, tokens[n..])
  {
    assert tokens == tokens[..n] + tokens[n..];
    TextConcat(table, tokens[..n], tokens[n..]);
  }

  lemma TextLast(table: seq<string>, tokens: seq<int>)
    requires Known(table, tokens) && tokens != []
    ensures Text(table, tokens) == Text(table, tokens[..|tokens| - 1]) + table[tokens[|tokens| - 1]]
  {
    TextSplit(table, tokens, |tokens| - 1);
    assert tokens[|tokens| - 1..] == [tokens[|tokens| - 1]];
  }
}
