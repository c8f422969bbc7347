/**
  The inputs of a model state: pieces of token data and of other data (images), of which
  only token data can be cut.
  */
module PrefillInputs {

  datatype Data = TokenData(tokens: seq<int>) | ImageData(image: int, embedSize: nat) {
    function Length(): nat {
      if TokenData? then |tokens| else embedSize
    }
  }

  /** What the inputs mean once it no longer matters how tokens are grouped. */
  datatype Unit = Token(token: int) | Image(image: int, embedSize: nat)

  ghost function TokenUnits(tokens: seq<int>): seq<Unit> {
    seq(|tokens|, i requires 0 <= i < |tokens| => Token(tokens[i]))
  }

  ghost function DataUnits(d: Data): seq<Unit> {
    if d.TokenData? then TokenUnits(d.tokens) else [Image(d.image, d.embedSize)]
  }

  ghost function Units(inputs: seq<Data>): seq<Unit> {
    if inputs == [] then [] else DataUnits(inputs[0]) + Units(inputs[1..])
  }

  function TotalLength(inputs: seq<Data>): nat {
    if inputs == [] then 0 else inputs[0].Length() + TotalLength(inputs[1..])
  }

  predicate AllTokens(inputs: seq<Data>) {
    forall i :: 0 <= i < |inputs| ==> inputs[i].TokenData?
  }

  ghost function Tokens(inputs: seq<Data>): seq<int>
    requires AllTokens(inputs)
  {
    if inputs == [] then [] else inputs[0].tokens + Tokens(inputs[1..])
  }

  lemma UnitsOfOne(d: Data)
    ensures Units([d]) == DataUnits(d) && TotalLength([d]) == d.Length()
  {
    assert [d][1..] == [];
  }

  // ----- concatenation ---------------------------------------------------------------------

  lemma {:induction false} UnitsConcat(a: seq<Data>, b: seq<Data>)
    ensures Units(a + b) == Units(a) + Units(b)
    ensures TotalLength(a + b) == TotalLength(a) + TotalLength(b)
    decreases |a|
  {
    if a == [] {
      assert a + b == b;
    } else {
      assert (a + b)[1..] == a[1..] + b;
      UnitsConcat(a[1..], b);
    }
  }

  lemma {:induction false} TokensConcat(a: seq<Data>, b: seq<Data>)
    requires AllTokens(a) && AllTokens(b)
    ensures Tokens(a + b) == Tokens(a) + Tokens(b)
    decreases |a|
  {
    if a == [] {
      assert a + b == b;
    } else {
      assert (a + b)[1..] == a[1..] + b;
      TokensConcat(a[1..], b);
      assert Tokens(a + b) == a[0].tokens + (Tokens(a[1..]) + Tokens(b));
    }
  }

  lemma {:induction false} TokensLength(a: seq<Data>)
    requires AllTokens(a)
    ensures |Tokens(a)| == TotalLength(a)
    decreases |a|
  {
    if a != [] {
      TokensLength(a[1..]);
    }
  }

  lemma TokenUnitsConcat(a: seq<int>, b: seq<int>)
    ensures TokenUnits(a + b) == TokenUnits(a) + TokenUnits(b)
  {
  }

  /** On token-only inputs the two readings agree, so equal units are equal tokens. */
  lemma {:induction false} UnitsOfTokens(a: seq<Data>)
    requires AllTokens(a)
    ensures Units(a) == TokenUnits(Tokens(a))
    decreases |a|
  {
    if a != [] {
      UnitsOfTokens(a[1..]);
      TokenUnitsConcat(a[0].tokens, Tokens(a[1..]));
    }
  }

  // ----- GetConcatPrefillInputData and PopPrefillInputData ------------------------------------

  method GetConcatPrefillInputData(inputs: seq<Data>) returns (tokens: seq<int>)
    ensures AllTokens(inputs) ==> tokens == Tokens(inputs)
    ensures !AllTokens(inputs) ==> tokens == []
  {
    tokens := [];
    for i := 0 to |inputs|
      invariant AllTokens(inputs[..i]) && tokens == Tokens(inputs[..i])
    {
      if !inputs[i].TokenData? {
        return [];
      }
      assert inputs[..i + 1] == inputs[..i] + [inputs[i]];
      TokensConcat(inputs[..i], [inputs[i]]);
      assert Tokens([inputs[i]]) == inputs[i].tokens;
      tokens := tokens + inputs[i].tokens;
    }
    assert inputs[..|inputs|] == inputs;
  }

  /** The first `n` tokens are dropped; with `n` below the total length the loop cannot run
      off the end and something remains. */
  method PopPrefillInputData(inputs0: seq<Data>, n: nat) returns (inputs: seq<Data>)
    requires AllTokens(inputs0) && n < |Tokens(inputs0)|
    ensures AllTokens(inputs) && inputs != []
    ensures Tokens(inputs) == Tokens(inputs0)[n..]
  {
    inputs := inputs0;
    var num: nat := n;
    while inputs[0].Length() <= num
      invariant AllTokens(inputs) && inputs != [] && num <= n
      invariant num < |Tokens(inputs)|
      invariant Tokens(inputs)[num..] == Tokens(inputs0)[n..]
      decreases |inputs|
    {
      num := num - inputs[0].Length();
      inputs := inputs[1..];
    }
    if num > 0 {
      var rest := inputs[0].tokens[num..];
      assert ([TokenData(rest)] + inputs[1..])[1..] == inputs[1..];
      assert rest + Tokens(inputs[1..]) == Tokens(inputs)[num..];
      inputs := [TokenData(rest)] + inputs[1..];
    }
  }
}
