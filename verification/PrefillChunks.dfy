/** Chunked prefill: a model state hands out its inputs piece by piece. */
module PrefillChunks {
  import opened PrefillInputs

  lemma TotalLengthSplit(inputs: seq<Data>, i: nat)
    requires i < |inputs|
    ensures TotalLength(inputs[..i + 1]) == TotalLength(inputs[..i]) + inputs[i].Length()
    ensures Units(inputs[..i + 1]) == Units(inputs[..i]) + DataUnits(inputs[i])
  {
    assert inputs[..i + 1] == inputs[..i] + [inputs[i]];
    UnitsConcat(inputs[..i], [inputs[i]]);
    UnitsOfOne(inputs[i]);
  }

  lemma WholeIsParts(inputs: seq<Data>, i: nat)
    requires i <= |inputs|
    ensures Units(inputs[..i]) + Units(inputs[i..]) == Units(inputs)
    ensures TotalLength(inputs[..i]) + TotalLength(inputs[i..]) == TotalLength(inputs)
  {
    assert inputs == inputs[..i] + inputs[i..];
    UnitsConcat(inputs[..i], inputs[i..]);
  }

  /** The chunk takes the first k pieces, or those and the first m tokens, but not all, of the next. */
  ghost predicate CutAfter(inputs: seq<Data>, chunk: seq<Data>, rest: seq<Data>, k: nat, m: nat) {
    && k <= |inputs|
    && (|| (chunk == inputs[..k] && rest == inputs[k..])
        || (&& k < |inputs| && inputs[k].TokenData? && m < |inputs[k].tokens|
            && chunk == inputs[..k] + [TokenData(inputs[k].tokens[..m])]
            && rest == [TokenData(inputs[k].tokens[m..])] + inputs[k + 1..]))
  }

  /** `chunk` and `rest` partition `inputs`; the chunk is as long as allowed, unless the first
      piece that remains is an image that would exceed the limit. */
  ghost predicate Partition(inputs: seq<Data>, limit: nat, chunk: seq<Data>, n: nat, rest: seq<Data>) {
    && Units(chunk) + Units(rest) == Units(inputs)
    && (exists k: nat, m: nat :: CutAfter(inputs, chunk, rest, k, m))
    && n == TotalLength(chunk) && n + TotalLength(rest) == TotalLength(inputs)
    && n <= limit
    && (n < limit ==> rest != [] && rest[0].ImageData? && n + rest[0].embedSize > limit)
    && (AllTokens(inputs) ==> AllTokens(chunk) && AllTokens(rest))
  }

  /** The chunk ends between two pieces. */
  lemma CutBetween(inputs: seq<Data>, limit: nat, i: nat)
    requires i <= |inputs| && TotalLength(inputs[..i]) <= limit
    requires TotalLength(inputs[..i]) < limit ==>
               i < |inputs| && inputs[i].ImageData? && TotalLength(inputs[..i]) + inputs[i].Length() > limit
    ensures Partition(inputs, limit, inputs[..i], TotalLength(inputs[..i]), inputs[i..])
  {
    WholeIsParts(inputs, i);
    assert CutAfter(inputs, inputs[..i], inputs[i..], i, 0);
  }

  lemma Regroup<T>(a: seq<T>, b: seq<T>, c: seq<T>, d: seq<T>)
    ensures (a + b) + (c + d) == a + ((b + c) + d)
  {
  }

  /** Replacing a part by two that mean the same changes neither the units nor the length. */
  lemma CutPart(front: seq<Data>, part: seq<Data>, left: seq<Data>, right: seq<Data>, tail: seq<Data>)
    requires Units(part) == Units(left) + Units(right) && TotalLength(part) == TotalLength(left) + TotalLength(right)
    ensures Units(front + left) + Units(right + tail) == Units(front + (part + tail))
    ensures TotalLength(front + left) == TotalLength(front) + TotalLength(left)
    ensures TotalLength(front + left) + TotalLength(right + tail) == TotalLength(front + (part + tail))
  {
    UnitsConcat(front, left);
    UnitsConcat(right, tail);
    UnitsConcat(part, tail);
    UnitsConcat(front, part + tail);
    Regroup(Units(front), Units(left), Units(right), Units(tail));
  }

  lemma CutTokens(tokens: seq<int>, m: nat)
    requires m <= |tokens|
    ensures Units([TokenData(tokens)]) == Units([TokenData(tokens[..m])]) + Units([TokenData(tokens[m..])])
    ensures TotalLength([TokenData(tokens)]) == |tokens|
    ensures TotalLength([TokenData(tokens[..m])]) == m
    ensures TotalLength([TokenData(tokens[m..])]) == |tokens| - m
  {
    UnitsOfOne(TokenData(tokens));
    UnitsOfOne(TokenData(tokens[..m]));
    UnitsOfOne(TokenData(tokens[m..]));
    TokenUnitsConcat(tokens[..m], tokens[m..]);
    assert tokens[..m] + tokens[m..] == tokens;
  }

  lemma AllTokensParts(a: seq<Data>, b: seq<Data>)
    ensures AllTokens(a + b) <==> AllTokens(a) && AllTokens(b)
  {
    if AllTokens(a + b) {
      assert forall k :: 0 <= k < |a| ==> a[k] == (a + b)[k];
      assert forall k :: 0 <= k < |b| ==> b[k] == (a + b)[|a| + k];
    }
  }

  /** The chunk ends inside a piece, which is token data and is cut after `m` tokens. */
  lemma CutWithin(inputs: seq<Data>, limit: nat, front: seq<Data>, tokens: seq<int>, tail: seq<Data>, m: nat)
    requires inputs == front + ([TokenData(tokens)] + tail) && m < |tokens| && TotalLength(front) + m == limit
    ensures Partition(inputs, limit, front + [TokenData(tokens[..m])], limit, [TokenData(tokens[m..])] + tail)
  {
    CutTokens(tokens, m);
    CutPart(front, [TokenData(tokens)], [TokenData(tokens[..m])], [TokenData(tokens[m..])], tail);
    AllTokensParts(front, [TokenData(tokens)] + tail);
    AllTokensParts([TokenData(tokens)], tail);
    AllTokensParts(front, [TokenData(tokens[..m])]);
    AllTokensParts([TokenData(tokens[m..])], tail);
    CutAtPiece(inputs, front, tokens, tail, m);
  }

  lemma CutAtPiece(inputs: seq<Data>, front: seq<Data>, tokens: seq<int>, tail: seq<Data>, m: nat)
    requires inputs == front + ([TokenData(tokens)] + tail) && m < |tokens|
    ensures CutAfter(inputs, front + [TokenData(tokens[..m])], [TokenData(tokens[m..])] + tail, |front|, m)
  {
    assert inputs[..|front|] == front && inputs[|front|] == TokenData(tokens) && inputs[|front| + 1..] == tail;
  }

  /** Nothing remains if and only if the chunk is all of the inputs: an empty list marks a prompt
      that is done. */
  lemma DoneIff(inputs: seq<Data>, limit: nat, chunk: seq<Data>, n: nat, rest: seq<Data>)
    requires Partition(inputs, limit, chunk, n, rest)
    ensures rest == [] <==> chunk == inputs
  {
    var k: nat, m: nat :| CutAfter(inputs, chunk, rest, k, m);
  }

  class ModelState {
    var inputs: seq<Data>
    var committed: seq<int>
    var numTokensForNextDecode: nat

    constructor (inputs: seq<Data>)
      ensures this.inputs == inputs && committed == []
      ensures numTokensForNextDecode == 0
    {
      this.inputs, committed, numTokensForNextDecode := inputs, [], 0;
    }

    /** Piece `i` would exceed the limit: it is cut if it is token data, and left if not. */
    method CutAt(limit: nat, i: nat, n0: nat) returns (chunk: seq<Data>, n: nat)
      requires i < |inputs| && n0 == TotalLength(inputs[..i]) <= limit < n0 + inputs[i].Length()
      modifies this`inputs
      ensures Partition(old(inputs), limit, chunk, n, inputs)
    {
      chunk := inputs[..i];
      if !inputs[i].TokenData? {
        CutBetween(inputs, limit, i);
        inputs := inputs[i..];
        return chunk, n0;
      }
      var m := limit - n0;
      var tokens := inputs[i].tokens;
      ghost var front, tail := inputs[..i], inputs[i + 1..];
      assert inputs == front + ([TokenData(tokens)] + tail);
      CutWithin(inputs, limit, front, tokens, tail, m);
      chunk := chunk + [TokenData(tokens[..m])];
      inputs := [TokenData(tokens[m..])] + inputs[i + 1..];
      return chunk, limit;
    }

    /** Takes at most `limit` tokens from the inputs; a state without inputs is a hybrid decode
        and gives the tokens it has yet to decode.  Fails if there is not enough input. */
    method ChunkPrefillInputData(limit: nat) returns (ok: bool, chunk: seq<Data>, n: nat)
      requires numTokensForNextDecode <= |committed|
      modifies this`inputs, this`numTokensForNextDecode
      ensures ok <==> if old(inputs) == [] then old(numTokensForNextDecode) > 0 else limit <= TotalLength(old(inputs))
      ensures !ok ==> unchanged(this)
      ensures ok && old(inputs) == [] ==>
                && n == old(numTokensForNextDecode) && chunk == [TokenData(committed[|committed| - n..])]
                && numTokensForNextDecode == 0 && inputs == []
      ensures ok && old(inputs) != [] ==>
                Partition(old(inputs), limit, chunk, n, inputs) && numTokensForNextDecode == old(numTokensForNextDecode)
    {
      if inputs == [] {
        if numTokensForNextDecode == 0 {
          return false, [], 0;
        }
        n := numTokensForNextDecode;
        numTokensForNextDecode := 0;
        return true, [TokenData(committed[|committed| - n..])], n;
      }
      ok, chunk, n := TakeInputs(limit);
    }

    /** Piece by piece until the limit is reached. */
    method TakeInputs(limit: nat) returns (ok: bool, chunk: seq<Data>, n: nat)
      requires inputs != []
      modifies this`inputs
      ensures ok <==> limit <= TotalLength(old(inputs))
      ensures if ok then Partition(old(inputs), limit, chunk, n, inputs) else inputs == old(inputs)
    {
      n := 0;
      var i := 0;
      while i < |inputs|
        invariant 0 <= i <= |inputs| && inputs == old(inputs) && n == TotalLength(inputs[..i])
        invariant i > 0 ==> n < limit
      {
        TotalLengthSplit(inputs, i);
        WholeIsParts(inputs, i + 1);
        if n + inputs[i].Length() >= limit {
          chunk, n := TakeThrough(limit, i, n);
          return true, chunk, n;
        }
        n := n + inputs[i].Length();
        i := i + 1;
      }
      assert inputs[..|inputs|] == inputs;
      return false, [], 0;
    }

    /** Piece `i` reaches the limit or exceeds it. */
    method TakeThrough(limit: nat, i: nat, n0: nat) returns (chunk: seq<Data>, n: nat)
      requires i < |inputs| && n0 == TotalLength(inputs[..i]) && (i > 0 ==> n0 < limit) && limit <= n0 + inputs[i].Length()
      modifies this`inputs
      ensures Partition(old(inputs), limit, chunk, n, inputs)
    {
      TotalLengthSplit(inputs, i);
      if n0 + inputs[i].Length() == limit {
        CutBetween(inputs, limit, i + 1);
        chunk := inputs[..i + 1];
        inputs := inputs[i + 1..];
        return chunk, limit;
      }
      chunk, n := CutAt(limit, i, n0);
    }

    /** A token-only prompt is replayed in order by chunks of whatever positive sizes. */
    method PrefillByChunks(limits: nat -> nat) returns (tokens: seq<int>, calls: nat)
      requires AllTokens(inputs) && numTokensForNextDecode <= |committed| && forall k :: limits(k) > 0
      modifies this`inputs, this`numTokensForNextDecode
      ensures tokens == Tokens(old(inputs)) && calls <= |tokens|
      ensures AllTokens(inputs) && TotalLength(inputs) == 0
    {
      tokens, calls := [], 0;
      ghost var all := Tokens(inputs);
      while TotalLength(inputs) > 0
        invariant AllTokens(inputs) && numTokensForNextDecode <= |committed|
        invariant tokens + Tokens(inputs) == all && calls <= |tokens|
        decreases TotalLength(inputs)
      {
        ghost var before := inputs;
        var total := TotalLength(inputs);
        var limit := if limits(calls) < total then limits(calls) else total;
        var ok, chunk, n := ChunkPrefillInputData(limit);
        TokensOfPartition(before, limit, chunk, n, inputs);
        var piece := GetConcatPrefillInputData(chunk);
        assert tokens + piece + Tokens(inputs) == tokens + (piece + Tokens(inputs));
        tokens := tokens + piece;
        calls := calls + 1;
      }
      TokensLength(inputs);
    }
  }

  lemma TokenUnitsInjective(a: seq<int>, b: seq<int>)
    requires TokenUnits(a) == TokenUnits(b)
    ensures a == b
  {
    assert |TokenUnits(a)| == |a| && |TokenUnits(b)| == |b|;
    forall i | 0 <= i < |a| ensures a[i] == b[i] {
      assert TokenUnits(a)[i] == TokenUnits(b)[i];
    }
  }

  lemma TokensOfPartition(inputs: seq<Data>, limit: nat, chunk: seq<Data>, n: nat, rest: seq<Data>)
    requires AllTokens(inputs) && Partition(inputs, limit, chunk, n, rest)
    ensures Tokens(chunk) + Tokens(rest) == Tokens(inputs)
    ensures |Tokens(chunk)| == n == limit
  {
    UnitsOfTokens(inputs);
    UnitsOfTokens(chunk);
    UnitsOfTokens(rest);
    TokenUnitsConcat(Tokens(chunk), Tokens(rest));
    TokenUnitsInjective(Tokens(chunk) + Tokens(rest), Tokens(inputs));
    TokensLength(chunk);
  }
}
