/**
  Decoding and jump-forward of one request on a single model, without stop strings:
  committed tokens may be rolled back and replaced by a new tokenisation of the same text,
  while the text already streamed and the length of the KV cache must stay right.
  */
module Retokenize {
  import opened TokenText

  /** MAX_ROLLBACK_TOKENS_ */
  const MAX_ROLLBACK: nat := 10

  /** The tokenizer: its token table, its encoder, and the tokens that are a prefix of another. */
  datatype Tokenizer = Tokenizer(table: seq<string>, encode: string -> seq<int>, prefixMask: int -> bool)

  /** Encoding a text and looking the tokens up again gives the text. */
  ghost predicate Faithful(k: Tokenizer) {
    forall s :: Known(k.table, k.encode(s)) && Text(k.table, k.encode(s)) == s
  }

  /** The tokens that may be rolled back: the last ten, or all if there are fewer. */
  function Past(committed: seq<int>): (past: seq<int>)
    ensures |past| == if |committed| < 10 then |committed| else 10
    ensures past == committed[|committed| - |past|..]
  {
    if |committed| >= MAX_ROLLBACK then committed[|committed| - MAX_ROLLBACK..] else committed
  }

  lemma BeforePast(committed: seq<int>) returns (front: seq<int>)
    ensures front == committed[..|committed| - |Past(committed)|]
    ensures committed == front + Past(committed)
  {
    front := committed[..|committed| - |Past(committed)|];
  }

  /** The text of the past tokens, built token by token. */
  method PastString(k: Tokenizer, past: seq<int>) returns (s: string)
    requires Known(k.table, past)
    ensures s == Text(k.table, past)
  {
    s := "";
    for i := 0 to |past|
      invariant s == Text(k.table, past[..i])
    {
      assert past[..i + 1][..i] == past[..i];
      TextLast(k.table, past[..i + 1]);
      s := s + k.table[past[i]];
    }
    assert past[..|past|] == past;
  }

  /** The first position where the new tokens differ from the past ones, or have ended. */
  method FirstDiffer(past: seq<int>, newTokens: seq<int>) returns (n: nat)
    ensures n <= |past| && n <= |newTokens|
    ensures past[..n] == newTokens[..n]
    ensures n < |past| ==> n == |newTokens| || past[n] != newTokens[n]
  {
    n := 0;
    while n < |past| && !(n == |newTokens| || past[n] != newTokens[n])
      invariant n <= |past| && n <= |newTokens| && past[..n] == newTokens[..n]
    {
      n := n + 1;
    }
  }

  /** The length of the longest common prefix, counted from position `n`. */
  ghost function SharedLength(a: seq<int>, b: seq<int>, n: nat := 0): nat
    decreases |a| - n
  {
    if n < |a| && n < |b| && a[n] == b[n] then SharedLength(a, b, n + 1) else n
  }

  /** Everything up to `n` agrees, and position `n` does not. */
  lemma {:induction false} SharedLengthIs(a: seq<int>, b: seq<int>, i: nat, n: nat)
    requires i <= n <= |a| && n <= |b| && (forall j :: 0 <= j < n ==> a[j] == b[j])
    requires n < |a| && n < |b| ==> a[n] != b[n]
    ensures SharedLength(a, b, i) == n
    decreases n - i
  {
    if i < n {
      SharedLengthIs(a, b, i + 1, n);
    }
  }

  lemma SharedWithSpliced(a: seq<int>, rollback: nat, newTokens: seq<int>)
    requires rollback <= |a| && (rollback > 0 && newTokens != [] ==> a[|a| - rollback] != newTokens[0])
    ensures SharedLength(a, a[..|a| - rollback] + newTokens) == |a| - rollback
  {
    SharedLengthIs(a, a[..|a| - rollback] + newTokens, 0, |a| - rollback);
  }

  /** The token is appended, or with retokenisation the last ten tokens, or all if there are
      fewer, are replaced by the encoding of their text and the token's. */
  ghost predicate Committed(k: Tokenizer, retokenize: bool, before: seq<int>, after: seq<int>, token: int) {
    && Known(k.table, before) && 0 <= token < |k.table|
    && if !retokenize then after == before + [token]
       else
         var m := if |before| < 10 then |before| else 10;
         after == before[..|before| - m] + k.encode(Text(k.table, before[|before| - m..]) + k.table[token])
  }

  /** Encoding the text of the last tokens with the token's yields nothing beyond those tokens. */
  ghost predicate NothingNew(k: Tokenizer, committed: seq<int>, token: int)
    requires Known(k.table, committed) && 0 <= token < |k.table|
  {
    var m := if |committed| < 10 then |committed| else 10;
    var past := committed[|committed| - m..];
    k.encode(Text(k.table, past) + k.table[token]) <= past
  }

  /** Replacing the last `rollback` tokens by `newTokens` appends exactly `delta` to the text. */
  ghost predicate Extends(table: seq<string>, committed: seq<int>, rollback: nat, newTokens: seq<int>, delta: string) {
    && Known(table, committed) && Known(table, newTokens) && rollback <= |committed|
    && Text(table, committed[..|committed| - rollback] + newTokens) == Text(table, committed) + delta
  }

  lemma SplicedTokens(committed: seq<int>, front: seq<int>, past: seq<int>, encoded: seq<int>, n: nat)
    requires committed == front + past && n <= |past| && n <= |encoded| && past[..n] == encoded[..n]
    ensures committed[..|committed| - (|past| - n)] + encoded[n..] == front + encoded
  {
    assert committed[..|committed| - (|past| - n)] == front + past[..n];
    assert encoded == encoded[..n] + encoded[n..];
  }

  lemma SpliceText(table: seq<string>, front: seq<int>, past: seq<int>, encoded: seq<int>, delta: string)
    requires Known(table, front) && Known(table, past) && Known(table, encoded)
    requires Text(table, encoded) == Text(table, past) + delta
    ensures Text(table, front + encoded) == Text(table, front + past) + delta
  {
    TextConcat(table, front, past);
    TextConcat(table, front, encoded);
  }

  /** Splicing a new tokenisation of the last tokens, from where it first differs. */
  lemma SpliceExtends(table: seq<string>, front: seq<int>, past: seq<int>, encoded: seq<int>, delta: string, n: nat)
    requires Known(table, front) && Known(table, past) && Known(table, encoded)
    requires Text(table, encoded) == Text(table, past) + delta
    requires n <= |past| && n <= |encoded| && past[..n] == encoded[..n]
    ensures Extends(table, front + past, |past| - n, encoded[n..], delta)
  {
    SplicedTokens(front + past, front, past, encoded, n);
    SpliceText(table, front, past, encoded, delta);
  }

  /** Text can only grow by a non-empty delta if at least one token is new. */
  lemma {:induction false} NewTokensNeeded(table: seq<string>, committed: seq<int>, rollback: nat, newTokens: seq<int>, delta: string)
    requires Extends(table, committed, rollback, newTokens, delta) && delta != ""
    ensures newTokens != []
  {
    var kept := committed[..|committed| - rollback];
    TextSplit(table, committed, |kept|);
    assert newTokens == [] ==> kept + newTokens == kept;
  }

  /** Compares the new tokens with the past ones and keeps what they share. */
  method Splice(table: seq<string>, committed: seq<int>, ghost front: seq<int>, past: seq<int>, encoded: seq<int>, ghost delta: string)
      returns (rollback: nat, newTokens: seq<int>)
    requires committed == front + past && Known(table, front) && Known(table, past) && Known(table, encoded)
    requires Text(table, encoded) == Text(table, past) + delta
    ensures Extends(table, committed, rollback, newTokens, delta)
    ensures rollback <= |past|
    ensures newTokens == [] <==> encoded <= past
    ensures committed[..|committed| - rollback] + newTokens == front + encoded
    ensures rollback > 0 && newTokens != [] ==> committed[|committed| - rollback] != newTokens[0]
  {
    var n := FirstDiffer(past, encoded);
    SplicedTokens(committed, front, past, encoded, n);
    SpliceExtends(table, front, past, encoded, delta, n);
    rollback, newTokens := |past| - n, encoded[n..];
  }

  /** How much of the new string is taken.  If the last token of the new encoding is a prefix
      of another token it is left off: it would often be rolled back by the next decode. */
  ghost function JumpDelta(k: Tokenizer, encoded: seq<int>, newString: string): (delta: string)
    requires encoded != [] && Known(k.table, encoded)
    ensures delta <= newString
  {
    var last := encoded[|encoded| - 1];
    if !k.prefixMask(last) then newString
    else if |k.table[last]| >= |newString| then ""
    else newString[..|newString| - |k.table[last]|]
  }

  /** The tokens taken from the new encoding, when some are. */
  ghost function JumpTokens(k: Tokenizer, encoded: seq<int>): seq<int>
    requires encoded != []
  {
    var n := |encoded| - 1;
    if k.prefixMask(encoded[n]) then encoded[..n] else encoded
  }

  /** The committed tokens with the last ten, or all if there are fewer, rewritten. */
  ghost function Rewritten(committed: seq<int>, encoded: seq<int>): seq<int> {
    committed[..|committed| - if |committed| < 10 then |committed| else 10] + encoded
  }

  /** What retokenising with a new string comes to: JumpDelta says how far it goes, and unless
      that is nothing the last tokens are rewritten by the encoding of their text and the string. */
  ghost predicate JumpResult(k: Tokenizer, committed: seq<int>, newString: string, rollback: nat, newTokens: seq<int>, delta: string) {
    && Known(k.table, committed) && rollback <= |committed|
    && var m := if |committed| < 10 then |committed| else 10;
    && var encoded := k.encode(Text(k.table, committed[|committed| - m..]) + newString);
    && encoded != [] && Known(k.table, encoded)
    && delta == JumpDelta(k, encoded, newString)
    && if delta == "" then rollback == 0 && newTokens == []
       else newTokens != [] && (rollback > 0 ==> committed[|committed| - rollback] != newTokens[0]) &&
            committed[..|committed| - rollback] + newTokens == Rewritten(committed, JumpTokens(k, encoded))
  }

  /** Takes over the tokens of a new encoding that adds some text. */
  method Take(k: Tokenizer, committed: seq<int>, past: seq<int>, encoded: seq<int>, ghost delta: string)
      returns (rollback: nat, newTokens: seq<int>)
    requires Known(k.table, committed) && Known(k.table, encoded) && past == Past(committed) && delta != ""
    requires Text(k.table, encoded) == Text(k.table, past) + delta
    ensures Extends(k.table, committed, rollback, newTokens, delta)
    ensures rollback <= MAX_ROLLBACK && rollback <= |committed|
    ensures newTokens != []
    ensures rollback > 0 ==> committed[|committed| - rollback] != newTokens[0]
    ensures committed[..|committed| - rollback] + newTokens == Rewritten(committed, encoded)
  {
    ghost var front := BeforePast(committed);
    rollback, newTokens := Splice(k.table, committed, front, past, encoded, delta);
    NewTokensNeeded(k.table, committed, rollback, newTokens, delta);
  }

  /** Taking over what JumpTokens says is what is asked for. */
  lemma Taken(k: Tokenizer, committed: seq<int>, newString: string, encoded: seq<int>, rollback: nat, newTokens: seq<int>, delta: string)
    requires Known(k.table, committed) && Known(k.table, encoded) && encoded != [] && rollback <= |committed|
    requires encoded == k.encode(Text(k.table, Past(committed)) + newString) && delta == JumpDelta(k, encoded, newString) != ""
    requires newTokens != [] && (rollback > 0 ==> committed[|committed| - rollback] != newTokens[0])
    requires committed[..|committed| - rollback] + newTokens == Rewritten(committed, JumpTokens(k, encoded))
    ensures JumpResult(k, committed, newString, rollback, newTokens, delta)
  {}

  method RetokenizeWithNewString(k: Tokenizer, committed: seq<int>, newString: string)
      returns (rollback: nat, newTokens: seq<int>, delta: string)
    requires Faithful(k) && Known(k.table, committed) && newString != ""
    ensures Extends(k.table, committed, rollback, newTokens, delta)
    ensures rollback <= MAX_ROLLBACK
    ensures JumpResult(k, committed, newString, rollback, newTokens, delta)
  {
    assert Text(k.table, k.encode(Text(k.table, Past(committed)) + newString)) != "";
    var pastString := PastString(k, Past(committed));
    var encoded := k.encode(pastString + newString);
    if k.prefixMask(encoded[|encoded| - 1]) {
      rollback, newTokens, delta := TakeButLast(k, committed, encoded, pastString, newString);
    } else {
      delta := newString;
      rollback, newTokens := Take(k, committed, Past(committed), encoded, delta);
    }
  }

  /** The last token is left off, or nothing is taken if it covers the new string. */
  method TakeButLast(k: Tokenizer, committed: seq<int>, encoded: seq<int>, pastString: string, newString: string)
      returns (rollback: nat, newTokens: seq<int>, delta: string)
    requires Known(k.table, committed) && Known(k.table, encoded) && encoded != [] && newString != ""
    requires pastString == Text(k.table, Past(committed)) && encoded == k.encode(pastString + newString)
    requires Text(k.table, encoded) == pastString + newString && k.prefixMask(encoded[|encoded| - 1])
    ensures Extends(k.table, committed, rollback, newTokens, delta)
    ensures rollback <= MAX_ROLLBACK
    ensures JumpResult(k, committed, newString, rollback, newTokens, delta)
  {
    var lastToken := k.table[encoded[|encoded| - 1]];
    if |lastToken| >= |newString| {
      assert committed[..|committed| - 0] + [] == committed;
      return 0, [], "";
    }
    LeftOff(k, encoded, pastString, newString);
    delta := newString[..|newString| - |lastToken|];
    assert delta == JumpDelta(k, encoded, newString) != "";
    rollback, newTokens := Take(k, committed, Past(committed), encoded[..|encoded| - 1], delta);
    Taken(k, committed, newString, encoded, rollback, newTokens, delta);
  }

  /** Leaving off the last token takes its text from the end of the new string. */
  lemma LeftOff(k: Tokenizer, encoded: seq<int>, pastString: string, newString: string)
    requires encoded != [] && Known(k.table, encoded) && Text(k.table, encoded) == pastString + newString
    requires |k.table[encoded[|encoded| - 1]]| <= |newString|
    ensures var n := |encoded| - 1;
      Known(k.table, encoded[..n]) &&
      Text(k.table, encoded[..n]) == pastString + newString[..|newString| - |k.table[encoded[n]]|]
  {
    TextLast(k.table, encoded);
    DropSuffix(Text(k.table, encoded[..|encoded| - 1]), k.table[encoded[|encoded| - 1]], pastString, newString);
  }

  lemma DropSuffix(a: string, b: string, c: string, d: string)
    requires a + b == c + d && |b| <= |d|
    ensures a == c + d[..|d| - |b|] && d[..|d| - |b|] + b == d
  {
    assert a == (a + b)[..|a|];
    assert b == (a + b)[|a|..];
    assert d == (c + d)[|c|..];
  }

  method RetokenizeWithNewToken(k: Tokenizer, committed: seq<int>, tokenId: int) returns (rollback: nat, newTokens: seq<int>)
    requires Faithful(k) && Known(k.table, committed) && 0 <= tokenId < |k.table|
    ensures Extends(k.table, committed, rollback, newTokens, k.table[tokenId])
    ensures rollback <= MAX_ROLLBACK
    ensures newTokens == [] <==> NothingNew(k, committed, tokenId)
    ensures newTokens == [] ==> k.table[tokenId] == ""
    ensures rollback > 0 && newTokens != [] ==> committed[|committed| - rollback] != newTokens[0]
    ensures Committed(k, true, committed, committed[..|committed| - rollback] + newTokens, tokenId)
  {
    var past := Past(committed);
    var pastString := PastString(k, past);
    newTokens := k.encode(pastString + k.table[tokenId]);
    ghost var front := BeforePast(committed);
    rollback, newTokens := Splice(k.table, committed, front, past, newTokens, k.table[tokenId]);
    if k.table[tokenId] != "" {
      NewTokensNeeded(k.table, committed, rollback, newTokens, k.table[tokenId]);
    }
  }

  // ----- a token without text ------------------------------------------------------------

  /** A tokenizer with one token per character, and one token, 0, that has no text. */
  function CharTokenizer(): Tokenizer {
    Tokenizer(
      seq(0x11_0001, i requires 0 <= i < 0x11_0001 =>
        if i == 0 || 0xD800 < i <= 0xE000 then "" else [(i - 1) as char]),
      s => seq(|s|, i requires 0 <= i < |s| => s[i] as int + 1),
      _ => false)
  }

  lemma {:induction false} CharTokenizerText(s: string)
    ensures Known(CharTokenizer().table, CharTokenizer().encode(s))
    ensures Text(CharTokenizer().table, CharTokenizer().encode(s)) == s
  {
    var k := CharTokenizer();
    if s != "" {
      CharTokenizerText(s[1..]);
      assert k.encode(s)[1..] == k.encode(s[1..]);
      assert s == [s[0]] + s[1..];
    }
  }

  /** Faithful tokenizers exist, and under one of them a sampled token without text leaves no
      token to decode: the guard of the next decode fails.  CommitTokenMayRetokenize states
      exactly when this happens, and that it needs a token without text. */
  lemma TextlessTokenStalls()
    ensures var k := CharTokenizer(); var committed := [98, 99];
            && Faithful(k) && Known(k.table, committed) && k.table[0] == ""
            && NothingNew(k, committed, 0)
  {
    forall s ensures Known(CharTokenizer().table, CharTokenizer().encode(s)) && Text(CharTokenizer().table, CharTokenizer().encode(s)) == s {
      CharTokenizerText(s);
    }
    var k := CharTokenizer();
    assert k.encode("ab") == [98, 99];
    assert "ab" + k.table[0] == "ab";
  }

  /** The occurrence counts of the committed tokens. */
  ghost predicate Counts(appeared: map<int, nat>, committed: seq<int>) {
    && (forall t :: t in appeared <==> t in multiset(committed))
    && (forall t :: t in appeared ==> appeared[t] == multiset(committed)[t])
  }

  lemma CountsWithoutLast(appeared: map<int, nat>, committed: seq<int>)
    requires Counts(appeared, committed) && committed != []
    ensures var t := committed[|committed| - 1];
            && t in appeared && appeared[t] >= 1
            && Counts(if appeared[t] == 1 then appeared - {t} else appeared[t := appeared[t] - 1], committed[..|committed| - 1])
  {
    var n := |committed| - 1;
    assert committed == committed[..n] + [committed[n]];
  }

  /** The streaming position is kept when tokens behind it are replaced, and moves to the end,
      with the new text put aside, when tokens before it are. */
  ghost predicate Aligned(table: seq<string>, committed: seq<int>, next: nat, delivered: string) {
    Known(table, committed) && next <= |committed| && delivered == Text(table, committed[..next])
  }

  lemma AlignedKept(table: seq<string>, committed: seq<int>, next: nat, delivered: string, rollback: nat, newTokens: seq<int>)
    requires Aligned(table, committed, next, delivered) && Known(table, newTokens)
    requires rollback <= |committed| - next
    ensures Aligned(table, committed[..|committed| - rollback] + newTokens, next, delivered)
  {
    var c := committed[..|committed| - rollback] + newTokens;
    assert c[..next] == committed[..next];
  }

  lemma AlignedMoved(table: seq<string>, committed: seq<int>, next: nat, delivered: string, c: seq<int>, delta: string)
    requires Aligned(table, committed, next, delivered)
    requires Known(table, c) && Text(table, c) == Text(table, committed) + delta
    ensures Aligned(table, c, |c|, delivered + Text(table, committed[next..]) + delta)
  {
    TextSplit(table, committed, next);
    assert c[..|c|] == c;
  }

  class Generation {
    const k: Tokenizer
    const promptLen: nat
    const stopTokens: set<int>
    var committed: seq<int>
    var appeared: map<int, nat>
    var numTokensForNextDecode: nat
    var kvLen: nat
    var nextCallbackPos: nat
    var extraPrefix: string
    var requireRetokenization: bool
    /** The text delivered to the client so far. */
    ghost var streamed: string

    /** Streamed text and the text put aside are the text before the streaming position;
        the KV cache holds the prompt and all committed tokens but those still to decode. */
    ghost predicate Valid()
      reads this
    {
      && Faithful(k)
      && Aligned(k.table, committed, nextCallbackPos, streamed + extraPrefix)
      && Counts(appeared, committed)
      && numTokensForNextDecode <= |committed|
      && kvLen + numTokensForNextDecode == promptLen + |committed|
    }

    ghost function FullText(): string
      reads this
      requires Known(k.table, committed)
    {
      Text(k.table, committed)
    }

    /** The end of prefill: the prompt is in the KV cache and one token has been sampled. */
    constructor (k: Tokenizer, promptLen: nat, stopTokens: set<int>, first: int)
      requires Faithful(k) && 0 <= first < |k.table|
      ensures Valid() && this.k == k && this.promptLen == promptLen
      ensures this.stopTokens == stopTokens
      ensures committed == [first] && numTokensForNextDecode == 1
      ensures streamed == "" && !requireRetokenization
    {
      this.k, this.promptLen, this.stopTokens := k, promptLen, stopTokens;
      committed, appeared, numTokensForNextDecode := [first], map[first := 1], 1;
      kvLen, nextCallbackPos, extraPrefix, requireRetokenization := promptLen, 0, "", false;
      streamed := "";
      assert Text(k.table, [first]) == k.table[first];
    }

    /** Whatever has happened, the client will have received exactly the committed text. */
    lemma StreamInvariant()
      requires Valid()
      ensures streamed + extraPrefix + Text(k.table, committed[nextCallbackPos..]) == FullText()
    {
      TextSplit(k.table, committed, nextCallbackPos);
    }

    // ----- request_state.cc ----------------------------------------------------------------

    method CommitToken(t: int)
      requires Counts(appeared, committed)
      modifies this`committed, this`appeared, this`numTokensForNextDecode
      ensures committed == old(committed) + [t]
      ensures Counts(appeared, committed)
      ensures numTokensForNextDecode == old(numTokensForNextDecode) + 1
    {
      committed := committed + [t];
      appeared := appeared[t := if t in appeared then appeared[t] + 1 else 1];
      numTokensForNextDecode := numTokensForNextDecode + 1;
    }

    method CommitTokens(tokens: seq<int>)
      requires Counts(appeared, committed)
      modifies this`committed, this`appeared, this`numTokensForNextDecode
      ensures committed == old(committed) + tokens
      ensures Counts(appeared, committed)
      ensures numTokensForNextDecode == old(numTokensForNextDecode) + |tokens|
    {
      for i := 0 to |tokens|
        invariant committed == old(committed) + tokens[..i] && Counts(appeared, committed)
        invariant numTokensForNextDecode == old(numTokensForNextDecode) + i
      {
        CommitToken(tokens[i]);
        assert tokens[..i + 1] == tokens[..i] + [tokens[i]];
      }
      assert tokens[..|tokens|] == tokens;
    }

    /** The counts never run out: the CHECK in the loop cannot fail. */
    method RollbackTokens(count: nat)
      requires Counts(appeared, committed) && count <= |committed|
      modifies this`committed, this`appeared
      ensures committed == old(committed)[..|old(committed)| - count]
      ensures Counts(appeared, committed)
    {
      for i := 0 to count
        invariant i <= |old(committed)| && committed == old(committed)[..|old(committed)| - i] && Counts(appeared, committed)
      {
        var n := |committed| - 1;
        var t := committed[n];
        CountsWithoutLast(appeared, committed);
        appeared := if appeared[t] == 1 then appeared - {t} else appeared[t := appeared[t] - 1];
        committed := committed[..n];
      }
    }

    /** GetDeltaRequestReturn without stop conditions: everything committed is handed over. */
    method Stream() returns (prefix: string, tokens: seq<int>)
      requires Valid()
      modifies this`extraPrefix, this`nextCallbackPos, this`streamed
      ensures Valid() && streamed == FullText()
      ensures Known(k.table, tokens)
      ensures streamed == old(streamed) + prefix + Text(k.table, tokens)
      ensures extraPrefix == "" && nextCallbackPos == |committed|
    {
      StreamInvariant();
      prefix := extraPrefix;
      extraPrefix := "";
      tokens := committed[nextCallbackPos..];
      nextCallbackPos := |committed|;
      streamed := streamed + prefix + Text(k.table, tokens);
      assert committed[..|committed|] == committed;
    }

    // ----- the rollback of streamed output ----------------------------------------------------

    /** When tokens that were already streamed are rolled back, the text that follows them is
        put aside and the new tokens count as streamed. */
    method RollbackStream(rollback: nat, newTokens: seq<int>, delta: string)
      requires Aligned(k.table, committed, nextCallbackPos, streamed + extraPrefix)
      requires Extends(k.table, committed, rollback, newTokens, delta)
      modifies this`extraPrefix, this`nextCallbackPos
      ensures Aligned(k.table, committed[..|committed| - rollback] + newTokens, nextCallbackPos, streamed + extraPrefix)
      ensures if old(nextCallbackPos) <= |committed| - rollback
              then nextCallbackPos == old(nextCallbackPos) && extraPrefix == old(extraPrefix)
              else nextCallbackPos == |committed| - rollback + |newTokens|
    {
      if rollback > |committed| - nextCallbackPos {
        AlignedMoved(k.table, committed, nextCallbackPos, streamed + extraPrefix, committed[..|committed| - rollback] + newTokens, delta);
        var rest := PastString(k, committed[nextCallbackPos..]);
        assert streamed + (extraPrefix + rest + delta) == streamed + extraPrefix + rest + delta;
        extraPrefix := extraPrefix + rest + delta;
        nextCallbackPos := |committed| - rollback + |newTokens|;
      } else {
        AlignedKept(k.table, committed, nextCallbackPos, streamed + extraPrefix, rollback, newTokens);
      }
    }

    /** Tokens that are not in the KV cache yet are dropped first, the others are popped from it. */
    method RollbackKv(rollback: nat)
      requires rollback <= kvLen + numTokensForNextDecode
      modifies this`numTokensForNextDecode, this`kvLen
      ensures kvLen + numTokensForNextDecode == old(kvLen) + old(numTokensForNextDecode) - rollback
      ensures numTokensForNextDecode ==
                if rollback > old(numTokensForNextDecode) then 0 else old(numTokensForNextDecode) - rollback
    {
      if rollback > numTokensForNextDecode {
        kvLen := kvLen - (rollback - numTokensForNextDecode);
        numTokensForNextDecode := 0;
      } else {
        numTokensForNextDecode := numTokensForNextDecode - rollback;
      }
    }

    /** The streaming position moves, to the end, only if tokens before it are rolled back. */
    ghost predicate StreamAfter(next: nat, prefix: string, kept: int)
      reads this
    {
      if next <= kept then nextCallbackPos == next && extraPrefix == prefix else nextCallbackPos == |committed|
    }

    /** HandleRollback and the commit loop: the last `rollback` tokens give way to `newTokens`,
        in the committed tokens, in the stream and in the KV cache. */
    method ReplaceTail(rollback: nat, newTokens: seq<int>, delta: string)
      requires Valid() && Extends(k.table, committed, rollback, newTokens, delta)
      modifies this`extraPrefix, this`nextCallbackPos, this`committed, this`appeared, this`numTokensForNextDecode, this`kvLen
      ensures Valid()
      ensures committed == old(committed)[..|old(committed)| - rollback] + newTokens
      ensures FullText() == old(FullText()) + delta
      ensures StreamAfter(old(nextCallbackPos), old(extraPrefix), |old(committed)| - rollback)
      ensures numTokensForNextDecode == |newTokens| +
                if rollback > old(numTokensForNextDecode) then 0 else old(numTokensForNextDecode) - rollback
    {
      ghost var kept := committed[..|committed| - rollback];
      RollbackStream(rollback, newTokens, delta);
      if rollback > 0 {
        RollbackTokens(rollback);
      }
      assert committed == kept;
      RollbackKv(rollback);
      CommitTokens(newTokens);
    }

    // ----- batch_jumpforward.cc ----------------------------------------------------------------

    ghost predicate Jumped(before: seq<int>, jumpString: string, delta: string, rollback: nat, newTokens: seq<int>)
      reads this
    {
      && rollback <= MAX_ROLLBACK && rollback <= |before|
      && Known(k.table, before) && Known(k.table, committed)
      && (if jumpString == "" then delta == "" && rollback == 0 && newTokens == []
          else JumpResult(k, before, jumpString, rollback, newTokens, delta))
      && committed == before[..|before| - rollback] + newTokens
      && FullText() == Text(k.table, before) + delta
    }

    /** What the KV cache holds after a rollback: no more than it held, and only what is shared. */
    ghost predicate KvAfter(held: nat, before: seq<int>, rollback: nat)
      reads this
    {
      && SharedLength(before, committed) == |before| - rollback
      && kvLen == if held < promptLen + |before| - rollback then held else promptLen + |before| - rollback
    }

    /** Retokenises with the string and takes over the result. */
    method Jump(jumpString: string) returns (delta: string, rollback: nat, newTokens: seq<int>)
      requires Valid() && jumpString != ""
      modifies this`extraPrefix, this`nextCallbackPos, this`committed, this`appeared, this`numTokensForNextDecode, this`kvLen
      ensures Valid()
      ensures numTokensForNextDecode == 0 <==> old(numTokensForNextDecode) == 0 && delta == ""
      ensures Jumped(old(committed), jumpString, delta, rollback, newTokens)
      ensures KvAfter(old(kvLen), old(committed), rollback)
      ensures StreamAfter(old(nextCallbackPos), old(extraPrefix), |old(committed)| - rollback)
    {
      rollback, newTokens, delta := RetokenizeWithNewString(k, committed, jumpString);
      SharedWithSpliced(committed, rollback, newTokens);
      ReplaceTail(rollback, newTokens, delta);
    }

    /** One jump-forward: the text grows by as much of the string the grammar forces as
        JumpDelta says, and there is nothing to decode only if there was nothing before. */
    method JumpForward(jumpString: string) returns (delta: string, rollback: nat, newTokens: seq<int>)
      requires Valid()
      modifies this
      ensures Valid() && streamed == old(streamed)
      ensures requireRetokenization == (old(requireRetokenization) || jumpString != "")
      ensures numTokensForNextDecode == 0 <==> old(numTokensForNextDecode) == 0 && delta == ""
      ensures Jumped(old(committed), jumpString, delta, rollback, newTokens)
      ensures KvAfter(old(kvLen), old(committed), rollback)
      ensures StreamAfter(old(nextCallbackPos), old(extraPrefix), |old(committed)| - rollback)
    {
      if jumpString == "" {
        assert committed[..|committed| - 0] + [] == committed;
        SharedWithSpliced(committed, 0, []);
        return "", 0, [];
      }
      delta, rollback, newTokens := Jump(jumpString);
      requireRetokenization := true;
    }

    // ----- batch_decode.cc ---------------------------------------------------------------------

    /** The sampled token is committed as the tokenizer would have written it.  All committed
        tokens are in the KV cache, so every token rolled back is popped from it. */
    method CommitTokenMayRetokenize(sampled: int)
      requires Valid() && 0 <= sampled < |k.table| && numTokensForNextDecode == 0
      modifies this`extraPrefix, this`nextCallbackPos, this`committed, this`appeared, this`numTokensForNextDecode, this`kvLen
      ensures Valid()
      ensures FullText() == old(FullText()) + k.table[sampled]
      ensures Committed(k, sampled !in stopTokens, old(committed), committed, sampled)
      ensures kvLen == promptLen + SharedLength(old(committed), committed)
      ensures StreamAfter(old(nextCallbackPos), old(extraPrefix), kvLen - promptLen)
      ensures numTokensForNextDecode == 0 <==> sampled !in stopTokens && NothingNew(k, old(committed), sampled)
      ensures numTokensForNextDecode == 0 ==> k.table[sampled] == ""
    {
      if sampled in stopTokens {
        CommitPlain(sampled);
        return;
      }
      var rollback, newTokens := RetokenizeWithNewToken(k, committed, sampled);
      SharedWithSpliced(committed, rollback, newTokens);
      ReplaceTail(rollback, newTokens, k.table[sampled]);
    }

    method CommitPlain(sampled: int)
      requires Valid() && 0 <= sampled < |k.table|
      modifies this`committed, this`appeared, this`numTokensForNextDecode
      ensures Valid() && committed == old(committed) + [sampled]
      ensures FullText() == old(FullText()) + k.table[sampled]
      ensures numTokensForNextDecode == old(numTokensForNextDecode) + 1
      ensures SharedLength(old(committed), committed) == |old(committed)|
    {
      TextConcat(k.table, committed, [sampled]);
      assert Text(k.table, [sampled]) == k.table[sampled];
      assert (committed + [sampled])[..nextCallbackPos] == committed[..nextCallbackPos];
      SharedLengthIs(committed, committed + [sampled], 0, |committed|);
      CommitToken(sampled);
    }

    /** One decode: feeds the pending tokens to the KV cache, then commits a sampled token.
        `inputs` are the tokens fed.  After a jump forward the last tokens are retokenised with
        the sampled one; what the KV cache keeps is what old and new tokens share.  The check that
        there are some to feed fails exactly after a jump forward and a sampled token that
        re-encodes to nothing new. */
    method Decode(sampled: int) returns (ok: bool, inputs: seq<int>)
      requires Valid() && 0 <= sampled < |k.table|
      modifies this
      ensures Valid() && (ok <==> old(numTokensForNextDecode) > 0)
      ensures !ok ==> inputs == [] && unchanged(this)
      ensures ok ==> FullText() == old(FullText()) + k.table[sampled] && streamed == old(streamed) && !requireRetokenization
      ensures ok ==> inputs == old(committed)[|old(committed)| - old(numTokensForNextDecode)..]
      ensures ok ==> Committed(k, old(requireRetokenization) && sampled !in stopTokens, old(committed), committed, sampled)
      ensures ok ==> kvLen == promptLen + SharedLength(old(committed), committed)
      ensures ok ==> StreamAfter(old(nextCallbackPos), old(extraPrefix), kvLen - promptLen)
      ensures ok ==> (numTokensForNextDecode == 0 <==>
                        old(requireRetokenization) && sampled !in stopTokens && NothingNew(k, old(committed), sampled))
      ensures ok && numTokensForNextDecode == 0 ==> k.table[sampled] == ""
    {
      if numTokensForNextDecode == 0 {
        return false, [];
      }
      ok := true;
      inputs := Feed();
      CommitSampled(sampled);
    }

    /** The sampled token is retokenised only after a jump forward. */
    method CommitSampled(sampled: int)
      requires Valid() && 0 <= sampled < |k.table| && numTokensForNextDecode == 0
      modifies this
      ensures Valid() && !requireRetokenization && streamed == old(streamed)
      ensures FullText() == old(FullText()) + k.table[sampled]
      ensures Committed(k, old(requireRetokenization) && sampled !in stopTokens, old(committed), committed, sampled)
      ensures kvLen == promptLen + SharedLength(old(committed), committed)
      ensures StreamAfter(old(nextCallbackPos), old(extraPrefix), kvLen - promptLen)
      ensures numTokensForNextDecode == 0 <==>
                old(requireRetokenization) && sampled !in stopTokens && NothingNew(k, old(committed), sampled)
      ensures numTokensForNextDecode == 0 ==> k.table[sampled] == ""
    {
      if !requireRetokenization {
        CommitPlain(sampled);
      } else {
        CommitTokenMayRetokenize(sampled);
        requireRetokenization := false;
      }
    }

    /** The pending tokens enter the KV cache. */
    method Feed() returns (inputs: seq<int>)
      requires Valid()
      modifies this`numTokensForNextDecode, this`kvLen
      ensures Valid() && numTokensForNextDecode == 0
      ensures inputs == committed[|committed| - old(numTokensForNextDecode)..]
    {
      inputs := committed[|committed| - numTokensForNextDecode..];
      kvLen := kvLen + numTokensForNextDecode;
      numTokensForNextDecode := 0;
    }
  }

  /** A generation that stalls: after one jump forward the model samples the token without
      text, no token is left to decode, and the next decode fails its check. */
  method StalledGeneration() returns (g: Generation, ok: bool)
    ensures fresh(g) && g.Valid() && g.numTokensForNextDecode == 0
    ensures !ok
  {
    TextlessTokenStalls();
    JumpByOneChar();
    var k := CharTokenizer();
    g := new Generation(k, 1, {}, 98);
    var delta, rollback, newTokens := g.JumpForward("b");
    assert g.committed == [98, 99];
    var inputs;
    ok, inputs := g.Decode(0);
    ok, inputs := g.Decode(98);
  }

  lemma JumpByOneChar()
    ensures var k := CharTokenizer();
      && Known(k.table, [98]) && k.encode(Text(k.table, Past([98])) + "b") == [98, 99] && Known(k.table, [98, 99])
      && JumpDelta(k, [98, 99], "b") == "b" && Rewritten([98], JumpTokens(k, [98, 99])) == [98, 99]
  {
    var k := CharTokenizer();
    assert Text(k.table, [98]) == "a" && "a" + "b" == "ab";
    assert k.encode("ab") == [98, 99];
  }
}
