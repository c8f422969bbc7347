/**
  The stop string handler: withholds whole tokens that may turn out to be part of a stop
  string, and stops at the first character where one ends.
  */
module StopStrHandlers {
  import opened Kmp
  import opened TokenText

  /** Stop string `s` ends at the end of `text`. */
  predicate Stops(text: string, s: string) {
    |s| <= |text| && text[|text| - |s|..] == s
  }

  ghost predicate SomeStop(text: string, stops: seq<string>) {
    exists i :: 0 <= i < |stops| && Stops(text, stops[i])
  }

  ghost predicate QuietAt(text: string, stops: seq<string>, n: int) {
    0 <= n <= |text| ==> !SomeStop(text[..n], stops)
  }

  /** No stop string ends anywhere in `text`. */
  ghost predicate Quiet(text: string, stops: seq<string>) {
    forall n {:trigger QuietAt(text, stops, n)} :: QuietAt(text, stops, n)
  }

  lemma QuietStep(text: string, ch: char, stops: seq<string>)
    requires Quiet(text, stops) && !SomeStop(text + [ch], stops)
    ensures Quiet(text + [ch], stops)
  {
    var t := text + [ch];
    forall n ensures QuietAt(t, stops, n) {
      assert QuietAt(text, stops, n);
      if 0 <= n <= |text| {
        assert t[..n] == text[..n];
      } else {
        assert n == |t| ==> t[..n] == t;
      }
    }
  }

  /** A full match of the automaton is the stop string itself. */
  lemma FullMatch(text: string, s: string, m: int)
    requires Longest(text, s, m)
    ensures m == |s| <==> Stops(text, s)
  {
    assert s[..|s|] == s;
    if Stops(text, s) {
      assert EndsWith(text, s, |s|);
    }
  }

  ghost predicate TableFact(stops: seq<string>, tables: seq<seq<int>>, i: int) {
    0 <= i < |stops| && i < |tables| ==>
      stops[i] != "" && |tables[i]| == |stops[i]| && IsTable(stops[i], tables[i])
  }

  /** The automaton of stop string `i` is at its longest match, which is not the whole string
      and lies within the last `pending` characters. */
  ghost predicate MatchFact(text: string, stops: seq<string>, matches: seq<int>, pending: int, i: int) {
    0 <= i < |stops| && i < |matches| ==>
      Longest(text, stops[i], matches[i]) && matches[i] < |stops[i]| && matches[i] <= pending
  }

  /** The same after one more character, where the whole string may have been matched. */
  ghost predicate AdvanceFact(text: string, stops: seq<string>, matches: seq<int>, i: int) {
    0 <= i < |stops| && i < |matches| ==>
      Longest(text, stops[i], matches[i]) && (matches[i] == |stops[i]| <==> Stops(text, stops[i]))
  }

  class StopStrHandler {
    const stopStrs: seq<string>
    const tokenTable: seq<string>
    const tables: seq<seq<int>>
    var pendingStringLen: int
    var pendingIds: seq<int>
    var pendingLens: seq<nat>
    var stopTriggered: bool
    var curMatch: seq<int>
    // History: all tokens put and all handed back, and the characters read.
    ghost var put: seq<int>
    ghost var returned: seq<int>
    ghost var text: string

    ghost predicate TokensOk()
      reads this
    {
      && Known(tokenTable, put) && Known(tokenTable, returned) && Known(tokenTable, pendingIds)
      && put == returned + pendingIds && |pendingLens| == |pendingIds|
      && (forall j :: 0 <= j < |pendingIds| ==> pendingLens[j] == |tokenTable[pendingIds[j]]|)
    }

    ghost predicate TablesOk() {
      && |tables| == |stopStrs| > 0
      && (forall i {:trigger TableFact(stopStrs, tables, i)} :: TableFact(stopStrs, tables, i))
    }

    ghost predicate MatchesOk()
      reads this
    {
      && |curMatch| == |stopStrs|
      && (forall i {:trigger MatchFact(text, stopStrs, curMatch, pendingStringLen, i)} ::
            MatchFact(text, stopStrs, curMatch, pendingStringLen, i))
    }

    /** The characters of the tokens handed back. */
    ghost function Released(): nat
      reads this
      requires TokensOk()
    {
      |Text(tokenTable, returned)|
    }

    /** After reading `text`, with the characters `unread` of the last token still to come:
        every automaton is at its longest match, all of which is still pending. */
    ghost predicate Running(unread: string)
      reads this
    {
      && TokensOk() && TablesOk() && !stopTriggered && MatchesOk()
      && Text(tokenTable, put) == text + unread
      && 0 <= pendingStringLen == |text| - Released()
      && Quiet(text, stopStrs)
    }

    /** Stopped at the first character where a stop string ends, `text` being what was read;
        no token handed back reaches past the start of the longest one that ends there, and the
        first token withheld does. */
    ghost predicate Stopped()
      reads this
    {
      && TokensOk() && stopTriggered && text != "" && text <= Text(tokenTable, put)
      && SomeStop(text, stopStrs) && Quiet(text[..|text| - 1], stopStrs)
      && (forall i :: 0 <= i < |stopStrs| && Stops(text, stopStrs[i]) ==> Released() + |stopStrs[i]| <= |text|)
      && (pendingIds != [] ==>
            exists i :: 0 <= i < |stopStrs| && Stops(text, stopStrs[i]) && Released() + pendingLens[0] > |text| - |stopStrs[i]|)
    }

    ghost predicate Valid()
      reads this
    {
      TablesOk() && (Running("") || Stopped())
    }

    constructor (stopStrs: seq<string>, tokenTable: seq<string>)
      requires stopStrs != [] && forall i :: 0 <= i < |stopStrs| ==> stopStrs[i] != ""
      ensures Valid() && !stopTriggered && put == [] && returned == []
      ensures this.stopStrs == stopStrs && this.tokenTable == tokenTable
    {
      this.stopStrs, this.tokenTable := stopStrs, tokenTable;
      pendingStringLen, pendingIds, pendingLens, stopTriggered := 0, [], [], false;
      curMatch := seq(|stopStrs|, _ => 0);
      put, returned, text := [], [], "";
      var ts: seq<seq<int>> := [];
      for i := 0 to |stopStrs|
        invariant |ts| == i
        invariant forall j :: 0 <= j < i ==> |ts[j]| == |stopStrs[j]| && IsTable(stopStrs[j], ts[j])
      {
        var t := CreatePartialMatchTable(stopStrs[i]);
        ts := ts + [t];
      }
      tables := ts;
    }

    /** One step of the automaton of stop string `i`. */
    method MatchOne(i: nat, ch: char) returns (m: nat)
      requires TablesOk() && MatchesOk() && i < |stopStrs|
      ensures Longest(text + [ch], stopStrs[i], m)
      ensures m <= pendingStringLen + 1 && m <= |stopStrs[i]|
      ensures m == |stopStrs[i]| <==> Stops(text + [ch], stopStrs[i])
    {
      assert TableFact(stopStrs, tables, i) && MatchFact(text, stopStrs, curMatch, pendingStringLen, i);
      var r := Step(stopStrs[i], tables[i], curMatch[i], ch, text);
      if r > 0 {
        EndsWithStep(text, ch, stopStrs[i], r - 1);
      }
      FullMatch(text + [ch], stopStrs[i], r);
      m := r;
    }

    /** Runs all automata on one character.  `cutoff` is what is safe to hand back when nothing
        stops here; `stopStart` is where the longest stop string that ends here begins. */
    method MatchAll(ch: char) returns (stopped: bool, stopStart: int, cutoff: int, maxMatch: int)
      requires TablesOk() && MatchesOk() && 0 <= pendingStringLen
      modifies this`curMatch
      ensures |curMatch| == |stopStrs|
      ensures stopped <==> SomeStop(text + [ch], stopStrs)
      ensures stopped ==>
                && 0 <= stopStart
                && (exists i :: 0 <= i < |stopStrs| && Stops(text + [ch], stopStrs[i]) && stopStart == pendingStringLen + 1 - |stopStrs[i]|)
                && (forall i :: 0 <= i < |stopStrs| && Stops(text + [ch], stopStrs[i]) ==>
                      stopStart <= pendingStringLen + 1 - |stopStrs[i]|)
      ensures !stopped ==>
                && 0 <= cutoff == pendingStringLen + 1 - maxMatch && 0 <= maxMatch
                && (forall p, i {:trigger MatchFact(text + [ch], stopStrs, curMatch, p, i)} ::
                      maxMatch <= p ==> MatchFact(text + [ch], stopStrs, curMatch, p, i))
                && (exists i :: 0 <= i < |stopStrs| && curMatch[i] == maxMatch)
    {
      ghost var t := text + [ch];
      var next: seq<int> := [];
      // Every value compared with these is smaller, as with the largest integer.
      stopStart, cutoff := pendingStringLen + 2, pendingStringLen + 2;
      stopped, maxMatch := false, 0;
      ghost var live, longest := -1, -1;
      for i := 0 to |stopStrs|
        invariant |next| == i && curMatch == old(curMatch)
        invariant forall j {:trigger AdvanceFact(t, stopStrs, next, j)} :: AdvanceFact(t, stopStrs, next, j)
        invariant forall j :: 0 <= j < i ==> 0 <= next[j] <= |stopStrs[j]| && next[j] <= pendingStringLen + 1
        invariant !stopped ==> stopStart == pendingStringLen + 2
        invariant stopped ==> 0 <= longest < i && next[longest] == |stopStrs[longest]|
        invariant stopped ==> stopStart == pendingStringLen + 1 - |stopStrs[longest]|
        invariant forall j :: 0 <= j < i && next[j] == |stopStrs[j]| ==> stopped && stopStart <= pendingStringLen + 1 - next[j]
        invariant forall j :: 0 <= j < i && next[j] != |stopStrs[j]| ==> live != -1 && next[j] <= maxMatch
        invariant live == -1 ==> maxMatch == 0 && cutoff == pendingStringLen + 2
        invariant live != -1 ==> 0 <= live < i && next[live] == maxMatch && cutoff == pendingStringLen + 1 - maxMatch
      {
        var m := MatchOne(i, ch);
        ghost var before := next;
        next := next + [m];
        forall j ensures AdvanceFact(t, stopStrs, next, j) {
          assert AdvanceFact(t, stopStrs, before, j);
        }
        if m == |stopStrs[i]| {
          stopped := true;
          if pendingStringLen + 1 - |stopStrs[i]| < stopStart {
            stopStart := pendingStringLen + 1 - |stopStrs[i]|;
            longest := i;
          }
        } else {
          if pendingStringLen + 1 - m < cutoff {
            cutoff := pendingStringLen + 1 - m;
            live := i;
          }
          maxMatch := if maxMatch < m then m else maxMatch;
        }
      }
      curMatch := next;
      assert next[0] == |stopStrs[0]| || live != -1;
      forall i | 0 <= i < |stopStrs| ensures next[i] == |stopStrs[i]| <==> Stops(t, stopStrs[i]) {
        assert AdvanceFact(t, stopStrs, next, i);
      }
      forall p, i | !stopped && maxMatch <= p ensures MatchFact(t, stopStrs, curMatch, p, i) {
        assert AdvanceFact(t, stopStrs, next, i);
      }
    }

    /** Hands back the pending tokens that end within the first `cutoff` pending characters. */
    method Release(cutoff: int) returns (ret: seq<int>, cum: int)
      requires TokensOk() && cutoff >= 0
      modifies this`pendingIds, this`pendingLens, this`returned
      ensures TokensOk() && 0 <= cum <= cutoff
      ensures Released() == old(Released()) + cum
      ensures returned == old(returned) + ret
      ensures pendingIds != [] ==> cum + pendingLens[0] > cutoff
    {
      ret, cum := [], 0;
      while pendingIds != [] && cum + pendingLens[0] <= cutoff
        invariant TokensOk() && 0 <= cum <= cutoff && Released() == old(Released()) + cum
        invariant returned == old(returned) + ret
        decreases |pendingIds|
      {
        TextConcat(tokenTable, returned, [pendingIds[0]]);
        cum := cum + pendingLens[0];
        ret := ret + [pendingIds[0]];
        returned := returned + [pendingIds[0]];
        pendingIds := pendingIds[1..];
        pendingLens := pendingLens[1..];
      }
    }

    /** Nothing is withheld without need: the first pending token reaches into a match that
        may still become a stop string. */
    ghost predicate Tight()
      reads this
      requires TokensOk() && |curMatch| == |stopStrs|
    {
      pendingIds != [] ==>
        exists i :: 0 <= i < |stopStrs| && Released() + pendingLens[0] > |text| - curMatch[i]
    }

    /** A stop string ends with the character just read. */
    method StopAt(stopStart: int, ghost unread: string) returns (ret: seq<int>)
      requires TokensOk() && text != "" && Text(tokenTable, put) == text + unread && 0 <= stopStart
      requires SomeStop(text, stopStrs) && Quiet(text[..|text| - 1], stopStrs)
      requires pendingStringLen + 1 == |text| - Released()
      requires forall i :: 0 <= i < |stopStrs| && Stops(text, stopStrs[i]) ==>
                 stopStart <= pendingStringLen + 1 - |stopStrs[i]|
      requires exists i :: 0 <= i < |stopStrs| && Stops(text, stopStrs[i]) && stopStart == pendingStringLen + 1 - |stopStrs[i]|
      modifies this`stopTriggered, this`pendingIds, this`pendingLens, this`returned
      ensures Stopped() && returned == old(returned) + ret
    {
      stopTriggered := true;
      var cum;
      ret, cum := Release(stopStart);
      assert text <= text + unread;
    }

    /** No stop string ends with the character just read. */
    method GoOn(cutoff: int, maxMatch: int, ghost unread: string) returns (ret: seq<int>)
      requires TokensOk() && TablesOk() && !stopTriggered && |curMatch| == |stopStrs|
      requires Text(tokenTable, put) == text + unread && Quiet(text, stopStrs)
      requires pendingStringLen + 1 == |text| - Released() && 0 <= cutoff == pendingStringLen + 1 - maxMatch && 0 <= maxMatch
      requires forall p, i {:trigger MatchFact(text, stopStrs, curMatch, p, i)} ::
                 maxMatch <= p ==> MatchFact(text, stopStrs, curMatch, p, i)
      requires exists i :: 0 <= i < |stopStrs| && curMatch[i] == maxMatch
      modifies this`pendingIds, this`pendingLens, this`pendingStringLen, this`returned
      ensures Running(unread) && Tight()
      ensures returned == old(returned) + ret
    {
      var cum;
      ret, cum := Release(cutoff);
      pendingStringLen := (cutoff - cum) + maxMatch;
    }

    /** One character of the token being put. */
    method PutChar(ch: char, ghost unread: string) returns (ret: seq<int>)
      requires Running([ch] + unread)
      modifies this`curMatch, this`stopTriggered, this`pendingIds, this`pendingLens, this`pendingStringLen, this`returned, this`text
      ensures text == old(text) + [ch]
      ensures ReadTo(unread) && returned == old(returned) + ret
    {
      var stopped, stopStart, cutoff, maxMatch := MatchAll(ch);
      ghost var before := text;
      text := text + [ch];
      assert text + unread == before + ([ch] + unread);
      if stopped {
        assert text[..|text| - 1] == before;
        ret := StopAt(stopStart, unread);
      } else {
        QuietStep(before, ch, stopStrs);
        ret := GoOn(cutoff, maxMatch, unread);
      }
    }

    ghost predicate ReadTo(unread: string)
      reads this
    {
      if stopTriggered then Stopped() else Running(unread) && Tight()
    }

    /** The characters of a token, up to the first one where a stop string ends. */
    method PutChars(token: string) returns (ret: seq<int>)
      requires Running(token) && token != ""
      modifies this`curMatch, this`stopTriggered, this`pendingIds, this`pendingLens, this`pendingStringLen, this`returned, this`text
      ensures ReadTo("") && returned == old(returned) + ret
      ensures old(text) <= text
    {
      ret := [];
      var unread := token;
      while unread != "" && !stopTriggered
        invariant if unread == token then Running(token) && text == old(text) else ReadTo(unread)
        invariant returned == old(returned) + ret && old(text) <= text
        decreases |unread|
      {
        assert unread == [unread[0]] + unread[1..];
        var more := PutChar(unread[0], unread[1..]);
        ret, unread := ret + more, unread[1..];
      }
    }

    method AppendToken(tokenId: int)
      requires Running("") && 0 <= tokenId < |tokenTable|
      modifies this`pendingIds, this`pendingLens, this`put
      ensures Running(tokenTable[tokenId])
      ensures put == old(put) + [tokenId]
    {
      TextConcat(tokenTable, put, [tokenId]);
      assert Text(tokenTable, [tokenId]) == tokenTable[tokenId];
      pendingIds := pendingIds + [tokenId];
      pendingLens := pendingLens + [|tokenTable[tokenId]|];
      put := put + [tokenId];
    }

    lemma StopIffTriggered()
      requires Valid()
      ensures stopTriggered <==> SomeStop(text, stopStrs)
    {
      assert text[..|text|] == text && (Running("") ==> QuietAt(text, stopStrs, |text|));
    }

    /** Returns what may be handed back after one more token.  The text is read up to the first
        character where a stop string ends, or to its end. */
    method Put(tokenId: int) returns (ok: bool, ret: seq<int>)
      requires Valid()
      modifies this
      ensures Valid()
      ensures ok <==> !old(stopTriggered) && 0 <= tokenId < |tokenTable|
      ensures !ok ==> ret == [] && unchanged(this)
      ensures ok ==> put == old(put) + [tokenId] && returned == old(returned) + ret && returned + pendingIds == put
      ensures ok ==> old(text) <= text && (stopTriggered <==> SomeStop(text, stopStrs))
      ensures ok && !stopTriggered && tokenTable[tokenId] != "" ==> Tight()
    {
      ret := [];
      if stopTriggered || !(0 <= tokenId < |tokenTable|) {
        return false, ret;
      }
      AppendToken(tokenId);
      if tokenTable[tokenId] != "" {
        ret := PutChars(tokenTable[tokenId]);
      }
      StopIffTriggered();
      return true, ret;
    }
  }
}
