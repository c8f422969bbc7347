/** Printing and parsing UTF-8, as in section 3 of RFC 3629.  Strings end at a zero byte. */
module Utf8 {

  type Byte = x: int | 0 <= x < 0x100
  type Codepoint = int

  const INVALID_UTF8: Codepoint := -10

  datatype ErrorPolicy = ReturnInvalid | ReturnByte

  // Masks of low bits are remainders, a right shift by six bits is a quotient by 0x40, and `|`
  // of disjoint bits is a sum.

  // ----- printing ---------------------------------------------------------------------------

  /** The bits of c above the lowest n groups of six. */
  function HighBits(c: int, n: nat): int
    decreases n
  {
    if n == 0 then c else HighBits(c / 0x40, n - 1)
  }

  /** The lowest n groups of six bits, one continuation byte each. */
  function LowBits(c: int, n: nat): (r: seq<Byte>)
    ensures |r| == n
    decreases n
  {
    if n == 0 then [] else LowBits(c / 0x40, n - 1) + [0x80 + c % 0x40]
  }

  /** The first byte of a sequence with n continuation bytes. */
  function FirstByte(bits: int, n: nat): Byte {
    if n == 1 then 0xC0 + bits % 0x20 else if n == 2 then 0xE0 + bits % 0x10 else 0xF0 + bits % 0x08
  }

  function PrintAsUTF8(c: Codepoint): (r: seq<Byte>)
    requires c <= 0x10FFFF
  {
    if c <= 0x7F then [c % 0x100]
    else
      var n := if c <= 0x7FF then 1 else if c <= 0xFFFF then 2 else 3;
      [FirstByte(HighBits(c, n), n)] + LowBits(c, n)
  }

  ghost predicate Printable(cs: seq<Codepoint>) {
    forall i :: 0 <= i < |cs| ==> cs[i] <= 0x10FFFF
  }

  function PrintAll(cs: seq<Codepoint>): (r: seq<Byte>)
    requires Printable(cs)
  {
    if cs == [] then [] else PrintAsUTF8(cs[0]) + PrintAll(cs[1..])
  }

  // ----- parsing ----------------------------------------------------------------------------

  /** The length of a sequence by its first byte, zero when no sequence starts so. */
  function SequenceLength(b: Byte): nat {
    if b < 0x80 then 1 else if b < 0xC0 then 0 else if b < 0xE0 then 2 else if b < 0xF0 then 3
    else if b < 0xF8 then 4 else 0
  }

  /** The bits of the code point in the first byte of a sequence of length n. */
  function FirstBits(b: Byte, n: nat): Codepoint {
    if n == 1 then b % 0x80 else if n == 2 then b % 0x20 else if n == 3 then b % 0x10 else if n == 4 then b % 0x08 else 0
  }

  function HandleUTF8FirstByte(b: Byte): (bool, nat, Codepoint) {
    var n := SequenceLength(b);
    if n == 0 then (false, 0, 0) else (true, n, FirstBits(b, n))
  }

  predicate IsContinuation(b: Byte) {
    b != 0 && 0x80 <= b < 0xC0
  }

  function Shift(res: Codepoint, b: Byte): Codepoint {
    res * 0x40 + b % 0x40
  }

  /** The bits of continuation bytes, shifted in one after the other. */
  function Gather(res: Codepoint, tail: seq<Byte>): Codepoint
    decreases |tail|
  {
    if tail == [] then res else Gather(Shift(res, tail[0]), tail[1..])
  }

  /** The bytes from the first one on form one sequence of the announced length. */
  predicate Accepted(s: seq<Byte>)
    requires s != []
  {
    var n := SequenceLength(s[0]);
    n > 0 && n <= |s| && forall i :: 1 <= i < n ==> IsContinuation(s[i])
  }

  /** The first code point and the number of bytes it takes. */
  function Next(s: seq<Byte>, policy: ErrorPolicy): (r: (Codepoint, nat))
    requires s != []
    ensures r.1 <= |s| && (r.1 == 0 <==> r.0 == INVALID_UTF8)
  {
    if Accepted(s) then
      var (_, n, res) := HandleUTF8FirstByte(s[0]);
      GatheredIsSmall(s);
      (Gather(res, s[1..n]), n)
    else if policy == ReturnInvalid then (INVALID_UTF8, 0)
    else (s[0], 1)
  }

  lemma GatherUnrolled(res: Codepoint, tail: seq<Byte>)
    ensures |tail| == 0 ==> Gather(res, tail) == res
    ensures |tail| == 1 ==> Gather(res, tail) == Shift(res, tail[0])
    ensures |tail| == 2 ==> Gather(res, tail) == Shift(Shift(res, tail[0]), tail[1])
    ensures |tail| == 3 ==> Gather(res, tail) == Shift(Shift(Shift(res, tail[0]), tail[1]), tail[2])
  {
    if |tail| > 0 {
      assert Gather(res, tail) == Gather(Shift(res, tail[0]), tail[1..]);
      if |tail| > 1 {
        assert tail[1..][1..] == tail[2..];
        var two := Shift(Shift(res, tail[0]), tail[1]);
        assert Gather(Shift(res, tail[0]), tail[1..]) == Gather(two, tail[2..]);
        if |tail| == 3 {
          assert tail[2..][1..] == [];
          assert Gather(two, tail[2..]) == Gather(Shift(two, tail[2]), []);
        }
      }
    }
  }

  lemma GatheredIsSmall(s: seq<Byte>)
    requires s != [] && Accepted(s)
    ensures var (_, n, res) := HandleUTF8FirstByte(s[0]); 0 <= Gather(res, s[1..n]) < 0x20_0000
  {
    var (_, n, res) := HandleUTF8FirstByte(s[0]);
    GatherUnrolled(res, s[1..n]);
  }

  /** All code points of a string; a single invalid one if parsing fails. */
  function Parse(s: seq<Byte>, policy: ErrorPolicy): (r: seq<Codepoint>)
    decreases |s|
  {
    if s == [] || s[0] == 0 then []
    else
      var (c, n) := Next(s, policy);
      if c == INVALID_UTF8 then [INVALID_UTF8]
      else
        Joined([c], Parse(s[n..], policy))
  }

  /** The pointer is given as the string that starts there; `n` is how far it moves. */
  method ParseNextUTF8(s: seq<Byte>, policy: ErrorPolicy) returns (c: Codepoint, n: nat)
    requires s != []
    ensures (c, n) == Next(s, policy)
  {
    var (accepted, length, res) := HandleUTF8FirstByte(s[0]);
    c := res;
    if accepted {
      var i := 1;
      ghost var tail := [];
      while i < length
        invariant 1 <= i <= length && i <= |s| && accepted
        invariant forall k :: 1 <= k < i ==> IsContinuation(s[k])
        invariant tail == s[1..i] && Gather(res, tail) == c
      {
        var b := if i < |s| then s[i] else 0;
        if b == 0 || !(0x80 <= b < 0xC0) {
          accepted := false;
          break;
        }
        GatherLast(res, tail, b);
        assert s[1..i + 1] == s[1..i] + [b];
        tail := tail + [b];
        c := Shift(c, b);
        i := i + 1;
      }
    }
    assert accepted <==> Accepted(s);
    if !accepted {
      if policy == ReturnInvalid {
        return INVALID_UTF8, 0;
      }
      return s[0], 1;
    }
    n := length;
  }

  method ParseUTF8(s: seq<Byte>, policy: ErrorPolicy) returns (codepoints: seq<Codepoint>)
    ensures codepoints == Parse(s, policy)
  {
    codepoints := [];
    var rest := s;
    while rest != [] && rest[0] != 0
      invariant Joined(codepoints, Parse(rest, policy)) == Parse(s, policy)
      decreases |rest|
    {
      var c, n := ParseNextUTF8(rest, policy);
      if c == INVALID_UTF8 {
        return [INVALID_UTF8];
      }
      JoinedInTurn(codepoints, c, Parse(rest[n..], policy));
      codepoints := codepoints + [c];
      rest := rest[n..];
    }
  }

  /** What is parsed so far and the rest: a failure discards the former. */
  function Joined(before: seq<Codepoint>, rest: seq<Codepoint>): seq<Codepoint> {
    if rest == [INVALID_UTF8] then rest else before + rest
  }

  lemma JoinedInTurn(before: seq<Codepoint>, c: Codepoint, rest: seq<Codepoint>)
    requires c != INVALID_UTF8
    ensures Joined(before, Joined([c], rest)) == Joined(before + [c], rest)
  {
    if rest != [INVALID_UTF8] {
      assert ([c] + rest)[0] != INVALID_UTF8;
      assert before + ([c] + rest) == before + [c] + rest;
    }
  }

  lemma {:induction false} GatherLast(res: Codepoint, tail: seq<Byte>, b: Byte)
    ensures Gather(res, tail + [b]) == Shift(Gather(res, tail), b)
    decreases |tail|
  {
    if tail == [] {
      assert Gather(res, [b]) == Gather(Shift(res, b), []);
    } else {
      assert (tail + [b])[1..] == tail[1..] + [b];
      GatherLast(Shift(res, tail[0]), tail[1..], b);
    }
  }

  // ----- round trips ------------------------------------------------------------------------

  /** The bytes of one sequence: a first byte that announces its length, then continuation bytes. */
  predicate IsSequence(p: seq<Byte>) {
    && p != []
    && (|| (|p| == 1 && p[0] < 0x80)
        || (|p| == 2 && 0xC0 <= p[0] < 0xE0)
        || (|p| == 3 && 0xE0 <= p[0] < 0xF0)
        || (|p| == 4 && 0xF0 <= p[0] < 0xF8))
    && forall i :: 1 <= i < |p| ==> 0x80 <= p[i] < 0xC0
  }

  function Value(p: seq<Byte>): (c: Codepoint)
    requires IsSequence(p)
  {
    Gather(FirstBits(p[0], |p|), p[1..])
  }

  /** The shortest form of a code point in range. */
  predicate IsShortest(n: nat, c: Codepoint) {
    n == 1 || (n == 2 && 0x80 <= c) || (n == 3 && 0x800 <= c) || (n == 4 && 0x1_0000 <= c <= 0x10FFFF)
  }

  lemma NextOfSequence(p: seq<Byte>, rest: seq<Byte>, policy: ErrorPolicy)
    requires IsSequence(p)
    ensures Accepted(p + rest)
    ensures Next(p + rest, policy) == (Value(p), |p|)
  {
    assert (p + rest)[1..|p|] == p[1..];
  }

  /** Shifting in a byte, and taking it off again. */
  lemma ShiftFacts(x: nat, b: Byte)
    ensures x * 0x40 <= Shift(x, b) < x * 0x40 + 0x40
    ensures Shift(x, b) / 0x40 == x
    ensures IsContinuation(b) ==> Shift(x, b) == x * 0x40 + (b - 0x80) && 0x80 + Shift(x, b) % 0x40 == b
  {}

  /** The groups of six bits put together again. */
  lemma {:induction false} GatherPrinted(c: nat, n: nat)
    ensures Gather(HighBits(c, n), LowBits(c, n)) == c
    ensures forall i :: 0 <= i < n ==> IsContinuation(LowBits(c, n)[i])
  {
    if n > 0 {
      GatherPrinted(c / 0x40, n - 1);
      ShiftFacts(c / 0x40, 0x80 + c % 0x40);
      GatherLast(HighBits(c, n), LowBits(c / 0x40, n - 1), 0x80 + c % 0x40);
    }
  }

  lemma HighBitsFit(c: nat, n: nat)
    requires (n == 1 && c <= 0x7FF) || (n == 2 && c <= 0xFFFF) || (n == 3 && c <= 0x10FFFF)
    ensures 0 <= HighBits(c, n) < if n == 1 then 0x20 else if n == 2 then 0x10 else 0x08
  {
    assert HighBits(c, n) == HighBits(c / 0x40, n - 1);
    if n > 1 {
      assert HighBits(c / 0x40, n - 1) == HighBits(c / 0x40 / 0x40, n - 2);
    }
  }

  lemma PrintedIsSequence(c: Codepoint)
    requires 0 <= c <= 0x10FFFF
    ensures IsSequence(PrintAsUTF8(c)) && Value(PrintAsUTF8(c)) == c
    ensures IsShortest(|PrintAsUTF8(c)|, c)
  {
    var p := PrintAsUTF8(c);
    if c > 0x7F {
      var n := if c <= 0x7FF then 1 else if c <= 0xFFFF then 2 else 3;
      GatherPrinted(c, n);
      HighBitsFit(c, n);
      FirstByteIs(HighBits(c, n), n);
      FirstBitsAre(p[0], n + 1);
      assert p[1..] == LowBits(c, n);
    } else {
      assert p[1..] == [];
    }
  }

  /** A printed code point is read back whole, whatever follows it. */
  lemma NextOfPrinted(c: Codepoint, rest: seq<Byte>, policy: ErrorPolicy)
    requires 0 < c <= 0x10FFFF
    ensures PrintAsUTF8(c)[0] != 0
    ensures Next(PrintAsUTF8(c) + rest, policy) == (c, |PrintAsUTF8(c)|)
  {
    PrintedIsSequence(c);
    NextOfSequence(PrintAsUTF8(c), rest, policy);
  }

  lemma ParseStep(p: seq<Byte>, rest: seq<Byte>, c: Codepoint, policy: ErrorPolicy)
    requires p != [] && p[0] != 0 && c != INVALID_UTF8 && Next(p + rest, policy) == (c, |p|)
    ensures Parse(p + rest, policy) == Joined([c], Parse(rest, policy))
  {
    assert (p + rest)[|p|..] == rest;
  }

  lemma PrintedFirst(c: Codepoint, rest: seq<Byte>, policy: ErrorPolicy)
    requires 0 <= c <= 0x10FFFF
    ensures Parse(PrintAsUTF8(c) + rest, policy) == if c == 0 then [] else Joined([c], Parse(rest, policy))
  {
    if c != 0 {
      NextOfPrinted(c, rest, policy);
      ParseStep(PrintAsUTF8(c), rest, c, policy);
    }
  }

  /** The code points in front of the first zero. */
  function UpToZero(cs: seq<Codepoint>): seq<Codepoint> {
    if cs == [] || cs[0] == 0 then [] else [cs[0]] + UpToZero(cs[1..])
  }

  /** Parsing what was printed gives the code points up to the first zero, which ends the
      string; so it gives back the list if and only if no code point is zero. */
  lemma {:induction false} ParseOfPrinted(cs: seq<Codepoint>, policy: ErrorPolicy)
    requires forall i :: 0 <= i < |cs| ==> 0 <= cs[i] <= 0x10FFFF
    ensures Printable(cs) && Parse(PrintAll(cs), policy) == UpToZero(cs)
  {
    if cs != [] {
      ParseOfPrinted(cs[1..], policy);
      PrintedFirst(cs[0], PrintAll(cs[1..]), policy);
      NoZero(cs[1..]);
      assert UpToZero(cs[1..]) != [] ==> UpToZero(cs[1..])[0] == cs[1];
    }
  }

  lemma {:induction false} RoundTrip(cs: seq<Codepoint>, policy: ErrorPolicy)
    requires forall i :: 0 <= i < |cs| ==> 0 <= cs[i] <= 0x10FFFF
    ensures Printable(cs)
    ensures Parse(PrintAll(cs), policy) == cs <==> forall i :: 0 <= i < |cs| ==> cs[i] != 0
  {
    ParseOfPrinted(cs, policy);
    NoZero(cs);
  }

  lemma {:induction false} NoZero(cs: seq<Codepoint>)
    ensures UpToZero(cs) <= cs
    ensures UpToZero(cs) == cs <==> forall i :: 0 <= i < |cs| ==> cs[i] != 0
  {
    if cs != [] {
      NoZero(cs[1..]);
    }
  }

  /** The same, on the bytes: no first byte below 0xC2, 0xE0 or 0xF0 only with enough bits in
      the second byte, and nothing beyond 0xF4 0x8F. */
  predicate ShortestForm(p: seq<Byte>) {
    && IsSequence(p)
    && (|p| == 2 ==> p[0] >= 0xC2)
    && (|p| == 3 && p[0] == 0xE0 ==> p[1] >= 0xA0)
    && (|p| == 4 && p[0] == 0xF0 ==> p[1] >= 0x90)
    && (|p| == 4 ==> p[0] < 0xF4 || (p[0] == 0xF4 && p[1] <= 0x8F))
  }

  lemma ShortestIff(p: seq<Byte>)
    requires IsSequence(p)
    ensures ShortestForm(p) <==> IsShortest(|p|, Value(p))
  {
    var bits := FirstBits(p[0], |p|);
    FirstBitsAre(p[0], |p|);
    GatherUnrolled(bits, p[1..]);
    if |p| > 1 {
      ShiftFacts(bits, p[1]);
    }
    if |p| > 2 {
      ShiftFacts(Shift(bits, p[1]), p[2]);
    }
    if |p| > 3 {
      ShiftFacts(Shift(Shift(bits, p[1]), p[2]), p[3]);
    }
  }

  /** The string starts with a sequence in shortest form. */
  predicate StartsShortest(s: seq<Byte>) {
    s != [] && SequenceLength(s[0]) <= |s| && ShortestForm(s[..SequenceLength(s[0])])
  }

  /** Printing what is parsed first gives its bytes back if and only if the string starts with a
      sequence in shortest form: overlong forms, values above 0x10FFFF and, under ReturnByte,
      bytes that start no sequence are parsed too. */
  lemma PrintOfNext(s: seq<Byte>, policy: ErrorPolicy)
    requires s != []
    ensures var (c, n) := Next(s, policy);
      (c <= 0x10FFFF && PrintAsUTF8(c) == s[..n]) <==> StartsShortest(s)
  {
    var m := SequenceLength(s[0]);
    if Accepted(s) {
      PrintOfSequence(s[..m], s[m..], policy);
      assert s[..m] + s[m..] == s;
    } else {
      RejectedDiffers(s, policy);
    }
  }

  lemma PrintOfSequence(p: seq<Byte>, rest: seq<Byte>, policy: ErrorPolicy)
    requires IsSequence(p)
    ensures var (c, n) := Next(p + rest, policy);
      n == |p| && ((c <= 0x10FFFF && PrintAsUTF8(c) == p) <==> ShortestForm(p))
  {
    NextOfSequence(p, rest, policy);
    ShortestIff(p);
    if IsShortest(|p|, Value(p)) {
      PrintOfValue(p);
    }
  }

  lemma SequenceIsAccepted(s: seq<Byte>, n: nat)
    requires n <= |s| && IsSequence(s[..n])
    ensures Accepted(s)
  {
    assert s == s[..n] + s[n..];
    NextOfSequence(s[..n], s[n..], ReturnByte);
  }

  /** A byte that is passed through as itself is printed as two. */
  lemma RejectedDiffers(s: seq<Byte>, policy: ErrorPolicy)
    requires s != [] && !Accepted(s)
    ensures var (c, n) := Next(s, policy); c <= 0x10FFFF && PrintAsUTF8(c) != s[..n] && !StartsShortest(s)
  {
    if StartsShortest(s) {
      SequenceIsAccepted(s, SequenceLength(s[0]));
    }
  }

  /** An overlong form of the letter A, and what becomes of it. */
  lemma OverlongIsShortened()
    ensures Parse([0xC1, 0x81], ReturnInvalid) == [0x41]
    ensures PrintAll([0x41]) == [0x41]
    ensures !StartsShortest([0xC1, 0x81])
  {
    assert [0xC1, 0x81] + [] == [0xC1, 0x81] && [0xC1, 0x81][1..] == [0x81];
    GatherUnrolled(FirstBits(0xC1, 2), [0x81]);
    NextOfSequence([0xC1, 0x81], [], ReturnInvalid);
    assert [0xC1, 0x81][2..] == [];
    assert [0x41][1..] == [];
  }

  /** Taking groups of six bits off undoes gathering them. */
  lemma {:induction false} LowBitsOfGathered(res: nat, tail: seq<Byte>)
    requires forall i :: 0 <= i < |tail| ==> IsContinuation(tail[i])
    ensures Gather(res, tail) >= 0
    ensures HighBits(Gather(res, tail), |tail|) == res
    ensures LowBits(Gather(res, tail), |tail|) == tail
    decreases |tail|
  {
    if tail != [] {
      var n := |tail| - 1;
      var front, b := tail[..n], tail[n];
      assert tail == front + [b];
      LowBitsOfGathered(res, front);
      GatherLast(res, front, b);
      ShiftFacts(Gather(res, front), b);
    }
  }

  lemma PrintOfValue(p: seq<Byte>)
    requires IsSequence(p) && IsShortest(|p|, Value(p))
    ensures Value(p) <= 0x10FFFF && PrintAsUTF8(Value(p)) == p
  {
    var n := |p| - 1;
    var bits := FirstBits(p[0], |p|);
    ValueFits(p);
    LowBitsOfGathered(bits, p[1..]);
    assert p == [p[0]] + p[1..];
    if n == 0 {
      assert p[1..] == [];
    }
  }

  lemma ValueFits(p: seq<Byte>)
    requires IsSequence(p)
    ensures |p| == 1 ==> Value(p) == p[0] <= 0x7F
    ensures |p| == 2 ==> Value(p) <= 0x7FF
    ensures |p| == 3 ==> Value(p) <= 0xFFFF
    ensures |p| > 1 ==> FirstByte(FirstBits(p[0], |p|), |p| - 1) == p[0]
  {
    var bits := FirstBits(p[0], |p|);
    FirstBitsAre(p[0], |p|);
    if |p| > 1 {
      FirstByteIs(bits, |p| - 1);
    }
    GatherUnrolled(bits, p[1..]);
    if |p| > 1 {
      ShiftFacts(bits, p[1]);
    }
    if |p| > 2 {
      ShiftFacts(Shift(bits, p[1]), p[2]);
    }
  }

  lemma FirstBitsAre(b: Byte, n: nat)
    requires n == SequenceLength(b) && n > 0
    ensures FirstBits(b, n) == b - if n == 1 then 0 else if n == 2 then 0xC0 else if n == 3 then 0xE0 else 0xF0
  {}

  lemma FirstByteIs(bits: nat, n: nat)
    ensures n == 1 && bits < 0x20 ==> FirstByte(bits, n) == 0xC0 + bits
    ensures n == 2 && bits < 0x10 ==> FirstByte(bits, n) == 0xE0 + bits
    ensures n == 3 && bits < 0x08 ==> FirstByte(bits, n) == 0xF0 + bits
  {}

  // ----- under ReturnByte the whole string is consumed --------------------------------------

  function Concat(chunks: seq<seq<Byte>>): seq<Byte> {
    if chunks == [] then [] else chunks[0] + Concat(chunks[1..])
  }

  ghost predicate StartsSequence(s: seq<Byte>) {
    exists n: nat :: n <= |s| && IsSequence(s[..n])
  }

  lemma AcceptedIff(s: seq<Byte>)
    requires s != []
    ensures Accepted(s) <==> StartsSequence(s)
  {
    if Accepted(s) {
      assert IsSequence(s[..SequenceLength(s[0])]);
    } else if StartsSequence(s) {
      var n: nat :| n <= |s| && IsSequence(s[..n]);
      SequenceIsAccepted(s, n);
    }
  }

  /** A chunk is one whole sequence, or one byte that starts none with what follows and stands
      for itself. */
  ghost predicate ReadsAs(chunk: seq<Byte>, rest: seq<Byte>, c: Codepoint) {
    || (IsSequence(chunk) && c == Value(chunk))
    || (|chunk| == 1 && c == chunk[0] && !StartsSequence(chunk + rest))
  }

  /** With a string free of zeros, parsing splits all of it into chunks, one per code point. */
  lemma {:induction false} ConsumesAll(s: seq<Byte>) returns (chunks: seq<seq<Byte>>)
    requires forall i :: 0 <= i < |s| ==> s[i] != 0
    ensures Concat(chunks) == s && |chunks| == |Parse(s, ReturnByte)|
    ensures forall i :: 0 <= i < |chunks| ==> ReadsAs(chunks[i], Concat(chunks[i + 1..]), Parse(s, ReturnByte)[i])
    decreases |s|
  {
    if s == [] {
      return [];
    }
    var (c, n) := Next(s, ReturnByte);
    var rest := ConsumesAll(s[n..]);
    chunks := [s[..n]] + rest;
    assert s == s[..n] + s[n..] && chunks[1..] == rest;
    ChunkReads(s);
    NeverInvalid(s[n..]);
    forall i | 0 <= i < |chunks| ensures ReadsAs(chunks[i], Concat(chunks[i + 1..]), Parse(s, ReturnByte)[i]) {
      if i > 0 {
        assert chunks[i + 1..] == rest[i..] && ReadsAs(rest[i - 1], Concat(rest[i - 1 + 1..]), Parse(s[n..], ReturnByte)[i - 1]);
      }
    }
  }

  lemma ChunkReads(s: seq<Byte>)
    requires s != []
    ensures var (c, n) := Next(s, ReturnByte); ReadsAs(s[..n], s[n..], c)
  {
    var n := Next(s, ReturnByte).1;
    assert s[..n] + s[n..] == s;
    AcceptedIff(s);
    if Accepted(s) {
      assert s[..n][1..n] == s[1..n];
    }
  }

  lemma {:induction false} NeverInvalid(s: seq<Byte>)
    ensures forall i :: 0 <= i < |Parse(s, ReturnByte)| ==> Parse(s, ReturnByte)[i] != INVALID_UTF8
    decreases |s|
  {
    if s != [] && s[0] != 0 {
      NeverInvalid(s[Next(s, ReturnByte).1..]);
    }
  }

  // ----- whole strings ------------------------------------------------------------------------

  /** A sequence of shortest forms. */
  predicate AllShortest(s: seq<Byte>)
    decreases |s|
  {
    s == [] || (StartsShortest(s) && AllShortest(s[SequenceLength(s[0])..]))
  }

  /** A string that starts with a printed code point starts with a shortest form. */
  lemma PrintedStartsShortest(c: Codepoint, rest: seq<Byte>)
    requires 0 <= c <= 0x10FFFF
    ensures StartsShortest(PrintAsUTF8(c) + rest)
  {
    var p := PrintAsUTF8(c);
    PrintedIsSequence(c);
    ShortestIff(p);
    assert (p + rest)[..|p|] == p;
  }

  ghost predicate ZeroFree(s: seq<Byte>) {
    forall i :: 0 <= i < |s| ==> s[i] != 0
  }

  /** The bytes after the first of a shortest form are never zero. */
  lemma ZeroFreeStep(s: seq<Byte>)
    requires StartsShortest(s) && s[0] != 0
    ensures ZeroFree(s) <==> ZeroFree(s[SequenceLength(s[0])..])
  {
    var n := SequenceLength(s[0]);
    var p, rest := s[..n], s[n..];
    assert forall i :: 1 <= i < n ==> IsContinuation(p[i]);
    if ZeroFree(rest) {
      forall i | 0 <= i < |s| ensures s[i] != 0 {
        assert if i < n then s[i] == p[i] else s[i] == rest[i - n];
      }
    }
  }

  /** With bytes passed through, printing what was parsed gives the string back if and only if it
      is made of shortest forms without a zero. */
  lemma {:induction false} PrintOfParsed(s: seq<Byte>)
    ensures Printable(Parse(s, ReturnByte)) && PrintAll(Parse(s, ReturnByte)) == s <==> AllShortest(s) && ZeroFree(s)
    decreases |s|
  {
    if s != [] && s[0] != 0 {
      var (c, n) := Next(s, ReturnByte);
      PrintOfParsed(s[n..]);
      ParseUnrolled(s);
      if StartsShortest(s) {
        ShortestStep(s);
        PrintAfterShortest(s[..n], s[n..], c, Parse(s[n..], ReturnByte));
        assert s == s[..n] + s[n..];
      } else if Printable(Parse(s, ReturnByte)) && PrintAll(Parse(s, ReturnByte)) == s {
        PrintAllStep(c, Parse(s[n..], ReturnByte));
        PrintedStartsShortest(c, PrintAll(Parse(s[n..], ReturnByte)));
      }
    }
  }

  lemma ParseUnrolled(s: seq<Byte>)
    requires s != [] && s[0] != 0
    ensures var (c, n) := Next(s, ReturnByte); c >= 0 && Parse(s, ReturnByte) == [c] + Parse(s[n..], ReturnByte)
  {
    var (c, n) := Next(s, ReturnByte);
    var rest := Parse(s[n..], ReturnByte);
    NeverInvalid(s[n..]);
    assert rest != [] ==> rest[0] != INVALID_UTF8;
    if Accepted(s) {
      GatheredIsSmall(s);
    }
  }

  lemma ShortestAdvances(s: seq<Byte>)
    requires StartsShortest(s)
    ensures Next(s, ReturnByte).1 == SequenceLength(s[0])
  {
    var m := SequenceLength(s[0]);
    assert s[..m] + s[m..] == s;
    NextOfSequence(s[..m], s[m..], ReturnByte);
  }

  /** What a shortest form at the start contributes. */
  lemma ShortestStep(s: seq<Byte>)
    requires StartsShortest(s) && s[0] != 0
    ensures var (c, n) := Next(s, ReturnByte);
      && c <= 0x10FFFF && PrintAsUTF8(c) == s[..n]
      && (AllShortest(s) <==> AllShortest(s[n..])) && (ZeroFree(s) <==> ZeroFree(s[n..]))
  {
    PrintOfNext(s, ReturnByte);
    ShortestAdvances(s);
    ZeroFreeStep(s);
  }

  lemma PrintAfterShortest(front: seq<Byte>, tail: seq<Byte>, c: Codepoint, rest: seq<Codepoint>)
    requires c <= 0x10FFFF && PrintAsUTF8(c) == front
    ensures Printable([c] + rest) && PrintAll([c] + rest) == front + tail <==> Printable(rest) && PrintAll(rest) == tail
  {
    PrintAllStep(c, rest);
    if Printable(rest) {
      var all := PrintAll(rest);
      assert (front + all)[|front|..] == all && (front + tail)[|front|..] == tail;
    }
  }

  /** The policies differ only in whether parsing fails as a whole, which shortest forms never
      do. */
  lemma {:induction false} PoliciesAgree(s: seq<Byte>)
    ensures Parse(s, ReturnInvalid) == [INVALID_UTF8] || Parse(s, ReturnInvalid) == Parse(s, ReturnByte)
    ensures AllShortest(s) ==> Parse(s, ReturnInvalid) == Parse(s, ReturnByte)
    decreases |s|
  {
    if s != [] && s[0] != 0 {
      if Accepted(s) {
        var n := Next(s, ReturnByte).1;
        assert Next(s, ReturnInvalid) == Next(s, ReturnByte);
        PoliciesAgree(s[n..]);
      } else {
        RejectedDiffers(s, ReturnInvalid);
      }
    }
  }

  /** The string up to its first zero. */
  function BeforeZero(s: seq<Byte>): seq<Byte> {
    if s == [] || s[0] == 0 then [] else [s[0]] + BeforeZero(s[1..])
  }

  lemma {:induction false} BeforeZeroSkips(p: seq<Byte>, rest: seq<Byte>)
    requires forall i :: 0 <= i < |p| ==> p[i] != 0
    ensures BeforeZero(p + rest) == p + BeforeZero(rest)
    decreases |p|
  {
    if p == [] {
      assert p + rest == rest;
    } else {
      assert (p + rest)[1..] == p[1..] + rest;
      BeforeZeroSkips(p[1..], rest);
    }
  }

  lemma {:induction false} BeforeZeroIsPrefix(s: seq<Byte>)
    ensures BeforeZero(s) <= s
  {
    if s != [] && s[0] != 0 {
      BeforeZeroIsPrefix(s[1..]);
    }
  }

  ghost predicate AreSequences(chunks: seq<seq<Byte>>, s: seq<Byte>) {
    Concat(chunks) == s && forall i :: 0 <= i < |chunks| ==> IsSequence(chunks[i])
  }

  /** The string is made of whole sequences. */
  ghost predicate Splits(s: seq<Byte>) {
    exists chunks :: AreSequences(chunks, s)
  }

  lemma FirstChunk(chunks: seq<seq<Byte>>, s: seq<Byte>)
    requires AreSequences(chunks, s) && s != []
    ensures chunks != [] && IsSequence(chunks[0]) && chunks[0] <= s
    ensures AreSequences(chunks[1..], s[|chunks[0]|..])
  {
    assert Concat(chunks) == chunks[0] + Concat(chunks[1..]);
  }

  lemma StartsWithChunk(chunks: seq<seq<Byte>>, front: seq<Byte>, s: seq<Byte>)
    requires AreSequences(chunks, front) && front != [] && front <= s
    ensures Accepted(s)
  {
    FirstChunk(chunks, front);
    NextOfSequence(chunks[0], s[|chunks[0]|..], ReturnInvalid);
    assert chunks[0] + s[|chunks[0]|..] == s;
  }

  lemma SplitsAfter(p: seq<Byte>, rest: seq<Byte>)
    requires IsSequence(p)
    ensures Splits(p + rest) <==> Splits(rest)
  {
    if Splits(rest) {
      var chunks :| AreSequences(chunks, rest);
      assert ([p] + chunks)[1..] == chunks;
      assert AreSequences([p] + chunks, p + rest);
    }
    if Splits(p + rest) {
      var chunks :| AreSequences(chunks, p + rest);
      FirstChunk(chunks, p + rest);
      assert chunks[0][0] == p[0] && (p + rest)[|p|..] == rest;
      assert AreSequences(chunks[1..], rest);
    }
  }

  lemma AcceptedIsSequence(s: seq<Byte>)
    requires s != [] && s[0] != 0 && Accepted(s)
    ensures var n := SequenceLength(s[0]);
      IsSequence(s[..n]) && s[..n] + s[n..] == s && forall i :: 0 <= i < n ==> s[..n][i] != 0
  {}

  /** After an accepted sequence, parsing fails if and only if it fails on what follows. */
  lemma FailsAfter(s: seq<Byte>)
    requires s != [] && s[0] != 0 && Accepted(s)
    ensures Parse(s, ReturnInvalid) == [INVALID_UTF8] <==> Parse(s[SequenceLength(s[0])..], ReturnInvalid) == [INVALID_UTF8]
  {
    var (c, n) := Next(s, ReturnInvalid);
    var rest := Parse(s[n..], ReturnInvalid);
    assert ([c] + rest)[0] == c != INVALID_UTF8;
  }

  /** Parsing fails as a whole, which it can only under kReturnInvalid, if and only if the string
      up to its first zero is not made of whole sequences. */
  lemma {:induction false} InvalidIff(s: seq<Byte>)
    ensures Parse(s, ReturnInvalid) == [INVALID_UTF8] <==> !Splits(BeforeZero(s))
    decreases |s|
  {
    if s == [] || s[0] == 0 {
      assert AreSequences([], []);
    } else if Accepted(s) {
      var n := SequenceLength(s[0]);
      InvalidIff(s[n..]);
      FailsAfter(s);
      AcceptedIsSequence(s);
      BeforeZeroSkips(s[..n], s[n..]);
      SplitsAfter(s[..n], BeforeZero(s[n..]));
    } else {
      BeforeZeroIsPrefix(s);
      if Splits(BeforeZero(s)) {
        var chunks :| AreSequences(chunks, BeforeZero(s));
        StartsWithChunk(chunks, BeforeZero(s), s);
      }
    }
  }

  /** When parsing fails as a whole the error value is printed as the byte 0xF6, so the string
      with that byte alone comes back as well. */
  lemma PrintOfParsedOrInvalid(s: seq<Byte>)
    ensures Printable(Parse(s, ReturnInvalid)) && PrintAll(Parse(s, ReturnInvalid)) == s <==>
            (AllShortest(s) && ZeroFree(s)) || s == [0xF6]
  {
    PoliciesAgree(s);
    PrintOfParsed(s);
    ErrorValueComesBack();
    if Parse(s, ReturnInvalid) == [INVALID_UTF8] {
      NeverInvalid(s);
      assert Parse(s, ReturnByte) != [] ==> Parse(s, ReturnByte)[0] != INVALID_UTF8;
    }
  }

  /** A byte that starts no sequence, and what becomes of it under either policy. */
  lemma ErrorValueComesBack()
    ensures Parse([0xF6], ReturnInvalid) == [INVALID_UTF8]
    ensures Parse([0xF6], ReturnByte) == [0xF6]
    ensures !AllShortest([0xF6])
    ensures PrintAll([INVALID_UTF8]) == [0xF6]
    ensures PrintAll([0xF6]) == [0xC3, 0xB6]
  {
    assert SequenceLength(0xF6) == 4;
    assert [INVALID_UTF8][1..] == [] && [0xF6][1..] == [];
    assert [0xC3, 0xB6] + [] == [0xC3, 0xB6];
  }

  lemma PrintAllStep(c: Codepoint, rest: seq<Codepoint>)
    ensures Printable([c] + rest) <==> c <= 0x10FFFF && Printable(rest)
    ensures Printable([c] + rest) ==> PrintAll([c] + rest) == PrintAsUTF8(c) + PrintAll(rest)
  {
    var all := [c] + rest;
    assert all[0] == c && all[1..] == rest;
    if c <= 0x10FFFF && Printable(rest) {
      forall i | 0 <= i < |all| ensures all[i] <= 0x10FFFF {
        assert i > 0 ==> all[i] == rest[i - 1];
      }
    }
    if Printable(all) {
      forall i | 0 <= i < |rest| ensures rest[i] <= 0x10FFFF {
        assert rest[i] == all[i + 1];
      }
    }
  }
}
