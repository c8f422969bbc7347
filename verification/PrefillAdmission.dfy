/** Which waiting entries one prefill step admits, and how much of each (one model). */
module PrefillAdmission {

  datatype KvStateKind = KvCache | RnnState | NoState

  datatype Config = Config(prefillChunkSize: nat, maxNumSequence: nat, maxTotalSequenceLength: int,
                           pageSize: nat, speculative: bool, draftLength: nat, slidingWindowSize: int,
                           kind: KvStateKind, hybrid: bool)
  {
    ghost predicate Valid() {
      pageSize > 0 && slidingWindowSize >= -1
    }

    function SpecFactor(): nat {
      if speculative then draftLength + 1 else 1
    }

    predicate Sliding() {
      slidingWindowSize != -1
    }
  }

  /** An entry of a request, in the order the request lists them: a parent comes before its
      children. */
  datatype Entry = Entry(hasInputs: bool, inputLength: nat, parent: int, pending: bool,
                         numChildren: nat, prefilledTokens: nat)

  datatype Request = Request(disaggregated: bool, entries: seq<Entry>)

  ghost predicate EntriesOk(entries: seq<Entry>) {
    forall j :: 0 <= j < |entries| ==> -1 <= entries[j].parent < j
  }

  ghost predicate QueueOk(queue: seq<Request>) {
    forall r :: 0 <= r < |queue| ==> EntriesOk(queue[r].entries)
  }

  /** An entry can start when it has inputs and its parent, if any, is alive and done. */
  predicate CanStart(entries: seq<Entry>, j: nat)
    requires j < |entries| && EntriesOk(entries)
  {
    var e := entries[j];
    e.hasInputs && (e.parent == -1 || (!entries[e.parent].pending && !entries[e.parent].hasInputs))
  }

  // ----- the load of a batch ----------------------------------------------------------------

  /** The pages that a number of tokens takes, filled one after the other. */
  ghost function PagesFor(length: nat, pageSize: nat): nat
    requires pageSize > 0
  {
    if length == 0 then 0 else if length <= pageSize then 1 else 1 + PagesFor(length - pageSize, pageSize)
  }

  /** All pages but the last are full, and the last one is not empty. */
  lemma {:induction false} PagesForBounds(length: nat, pageSize: nat)
    requires pageSize > 0
    ensures PagesFor(length, pageSize) * pageSize >= length
    ensures PagesFor(length, pageSize) > 0 ==> (PagesFor(length, pageSize) - 1) * pageSize < length
    decreases length
  {
    if length > pageSize {
      PagesForBounds(length - pageSize, pageSize);
      var p := PagesFor(length - pageSize, pageSize);
      assert (1 + p) * pageSize == pageSize + p * pageSize;
      assert p * pageSize == (p - 1) * pageSize + pageSize;
    }
  }

  lemma {:induction false} PagesForMonotone(a: nat, b: nat, pageSize: nat)
    requires pageSize > 0 && a <= b
    ensures PagesFor(a, pageSize) <= PagesFor(b, pageSize)
    decreases b
  {
    if a > pageSize {
      PagesForMonotone(a - pageSize, b - pageSize, pageSize);
    }
  }

  function CeilDiv(a: nat, b: nat): nat
    requires b > 0
  {
    (a + b - 1) / b
  }

  lemma {:induction false} CeilDivIsPages(a: nat, b: nat)
    requires b > 0
    ensures CeilDiv(a, b) == PagesFor(a, b)
    decreases a
  {
    if a > b {
      CeilDivIsPages(a - b, b);
      OneMore(a - 1, b);
    } else if a > 0 {
      OneMore(a - 1, b);
      assert (a - 1) / b == 0;
    } else {
      assert (b - 1) / b == 0;
    }
  }

  lemma OneMore(x: nat, d: nat)
    requires d > 0
    ensures (x + d) / d == x / d + 1
  {
    var q, r := x / d, x % d;
    assert x + d == (q + 1) * d + r;
    QuotientIs(x + d, d, q + 1, r);
  }

  lemma QuotientIs(x: nat, d: nat, q: nat, r: nat)
    requires d > 0 && x == q * d + r && r < d
    ensures x / d == q
  {
    var p := x / d;
    assert p * d <= x < (p + 1) * d;
    if p < q {
      MoreFactor(q, p + 1, d);
    } else if p > q {
      MoreFactor(p, q + 1, d);
    }
  }

  lemma MoreFactor(p: int, q: int, d: nat)
    requires p >= q
    ensures p * d >= q * d
  {
    assert p * d == q * d + (p - q) * d;
  }

  /** Tokens prefilled for the entry and all its ancestors. */
  ghost function ChainPrefilled(entries: seq<Entry>, j: int): nat
    requires EntriesOk(entries) && -1 <= j < |entries|
    decreases j + 1
  {
    if j == -1 then 0 else entries[j].prefilledTokens + ChainPrefilled(entries, entries[j].parent)
  }

  /** The pages a sliding window still lets the entry need; never negative. */
  ghost function WindowPages(cfg: Config, entries: seq<Entry>, j: nat): (r: nat)
    requires cfg.Valid() && cfg.slidingWindowSize != -1 && EntriesOk(entries) && j < |entries|
    ensures r > 0
  {
    var prefilled := ChainPrefilled(entries, j);
    var inUse := if prefilled < cfg.slidingWindowSize then prefilled else cfg.slidingWindowSize;
    PagesForMonotone(inUse, cfg.slidingWindowSize, cfg.pageSize);
    1 + PagesFor(cfg.slidingWindowSize, cfg.pageSize) - PagesFor(inUse, cfg.pageSize)
  }

  /** The pages for the next `length` tokens of the entry. */
  ghost function RequiredPages(cfg: Config, entries: seq<Entry>, j: nat, length: nat): nat
    requires cfg.Valid() && EntriesOk(entries) && j < |entries|
  {
    var pages := PagesFor(length, cfg.pageSize);
    if cfg.slidingWindowSize != -1 && WindowPages(cfg, entries, j) < pages then WindowPages(cfg, entries, j) else pages
  }

  /** The limit under a sliding window, from the tokens prefilled along the chain of parents. */
  method CountWindowPages(cfg: Config, entries: seq<Entry>, j: nat) returns (limit: nat)
    requires cfg.Valid() && cfg.Sliding() && EntriesOk(entries) && j < |entries|
    ensures limit == WindowPages(cfg, entries, j)
  {
    var prefilled, parent := entries[j].prefilledTokens, entries[j].parent;
    while parent != -1
      invariant -1 <= parent < |entries|
      invariant prefilled + ChainPrefilled(entries, parent) == ChainPrefilled(entries, j)
      decreases parent
    {
      prefilled, parent := prefilled + entries[parent].prefilledTokens, entries[parent].parent;
    }
    var most := 1 + CeilDiv(cfg.slidingWindowSize, cfg.pageSize);
    var inUse := if prefilled < cfg.slidingWindowSize then prefilled else cfg.slidingWindowSize;
    CeilDivIsPages(cfg.slidingWindowSize, cfg.pageSize);
    CeilDivIsPages(inUse, cfg.pageSize);
    PagesForMonotone(inUse, cfg.slidingWindowSize, cfg.pageSize);
    limit := most - CeilDiv(inUse, cfg.pageSize);
  }

  method CountRequiredPages(cfg: Config, entries: seq<Entry>, j: nat, length: nat) returns (pages: nat)
    requires cfg.Valid() && EntriesOk(entries) && j < |entries|
    ensures pages == RequiredPages(cfg, entries, j, length)
  {
    CeilDivIsPages(length, cfg.pageSize);
    pages := CeilDiv(length, cfg.pageSize);
    if cfg.Sliding() {
      var limit := CountWindowPages(cfg, entries, j);
      if limit < pages {
        pages := limit;
      }
    }
  }

  /** An admitted entry: how many of its input tokens, and how many children to activate. */
  datatype PrefillInput = PrefillInput(request: nat, entry: nat, length: nat, children: nat)

  ghost predicate InQueue(queue: seq<Request>, x: PrefillInput) {
    x.request < |queue| && x.entry < |queue[x.request].entries|
  }

  /** Tokens, pages and sequences. */
  datatype Load = Load(tokens: nat, pages: nat, sequences: nat) {
    function Plus(other: Load): Load {
      Load(tokens + other.tokens, pages + other.pages, sequences + other.sequences)
    }
  }

  ghost function LoadOf(cfg: Config, queue: seq<Request>, x: PrefillInput): Load
    requires cfg.Valid() && QueueOk(queue) && InQueue(queue, x)
  {
    Load(x.length, RequiredPages(cfg, queue[x.request].entries, x.entry, x.length), 1 + x.children)
  }

  /** The load of the running entries, one page and one sequence each, and of the batch. */
  ghost function BatchLoad(cfg: Config, queue: seq<Request>, running: Load, batch: seq<PrefillInput>): Load
    requires cfg.Valid() && QueueOk(queue) && forall i :: 0 <= i < |batch| ==> InQueue(queue, batch[i])
  {
    LoadUpTo(cfg, queue, running, batch, |batch|)
  }

  ghost function LoadUpTo(cfg: Config, queue: seq<Request>, running: Load, batch: seq<PrefillInput>, n: nat): Load
    requires cfg.Valid() && QueueOk(queue) && forall i :: 0 <= i < |batch| ==> InQueue(queue, batch[i])
    requires n <= |batch|
  {
    if n == 0 then running else LoadUpTo(cfg, queue, running, batch, n - 1).Plus(LoadOf(cfg, queue, batch[n - 1]))
  }

  // ----- the admission test -----------------------------------------------------------------

  predicate HasPrefillSpace(cfg: Config, pages: nat, batchSize: nat, available: int, currentLength: int, tokens: nat) {
    && pages + (if !cfg.Sliding() then batchSize else 0) <= available
    && (cfg.Sliding() || currentLength + tokens + 8 * batchSize <= cfg.maxTotalSequenceLength)
  }

  predicate CanPrefill(cfg: Config, numPrefill: nat, tokens: nat, pages: nat,
                       available: int, currentLength: int, numRunning: nat)
  {
    if cfg.kind == RnnState || cfg.kind == NoState then true
    else
      var most := if cfg.maxNumSequence < cfg.prefillChunkSize then cfg.maxNumSequence else cfg.prefillChunkSize;
      if (numRunning + numPrefill) * cfg.SpecFactor() > most then false
      else tokens <= cfg.prefillChunkSize &&
           HasPrefillSpace(cfg, pages, numRunning + numPrefill, available, currentLength, tokens)
  }

  /** What the engine can carry in one step: the prefill chunk, the sequence limits with the
      speculative factor, the pages with one to spare per sequence, and the watermark of eight
      more tokens per sequence. */
  ghost predicate Fits(cfg: Config, load: Load, available: int, currentLength: int) {
    && load.tokens <= cfg.prefillChunkSize
    && load.sequences * (if cfg.speculative then cfg.draftLength + 1 else 1) <= cfg.maxNumSequence
    && load.sequences * (if cfg.speculative then cfg.draftLength + 1 else 1) <= cfg.prefillChunkSize
    && SpaceFor(cfg, load, available, currentLength)
  }

  ghost predicate SpaceFor(cfg: Config, load: Load, available: int, currentLength: int) {
    && load.pages + (if cfg.slidingWindowSize != -1 then 0 else load.sequences) <= available
    && (cfg.slidingWindowSize != -1 ||
        currentLength + load.tokens + 8 * load.sequences <= cfg.maxTotalSequenceLength)
  }

  /** States other than a paged cache admit everything. */
  ghost predicate Admissible(cfg: Config, load: Load, available: int, currentLength: int) {
    cfg.kind == KvCache ==> Fits(cfg, load, available, currentLength)
  }

  // ----- candidates, in queue order ---------------------------------------------------------

  /** The candidates among the first r requests and the first j entries of the next one. */
  ghost function Seen(queue: seq<Request>, r: nat, j: nat): seq<(nat, nat)>
    requires QueueOk(queue) && r <= |queue| && j <= if r < |queue| then |queue[r].entries| else 0
    decreases r, j
  {
    if j > 0 then
      Seen(queue, r, j - 1) +
      if !queue[r].disaggregated && CanStart(queue[r].entries, j - 1) then [(r, j - 1)] else []
    else if r > 0 then Seen(queue, r - 1, |queue[r - 1].entries|)
    else []
  }

  /** The entries that can start, request by request; disaggregated requests are passed over. */
  ghost function Candidates(queue: seq<Request>): seq<(nat, nat)>
    requires QueueOk(queue)
  {
    Seen(queue, |queue|, 0)
  }

  ghost function Keys(batch: seq<PrefillInput>): (r: seq<(nat, nat)>)
    ensures |r| == |batch|
  {
    seq(|batch|, i requires 0 <= i < |batch| => (batch[i].request, batch[i].entry))
  }

  lemma {:induction false} SeenIsPrefix(queue: seq<Request>, r: nat, j: nat)
    requires QueueOk(queue) && r < |queue| && j <= |queue[r].entries|
    ensures Seen(queue, r, j) <= Candidates(queue)
    decreases |queue| - r, |queue[r].entries| - j
  {
    if j < |queue[r].entries| {
      SeenIsPrefix(queue, r, j + 1);
    } else if r + 1 < |queue| {
      SeenIsPrefix(queue, r + 1, 0);
    }
  }

  /** Entry j of request r is a candidate, on the fields: the request is not disaggregated, the
      entry has inputs, and its parent, if any, is alive with none left. */
  ghost predicate Starts(queue: seq<Request>, r: nat, j: nat) {
    && r < |queue| && !queue[r].disaggregated && j < |queue[r].entries|
    && var e := queue[r].entries[j];
    && e.hasInputs
    && (e.parent == -1 ||
        (0 <= e.parent < |queue[r].entries| && !queue[r].entries[e.parent].pending && !queue[r].entries[e.parent].hasInputs))
  }

  lemma CanStartIff(queue: seq<Request>, r: nat, j: nat)
    requires QueueOk(queue) && r < |queue| && j < |queue[r].entries|
    ensures Starts(queue, r, j) <==> !queue[r].disaggregated && CanStart(queue[r].entries, j)
  {
    assert EntriesOk(queue[r].entries);
  }

  ghost predicate Earlier(a: (nat, nat), b: (nat, nat)) {
    a.0 < b.0 || (a.0 == b.0 && a.1 < b.1)
  }

  /** What has been seen are the entries before this position that start, in order. */
  lemma {:induction false} SeenAre(queue: seq<Request>, r: nat, j: nat)
    requires QueueOk(queue) && r <= |queue| && j <= if r < |queue| then |queue[r].entries| else 0
    ensures forall x :: x in Seen(queue, r, j) <==> Starts(queue, x.0, x.1) && Earlier(x, (r, j))
    ensures forall a, b :: 0 <= a < b < |Seen(queue, r, j)| ==> Earlier(Seen(queue, r, j)[a], Seen(queue, r, j)[b])
    decreases r, j
  {
    if j > 0 {
      SeenAre(queue, r, j - 1);
      CanStartIff(queue, r, j - 1);
    } else if r > 0 {
      SeenAre(queue, r - 1, |queue[r - 1].entries|);
    }
  }

  /** The candidates are exactly the entries that start, in queue order, each once. */
  lemma CandidatesAre(queue: seq<Request>)
    requires QueueOk(queue)
    ensures forall r: nat, j: nat :: (r, j) in Candidates(queue) <==> Starts(queue, r, j)
    ensures forall a, b :: 0 <= a < b < |Candidates(queue)| ==> Earlier(Candidates(queue)[a], Candidates(queue)[b])
  {
    SeenAre(queue, |queue|, 0);
    forall r: nat, j: nat ensures (r, j) in Candidates(queue) <==> Starts(queue, r, j) {
      assert (r, j) in Seen(queue, |queue|, 0) <==> Starts(queue, r, j) && Earlier((r, j), (|queue|, 0));
    }
  }

  lemma {:induction false} DisaggregatedIsSkipped(queue: seq<Request>, r: nat, j: nat)
    requires QueueOk(queue) && r < |queue| && j <= |queue[r].entries| && queue[r].disaggregated
    ensures Seen(queue, r, j) == Seen(queue, r, 0)
  {
    if j > 0 {
      DisaggregatedIsSkipped(queue, r, j - 1);
    }
  }

  // ----- the outcome ------------------------------------------------------------------------

  ghost predicate Whole(queue: seq<Request>, x: PrefillInput) {
    InQueue(queue, x) && x.length == queue[x.request].entries[x.entry].inputLength &&
    x.children <= queue[x.request].entries[x.entry].numChildren
  }

  ghost predicate Cut(queue: seq<Request>, x: PrefillInput) {
    InQueue(queue, x) && 0 < x.length < queue[x.request].entries[x.entry].inputLength && x.children == 0
  }

  /** There is nothing left to evict, or the whole entry would find the space before its own
      sequences are counted, which is when eviction stops. */
  ghost predicate Exhausted(cfg: Config, queue: seq<Request>, load: Load, r: nat, j: nat, available: int, currentLength: int,
                            left: bool)
    requires cfg.Valid() && QueueOk(queue) && r < |queue| && j < |queue[r].entries|
  {
    var length := queue[r].entries[j].inputLength;
    left ==> SpaceFor(cfg, load.Plus(Load(length, RequiredPages(cfg, queue[r].entries, j, length), 0)), available, currentLength)
  }

  /** Entry j of request r can join a batch of the given load neither whole nor cut to fill
      the chunk. */
  ghost predicate Refused(cfg: Config, queue: seq<Request>, load: Load, r: nat, j: nat, available: int, currentLength: int,
                          left: bool)
  {
    && cfg.Valid() && QueueOk(queue) && r < |queue| && j < |queue[r].entries|
    && Exhausted(cfg, queue, load, r, j, available, currentLength, left)
    && var length := queue[r].entries[j].inputLength;
    && !Admissible(cfg, load.Plus(LoadOf(cfg, queue, PrefillInput(r, j, length, 0))), available, currentLength)
    && (|| load.tokens + length <= cfg.prefillChunkSize
        || load.tokens >= cfg.prefillChunkSize
        || !Admissible(cfg, load.Plus(LoadOf(cfg, queue, PrefillInput(r, j, cfg.prefillChunkSize - load.tokens, 0))),
                       available, currentLength))
  }

  /** Entry j of request r was added to the batch, cut to fill the chunk, or refused. */
  ghost predicate CutOrRefused(cfg: Config, queue: seq<Request>, load: Load, before: seq<PrefillInput>, r: nat, j: nat,
                               batch: seq<PrefillInput>, available: int, currentLength: int, left: bool)
  {
    && cfg.Valid() && QueueOk(queue) && r < |queue| && j < |queue[r].entries|
    && if batch == before then Refused(cfg, queue, load, r, j, available, currentLength, left)
    else
      && Exhausted(cfg, queue, load, r, j, available, currentLength, left)
      && load.tokens <= cfg.prefillChunkSize
      && var x := PrefillInput(r, j, cfg.prefillChunkSize - load.tokens, 0);
         batch == before + [x] && Cut(queue, x) &&
         Admissible(cfg, load.Plus(LoadOf(cfg, queue, x)), available, currentLength)
  }

  /** What a step that looked at the candidates hands out: the first of them, all whole but
      for the last, which may be cut to fill the chunk; the engine can carry them together
      with the running entries; and the next candidate, if any, could not join, nor be whole if
      it is cut, as far as eviction helps (`left` says that something could still be evicted). */
  ghost predicate Outcome(cfg: Config, queue: seq<Request>, base: Load, batch: seq<PrefillInput>,
                          candidates: seq<(nat, nat)>, available: int, currentLength: int, left: bool)
  {
    && cfg.Valid() && QueueOk(queue)
    && (forall i :: 0 <= i < |batch| ==> InQueue(queue, batch[i]))
    && Keys(batch) <= candidates
    && (forall i :: 0 <= i < |batch| - 1 ==> Whole(queue, batch[i]))
    && (batch != [] ==>
      && Admissible(cfg, BatchLoad(cfg, queue, base, batch), available, currentLength)
      && (|| Whole(queue, batch[|batch| - 1])
          || (&& Cut(queue, batch[|batch| - 1]) && BatchLoad(cfg, queue, base, batch).tokens == cfg.prefillChunkSize
              && Exhausted(cfg, queue, LoadUpTo(cfg, queue, base, batch, |batch| - 1),
                           batch[|batch| - 1].request, batch[|batch| - 1].entry, available, currentLength, left))))
    && (|batch| < |candidates| && (batch != [] ==> Whole(queue, batch[|batch| - 1])) ==>
      var (r, j) := candidates[|batch|];
      r < |queue| && j < |queue[r].entries| &&
      Refused(cfg, queue, BatchLoad(cfg, queue, base, batch), r, j, available, currentLength, left))
  }

  lemma KeysGrow(batch: seq<PrefillInput>, x: PrefillInput)
    ensures Keys(batch + [x]) == Keys(batch) + [(x.request, x.entry)]
  {}

  /** The outcome when every candidate was admitted. */
  lemma AllAdmitted(cfg: Config, queue: seq<Request>, base: Load, batch: seq<PrefillInput>, load: Load,
                    available: int, currentLength: int, left: bool)
    requires Good(cfg, queue, base, batch, load, available, currentLength)
    requires Keys(batch) == Candidates(queue)
    ensures Outcome(cfg, queue, base, batch, Candidates(queue), available, currentLength, left)
  {}

  /** The candidate after those seen. */
  lemma NextCandidate(queue: seq<Request>, r: nat, j: nat)
    requires QueueOk(queue) && r < |queue| && j < |queue[r].entries|
    requires !queue[r].disaggregated && CanStart(queue[r].entries, j)
    ensures Seen(queue, r, j + 1) == Seen(queue, r, j) + [(r, j)] <= Candidates(queue)
  {
    SeenIsPrefix(queue, r, j + 1);
  }

  /** The outcome when the step stopped at entry j of request r. */
  lemma StoppedAt(cfg: Config, queue: seq<Request>, base: Load, before: seq<PrefillInput>, load: Load, r: nat, j: nat,
                  batch: seq<PrefillInput>, candidates: seq<(nat, nat)>, available: int, currentLength: int, left: bool)
    requires Good(cfg, queue, base, before, load, available, currentLength)
    requires r < |queue| && j < |queue[r].entries| && Keys(before) + [(r, j)] <= candidates
    requires CutOrRefused(cfg, queue, load, before, r, j, batch, available, currentLength, left)
    ensures Outcome(cfg, queue, base, batch, candidates, available, currentLength, left)
  {
    if batch == before {
      assert candidates[|before|] == (Keys(before) + [(r, j)])[|before|] == (r, j);
    } else {
      CutLast(cfg, queue, base, before, load, PrefillInput(r, j, cfg.prefillChunkSize - load.tokens, 0), candidates,
              available, currentLength, left);
    }
  }

  lemma CutLast(cfg: Config, queue: seq<Request>, base: Load, before: seq<PrefillInput>, load: Load, x: PrefillInput,
                candidates: seq<(nat, nat)>, available: int, currentLength: int, left: bool)
    requires Good(cfg, queue, base, before, load, available, currentLength)
    requires Cut(queue, x) && load.tokens + x.length == cfg.prefillChunkSize
    requires Keys(before) + [(x.request, x.entry)] <= candidates
    requires Admissible(cfg, load.Plus(LoadOf(cfg, queue, x)), available, currentLength)
    requires Exhausted(cfg, queue, load, x.request, x.entry, available, currentLength, left)
    ensures Outcome(cfg, queue, base, before + [x], candidates, available, currentLength, left)
  {
    var batch := before + [x];
    KeysGrow(before, x);
    BatchGrows(cfg, queue, base, before, x);
    LoadOfPrefix(cfg, queue, base, before, x, |before|);
    assert forall i :: 0 <= i < |before| ==> batch[i] == before[i];
    assert batch[|batch| - 1] == x;
  }

  ghost predicate Good(cfg: Config, queue: seq<Request>, base: Load, batch: seq<PrefillInput>, load: Load,
                       available: int, currentLength: int)
  {
    && cfg.Valid() && QueueOk(queue)
    && (forall i :: 0 <= i < |batch| ==> Whole(queue, batch[i]))
    && BatchLoad(cfg, queue, base, batch) == load
    && (batch != [] ==> Admissible(cfg, load, available, currentLength))
  }

  lemma GoodLater(cfg: Config, queue: seq<Request>, base: Load, batch: seq<PrefillInput>, load: Load,
                  available: int, currentLength: int, moreAvailable: int, lessLength: int)
    requires Good(cfg, queue, base, batch, load, available, currentLength)
    requires available <= moreAvailable && lessLength <= currentLength
    ensures Good(cfg, queue, base, batch, load, moreAvailable, lessLength)
  {}

  lemma GoodGrows(cfg: Config, queue: seq<Request>, base: Load, batch: seq<PrefillInput>, load: Load,
                  x: PrefillInput, available: int, currentLength: int)
    requires Good(cfg, queue, base, batch, load, available, currentLength)
    requires Whole(queue, x) && Admissible(cfg, load.Plus(LoadOf(cfg, queue, x)), available, currentLength)
    ensures Good(cfg, queue, base, batch + [x], load.Plus(LoadOf(cfg, queue, x)), available, currentLength)
  {
    BatchGrows(cfg, queue, base, batch, x);
  }

  /** The admission test is the bounds on the load. */
  lemma CanPrefillIsAdmissible(cfg: Config, numPrefill: nat, tokens: nat, pages: nat, available: int,
                               currentLength: int, numRunning: nat)
    ensures CanPrefill(cfg, numPrefill, tokens, pages, available, currentLength, numRunning) <==>
            Admissible(cfg, Load(tokens, pages, numRunning + numPrefill), available, currentLength)
  {}

  ghost function Sum(s: seq<nat>): nat {
    if s == [] then 0 else Sum(s[..|s| - 1]) + s[|s| - 1]
  }

  /** The tokens that the running entries have yet to decode. */
  method TotalPending(running: seq<nat>) returns (total: nat)
    ensures total == Sum(running)
  {
    total := 0;
    for i := 0 to |running|
      invariant total == Sum(running[..i])
    {
      assert running[..i + 1][..i] == running[..i];
      total := total + running[i];
    }
    assert running[..|running|] == running;
  }

  /** What the scheduler reads of the KV cache, and the pages and tokens that the recycling
      sequences would give back, in the order they will be evicted. */
  datatype Reading = Reading(available: int, currentLength: int, recycling: seq<(nat, nat)>)

  /** Sequences are evicted in order until there is space for the load, or none is left. */
  ghost function Evicted(cfg: Config, load: Load, m: Reading): Reading
    decreases |m.recycling|
  {
    if SpaceFor(cfg, load, m.available, m.currentLength) || m.recycling == [] then m
    else Evicted(cfg, load, Reading(m.available + m.recycling[0].0, m.currentLength - m.recycling[0].1, m.recycling[1..]))
  }

  class Memory {
    var available: int
    var currentLength: int
    var recycling: seq<(nat, nat)>

    ghost function Read(): Reading
      reads this
    {
      Reading(available, currentLength, recycling)
    }

    method TryFreeMemory() returns (freed: bool)
      modifies this
      ensures freed <==> old(recycling) != []
      ensures !freed ==> unchanged(this)
      ensures freed ==> Read() == Reading(old(available) + old(recycling)[0].0, old(currentLength) - old(recycling)[0].1,
                                          old(recycling)[1..])
    {
      if recycling == [] {
        return false;
      }
      available, currentLength := available + recycling[0].0, currentLength - recycling[0].1;
      recycling := recycling[1..];
      return true;
    }
  }

  class Admission {
    const cfg: Config
    const queue: seq<Request>
    const running: seq<nat>
    const memory: Memory
    var batch: seq<PrefillInput>
    var totalInputLength: nat
    var totalRequiredPages: nat
    var numPrefill: nat
    var available: int
    var currentLength: int

    ghost function Base(): Load {
      Load(Sum(running), |running|, |running|)
    }

    /** The readings are up to date. */
    ghost predicate Fresh()
      reads this, memory
    {
      available == memory.available && currentLength == memory.currentLength
    }

    /** Between entries: the accumulators are the load of the batch, all whole, and the engine
        can carry it. */
    ghost predicate Valid()
      reads this, memory
    {
      Fresh() && |running| <= cfg.maxNumSequence && Sum(running) <= cfg.prefillChunkSize &&
      Good(cfg, queue, Base(), batch, Accumulated(), available, currentLength)
    }

    ghost function Accumulated(): Load
      reads this
    {
      Load(totalInputLength, totalRequiredPages, |running| + numPrefill)
    }

    constructor (cfg: Config, queue: seq<Request>, running: seq<nat>, memory: Memory)
      requires cfg.Valid() && QueueOk(queue) && |running| <= cfg.maxNumSequence
      requires Sum(running) <= cfg.prefillChunkSize
      ensures Valid() && batch == []
      ensures this.cfg == cfg && this.queue == queue
      ensures this.running == running && this.memory == memory
    {
      this.cfg, this.queue, this.running, this.memory := cfg, queue, running, memory;
      var total := TotalPending(running);
      batch, totalInputLength, totalRequiredPages, numPrefill := [], total, |running|, 0;
      available, currentLength := memory.available, memory.currentLength;
    }

    predicate HasSpace()
      reads this
    {
      HasPrefillSpace(cfg, totalRequiredPages, |running| + numPrefill, available, currentLength, totalInputLength)
    }

    /** Eviction is not needed or no longer possible. */
    ghost predicate Settled()
      reads this, memory
    {
      SpaceFor(cfg, Accumulated(), available, currentLength) || memory.recycling == []
    }

    /** Evicts while the space does not suffice. */
    method MakeSpace()
      requires Fresh()
      modifies memory, this`available, this`currentLength
      ensures Fresh() && available >= old(available)
      ensures currentLength <= old(currentLength)
      ensures Settled()
      ensures memory.Read() == Evicted(cfg, Accumulated(), old(memory.Read()))
    {
      while !HasSpace()
        invariant Fresh() && available >= old(available) && currentLength <= old(currentLength)
        invariant Evicted(cfg, Accumulated(), memory.Read()) == Evicted(cfg, Accumulated(), old(memory.Read()))
        decreases |memory.recycling|
      {
        var freed := memory.TryFreeMemory();
        if !freed {
          break;
        }
        available, currentLength := memory.available, memory.currentLength;
      }
    }

    /** The test that all attempts use, with `more` sequences to join. */
    method Test(more: nat) returns (fits: bool)
      ensures fits <==> Admissible(cfg, Accumulated().Plus(Load(0, 0, more)), available, currentLength)
    {
      fits := CanPrefill(cfg, numPrefill + more, totalInputLength, totalRequiredPages, available, currentLength, |running|);
      CanPrefillIsAdmissible(cfg, numPrefill + more, totalInputLength, totalRequiredPages, available, currentLength, |running|);
    }

    /** Attempt 1 with advanced accumulators: the most children that can be activated, or -1. */
    method MostChildren(numChildren: nat) returns (c: int)
      requires Fresh()
      modifies memory, this`available, this`currentLength
      ensures Fresh() && available >= old(available)
      ensures currentLength <= old(currentLength)
      ensures -1 <= c <= numChildren
      ensures Settled() && memory.Read() == Evicted(cfg, Accumulated(), old(memory.Read()))
      ensures c >= 0 ==> Admissible(cfg, Accumulated().Plus(Load(0, 0, 1 + c)), available, currentLength)
      ensures c < numChildren ==> !Admissible(cfg, Accumulated().Plus(Load(0, 0, 2 + c)), available, currentLength)
    {
      c := numChildren;
      while c >= 0
        invariant Fresh() && available >= old(available) && currentLength <= old(currentLength)
        invariant -1 <= c <= numChildren
        invariant c < numChildren ==> Settled()
        invariant if c < numChildren then memory.Read() == Evicted(cfg, Accumulated(), old(memory.Read()))
                  else memory.Read() == old(memory.Read())
        invariant c < numChildren ==> !Admissible(cfg, Accumulated().Plus(Load(0, 0, 2 + c)), available, currentLength)
      {
        MakeSpace();
        var fits := Test(1 + c);
        if fits {
          return;
        }
        c := c - 1;
      }
    }

    ghost function Joined(r: nat, j: nat, length: nat, children: nat): Load
      requires cfg.Valid() && QueueOk(queue) && r < |queue| && j < |queue[r].entries|
      reads this
    {
      Accumulated().Plus(LoadOf(cfg, queue, PrefillInput(r, j, length, children)))
    }

    /** The memory after what is evicted for the whole entry. */
    ghost function AfterEviction(r: nat, j: nat): Reading
      requires cfg.Valid() && QueueOk(queue) && r < |queue| && j < |queue[r].entries|
      reads this, memory
    {
      var length := queue[r].entries[j].inputLength;
      Evicted(cfg, Accumulated().Plus(Load(length, RequiredPages(cfg, queue[r].entries, j, length), 0)), memory.Read())
    }

    method TryWhole(r: nat, j: nat) returns (ok: bool, ghost c: nat)
      requires Valid() && r < |queue| && j < |queue[r].entries|
      modifies this, memory
      ensures Valid() && available >= old(available)
      ensures currentLength <= old(currentLength)
      ensures ok ==> c <= queue[r].entries[j].numChildren
      ensures ok ==> batch == old(batch) + [PrefillInput(r, j, queue[r].entries[j].inputLength, c)]
      ensures ok ==> Admissible(cfg, old(Joined(r, j, queue[r].entries[j].inputLength, c)), available, currentLength)
      ensures ok && c < queue[r].entries[j].numChildren ==>
        !Admissible(cfg, old(Joined(r, j, queue[r].entries[j].inputLength, c + 1)), available, currentLength)
      ensures !ok ==> batch == old(batch) && Accumulated() == old(Accumulated())
      ensures !ok ==> !Admissible(cfg, Joined(r, j, queue[r].entries[j].inputLength, 0), available, currentLength)
      ensures !ok ==> Exhausted(cfg, queue, Accumulated(), r, j, available, currentLength, memory.recycling != [])
      ensures memory.Read() == old(AfterEviction(r, j))
    {
      var e := queue[r].entries[j];
      var pages := CountRequiredPages(cfg, queue[r].entries, j, e.inputLength);
      ghost var base, load, a0, c0 := Base(), Accumulated(), available, currentLength;
      var most := Attempt(e.inputLength, pages, e.numChildren);
      GoodLater(cfg, queue, base, batch, load, a0, c0, available, currentLength);
      ok := most >= 0;
      c := if ok then most else 0;
      if ok {
        Join(PrefillInput(r, j, e.inputLength, most), pages);
      }
    }

    /** Attempt 1: the accumulators are advanced, and undone if nothing fits. */
    method Attempt(length: nat, pages: nat, numChildren: nat) returns (c: int)
      requires Fresh()
      modifies this`totalInputLength, this`totalRequiredPages, this`available, this`currentLength, memory
      ensures Fresh() && available >= old(available)
      ensures currentLength <= old(currentLength)
      ensures -1 <= c <= numChildren
      ensures Accumulated() == old(Accumulated())
      ensures memory.Read() == Evicted(cfg, Accumulated().Plus(Load(length, pages, 0)), old(memory.Read()))
      ensures memory.recycling == [] || SpaceFor(cfg, Accumulated().Plus(Load(length, pages, 0)), available, currentLength)
      ensures c >= 0 ==> Admissible(cfg, Accumulated().Plus(Load(length, pages, 1 + c)), available, currentLength)
      ensures c < numChildren ==> !Admissible(cfg, Accumulated().Plus(Load(length, pages, 2 + c)), available, currentLength)
    {
      ghost var load := Accumulated();
      totalInputLength, totalRequiredPages := totalInputLength + length, totalRequiredPages + pages;
      c := MostChildren(numChildren);
      ghost var with := load.Plus(Load(length, pages, 0));
      assert c >= 0 ==> with.Plus(Load(0, 0, 1 + c)) == load.Plus(Load(length, pages, 1 + c));
      assert with.Plus(Load(0, 0, 2 + c)) == load.Plus(Load(length, pages, 2 + c));
      totalInputLength, totalRequiredPages := totalInputLength - length, totalRequiredPages - pages;
    }

    method Join(x: PrefillInput, pages: nat)
      requires Valid() && Whole(queue, x)
      requires pages == RequiredPages(cfg, queue[x.request].entries, x.entry, x.length)
      requires Admissible(cfg, Accumulated().Plus(LoadOf(cfg, queue, x)), available, currentLength)
      modifies this
      ensures Valid() && batch == old(batch) + [x]
      ensures available == old(available)
      ensures currentLength == old(currentLength)
    {
      GoodGrows(cfg, queue, Base(), batch, Accumulated(), x, available, currentLength);
      batch := batch + [x];
      totalInputLength, totalRequiredPages := totalInputLength + x.length, totalRequiredPages + pages;
      numPrefill := numPrefill + 1 + x.children;
    }

    /** Attempt 2: an entry that does not fit whole is cut to fill the chunk.  Whatever comes
        of it, the step stops here. */
    method TryCut(r: nat, j: nat)
      requires Valid() && r < |queue| && j < |queue[r].entries|
      requires cfg.kind == KvCache
      requires Exhausted(cfg, queue, Accumulated(), r, j, available, currentLength, memory.recycling != [])
      modifies this
      ensures Fresh() && available == old(available)
      ensures currentLength == old(currentLength)
      ensures old(!Admissible(cfg, Joined(r, j, queue[r].entries[j].inputLength, 0), available, currentLength)) ==>
        CutOrRefused(cfg, queue, old(Accumulated()), old(batch), r, j, batch, available, currentLength, memory.recycling != [])
    {
      ghost var load := Accumulated();
      var e := queue[r].entries[j];
      assert totalInputLength <= cfg.prefillChunkSize;
      if cfg.prefillChunkSize - totalInputLength >= e.inputLength || cfg.prefillChunkSize == totalInputLength {
        return;
      }
      var length := cfg.prefillChunkSize - totalInputLength;
      var pages := CountRequiredPages(cfg, queue[r].entries, j, length);
      totalInputLength, totalRequiredPages := totalInputLength + length, totalRequiredPages + pages;
      var fits := Test(1);
      assert Accumulated().Plus(Load(0, 0, 1)) == load.Plus(LoadOf(cfg, queue, PrefillInput(r, j, length, 0)));
      if fits {
        batch := batch + [PrefillInput(r, j, length, 0)];
      }
    }

    ghost predicate Done()
      reads this, memory
    {
      QueueOk(queue) && Outcome(cfg, queue, Base(), batch, Candidates(queue), available, currentLength, memory.recycling != [])
    }

    /** One candidate. */
    method Visit(r: nat, j: nat) returns (stops: bool)
      requires Valid() && r < |queue| && j < |queue[r].entries|
      requires !queue[r].disaggregated && CanStart(queue[r].entries, j) && Keys(batch) == Seen(queue, r, j)
      modifies this, memory
      ensures Fresh() && available >= old(available)
      ensures currentLength <= old(currentLength)
      ensures stops ==> Done()
      ensures !stops ==> Valid() && Keys(batch) == Seen(queue, r, j + 1)
    {
      NextCandidate(queue, r, j);
      ghost var before := batch;
      var whole, c := TryWhole(r, j);
      if whole {
        KeysGrow(before, PrefillInput(r, j, queue[r].entries[j].inputLength, c));
        return false;
      }
      ghost var load, a0, c0 := Accumulated(), available, currentLength;
      TryCut(r, j);
      StoppedAt(cfg, queue, Base(), before, load, r, j, batch, Candidates(queue), available, currentLength,
                memory.recycling != []);
      return true;
    }

    method VisitIfStarting(r: nat, j: nat) returns (stops: bool)
      requires Valid() && r < |queue| && j < |queue[r].entries|
      requires !queue[r].disaggregated && Keys(batch) == Seen(queue, r, j)
      modifies this, memory
      ensures Fresh() && available >= old(available)
      ensures currentLength <= old(currentLength)
      ensures if stops then Done() else Valid() && Keys(batch) == Seen(queue, r, j + 1)
    {
      stops := false;
      if CanStart(queue[r].entries, j) {
        stops := Visit(r, j);
      }
    }

    /** The entries of one request. */
    method VisitRequest(r: nat) returns (stops: bool)
      requires Valid() && r < |queue| && !queue[r].disaggregated && Keys(batch) == Seen(queue, r, 0)
      modifies this, memory
      ensures Fresh() && available >= old(available)
      ensures currentLength <= old(currentLength)
      ensures stops ==> Done()
      ensures !stops ==> Valid() && Keys(batch) == Seen(queue, r + 1, 0)
    {
      var j := 0;
      stops := false;
      while j < |queue[r].entries| && !stops
        invariant Fresh() && available >= old(available) && currentLength <= old(currentLength)
        invariant 0 <= j <= |queue[r].entries|
        invariant if stops then Done() else Valid() && Keys(batch) == Seen(queue, r, j)
        decreases |queue[r].entries| - j
      {
        stops := VisitIfStarting(r, j);
        j := j + 1;
      }
    }

    method VisitUnlessDisaggregated(r: nat) returns (stops: bool)
      requires Valid() && r < |queue| && Keys(batch) == Seen(queue, r, 0)
      modifies this, memory
      ensures Fresh() && available >= old(available)
      ensures currentLength <= old(currentLength)
      ensures stops ==> Done()
      ensures !stops ==> Valid() && Keys(batch) == Seen(queue, r + 1, 0)
    {
      if queue[r].disaggregated {
        DisaggregatedIsSkipped(queue, r, |queue[r].entries|);
        return false;
      }
      stops := VisitRequest(r);
    }

    method VisitAll()
      requires Valid() && batch == []
      modifies this, memory
      ensures Fresh() && available >= old(available)
      ensures currentLength <= old(currentLength)
      ensures cfg.Valid() && QueueOk(queue) && Done()
    {
      var r, stops := 0, false;
      while r < |queue| && !stops
        invariant Fresh() && available >= old(available) && currentLength <= old(currentLength)
        invariant 0 <= r <= |queue| && (if stops then Done() else Valid() && Keys(batch) == Seen(queue, r, 0))
        decreases |queue| - r
      {
        stops := VisitUnlessDisaggregated(r);
        r := r + 1;
      }
      if !stops {
        AllAdmitted(cfg, queue, Base(), batch, Accumulated(), available, currentLength, memory.recycling != []);
      }
    }
  }

  // ----- pages in terms of tokens -------------------------------------------------------------

  /** Without a sliding window the pages of a batch hold its tokens, and less than a page per
      entry is left over. */
  lemma {:induction false} PagesHoldTokens(cfg: Config, queue: seq<Request>, base: Load, batch: seq<PrefillInput>, n: nat)
    requires cfg.Valid() && QueueOk(queue) && cfg.slidingWindowSize == -1 && n <= |batch|
    requires forall i :: 0 <= i < |batch| ==> InQueue(queue, batch[i])
    ensures var load := LoadUpTo(cfg, queue, base, batch, n);
      && load.tokens - base.tokens <= (load.pages - base.pages) * cfg.pageSize
      && (load.pages - base.pages) * cfg.pageSize <= load.tokens - base.tokens + n * (cfg.pageSize - 1)
      && load.sequences >= base.sequences + n
  {
    if n > 0 {
      PagesHoldTokens(cfg, queue, base, batch, n - 1);
      var before, length := LoadUpTo(cfg, queue, base, batch, n - 1), batch[n - 1].length;
      PagesForBounds(length, cfg.pageSize);
      MorePages(before.pages - base.pages, PagesFor(length, cfg.pageSize), before.tokens - base.tokens, length, n, cfg.pageSize);
    }
  }

  lemma MorePages(pages: int, more: nat, tokens: int, length: nat, n: nat, size: nat)
    requires tokens <= pages * size <= tokens + (n - 1) * (size - 1)
    requires length <= more * size && (more > 0 ==> (more - 1) * size < length)
    requires n > 0 && size > 0
    ensures tokens + length <= (pages + more) * size <= tokens + length + n * (size - 1)
  {
    assert (pages + more) * size == pages * size + more * size;
    assert n * (size - 1) == (n - 1) * (size - 1) + (size - 1);
    if more > 0 {
      assert more * size == (more - 1) * size + size;
    } else {
      assert more * size == 0;
    }
  }

  /** The admitted tokens fit into the pages that remain when every running entry takes one and
      one is spared for every sequence. */
  lemma AdmittedTokensFit(cfg: Config, queue: seq<Request>, base: Load, batch: seq<PrefillInput>, candidates: seq<(nat, nat)>,
                          available: int, currentLength: int, left: bool)
    requires Outcome(cfg, queue, base, batch, candidates, available, currentLength, left) && batch != []
    requires cfg.kind == KvCache && cfg.slidingWindowSize == -1
    ensures var load := BatchLoad(cfg, queue, base, batch);
      && load.sequences >= base.sequences + |batch|
      && load.tokens - base.tokens <= (available - base.pages - load.sequences) * cfg.pageSize
  {
    PagesHoldTokens(cfg, queue, base, batch, |batch|);
    var load := BatchLoad(cfg, queue, base, batch);
    MoreFactor(available - load.sequences - base.pages, load.pages - base.pages, cfg.pageSize);
  }

  /** In hybrid mode every running entry follows the prefill inputs, with its pending tokens. */
  datatype BatchInput = Prefill(input: PrefillInput) | Decode(running: nat, length: nat)

  /** The batch, and behind it in hybrid mode every running entry. */
  ghost predicate FollowedBy(inputs: seq<BatchInput>, batch: seq<PrefillInput>, running: seq<nat>) {
    && |inputs| == |batch| + |running|
    && (forall i :: 0 <= i < |batch| ==> inputs[i] == Prefill(batch[i]))
    && (forall i :: 0 <= i < |running| ==> inputs[|batch| + i] == Decode(i, running[i]))
  }

  method WithDecodes(batch: seq<PrefillInput>, running: seq<nat>) returns (inputs: seq<BatchInput>)
    ensures FollowedBy(inputs, batch, running)
  {
    inputs := seq(|batch|, i requires 0 <= i < |batch| => Prefill(batch[i]));
    for i := 0 to |running|
      invariant FollowedBy(inputs, batch, running[..i])
    {
      inputs := inputs + [Decode(i, running[i])];
    }
    assert running[..|running|] == running;
  }

  /** One step's choice.  Nothing is chosen when even decoding the running entries cannot be
      done. */
  method GetRequestStateEntriesToPrefill(cfg: Config, queue: seq<Request>, running: seq<nat>, memory: Memory)
    returns (inputs: seq<BatchInput>, ghost batch: seq<PrefillInput>)
    requires cfg.Valid() && QueueOk(queue) && |running| <= cfg.maxNumSequence
    requires Sum(running) <= cfg.prefillChunkSize
    modifies memory
    ensures memory.available >= old(memory.available)
    ensures memory.currentLength <= old(memory.currentLength)
    ensures FollowedBy(inputs, batch, if cfg.hybrid && batch != [] then running else [])
    ensures |running| > old(memory.available) ==> batch == []
    ensures |running| <= old(memory.available) ==>
      Outcome(cfg, queue, Load(Sum(running), |running|, |running|), batch, Candidates(queue),
              memory.available, memory.currentLength, memory.recycling != [])
  {
    batch := [];
    if |running| > memory.available {
      return [], [];
    }
    if queue == [] {
      return [], [];
    }
    var admission := new Admission(cfg, queue, running, memory);
    admission.VisitAll();
    batch := admission.batch;
    inputs := WithDecodes(admission.batch, if cfg.hybrid && admission.batch != [] then running else []);
  }

  /** Eviction stops before the sequence of the entry itself is counted.  When it stops because
      there is space, an entry within the chunk and the sequence limits is still refused if and
      only if its own sequence lacks its one page or its eight tokens. */
  lemma RefusedWithSpaceIff(cfg: Config, load: Load, length: nat, pages: nat, m: Reading)
    requires cfg.kind == KvCache && SpaceFor(cfg, load.Plus(Load(length, pages, 0)), m.available, m.currentLength)
    requires load.tokens + length <= cfg.prefillChunkSize
    requires (load.sequences + 1) * cfg.SpecFactor() <= cfg.maxNumSequence
    requires (load.sequences + 1) * cfg.SpecFactor() <= cfg.prefillChunkSize
    ensures Evicted(cfg, load.Plus(Load(length, pages, 0)), m) == m
    ensures !Admissible(cfg, load.Plus(Load(length, pages, 1)), m.available, m.currentLength) <==>
              && cfg.slidingWindowSize == -1
              && (|| load.pages + pages + load.sequences == m.available
                  || m.currentLength + load.tokens + length + 8 * load.sequences > cfg.maxTotalSequenceLength - 8)
  {}

  /** An entry of one token that is refused for want of one page, although evicting the one
      recycling sequence would admit it. */
  lemma RefusedThoughEvictable(cfg: Config, queue: seq<Request>)
    requires cfg == Config(2048, 4, 1000, 16, false, 0, -1, KvCache, false)
    requires queue == [Request(false, [Entry(true, 1, -1, true, 0, 0)])]
    ensures cfg.Valid() && QueueOk(queue) && CanStart(queue[0].entries, 0)
    ensures LoadOf(cfg, queue, PrefillInput(0, 0, 1, 0)) == Load(1, 1, 1)
    ensures Evicted(cfg, Load(1, 1, 0), Reading(1, 80, [(5, 80)])) == Reading(1, 80, [(5, 80)])
    ensures !Admissible(cfg, Load(1, 1, 1), 1, 80)
    ensures Admissible(cfg, Load(1, 1, 1), 1 + 5, 80 - 80)
  {}

  lemma BatchGrows(cfg: Config, queue: seq<Request>, base: Load, batch: seq<PrefillInput>, x: PrefillInput)
    requires cfg.Valid() && QueueOk(queue) && InQueue(queue, x)
    requires forall i :: 0 <= i < |batch| ==> InQueue(queue, batch[i])
    ensures BatchLoad(cfg, queue, base, batch + [x]) == BatchLoad(cfg, queue, base, batch).Plus(LoadOf(cfg, queue, x))
  {
    LoadOfPrefix(cfg, queue, base, batch, x, |batch|);
  }

  lemma {:induction false} LoadOfPrefix(cfg: Config, queue: seq<Request>, base: Load, batch: seq<PrefillInput>, x: PrefillInput, n: nat)
    requires cfg.Valid() && QueueOk(queue) && InQueue(queue, x) && n <= |batch|
    requires forall i :: 0 <= i < |batch| ==> InQueue(queue, batch[i])
    ensures LoadUpTo(cfg, queue, base, batch + [x], n) == LoadUpTo(cfg, queue, base, batch, n)
  {
    if n > 0 {
      LoadOfPrefix(cfg, queue, base, batch, x, n - 1);
    }
  }
}
