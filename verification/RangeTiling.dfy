/**
  Ranges cut into pieces: the request windows of the exchange-rate crawl with their batches, and the
  block ranges of the sale scan, a workflow that restarts itself.
 */
module RangeTiling {
  import opened Options

  // ---- exchange-rate windows ----

  const GRANULARITY := 60
  const MAX_CANDLES_PER_REQUEST := 300
  const CHUNK_SIZE := 25
  const WINDOW := MAX_CANDLES_PER_REQUEST * GRANULARITY

  datatype RequestChunk = RequestChunk(currencyPair: string, startTime: int, endTime: int)

  datatype Window = Window(start: int, end: int)

  /** From the start in steps of a window length; the last window is cut at the end. */
  function Windows(start: int, end: int): seq<Window>
    decreases end - start
  {
    if start >= end then []
    else [Window(start, if start + WINDOW > end then end else start + WINDOW)] + Windows(start + WINDOW, end)
  }

  lemma {:induction false} WindowAt(start: int, end: int, i: nat)
    ensures i < |Windows(start, end)| <==> start + i * WINDOW < end
    ensures i < |Windows(start, end)| ==> Windows(start, end)[i].start == start + i * WINDOW
    ensures i < |Windows(start, end)| ==>
      Windows(start, end)[i].end == if start + (i + 1) * WINDOW > end then end else start + (i + 1) * WINDOW
    decreases i
  {
    if i > 0 && start < end { WindowAt(start + WINDOW, end, i - 1); }
  }

  /** The windows join end to start from the start to the end, each nonempty and at most 18000 s, and a moment lies in exactly one. */
  lemma WindowsTile(start: int, end: int, i: nat, t: int)
    requires start <= t < end && i < |Windows(start, end)|
    ensures var ws := Windows(start, end);
            && 0 < ws[i].end - ws[i].start <= 18000
            && (i + 1 < |ws| ==> ws[i].end - ws[i].start == 18000)
            && ws[0].start == start && ws[|ws| - 1].end == end
            && (i + 1 < |ws| ==> ws[i].end == ws[i + 1].start)
            && 0 <= (t - start) / WINDOW < |ws|
            && (ws[i].start <= t < ws[i].end <==> i == (t - start) / WINDOW)
  {
    var n := |Windows(start, end)|;
    WindowAt(start, end, 0);
    WindowAt(start, end, i);
    WindowAt(start, end, i + 1);
    WindowAt(start, end, n - 1);
    WindowAt(start, end, n);
    WindowAt(start, end, (t - start) / WINDOW);
  }

  function ForWindow(pairs: seq<string>, w: Window): (r: seq<RequestChunk>)
    ensures |r| == |pairs|
  {
    seq(|pairs|, i requires 0 <= i < |pairs| => RequestChunk(pairs[i], w.start, w.end))
  }

  /** Every pair in every window, window by window. */
  function Requests(pairs: seq<string>, ws: seq<Window>): seq<RequestChunk> {
    if ws == [] then [] else Requests(pairs, ws[..|ws| - 1]) + ForWindow(pairs, ws[|ws| - 1])
  }

  /** In the order of the requests, every pair is asked for in every window: request i·|pairs| + j is pair j in window i. */
  lemma {:induction false} RequestsAre(pairs: seq<string>, ws: seq<Window>, i: nat, j: nat)
    requires i < |ws| && j < |pairs|
    ensures |Requests(pairs, ws)| == |ws| * |pairs| && 0 <= i * |pairs| + j < |Requests(pairs, ws)|
    ensures var r := Requests(pairs, ws)[i * |pairs| + j]; r.currencyPair == pairs[j] && r.startTime == ws[i].start && r.endTime == ws[i].end
  {
    var n := |ws| - 1;
    RequestsLength(pairs, ws);
    RequestsLength(pairs, ws[..n]);
    IndexBelow(i, n, j, |pairs|);
    if i < n {
      RequestsAre(pairs, ws[..n], i, j);
    }
  }

  lemma {:induction false} RequestsLength(pairs: seq<string>, ws: seq<Window>)
    ensures |Requests(pairs, ws)| == |ws| * |pairs|
  {
    if ws != [] {
      var n := |ws| - 1;
      RequestsLength(pairs, ws[..n]);
      assert (n + 1) * |pairs| == n * |pairs| + |pairs|;
    }
  }

  lemma IndexBelow(i: nat, n: nat, j: nat, m: nat)
    requires i <= n && j < m
    ensures 0 <= i * m + j < (n + 1) * m
    ensures i < n ==> i * m + j < n * m
  {
    assert (n - i) * m == n * m - i * m;
    if i < n {
      assert (n - i) * m == (n - i - 1) * m + m;
      assert (n - i - 1) * m >= 0;
    }
    assert (n + 1) * m == n * m + m;
  }

  function Flatten(chunks: seq<seq<RequestChunk>>): seq<RequestChunk> {
    if chunks == [] then [] else Flatten(chunks[..|chunks| - 1]) + chunks[|chunks| - 1]
  }

  const SUPPORTED_CURRENCY_PAIRS := {"ETH-USD", "XTZ-USD"}

  /** The batches of a crawl: in order they are the requests, and all are full but the last, which is not empty. */
  ghost predicate IsBatching(chunks: seq<seq<RequestChunk>>, requests: seq<RequestChunk>) {
    && Flatten(chunks) == requests
    && (forall i :: 0 <= i < |chunks| - 1 ==> |chunks[i]| == 25)
    && (chunks != [] ==> 0 < |chunks[|chunks| - 1]| <= 25)
  }

  /** Appends requests, closing a batch whenever it is full. */
  method AddRequests(chunks: seq<seq<RequestChunk>>, batch: seq<RequestChunk>, requests: seq<RequestChunk>)
    returns (chunks': seq<seq<RequestChunk>>, batch': seq<RequestChunk>)
    requires |batch| < CHUNK_SIZE && forall i :: 0 <= i < |chunks| ==> |chunks[i]| == CHUNK_SIZE
    ensures |batch'| < CHUNK_SIZE && forall i :: 0 <= i < |chunks'| ==> |chunks'[i]| == CHUNK_SIZE
    ensures Flatten(chunks') + batch' == Flatten(chunks) + batch + requests
  {
    chunks', batch' := chunks, batch;
    for i := 0 to |requests|
      invariant |batch'| < CHUNK_SIZE && forall j :: 0 <= j < |chunks'| ==> |chunks'[j]| == CHUNK_SIZE
      invariant Flatten(chunks') + batch' == Flatten(chunks) + batch + requests[..i]
    {
      ghost var done := Flatten(chunks') + batch';
      batch' := batch' + [requests[i]];
      assert Flatten(chunks') + batch' == done + [requests[i]];
      assert requests[..i + 1] == requests[..i] + [requests[i]];
      if |batch'| == CHUNK_SIZE {
        assert (chunks' + [batch'])[..|chunks'|] == chunks';
        chunks', batch' := chunks' + [batch'], [];
        assert Flatten(chunks') + batch' == done + [requests[i]];
      }
      assert done + [requests[i]] == Flatten(chunks) + batch + requests[..i + 1];
    }
    assert requests[..|requests|] == requests;
  }

  lemma OneMoreWindow(pairs: seq<string>, ws: seq<Window>, w: Window)
    ensures Requests(pairs, ws + [w]) == Requests(pairs, ws) + ForWindow(pairs, w)
  {
    assert (ws + [w])[..|ws|] == ws;
  }

  lemma LastBatch(chunks: seq<seq<RequestChunk>>, batch: seq<RequestChunk>)
    requires |batch| < CHUNK_SIZE && forall j :: 0 <= j < |chunks| ==> |chunks[j]| == CHUNK_SIZE
    ensures IsBatching(if batch != [] then chunks + [batch] else chunks, Flatten(chunks) + batch)
  {
    assert (chunks + [batch])[..|chunks|] == chunks;
  }

  /** The batches of a range. */
  method Batches(currencyPairs: seq<string>, start: int, end: int) returns (chunks: seq<seq<RequestChunk>>)
    ensures IsBatching(chunks, Requests(currencyPairs, Windows(start, end)))
  {
    chunks := [];
    var batch: seq<RequestChunk> := [];
    var i := start;
    ghost var done: seq<Window> := [];
    while i < end
      invariant done + Windows(i, end) == Windows(start, end)
      invariant |batch| < CHUNK_SIZE && forall j :: 0 <= j < |chunks| ==> |chunks[j]| == CHUNK_SIZE
      invariant Flatten(chunks) + batch == Requests(currencyPairs, done)
      decreases end - i
    {
      var startTime, endTime := i, i + WINDOW;
      if endTime > end { endTime := end; }
      ghost var w := Window(startTime, endTime);
      OneMoreWindow(currencyPairs, done, w);
      assert Windows(i, end) == [w] + Windows(i + WINDOW, end);
      chunks, batch := AddRequests(chunks, batch, ForWindow(currencyPairs, Window(startTime, endTime)));
      i, done := i + WINDOW, done + [w];
    }
    assert done == Windows(start, end);
    LastBatch(chunks, batch);
    if |batch| > 0 { chunks := chunks + [batch]; }
  }

  /**
    The batches that a crawl runs one after the other. Without a range, the one from the last stored
    time to now is crawled; an unsupported pair or an empty range crawls nothing.
   */
  method CrawlHistoricalExchangeRate(currencyPairs: seq<string>, start: int, end: int, lastTime: int, now: int)
    returns (chunks: seq<seq<RequestChunk>>)
    ensures var from, to := if start == 0 && end == 0 then lastTime else start, if start == 0 && end == 0 then now else end;
            if from >= to || exists i :: 0 <= i < |currencyPairs| && currencyPairs[i] != "ETH-USD" && currencyPairs[i] != "XTZ-USD" then chunks == []
            else IsBatching(chunks, Requests(currencyPairs, Windows(from, to)))
  {
    for i := 0 to |currencyPairs|
      invariant forall j :: 0 <= j < i ==> currencyPairs[j] in SUPPORTED_CURRENCY_PAIRS
    {
      if currencyPairs[i] !in SUPPORTED_CURRENCY_PAIRS { return []; }
    }
    var from, to := start, end;
    if start == 0 && end == 0 { from, to := lastTime, now; }
    if from >= to { return []; }
    chunks := Batches(currencyPairs, from, to);
  }

  // ---- block ranges ----

  const TWO_TO_64 := 0x1_0000_0000_0000_0000

  datatype BlockRange = BlockRange(start: nat, end: nat)

  /** One execution of the workflow: what it queries, and where it restarts, if it does. */
  datatype Execution = Refused | InvalidRange | Indexed(queried: BlockRange, restart: Option<nat>)

  /** Block numbers are 64-bit and their sum wraps around. */
  function Plus(a: nat, b: nat): (r: nat)
    ensures a < TWO_TO_64 && b < TWO_TO_64 ==> r == (a + b) % TWO_TO_64
  {
    if a + b < TWO_TO_64 then a + b else a + b - TWO_TO_64
  }

  function Execute(first: nat, last: nat, batch: nat): Execution {
    if first > last then InvalidRange else
    var next := Plus(first, batch);
    var end := if next > last then last else next;
    Indexed(BlockRange(first, end), if end < last then Some(next) else None)
  }

  method IndexEthereumTokenSaleInBlockRange(fromBlk: nat, toBlk: nat, blkBatchSize: nat, skipIndexed: bool) returns (r: Execution)
    requires fromBlk < TWO_TO_64 && toBlk < TWO_TO_64 && blkBatchSize < TWO_TO_64
    ensures r == if skipIndexed then Execute(fromBlk, toBlk, blkBatchSize) else Refused
  {
    if !skipIndexed { return Refused; }
    if fromBlk > toBlk { return InvalidRange; }
    var startBlk := fromBlk;
    var endBlk := Plus(fromBlk, blkBatchSize);
    if endBlk > toBlk { endBlk := toBlk; }
    if endBlk < toBlk {
      return Indexed(BlockRange(startBlk, endBlk), Some(Plus(startBlk, blkBatchSize)));
    }
    r := Indexed(BlockRange(startBlk, endBlk), None);
  }

  /** How many executions a scan takes. */
  function Steps(first: nat, last: nat, batch: nat): nat
    requires batch > 0 || first >= last
    decreases last as int - first
  {
    if first + batch >= last then 1 else 1 + Steps(first + batch, last, batch)
  }

  /** Where the last step ends, before it is cut at the end of the range. */
  function Reach(first: nat, last: nat, batch: nat): nat
    requires batch > 0 || first >= last
    decreases last as int - first
  {
    if first + batch >= last then first + batch else Reach(first + batch, last, batch)
  }

  /** Whether the last step still lies in the 64-bit range. */
  predicate Fits(first: nat, last: nat, batch: nat) {
    (batch > 0 || first >= last) && Reach(first, last, batch) < TWO_TO_64
  }

  lemma {:induction false} ReachGrows(first: nat, last: nat, batch: nat)
    requires batch > 0 || first >= last
    ensures Reach(first, last, batch) >= first + batch
    decreases last as int - first
  {
    if first + batch < last { ReachGrows(first + batch, last, batch); }
  }

  /** The number of executions is the length of the range in batches, rounded up, and each of them steps one batch. */
  lemma {:induction false} StepsAre(first: nat, last: nat, batch: nat)
    requires first < last && batch > 0
    ensures Steps(first, last, batch) == (last - first - 1) / batch + 1
    ensures Reach(first, last, batch) == first + Steps(first, last, batch) * batch
    decreases last - first
  {
    if first + batch < last {
      StepsAre(first + batch, last, batch);
      OneStepMore(first, last, batch, Steps(first + batch, last, batch));
    } else {
      ShortRange(last - first - 1, batch);
      OneTimes(batch);
    }
  }

  lemma OneStepMore(first: nat, last: nat, batch: nat, n: nat)
    requires batch > 0 && first + batch < last && n == (last - (first + batch) - 1) / batch + 1
    ensures 1 + n == (last - first - 1) / batch + 1
    ensures first + batch + n * batch == first + (1 + n) * batch
  {
    DivStep(last - (first + batch) - 1, batch);
    assert last - (first + batch) - 1 + batch == last - first - 1;
    assert (1 + n) * batch == n * batch + batch;
  }

  lemma ShortRange(x: nat, b: nat)
    requires x < b
    ensures x / b == 0
  {
  }

  lemma OneTimes(b: nat)
    ensures 1 * b == b
  {
  }

  lemma DivStep(x: nat, b: nat)
    requires b > 0
    ensures (x + b) / b == x / b + 1
  {
    var q, r := x / b, x % b;
    assert x + b == (q + 1) * b + r;
    QuotientIs(x + b, b, q + 1, r);
  }

  lemma QuotientIs(x: nat, b: nat, q: nat, r: nat)
    requires b > 0 && x == q * b + r && r < b
    ensures x / b == q
  {
    var p := x / b;
    assert x == p * b + x % b;
    assert (q - p) * b == q * b - p * b;
    AtLeast(q - p, b);
    AtLeast(p - q, b);
    assert (p - q) * b == -((q - p) * b);
  }

  lemma AtLeast(n: int, b: nat)
    ensures n > 0 ==> n * b >= b
  {
    if n > 0 {
      assert n * b == (n - 1) * b + b;
      assert (n - 1) * b >= 0;
    }
  }

  /** All ranges queried by the workflow and its restarts. */
  function Scan(first: nat, last: nat, batch: nat): seq<BlockRange>
    requires first <= last && Fits(first, last, batch)
    decreases last - first
  {
    ReachGrows(first, last, batch);
    var e := Execute(first, last, batch);
    [e.queried] + if e.restart.Some? then Scan(e.restart.value, last, batch) else []
  }

  function Visits(ranges: seq<BlockRange>, block: nat): nat {
    if ranges == [] then 0
    else (if ranges[0].start <= block <= ranges[0].end then 1 else 0) + Visits(ranges[1..], block)
  }

  /** Whether the block is reached from the first one by steps of the batch size. */
  predicate IsBoundary(first: nat, batch: nat, block: nat)
    decreases block as int - first
  {
    batch > 0 && (block == first || (block > first && IsBoundary(first + batch, batch, block)))
  }

  /** The boundaries are the blocks whose distance from the first one divides by the batch size. */
  lemma {:induction false} BoundaryIff(first: nat, batch: nat, block: nat)
    requires batch > 0
    ensures IsBoundary(first, batch, block) <==> block >= first && (block - first) % batch == 0
    decreases block as int - first
  {
    if block >= first + batch {
      BoundaryIff(first + batch, batch, block);
      var x := block - first - batch;
      DivStep(x, batch);
      assert (x / batch + 1) * batch == (x / batch) * batch + batch;
      assert (x + batch) % batch == x % batch;
    } else if block > first {
      assert (block - first) % batch == block - first;
      assert !IsBoundary(first + batch, batch, block);
    }
  }

  function TimesVisited(first: nat, last: nat, batch: nat, block: nat): nat {
    if block < first || block > last then 0
    else if first < block < last && IsBoundary(first, batch, block) then 2
    else 1
  }

  lemma {:induction false} ScanVisits(first: nat, last: nat, batch: nat, block: nat)
    requires first <= last && Fits(first, last, batch)
    ensures Visits(Scan(first, last, batch), block) == TimesVisited(first, last, batch, block)
    decreases last - first
  {
    ReachGrows(first, last, batch);
    var e, scan := Execute(first, last, batch), Scan(first, last, batch);
    assert scan[0] == e.queried;
    assert IsBoundary(first, batch, block) <==> batch > 0 && (block == first || (block > first && IsBoundary(first + batch, batch, block)));
    if first + batch < last {
      ScanVisits(first + batch, last, batch, block);
      assert scan[1..] == Scan(first + batch, last, batch);
    } else {
      assert scan[1..] == [];
    }
  }

  /**
    The scan visits every block of the range and no other: twice an interior block whose distance from
    the first one divides by the batch size, every other block once.
   */
  lemma ScanCoversTheRange(first: nat, last: nat, batch: nat, block: nat)
    requires first <= last && Fits(first, last, batch)
    ensures Visits(Scan(first, last, batch), block) ==
            if block < first || block > last then 0
            else if first < block < last && (block - first) % batch == 0 then 2
            else 1
  {
    ScanVisits(first, last, batch, block);
    if batch > 0 { BoundaryIff(first, batch, block); }
  }

  /** Ranges that follow one another from the first block to the last, each at most one batch long. */
  predicate Chained(ranges: seq<BlockRange>, first: nat, last: nat, batch: nat) {
    && ranges != []
    && ranges[0].start == first && ranges[|ranges| - 1].end == last
    && (forall i :: 0 <= i < |ranges| ==> ranges[i].start <= ranges[i].end <= ranges[i].start + batch)
    && (forall i :: 0 <= i < |ranges| - 1 ==> ranges[i].end == ranges[i + 1].start)
  }

  lemma ChainedMore(r: BlockRange, ranges: seq<BlockRange>, last: nat, batch: nat)
    requires r.end == r.start + batch && Chained(ranges, r.end, last, batch)
    ensures Chained([r] + ranges, r.start, last, batch)
  {
    var all := [r] + ranges;
    forall i | 0 <= i < |all| - 1 ensures all[i].end == all[i + 1].start {
      if i > 0 { assert all[i] == ranges[i - 1] && all[i + 1] == ranges[i - 1 + 1]; }
    }
  }

  /** The scan takes the computed number of executions and its ranges follow one another. */
  lemma {:induction false} ScanRangesMeet(first: nat, last: nat, batch: nat)
    requires first <= last && Fits(first, last, batch)
    ensures |Scan(first, last, batch)| == Steps(first, last, batch)
    ensures Chained(Scan(first, last, batch), first, last, batch)
    decreases last - first
  {
    ReachGrows(first, last, batch);
    if first + batch < last {
      ScanRangesMeet(first + batch, last, batch);
      ChainedMore(BlockRange(first, first + batch), Scan(first + batch, last, batch), last, batch);
    }
  }

  /** Whether the workflow ends after the given number of executions, none of them querying a range backwards. */
  predicate EndsAfter(first: nat, last: nat, batch: nat, executions: nat)
    decreases executions
  {
    executions > 0 &&
    match Execute(first, last, batch)
      case Indexed(q, Some(next)) => q.end >= q.start && EndsAfter(next, last, batch, executions - 1)
      case Indexed(q, None) => q.end >= q.start && executions == 1
      case _ => false
  }

  /** A scan ends without ever querying a range backwards exactly when its last step fits in 64 bits; it then takes the computed number of executions. */
  lemma {:induction false} ScanEndsIff(first: nat, last: nat, batch: nat, executions: nat)
    requires first <= last < TWO_TO_64 && batch < TWO_TO_64
    ensures EndsAfter(first, last, batch, executions) <==> Fits(first, last, batch) && executions == Steps(first, last, batch)
    decreases executions
  {
    if executions > 0 && first + batch < last {
      ScanEndsIff(first + batch, last, batch, executions - 1);
    }
    if batch > 0 && first + batch < last { StepsArePositive(first + batch, last, batch); }
  }

  lemma StepsArePositive(first: nat, last: nat, batch: nat)
    requires batch > 0 || first >= last
    ensures Steps(first, last, batch) > 0
  {
  }

  /** Where the workflow stands after some restarts, if it has not ended before. */
  function StandsAt(first: nat, last: nat, batch: nat, restarts: nat): Option<nat>
    decreases restarts
  {
    if restarts == 0 then Some(first)
    else match Execute(first, last, batch)
      case Indexed(_, Some(next)) => StandsAt(next, last, batch, restarts - 1)
      case _ => None
  }

  /** An empty batch on a longer range stands still for ever. */
  lemma {:induction false} EmptyBatchStandsStill(first: nat, last: nat, restarts: nat)
    requires first < last < TWO_TO_64
    ensures StandsAt(first, last, 0, restarts) == Some(first)
  {
    if restarts > 0 { EmptyBatchStandsStill(first, last, restarts - 1); }
  }
}
