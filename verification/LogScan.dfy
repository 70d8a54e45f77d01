/** Reading the logs of a block range from a node that may refuse any request: chunk, then halve on failure. */
module LogScan {
  import opened Wrappers
  import opened BlockRanges

  /** message is None when the event data does not decode. */
  datatype Log = Log(blockNumber: nat, transactionHash: string, index: nat, message: Option<string>)

  function LogBlock(): Log -> int { (l: Log) => l.blockNumber }

  /** What one direct request for the range would return. */
  function LogsIn(chain: seq<Log>, from: int, to: int): seq<Log> { Within(chain, LogBlock(), from, to) }

  ghost predicate Ordered(chain: seq<Log>) { InBlockOrder(chain, LogBlock()) }

  lemma LogsInRange(chain: seq<Log>, from: int, to: int)
    ensures forall l :: l in LogsIn(chain, from, to) <==> l in chain && from <= l.blockNumber <= to
  {
    WithinIsFilter(chain, LogBlock(), from, to);
    forall l | l in chain && from <= l.blockNumber <= to ensures l in LogsIn(chain, from, to) {
      var i :| 0 <= i < |chain| && chain[i] == l;
      assert from <= LogBlock()(chain[i]) <= to;
    }
    forall l | l in LogsIn(chain, from, to) ensures l in chain && from <= l.blockNumber <= to {
      var i :| 0 <= i < |LogsIn(chain, from, to)| && LogsIn(chain, from, to)[i] == l;
      assert from <= LogBlock()(LogsIn(chain, from, to)[i]) <= to;
    }
  }

  // ----- the node -----

  datatype Call = Call(from: int, to: int, ok: bool)

  /** The ranges of the calls that were answered. */
  function Answered(calls: seq<Call>): seq<(int, int)> {
    if calls == [] then []
    else Answered(calls[..|calls| - 1])
         + if calls[|calls| - 1].ok then [(calls[|calls| - 1].from, calls[|calls| - 1].to)] else []
  }

  lemma {:induction false} AnsweredJoin(a: seq<Call>, b: seq<Call>)
    ensures Answered(a + b) == Answered(a) + Answered(b)
  {
    if b == [] {
      assert a + b == a;
    } else {
      AnsweredJoin(a, b[..|b| - 1]);
      assert (a + b)[..|a + b| - 1] == a + b[..|b| - 1];
    }
  }

  /** Non-empty ranges, back to back from the first block to the last. */
  ghost predicate Tiles(ranges: seq<(int, int)>, from: int, to: int) {
    if ranges == [] then from == to + 1
    else
      var last := ranges[|ranges| - 1];
      last.0 <= last.1 && last.1 == to && Tiles(ranges[..|ranges| - 1], from, last.0 - 1)
  }

  lemma {:induction false} TilesJoin(a: seq<(int, int)>, b: seq<(int, int)>, from: int, mid: int, to: int)
    requires Tiles(a, from, mid) && Tiles(b, mid + 1, to)
    ensures Tiles(a + b, from, to)
  {
    if b == [] {
      assert a + b == a;
    } else {
      var last := b[|b| - 1];
      TilesJoin(a, b[..|b| - 1], from, mid, last.0 - 1);
      assert (a + b)[..|a + b| - 1] == a + b[..|b| - 1];
    }
  }

  /** Each block of a tiled range is in exactly one of the ranges. */
  lemma {:induction false} EachBlockOnce(ranges: seq<(int, int)>, from: int, to: int, block: int)
    requires Tiles(ranges, from, to)
    ensures from <= to + 1
    ensures from <= block <= to <==> exists i :: 0 <= i < |ranges| && ranges[i].0 <= block <= ranges[i].1
    ensures forall i, j :: 0 <= i < j < |ranges| ==> ranges[i].1 < ranges[j].0
    ensures forall i :: 0 <= i < |ranges| ==> from <= ranges[i].0 <= ranges[i].1 <= to
  {
    if ranges != [] {
      var init, last := ranges[..|ranges| - 1], ranges[|ranges| - 1];
      EachBlockOnce(init, from, last.0 - 1, block);
      assert forall i :: 0 <= i < |init| ==> ranges[i] == init[i];
      if from <= block < last.0 {
        var i :| 0 <= i < |init| && init[i].0 <= block <= init[i].1;
        assert ranges[i].0 <= block <= ranges[i].1;
      }
      assert last == ranges[|ranges| - 1];
    }
  }

  lemma OneCall(from: int, to: int, ok: bool)
    requires from <= to
    ensures Answered([Call(from, to, ok)]) == if ok then [(from, to)] else []
    ensures ok ==> Tiles(Answered([Call(from, to, ok)]), from, to)
  {
    var made := [Call(from, to, ok)];
    assert made[..0] == [] && Answered(made[..0]) == [];
    var tile := [(from, to)];
    assert tile[..0] == [] && Tiles(tile[..0], from, from - 1);
  }

  /** A node may fail on any call; an answer holds exactly the logs of the range. */
  class ScanProvider {
    const chain: seq<Log>
    ghost var calls: seq<Call>

    constructor (chain: seq<Log>)
      ensures this.chain == chain && calls == []
    {
      this.chain := chain;
      calls := [];
    }

    method GetLogs(from: int, to: int) returns (r: Result<seq<Log>, string>)
      modifies this`calls
      ensures calls == old(calls) + [Call(from, to, r.Ok?)]
      ensures r.Ok? ==> r.value == LogsIn(chain, from, to)
    {
      var answers: bool := *;
      calls := calls + [Call(from, to, answers)];
      r := if answers then Ok(LogsIn(chain, from, to)) else Err("provider error");
    }
  }

  predicate RefusedBlock(c: Call, from: int, to: int) { !c.ok && c.from == c.to && from <= c.from <= to }

  /** What a scan of [from, to] did: the calls it made and what it may return. */
  ghost predicate Scanned(chain: seq<Log>, from: int, to: int, made: seq<Call>, r: Result<seq<Log>, string>) {
    && (r.Ok? ==> r.value == LogsIn(chain, from, to) && Tiles(Answered(made), from, to))
    && (r.Err? ==> made != [] && RefusedBlock(made[|made| - 1], from, to))
  }

  /** A refused call followed by two answered halves: every block answered once, and the logs of the whole. */
  lemma HalvesJoin(chain: seq<Log>, lo: int, mid: int, hi: int, left: seq<Call>, right: seq<Call>)
    requires Ordered(chain) && lo <= mid < hi
    requires Tiles(Answered(left), lo, mid) && Tiles(Answered(right), mid + 1, hi)
    ensures Tiles(Answered([Call(lo, hi, false)] + left + right), lo, hi)
    ensures LogsIn(chain, lo, mid) + LogsIn(chain, mid + 1, hi) == LogsIn(chain, lo, hi)
  {
    var first := [Call(lo, hi, false)];
    OneCall(lo, hi, false);
    AnsweredJoin(first, left);
    AnsweredJoin(first + left, right);
    assert Answered(first + left + right) == Answered(left) + Answered(right);
    TilesJoin(Answered(left), Answered(right), lo, mid, hi);
    RangesJoin(chain, LogBlock(), lo, mid, hi);
  }

  /**
   * Either the logs of the range, every block of it answered exactly once, or an error after a single block
   * was refused; never more than 2n - 1 calls for n blocks.
   */
  method BisectingGetLogs(provider: ScanProvider, fromBlock: int, toBlock: int)
    returns (r: Result<seq<Log>, string>, ghost made: seq<Call>)
    requires fromBlock <= toBlock && Ordered(provider.chain)
    modifies provider`calls
    ensures provider.calls == old(provider.calls) + made
    ensures Scanned(provider.chain, fromBlock, toBlock, made, r)
    ensures |made| <= 2 * (toBlock - fromBlock + 1) - 1
    decreases toBlock - fromBlock
  {
    var first := provider.GetLogs(fromBlock, toBlock);
    made := [Call(fromBlock, toBlock, first.Ok?)];
    if first.Ok? {
      OneCall(fromBlock, toBlock, true);
      return first, made;
    }
    OneCall(fromBlock, toBlock, false);
    if fromBlock >= toBlock {
      return first, made;
    }
    var mid := (fromBlock + toBlock) / 2;
    assert fromBlock <= mid < toBlock;
    var left, leftMade := BisectingGetLogs(provider, fromBlock, mid);
    ghost var madeLeft := made + leftMade;
    if left.Err? {
      return left, madeLeft;
    }
    var right, rightMade := BisectingGetLogs(provider, mid + 1, toBlock);
    made := madeLeft + rightMade;
    if right.Err? {
      return right, made;
    }
    HalvesJoin(provider.chain, fromBlock, mid, toBlock, leftMade, rightMade);
    r := Ok(left.value + right.value);
  }

  /** The chunked scan refines one direct scan of the whole range. */
  method GetLogsChunked(provider: ScanProvider, fromBlock: int, toBlock: int, chunkSize: nat)
    returns (r: Result<seq<Log>, string>, ghost made: seq<Call>)
    requires chunkSize >= 1 && fromBlock <= toBlock + 1 && Ordered(provider.chain)
    modifies provider`calls
    ensures provider.calls == old(provider.calls) + made
    ensures Scanned(provider.chain, fromBlock, toBlock, made, r)
    ensures |made| <= 2 * (toBlock - fromBlock + 1)
  {
    var out: seq<Log> := [];
    var start := fromBlock;
    made := [];
    EmptyRange(provider.chain, LogBlock(), fromBlock);
    while start <= toBlock
      invariant fromBlock <= start <= toBlock + 1
      invariant provider.calls == old(provider.calls) + made
      invariant out == LogsIn(provider.chain, fromBlock, start - 1) && Tiles(Answered(made), fromBlock, start - 1)
      invariant |made| <= 2 * (start - fromBlock)
    {
      var end := Min(start + chunkSize - 1, toBlock);
      var chunk, chunkMade := BisectingGetLogs(provider, start, end);
      ghost var before := made;
      made := made + chunkMade;
      if chunk.Err? {
        return chunk, made;
      }
      AnsweredJoin(before, chunkMade);
      TilesJoin(Answered(before), Answered(chunkMade), fromBlock, start - 1, end);
      RangesJoin(provider.chain, LogBlock(), fromBlock, start - 1, end);
      out := out + chunk.value;
      start := end + 1;
    }
    r := Ok(out);
  }
}
